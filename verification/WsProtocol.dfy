/**
 The subscription protocol of ws/client.go as a state machine. Every critical section under the
 client's mutex, and every action between two of them, is one atomic step of the read loop, of a
 subscribing caller, of an unsubscribing caller or of the thread that runs Close; steps of different
 threads interleave freely. Frames, write failures and cancelled contexts arrive at any time.
 */
module WsProtocol {
  import opened Wire

  /** What the mutex guards. Requests are named by their ids; None is Go's nil map. */
  datatype Shared = Shared(closed: bool, nextReq: nat, pending: Option<set<nat>>, subs: Option<map<nat, nat>>)

  /**
   What a reply frame carries: an error, whose message may be empty, a result that is no subscription
   id, or the id assigned. A refusal with an empty message leaves the request's error text empty, which
   is what subscribe tests.
   */
  datatype Reply = Refused(silent: bool) | Undecodable | Assigned(subId: nat)

  datatype Reader =
    | Idle
    | Replying(req: nat, reply: Reply)      // taken from the pending map, not yet resolved
    | Acking(req: nat)                      // registered, done not yet closed
    | Aborting(req: nat)                    // found the client closed
    | Dispatching(sub: nat, req: nat)       // entry looked up
    | Dropping(sub: nat, req: nat)          // one-shot entry dispatched
    | ShuttingDown(req: nat)                // one-shot entry dropped
    | Ended

  datatype Caller = Sending | Waiting | Cancelling | Failed | Succeeded

  /** Close runs once: it takes both maps under the lock and then drains what it took. */
  datatype Closer = NotStarted | Draining(replies: set<nat>, entries: set<nat>) | Finished

  /**
   A subscribe call. replies and doneCloses count the closes of its two channels, shutdowns and
   dispatches the calls of its two functions; once is the sync.Once of subDone. err says that the error
   text is not empty, and answer remembers the reply frame that took the request.
   */
  datatype Req = Req(oneShot: bool, answer: Option<Reply>, subId: Option<nat>, replies: nat, err: bool, once: bool,
                     doneCloses: nat, shutdowns: nat, dispatches: nat, caller: Caller)

  /** A call that has just entered the pending map. */
  function NewReq(oneShot: bool): (r: Req) {
    Req(oneShot, None, None, 0, false, false, 0, 0, 0, Sending)
  }

  /** owed: the requests whose shutdown an unsubscribing caller has still to run. */
  datatype State = State(sh: Shared, reqs: map<nat, Req>, reader: Reader, owed: multiset<nat>, closer: Closer)

  datatype Action =
    | Subscribe(oneShot: bool)
    | WriteDone(req: nat, ok: bool)
    | ContextDone(req: nat)
    | CancelPending(req: nat)
    | SeeClientDone(req: nat)
    | SeeReply(req: nat)
    | ReplyFrame(req: nat, reply: Reply)
    | ResolveError
    | Register
    | CloseDone
    | NotifyFrame(sub: nat)
    | Dispatch
    | DropOneShot
    | ShutDownOneShot
    | ReadError
    | Unsubscribe(req: nat)
    | ShutDownUnsubscribed(req: nat)
    | CloseLocked
    | FailPending(req: nat)
    | ShutDownEntry(req: nat)
    | CloseFinished

  // ---------------------------------------------------------------- critical sections

  /** subscribe: refuse when closed, else take a number and enter the pending map. */
  function Enroll(sh: Shared): (r: Option<Shared>) {
    if sh.closed || sh.pending.None? then None
    else Some(sh.(nextReq := sh.nextReq + 1, pending := Some(sh.pending.value + {sh.nextReq + 1})))
  }

  /** Deleting from the pending map; from a nil map it does nothing. */
  function Withdraw(sh: Shared, r: nat): (result: Shared) {
    if sh.pending.None? then sh else sh.(pending := Some(sh.pending.value - {r}))
  }

  /** handleReply, second section; None when the client has been closed meanwhile. */
  function Enter(sh: Shared, sub: nat, r: nat): (result: Option<Shared>) {
    if sh.subs.None? then None else Some(sh.(subs := Some(sh.subs.value[sub := r])))
  }

  function Lookup(sh: Shared, sub: nat): (r: Option<nat>) {
    if sh.subs.Some? && sub in sh.subs.value then Some(sh.subs.value[sub]) else None
  }

  function Delete(sh: Shared, sub: nat): (r: Shared) {
    if sh.subs.None? then sh else sh.(subs := Some(sh.subs.value - {sub}))
  }

  /** Unsubscribe: remove the entry and take a number for the request. */
  function Leave(sh: Shared, sub: nat): (r: Shared) {
    Delete(sh, sub).(nextReq := sh.nextReq + 1)
  }

  function Shut(sh: Shared): (r: Shared) {
    sh.(closed := true, pending := None, subs := None)
  }

  // ---------------------------------------------------------------- steps

  function Init(): (r: State) {
    State(Shared(false, 0, Some({}), Some(map[])), map[], Idle, multiset{}, NotStarted)
  }

  function Taken(sh: Shared): (r: set<nat>) {
    if sh.pending.Some? then sh.pending.value else {}
  }

  function Entries(sh: Shared): (r: set<nat>)
    ensures forall x :: x in r <==> sh.subs.Some? && exists sub :: sub in sh.subs.value && sh.subs.value[sub] == x
  {
    if sh.subs.None? then {} else set sub | sub in sh.subs.value :: sh.subs.value[sub]
  }

  /** sync.Once: the first call closes subDone, later calls do nothing. */
  function OnceClose(q: Req): (r: Req) {
    if q.once then q else q.(once := true, doneCloses := q.doneCloses + 1)
  }

  /** The entry's shutdown: closes subDone through its sync.Once, then calls the user's function. */
  function RunShutdown(q: Req): (r: Req) {
    OnceClose(q).(shutdowns := q.shutdowns + 1)
  }

  function CloseReply(q: Req, err: bool): (r: Req) {
    q.(replies := q.replies + 1, err := q.err || err)
  }

  predicate Enabled(s: State, a: Action) {
    match a
    case Subscribe(_) => true
    case WriteDone(r, _) => r in s.reqs && s.reqs[r].caller == Sending
    case ContextDone(r) => r in s.reqs && s.reqs[r].caller == Waiting
    case CancelPending(r) => r in s.reqs && s.reqs[r].caller == Cancelling
    case SeeClientDone(r) => r in s.reqs && s.reqs[r].caller == Waiting && s.closer == Finished
    case SeeReply(r) => r in s.reqs && s.reqs[r].caller == Waiting && s.reqs[r].replies > 0
    // The server never reuses a subscription id on a connection.
    case ReplyFrame(_, reply) =>
      s.reader == Idle && (reply.Assigned? ==> forall r :: r in s.reqs ==> s.reqs[r].subId != Some(reply.subId))
    case ResolveError => s.reader.Replying? && !s.reader.reply.Assigned?
    case Register => s.reader.Replying? && s.reader.reply.Assigned?
    case CloseDone => s.reader.Acking? || s.reader.Aborting?
    case NotifyFrame(_) => s.reader == Idle
    case Dispatch => s.reader.Dispatching?
    case DropOneShot => s.reader.Dropping?
    case ShutDownOneShot => s.reader.ShuttingDown?
    case ReadError => s.reader == Idle
    case Unsubscribe(r) => r in s.reqs && s.reqs[r].caller == Succeeded
    case ShutDownUnsubscribed(r) => r in s.owed
    case CloseLocked => s.closer == NotStarted
    case FailPending(r) => s.closer.Draining? && r in s.closer.replies
    case ShutDownEntry(r) => s.closer.Draining? && s.closer.replies == {} && r in s.closer.entries
    case CloseFinished => s.closer == Draining({}, {})
  }

  /** s with request r updated; requests that do not exist stay so. */
  function With(s: State, r: nat, q: Req): (result: State) {
    if r in s.reqs then s.(reqs := s.reqs[r := q]) else s
  }

  function Get(s: State, r: nat): (result: Req) {
    if r in s.reqs then s.reqs[r] else NewReq(false)
  }

  function SetCaller(s: State, r: nat, c: Caller): (result: State) {
    With(s, r, Get(s, r).(caller := c))
  }

  /** The id in the handle that subscribe returned; zero unless a reply assigned one. */
  function HandleId(q: Req): (r: nat) {
    if q.subId.Some? then q.subId.value else 0
  }

  function Step(s: State, a: Action): (r: State)
    requires Enabled(s, a)
  {
    match a
    case Subscribe(oneShot) =>
      (match Enroll(s.sh)
       case None => s
       case Some(sh) => s.(sh := sh, reqs := s.reqs[sh.nextReq := NewReq(oneShot)]))
    case WriteDone(r, ok) => SetCaller(s, r, if ok then Waiting else Cancelling)
    case ContextDone(r) => SetCaller(s, r, Cancelling)
    case CancelPending(r) => SetCaller(s, r, Failed).(sh := Withdraw(s.sh, r))
    case SeeClientDone(r) => SetCaller(s, r, Failed)
    case SeeReply(r) => SetCaller(s, r, if s.reqs[r].err then Failed else Succeeded)
    case ReplyFrame(r, reply) =>
      if r in Taken(s.sh) then
        With(s, r, Get(s, r).(answer := Some(reply))).(sh := Withdraw(s.sh, r), reader := Replying(r, reply))
      else s
    case ResolveError =>
      With(s, s.reader.req, CloseReply(Get(s, s.reader.req), s.reader.reply != Refused(true))).(reader := Idle)
    case Register =>
      var r, sub := s.reader.req, s.reader.reply.subId;
      (match Enter(s.sh, sub, r)
       case None => s.(reader := Aborting(r))
       case Some(sh) => With(s, r, Get(s, r).(subId := Some(sub))).(sh := sh, reader := Acking(r)))
    case CloseDone => With(s, s.reader.req, CloseReply(Get(s, s.reader.req), s.reader.Aborting?)).(reader := Idle)
    case NotifyFrame(sub) =>
      (match Lookup(s.sh, sub)
       case None => s
       case Some(r) => s.(reader := Dispatching(sub, r)))
    case Dispatch =>
      var q := Get(s, s.reader.req);
      With(s, s.reader.req, q.(dispatches := q.dispatches + 1))
      .(reader := if q.oneShot then Dropping(s.reader.sub, s.reader.req) else Idle)
    case DropOneShot => s.(sh := Delete(s.sh, s.reader.sub), reader := ShuttingDown(s.reader.req))
    case ShutDownOneShot => With(s, s.reader.req, RunShutdown(Get(s, s.reader.req))).(reader := Idle)
    case ReadError => s.(reader := Ended)
    case Unsubscribe(r) =>
      var sub := HandleId(s.reqs[r]);
      var entry := Lookup(s.sh, sub);
      s.(sh := Leave(s.sh, sub), owed := if entry.Some? then s.owed + multiset{entry.value} else s.owed)
    case ShutDownUnsubscribed(r) => With(s, r, RunShutdown(Get(s, r))).(owed := s.owed - multiset{r})
    case CloseLocked => s.(sh := Shut(s.sh), closer := Draining(Taken(s.sh), Entries(s.sh)))
    case FailPending(r) =>
      With(s, r, CloseReply(Get(s, r), true)).(closer := Draining(s.closer.replies - {r}, s.closer.entries))
    case ShutDownEntry(r) =>
      With(s, r, RunShutdown(Get(s, r))).(closer := Draining(s.closer.replies, s.closer.entries - {r}))
    case CloseFinished => s.(closer := Finished)
  }

  // ---------------------------------------------------------------- runs

  /** The state after the actions, when each is enabled in turn. */
  function Run(s: State, actions: seq<Action>): (r: Option<State>) {
    if |actions| == 0 then Some(s)
    else
      var n := |actions| - 1;
      match Run(s, actions[..n])
      case Some(m) => if Enabled(m, actions[n]) then Some(Step(m, actions[n])) else None
      case None => None
  }

  // ---------------------------------------------------------------- the invariant

  predicate ReaderOwnsReply(reader: Reader, r: nat) {
    (reader.Replying? || reader.Acking? || reader.Aborting?) && reader.req == r
  }

  /** Who will close the request's done channel, and whether it has been closed. */
  function ReplyTickets(s: State, r: nat): (result: nat) {
    One(r in Taken(s.sh)) + One(ReaderOwnsReply(s.reader, r))
    + One(s.closer.Draining? && r in s.closer.replies) + Get(s, r).replies
  }

  predicate InMap(s: State, r: nat) {
    Get(s, r).subId.Some? && Lookup(s.sh, Get(s, r).subId.value) == Some(r)
  }

  /** Where the request's entry is: in the map, owed a shutdown, or shut down. */
  function EntryTickets(s: State, r: nat): (result: nat) {
    One(InMap(s, r)) + s.owed[r] + One(s.closer.Draining? && r in s.closer.entries)
    + One(s.reader == ShuttingDown(r)) + Get(s, r).shutdowns
  }

  /** The read loop has looked the entry up and not yet dispatched and dropped it. */
  predicate ReaderUses(reader: Reader, r: nat) {
    (reader.Dispatching? || reader.Dropping?) && reader.req == r
  }

  /** The call: who closes its done channel, what answered it, and what its caller may conclude. */
  predicate CallInv(s: State, r: nat)
    requires r in s.reqs
  {
    var q := s.reqs[r];
    && r <= s.sh.nextReq
    && ReplyTickets(s, r) <= 1
    && (q.caller == Sending || q.caller == Waiting || q.caller == Cancelling ==> ReplyTickets(s, r) == 1)
    && (q.caller == Succeeded ==> q.replies == 1 && !q.err)
    && (q.caller == Failed ==> r !in Taken(s.sh))
    && (q.replies == 1 && !q.err ==> q.subId.Some? || q.answer == Some(Refused(true)))
    && (q.err ==> q.replies == 1)
    && (q.subId.Some? ==> s.reader == Acking(r) || (q.replies == 1 && !q.err))
    && (q.subId.Some? ==> q.answer == Some(Assigned(q.subId.value)))
    && (q.answer == Some(Refused(true)) ==> !q.err && q.subId.None?)
    && (r in Taken(s.sh) || (s.closer.Draining? && r in s.closer.replies) ==> q.answer.None?)
    && (s.reader.Replying? && s.reader.req == r ==> q.answer == Some(s.reader.reply) && !q.err)
    && (s.reader == Aborting(r) ==> q.answer.Some? && q.answer.value.Assigned?)
    && (s.reader == Acking(r) ==> q.subId.Some? && !q.err)
  }

  /** The entry: where it is, how often it was dispatched and shut down. */
  predicate EntryInv(s: State, r: nat)
    requires r in s.reqs
  {
    var q := s.reqs[r];
    && (q.subId.None? ==> EntryTickets(s, r) == 0 && q.dispatches == 0 && !ReaderUses(s.reader, r))
    && (q.subId.Some? ==> EntryTickets(s, r) >= 1)
    && (!q.oneShot ==> EntryTickets(s, r) <= 1)
    && (q.oneShot ==> EntryTickets(s, r) <= 2 && q.dispatches <= 1)
    && (q.oneShot && q.dispatches == 0 ==> EntryTickets(s, r) <= 1 && s.reader != ShuttingDown(r))
    && (q.oneShot && q.dispatches == 1 && s.reader.Dropping? && s.reader.req == r ==> EntryTickets(s, r) <= 1)
    && (q.oneShot && q.dispatches == 1 && InMap(s, r) ==> s.reader.Dropping? && s.reader.req == r)
    && (s.reader.Dispatching? && s.reader.req == r && q.oneShot ==> q.dispatches == 0)
    && (s.reader.Dropping? && s.reader.req == r ==> q.oneShot && q.dispatches == 1)
    && (s.reader == ShuttingDown(r) ==> q.oneShot && q.dispatches == 1)
    && (ReaderUses(s.reader, r) ==> q.subId == Some(s.reader.sub))
    && q.doneCloses == One(q.once) && (q.once <==> q.shutdowns > 0)
  }

  predicate RequestInv(s: State, r: nat)
    requires r in s.reqs
  {
    CallInv(s, r) && EntryInv(s, r)
  }

  /** The reader's request exists, and an id it is about to register is new. */
  ghost predicate ReaderInv(s: State) {
    && (s.reader.Idle? || s.reader.Ended? || s.reader.req in s.reqs)
    && (s.reader.Replying? && s.reader.reply.Assigned? ==>
          forall r :: r in s.reqs ==> s.reqs[r].subId != Some(s.reader.reply.subId))
  }

  /** The two maps refer to existing requests, each entry under the id its request was assigned. */
  ghost predicate MapsInv(s: State) {
    && (forall r :: r in Taken(s.sh) ==> r in s.reqs)
    && (s.sh.subs.Some? ==> forall sub :: sub in s.sh.subs.value ==>
          s.sh.subs.value[sub] in s.reqs && s.reqs[s.sh.subs.value[sub]].subId == Some(sub))
    && (s.closer.Draining? ==> forall r :: r in s.closer.replies || r in s.closer.entries ==> r in s.reqs)
    && (forall r :: r in s.owed ==> r in s.reqs)
  }

  /** Outside critical sections the client is closed if and only if both maps are nil. */
  predicate CloseInv(s: State) {
    && (s.sh.closed <==> s.sh.pending.None?)
    && (s.sh.closed <==> s.sh.subs.None?)
    && (s.sh.closed <==> s.closer != NotStarted)
  }

  /** No two requests were assigned the same subscription id. */
  ghost predicate UniqueInv(s: State) {
    forall q, r :: q in s.reqs && r in s.reqs && s.reqs[q].subId.Some? && s.reqs[q].subId == s.reqs[r].subId ==> q == r
  }

  /** What holds of the maps and threads, request by request aside. */
  ghost predicate FrameInv(s: State) {
    CloseInv(s) && MapsInv(s) && ReaderInv(s) && UniqueInv(s)
  }

  ghost predicate Inv(s: State) {
    && FrameInv(s)
    && forall r :: r in s.reqs ==> RequestInv(s, r)
  }
}
