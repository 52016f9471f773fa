/** What the subscription protocol guarantees in every interleaving. */
module WsTheorems {
  import opened Wire
  import opened WsProtocol
  import opened WsInvariant

  ghost predicate Reachable(s: State) {
    exists actions :: Run(Init(), actions) == Some(s)
  }

  lemma ReachableInv(s: State)
    requires Reachable(s)
    ensures Inv(s)
  {
    var actions :| Run(Init(), actions) == Some(s);
    RunKeeps(actions);
  }

  // ---------------------------------------------------------------- lifecycle

  /**
   The client is closed exactly when both maps are nil, so subscribe never writes to a nil map; every
   done channel and every subDone channel is closed at most once.
   */
  lemma LifecycleSafety(s: State)
    requires Reachable(s)
    ensures s.sh.closed <==> s.sh.pending.None?
    ensures s.sh.closed <==> s.sh.subs.None?
    ensures s.sh.closed <==> Enroll(s.sh).None?
    ensures forall r :: r in s.reqs ==> s.reqs[r].replies <= 1 && s.reqs[r].doneCloses <= 1
  {
    ReachableInv(s);
    hide Run, Init;
    forall r | r in s.reqs ensures s.reqs[r].replies <= 1 && s.reqs[r].doneCloses <= 1 {
      assert RequestInv(s, r);
    }
  }

  /** Once closed, closed in every later state. */
  lemma {:induction false} ClosedStays(s: State, actions: seq<Action>)
    requires s.sh.closed && Run(s, actions).Some?
    ensures Run(s, actions).value.sh.closed
  {
    if |actions| > 0 {
      var n := |actions| - 1;
      ClosedStays(s, actions[..n]);
      ClosedStep(Run(s, actions[..n]).value, actions[n]);
    }
  }

  lemma ClosedStep(s: State, a: Action)
    requires s.sh.closed && Enabled(s, a)
    ensures Step(s, a).sh.closed
  {
  }

  /** A registered subscription is in the map, owed a shutdown by some thread, or already shut down. */
  lemma NeverForgotten(s: State, r: nat)
    requires Reachable(s) && r in s.reqs && s.reqs[r].subId.Some?
    ensures || InMap(s, r)
            || r in s.owed
            || (s.closer.Draining? && r in s.closer.entries)
            || s.reader == ShuttingDown(r)
            || s.reqs[r].doneCloses == 1
  {
    ReachableInv(s);
    hide Run, Init, InMap;
    assert RequestInv(s, r);
  }

  /** No thread has anything left to close: Close has finished and nobody owes a shutdown. */
  predicate Settled(s: State) {
    s.closer == Finished && s.owed == multiset{} && (s.reader.Idle? || s.reader.Ended?)
  }

  /** Then every subscription is done and every waiting subscribe call has its answer. */
  lemma AllDoneWhenSettled(s: State, r: nat)
    requires Reachable(s) && Settled(s) && r in s.reqs
    ensures s.reqs[r].subId.Some? ==> s.reqs[r].doneCloses == 1
    ensures s.reqs[r].caller == Sending || s.reqs[r].caller == Waiting ==> s.reqs[r].replies == 1
  {
    ReachableInv(s);
    hide Run, Init;
    assert RequestInv(s, r);
  }

  /**
   What a successful subscribe means: either the reply assigned an id and the subscription is
   registered under it, or the reply was an error with an empty message, and nothing is registered.
   */
  lemma SuccessIsRegistered(s: State, r: nat)
    requires Reachable(s) && r in s.reqs && s.reqs[r].caller == Succeeded
    ensures s.reqs[r].subId.Some? <==> s.reqs[r].answer != Some(Refused(true))
    ensures s.reqs[r].subId.Some? ==>
              s.reqs[r].answer == Some(Assigned(s.reqs[r].subId.value)) && EntryTickets(s, r) >= 1
    ensures s.reqs[r].subId.None? ==> EntryTickets(s, r) == 0
  {
    ReachableInv(s);
    hide Run, Init, EntryTickets;
    assert RequestInv(s, r);
  }

  /** And a call whose reply is in succeeds exactly when it is registered or was silently refused. */
  lemma ReplyDecides(s: State, r: nat)
    requires Reachable(s) && Enabled(s, SeeReply(r))
    ensures Step(s, SeeReply(r)).reqs[r].caller == Succeeded <==>
            s.reqs[r].subId.Some? || s.reqs[r].answer == Some(Refused(true))
    ensures Step(s, SeeReply(r)).reqs[r].caller == Failed <==>
            !(s.reqs[r].subId.Some? || s.reqs[r].answer == Some(Refused(true)))
  {
    ReachableInv(s);
    hide Run, Init;
    assert RequestInv(s, r);
  }

  /** A call that has returned, in either way, leaves nothing in the pending map. */
  lemma ReturnedIsNotPending(s: State, r: nat)
    requires Reachable(s) && r in s.reqs && (s.reqs[r].caller == Failed || s.reqs[r].caller == Succeeded)
    ensures r !in Taken(s.sh)
  {
    ReachableInv(s);
    hide Run, Init;
    assert RequestInv(s, r);
  }

  /**
   The number that Unsubscribe takes for its request is fresh and is never given to a subscribe call, so
   the frame that acknowledges the request changes nothing, whenever it comes.
   */
  lemma AcknowledgementsAreIgnored(s: State, r: nat, actions: seq<Action>, reply: Reply)
    requires Reachable(s) && Enabled(s, Action.Unsubscribe(r))
    requires Run(Step(s, Action.Unsubscribe(r)), actions).Some?
    ensures var number := Step(s, Action.Unsubscribe(r)).sh.nextReq;
            var u := Run(Step(s, Action.Unsubscribe(r)), actions).value;
            && number > s.sh.nextReq && number !in u.reqs && number !in Taken(u.sh)
            && (Enabled(u, ReplyFrame(number, reply)) ==> Step(u, ReplyFrame(number, reply)) == u)
  {
    hide Inv, Run, CallInv, EntryInv;
    ReachableInv(s);
    AllNumbered(s);
    var t := Step(s, Action.Unsubscribe(r));
    StepKeeps(s, Action.Unsubscribe(r));
    NumberNeverGiven(t, actions, t.sh.nextReq);
    AllNumbered(Run(t, actions).value);
  }

  lemma {:induction false} NumberNeverGiven(s: State, actions: seq<Action>, number: nat)
    requires Inv(s) && Run(s, actions).Some? && number <= s.sh.nextReq && number !in s.reqs
    ensures Inv(Run(s, actions).value) && number !in Run(s, actions).value.reqs
    ensures number <= Run(s, actions).value.sh.nextReq
  {
    hide Inv, Step, Enabled;
    if |actions| > 0 {
      var n := |actions| - 1;
      NumberNeverGiven(s, actions[..n], number);
      var u := Run(s, actions[..n]).value;
      StepKeeps(u, actions[n]);
      NumbersGrow(u, actions[n]);
    }
  }

  /** Numbers only grow, and only a new number becomes a request. */
  lemma NumbersGrow(s: State, a: Action)
    requires Enabled(s, a)
    ensures s.sh.nextReq <= Step(s, a).sh.nextReq
    ensures forall r: nat :: r in Step(s, a).reqs && r !in s.reqs ==> r > s.sh.nextReq
  {
  }

  /** The handle of a silently refused call names id zero: unsubscribing takes another request's entry. */
  lemma SilentHandleTakesForeignEntry(s: State, r: nat, other: nat)
    requires Reachable(s) && r in s.reqs && s.reqs[r].caller == Succeeded && s.reqs[r].subId.None?
    requires Lookup(s.sh, 0) == Some(other)
    ensures other != r && Enabled(s, Unsubscribe(r))
    ensures Lookup(Step(s, Unsubscribe(r)).sh, 0) == None && other in Step(s, Unsubscribe(r)).owed
  {
    hide Run, Init, Inv, ReaderInv, UniqueInv, CloseInv;
    ReachableInv(s);
    AllNumbered(s);
  }

  // ---------------------------------------------------------------- routing

  /** The step takes the entry of sub out of the map: an Unsubscribe of it, Close, or one-shot completion. */
  predicate Removes(s: State, a: Action, sub: nat) {
    match a
    case Unsubscribe(r) => r in s.reqs && HandleId(s.reqs[r]) == sub
    case CloseLocked => true
    case DropOneShot => s.reader.Dropping? && s.reader.sub == sub
    case _ => false
  }

  /** No action of the run from s removes sub. */
  predicate Unremoved(s: State, actions: seq<Action>, sub: nat) {
    |actions| == 0
    || (Unremoved(s, actions[..|actions| - 1], sub)
        && match Run(s, actions[..|actions| - 1])
           case Some(m) => !Removes(m, actions[|actions| - 1], sub)
           case None => false)
  }

  lemma EntryStays(s: State, a: Action, sub: nat, r: nat)
    requires ReaderInv(s) && Enabled(s, a) && !Removes(s, a, sub) && Lookup(s.sh, sub) == Some(r)
    requires MapsInv(s)
    ensures Lookup(Step(s, a).sh, sub) == Some(r)
  {
  }

  lemma {:induction false} EntryStaysInRun(s: State, actions: seq<Action>, sub: nat, r: nat)
    requires Inv(s) && Run(s, actions).Some? && Unremoved(s, actions, sub) && Lookup(s.sh, sub) == Some(r)
    ensures Inv(Run(s, actions).value) && Lookup(Run(s, actions).value.sh, sub) == Some(r)
  {
    hide Inv, Step, Enabled, Removes;
    if |actions| > 0 {
      var n := |actions| - 1;
      EntryStaysInRun(s, actions[..n], sub, r);
      AllNumbered(Run(s, actions[..n]).value);
      EntryStays(Run(s, actions[..n]).value, actions[n], sub, r);
      StepKeeps(Run(s, actions[..n]).value, actions[n]);
    }
  }

  /** No action of the run is a step of the read loop. */
  predicate ReaderRests(actions: seq<Action>) {
    forall i :: 0 <= i < |actions| ==> !ReaderStep(actions[i])
  }

  lemma {:induction false} ReaderUnmoved(s: State, actions: seq<Action>, r: nat)
    requires Run(s, actions).Some? && ReaderRests(actions) && r in s.reqs
    ensures Run(s, actions).value.reader == s.reader && r in Run(s, actions).value.reqs
  {
    if |actions| > 0 {
      var n := |actions| - 1;
      ReaderUnmoved(s, actions[..n], r);
      ReaderMovesItself(Run(s, actions[..n]).value, actions[n], r);
    }
  }

  /** Only the read loop's own steps move it. */
  lemma ReaderMovesItself(s: State, a: Action, r: nat)
    requires Enabled(s, a) && !ReaderStep(a) && r in s.reqs
    ensures Step(s, a).reader == s.reader && r in Step(s, a).reqs
  {
  }

  /** A looked-up notification is dispatched before the read loop does anything else. */
  lemma DispatchComesNext(s: State, a: Action)
    requires s.reader.Dispatching? && Enabled(s, a) && ReaderStep(a)
    ensures a == Dispatch
  {
  }

  /**
   No notification is lost or misrouted: after a reply frame has registered r under sub, a
   notification frame for sub that is looked up before sub is removed is dispatched to r and to no
   other request, whatever the other threads do between registration, lookup and dispatch.
   */
  lemma NotificationsReachTheirRequest(s: State, sub: nat, r: nat, actions: seq<Action>, between: seq<Action>)
    requires Reachable(s) && s.reader == Replying(r, Assigned(sub)) && !s.sh.closed
    requires var t := Step(s, Register);
             && Run(t, actions).Some? && Unremoved(t, actions, sub) && Run(t, actions).value.reader == Idle
    requires ReaderRests(between) && Run(Step(Run(Step(s, Register), actions).value, NotifyFrame(sub)), between).Some?
    ensures var looked := Step(Run(Step(s, Register), actions).value, NotifyFrame(sub));
            var v := Run(looked, between).value;
            && looked.reader == v.reader == Dispatching(sub, r) && r in v.reqs && Enabled(v, Dispatch)
            && Step(v, Dispatch).reqs == v.reqs[r := v.reqs[r].(dispatches := v.reqs[r].dispatches + 1)]
  {
    hide *;
    ReachableInv(s);
    AllNumbered(s);
    RegisterEnters(s, sub, r);
    StepKeeps(s, Register);
    EntryStaysInRun(Step(s, Register), actions, sub, r);
    var u := Run(Step(s, Register), actions).value;
    AllNumbered(u);
    FrameLooksUp(u, sub, r);
    var looked := Step(u, NotifyFrame(sub));
    ReaderUnmoved(looked, between, r);
    DispatchReaches(Run(looked, between).value, sub, r);
  }

  lemma RegisterEnters(s: State, sub: nat, r: nat)
    requires CloseInv(s) && s.reader == Replying(r, Assigned(sub)) && !s.sh.closed
    ensures Enabled(s, Register) && Lookup(Step(s, Register).sh, sub) == Some(r)
  {
  }

  lemma FrameLooksUp(u: State, sub: nat, r: nat)
    requires MapsInv(u) && u.reader == Idle && Lookup(u.sh, sub) == Some(r)
    ensures Enabled(u, NotifyFrame(sub))
    ensures Step(u, NotifyFrame(sub)).reader == Dispatching(sub, r) && r in Step(u, NotifyFrame(sub)).reqs
  {
  }

  lemma DispatchReaches(v: State, sub: nat, r: nat)
    requires v.reader == Dispatching(sub, r) && r in v.reqs
    ensures Enabled(v, Dispatch)
    ensures Step(v, Dispatch).reqs == v.reqs[r := v.reqs[r].(dispatches := v.reqs[r].dispatches + 1)]
  {
  }

  // ---------------------------------------------------------------- one-shot and streaming entries

  /** The entry of r is registered by this step. */
  predicate Registers(s: State, a: Action, r: nat) {
    a.Register? && s.reader.Replying? && s.reader.req == r && s.sh.subs.Some?
  }

  /** The read loop completes the one-shot r after another thread has already removed its entry. */
  predicate DropsTwice(s: State, a: Action, r: nat) {
    a.DropOneShot? && s.reader.Dropping? && s.reader.req == r && !InMap(s, r)
  }

  /**
   Conservation of licences to shut an entry down: only registration creates one, moving the entry
   from hand to hand neither creates nor loses any, and the one exception is the read loop completing
   a one-shot that another thread has already taken.
   */
  lemma LicencesConserved(s: State, a: Action, r: nat)
    requires Reachable(s) && Enabled(s, a) && r in s.reqs
    ensures r in Step(s, a).reqs
    ensures EntryTickets(Step(s, a), r) ==
            EntryTickets(s, r) + One(Registers(s, a, r)) + One(DropsTwice(s, a, r))
  {
    ReachableInv(s);
    AllNumbered(s);
    if a.Register? || a.DropOneShot? {
      ReaderRequest(s, a);
    }
    assert RequestInv(s, r);
    hide Run, Init, Inv;
    LicencesOf(s, a, r);
  }

  lemma LicencesOf(s: State, a: Action, r: nat)
    requires FrameInv(s) && Enabled(s, a) && r in s.reqs && RequestInv(s, r) && Numbered(s)
    requires a.Register? || a.DropOneShot? ==> s.reader.req in s.reqs && RequestInv(s, s.reader.req)
    ensures r in Step(s, a).reqs
    ensures EntryTickets(Step(s, a), r) ==
            EntryTickets(s, r) + One(Registers(s, a, r)) + One(DropsTwice(s, a, r))
  {
    hide *;
    if a.Register? || a.DropOneShot? {
      LicencesOfEntering(s, a, r);
    } else if a.Unsubscribe? {
      LicencesOfUnsubscribing(s, a, r);
    } else if a.ShutDownUnsubscribed? {
      LicencesOfOwed(s, a, r);
    } else if a.ShutDownOneShot? {
      LicencesOfShutting(s, a, r);
    } else if a.CloseLocked? || a.ShutDownEntry? {
      LicencesOfClosing(s, a, r);
    } else if a.FailPending? || a.CloseFinished? {
      LicencesOfDraining(s, a, r);
    } else if a.ReplyFrame? || a.ResolveError? || a.CloseDone? {
      LicencesOfReply(s, a, r);
    } else if a.NotifyFrame? || a.Dispatch? || a.ReadError? {
      LicencesOfNotice(s, a, r);
    } else {
      IsCallerStep(a);
      LicencesOfCaller(s, a, r);
    }
  }

  lemma LicencesOfEntering(s: State, a: Action, r: nat)
    requires a.Register? || a.DropOneShot?
    requires Enabled(s, a) && s.reader.req in s.reqs && RequestInv(s, s.reader.req)
    requires FrameInv(s) && Enabled(s, a) && r in s.reqs && RequestInv(s, r)
    ensures r in Step(s, a).reqs
    ensures EntryTickets(Step(s, a), r) ==
            EntryTickets(s, r) + One(Registers(s, a, r)) + One(DropsTwice(s, a, r))
  {
  }

  lemma LicencesOfUnsubscribing(s: State, a: Action, r: nat)
    requires a.Unsubscribe?
    requires FrameInv(s) && Enabled(s, a) && r in s.reqs && RequestInv(s, r)
    ensures r in Step(s, a).reqs
    ensures EntryTickets(Step(s, a), r) ==
            EntryTickets(s, r) + One(Registers(s, a, r)) + One(DropsTwice(s, a, r))
  {
  }

  lemma LicencesOfOwed(s: State, a: Action, r: nat)
    requires a.ShutDownUnsubscribed?
    requires FrameInv(s) && Enabled(s, a) && r in s.reqs && RequestInv(s, r)
    ensures r in Step(s, a).reqs
    ensures EntryTickets(Step(s, a), r) ==
            EntryTickets(s, r) + One(Registers(s, a, r)) + One(DropsTwice(s, a, r))
  {
  }

  lemma LicencesOfShutting(s: State, a: Action, r: nat)
    requires a.ShutDownOneShot?
    requires FrameInv(s) && Enabled(s, a) && r in s.reqs && RequestInv(s, r)
    ensures r in Step(s, a).reqs
    ensures EntryTickets(Step(s, a), r) ==
            EntryTickets(s, r) + One(Registers(s, a, r)) + One(DropsTwice(s, a, r))
  {
  }

  lemma LicencesOfClosing(s: State, a: Action, r: nat)
    requires a.CloseLocked? || a.ShutDownEntry?
    requires FrameInv(s) && Enabled(s, a) && r in s.reqs && RequestInv(s, r)
    ensures r in Step(s, a).reqs
    ensures EntryTickets(Step(s, a), r) ==
            EntryTickets(s, r) + One(Registers(s, a, r)) + One(DropsTwice(s, a, r))
  {
  }

  lemma IsCallerStep(a: Action)
    ensures || CallerStep(a) || a.Register? || a.DropOneShot? || a.Unsubscribe? || a.ShutDownUnsubscribed?
            || a.ShutDownOneShot? || a.CloseLocked? || a.ShutDownEntry? || a.FailPending? || a.CloseFinished?
            || a.ReplyFrame? || a.ResolveError? || a.CloseDone? || a.NotifyFrame? || a.Dispatch? || a.ReadError?
  {
  }

  lemma LicencesOfCaller(s: State, a: Action, r: nat)
    requires CallerStep(a)
    requires FrameInv(s) && Enabled(s, a) && r in s.reqs && RequestInv(s, r) && Numbered(s)
    ensures r in Step(s, a).reqs
    ensures EntryTickets(Step(s, a), r) ==
            EntryTickets(s, r) + One(Registers(s, a, r)) + One(DropsTwice(s, a, r))
  {
    hide MapsInv, ReaderInv, UniqueInv;
  }

  lemma LicencesOfReply(s: State, a: Action, r: nat)
    requires a.ReplyFrame? || a.ResolveError? || a.CloseDone?
    requires FrameInv(s) && Enabled(s, a) && r in s.reqs && RequestInv(s, r)
    ensures r in Step(s, a).reqs
    ensures EntryTickets(Step(s, a), r) ==
            EntryTickets(s, r) + One(Registers(s, a, r)) + One(DropsTwice(s, a, r))
  {
    hide MapsInv, UniqueInv;
  }

  lemma LicencesOfNotice(s: State, a: Action, r: nat)
    requires a.NotifyFrame? || a.Dispatch? || a.ReadError?
    requires FrameInv(s) && Enabled(s, a) && r in s.reqs && RequestInv(s, r)
    ensures r in Step(s, a).reqs
    ensures EntryTickets(Step(s, a), r) ==
            EntryTickets(s, r) + One(Registers(s, a, r)) + One(DropsTwice(s, a, r))
  {
    hide UniqueInv;
  }

  lemma LicencesOfDraining(s: State, a: Action, r: nat)
    requires a.FailPending? || a.CloseFinished?
    requires FrameInv(s) && Enabled(s, a) && r in s.reqs && RequestInv(s, r)
    ensures r in Step(s, a).reqs
    ensures EntryTickets(Step(s, a), r) ==
            EntryTickets(s, r) + One(Registers(s, a, r)) + One(DropsTwice(s, a, r))
  {
    hide MapsInv, ReaderInv, UniqueInv;
  }

  /** How often the run completes the one-shot r after another thread has taken its entry. */
  function DoubleDrops(actions: seq<Action>, r: nat): (result: nat) {
    if |actions| == 0 then 0
    else
      var n := |actions| - 1;
      DoubleDrops(actions[..n], r) + One(DropsTwiceAt(actions, n, r))
  }

  /** Step i of the run is such a completion. */
  predicate DropsTwiceAt(actions: seq<Action>, i: nat, r: nat)
    requires i < |actions|
  {
    match Run(Init(), actions[..i])
    case Some(s) => DropsTwice(s, actions[i], r)
    case None => false
  }

  lemma {:induction false} NoDoubleDrops(actions: seq<Action>, r: nat)
    ensures DoubleDrops(actions, r) == 0 <==> forall i :: 0 <= i < |actions| ==> !DropsTwiceAt(actions, i, r)
  {
    hide Run, DropsTwice;
    if |actions| > 0 {
      var n := |actions| - 1;
      NoDoubleDrops(actions[..n], r);
      forall i | 0 <= i < n ensures DropsTwiceAt(actions[..n], i, r) == DropsTwiceAt(actions, i, r) {
        assert actions[..n][..i] == actions[..i];
      }
    }
  }

  /** Over a whole run: one licence for the registration, and one for each late completion. */
  lemma {:induction false} LicencesCounted(actions: seq<Action>, r: nat)
    requires Run(Init(), actions).Some?
    ensures var s := Run(Init(), actions).value;
            if r in s.reqs then EntryTickets(s, r) == One(s.reqs[r].subId.Some?) + DoubleDrops(actions, r)
            else DoubleDrops(actions, r) == 0
  {
    hide EntryTickets, DropsTwice, Step, Enabled, Init;
    if |actions| == 0 {
      NobodyYet(r);
    } else {
      var n := |actions| - 1;
      LicencesCounted(actions[..n], r);
      var s, a := Run(Init(), actions[..n]).value, actions[n];
      assert Reachable(s);
      if r in s.reqs {
        LicencesConserved(s, a, r);
        RegisteredOnce(s, a, r);
      } else {
        NothingBeforeEnrolment(s, a, r);
      }
    }
  }

  lemma NobodyYet(r: nat)
    ensures r !in Init().reqs
  {
  }

  lemma RegisteredOnce(s: State, a: Action, r: nat)
    requires Reachable(s) && Enabled(s, a) && r in s.reqs
    ensures r in Step(s, a).reqs
    ensures One(Step(s, a).reqs[r].subId.Some?) == One(s.reqs[r].subId.Some?) + One(Registers(s, a, r))
  {
    hide Run, Init, Inv, MapsInv, UniqueInv, EntryInv, CloseInv;
    ReachableInv(s);
    InvOf(s, r);
    if a.Register? {
      RegisterAssigns(s, r);
    } else {
      OthersAssignNothing(s, a, r);
    }
  }

  lemma RegisterAssigns(s: State, r: nat)
    requires Enabled(s, Register) && r in s.reqs && CallInv(s, r)
    ensures r in Step(s, Register).reqs
    ensures One(Step(s, Register).reqs[r].subId.Some?) == One(s.reqs[r].subId.Some?) + One(Registers(s, Register, r))
  {
  }

  lemma OthersAssignNothing(s: State, a: Action, r: nat)
    requires Enabled(s, a) && !a.Register? && r in s.reqs && r <= s.sh.nextReq
    ensures r in Step(s, a).reqs && Step(s, a).reqs[r].subId == s.reqs[r].subId
  {
  }

  lemma InvOf(s: State, r: nat)
    requires Inv(s) && r in s.reqs
    ensures CallInv(s, r) && EntryInv(s, r)
  {
    hide CallInv, EntryInv, FrameInv;
    assert RequestInv(s, r);
  }

  lemma NothingBeforeEnrolment(s: State, a: Action, r: nat)
    requires Reachable(s) && Enabled(s, a) && r !in s.reqs
    ensures !DropsTwice(s, a, r)
    ensures r in Step(s, a).reqs ==> EntryTickets(Step(s, a), r) == 0 && Step(s, a).reqs[r].subId.None?
  {
    ReachableInv(s);
    AllNumbered(s);
    if r in Step(s, a).reqs {
      NewOnlyBySubscribe(s, a, r);
      NewRequestKept(s, a.oneShot);
    }
    hide Run, Init, Inv, MapsInv, UniqueInv, CallInv;
  }

  /**
   When everything has settled, the user's shutdown of a registered subscription has run once for the
   registration and once more for each late completion; so exactly once if and only if the read loop
   never completed it after another thread had taken its entry.
   */
  lemma ShutdownsExact(actions: seq<Action>, r: nat)
    requires Run(Init(), actions).Some? && Settled(Run(Init(), actions).value)
    requires r in Run(Init(), actions).value.reqs && Run(Init(), actions).value.reqs[r].subId.Some?
    ensures var q := Run(Init(), actions).value.reqs[r];
            && q.shutdowns == 1 + DoubleDrops(actions, r)
            && (q.shutdowns == 1 <==> forall i :: 0 <= i < |actions| ==> !DropsTwiceAt(actions, i, r))
  {
    var s := Run(Init(), actions).value;
    assert Reachable(s);
    LicencesCounted(actions, r);
    NoDoubleDrops(actions, r);
    hide Run, Init, DropsTwiceAt, DoubleDrops;
    SettledTickets(s, r);
  }

  lemma SettledTickets(s: State, r: nat)
    requires Reachable(s) && Settled(s) && r in s.reqs
    ensures EntryTickets(s, r) == s.reqs[r].shutdowns
  {
    ReachableInv(s);
    hide Run, Init;
  }

  /** A streaming entry's user shutdown runs at most once; a one-shot's at most twice. */
  lemma ShutdownsBounded(s: State, r: nat)
    requires Reachable(s) && r in s.reqs
    ensures s.reqs[r].shutdowns <= if s.reqs[r].oneShot then 2 else 1
  {
    ReachableInv(s);
    hide Run, Init;
    assert RequestInv(s, r);
  }

  /** A one-shot is dispatched at most once, and its entry is gone before the next frame is read. */
  lemma OneShotOnce(s: State, r: nat)
    requires Reachable(s) && r in s.reqs && s.reqs[r].oneShot
    ensures s.reqs[r].dispatches <= 1
    ensures s.reader.Idle? && s.reqs[r].dispatches == 1 ==> !InMap(s, r)
  {
    ReachableInv(s);
    hide Run, Init;
    assert RequestInv(s, r);
  }

  lemma Leads(s: State, a: Action, t: State)
    requires Reachable(s) && Enabled(s, a) && Step(s, a) == t
    ensures Reachable(t)
  {
    var actions :| Run(Init(), actions) == Some(s);
    hide Step, Enabled;
    var longer := actions + [a];
    assert longer[..|longer| - 1] == actions && longer[|longer| - 1] == a;
    assert Run(Init(), longer) == Some(t);
  }

  /** A one-shot subscription, number 1, registered under 7 and waiting to be dispatched. */
  function Registered(q: Req): (r: State) {
    State(Shared(false, 1, Some({}), Some(map[7 := 1])), map[1 := q], Idle, multiset{}, NotStarted)
  }

  /** The request of that subscription after its subscribe call has returned. */
  function AnsweredReq(dispatches: nat): (r: Req) {
    Req(true, Some(Assigned(7)), Some(7), 1, false, false, 0, 0, dispatches, Succeeded)
  }

  lemma RegisteredIsReachable(q: Req)
    requires q == AnsweredReq(0)
    ensures Reachable(Registered(q))
  {
    hide Run, Reachable;
    StartsReachable();
    var sending := NewReq(true);
    var waiting := sending.(caller := Waiting);
    var enrolled := State(Shared(false, 1, Some({1}), Some(map[])), map[1 := sending], Idle, multiset{}, NotStarted);
    assert {} + {1} == {1};
    Leads(Init(), Action.Subscribe(true), enrolled);
    var sent := enrolled.(reqs := map[1 := waiting]);
    assert enrolled.reqs[1 := waiting] == sent.reqs;
    Leads(enrolled, WriteDone(1, true), sent);
    AnsweredIsReachable(sent, waiting, q);
  }

  lemma AnsweredIsReachable(sent: State, asked: Req, q: Req)
    requires Reachable(sent) && asked == NewReq(true).(caller := Waiting) && q == AnsweredReq(0)
    requires sent == State(Shared(false, 1, Some({1}), Some(map[])), map[1 := asked], Idle, multiset{}, NotStarted)
    ensures Reachable(Registered(q))
  {
    hide Run, Reachable;
    var waiting := asked.(answer := Some(Assigned(7)));
    var taken := State(Shared(false, 1, Some({}), Some(map[])), map[1 := waiting], Replying(1, Assigned(7)), multiset{},
                       NotStarted);
    assert {1} - {1} == {} && sent.reqs[1 := waiting] == taken.reqs;
    Leads(sent, ReplyFrame(1, Assigned(7)), taken);
    RegisteringIsReachable(taken, waiting, q);
  }

  lemma RegisteringIsReachable(taken: State, waiting: Req, q: Req)
    requires waiting == NewReq(true).(caller := Waiting, answer := Some(Assigned(7))) && q == AnsweredReq(0)
    requires taken == State(Shared(false, 1, Some({}), Some(map[])), map[1 := waiting], Replying(1, Assigned(7)),
                            multiset{}, NotStarted)
    requires Reachable(taken)
    ensures Reachable(Registered(q))
  {
    hide Run, Reachable;
    var acking := Registered(waiting.(subId := Some(7))).(reader := Acking(1));
    assert taken.reqs[1 := waiting.(subId := Some(7))] == acking.reqs;
    Leads(taken, Register, acking);
    var acked := Registered(waiting.(subId := Some(7), replies := 1));
    assert acking.reqs[1 := waiting.(subId := Some(7), replies := 1)] == acked.reqs;
    Leads(acking, CloseDone, acked);
    assert acked.reqs[1 := q] == Registered(q).reqs;
    Leads(acked, SeeReply(1), Registered(q));
  }

  lemma StartsReachable()
    ensures Reachable(Init())
  {
    assert Run(Init(), []) == Some(Init());
  }

  lemma DroppingIsReachable(q: Req)
    requires q == AnsweredReq(1)
    ensures Reachable(Registered(q).(reader := Dropping(7, 1)))
  {
    hide Run, Reachable;
    var before := q.(dispatches := 0);
    RegisteredIsReachable(before);
    var looked := Registered(before).(reader := Dispatching(7, 1));
    Leads(Registered(before), NotifyFrame(7), looked);
    assert looked.reqs[1 := q] == Registered(q).reqs;
    Leads(looked, Dispatch, Registered(q).(reader := Dropping(7, 1)));
  }

  /**
   An Unsubscribe between the dispatch of a one-shot's notification and its removal by the read loop
   makes both threads run the user's shutdown.
   */
  lemma OneShotShutdownMayRunTwice() returns (s: State)
    ensures Reachable(s) && 1 in s.reqs && s.reqs[1].shutdowns == 2
  {
    hide Run, Reachable;
    var q := AnsweredReq(1);
    DroppingIsReachable(q);
    var dropping := Registered(q).(reader := Dropping(7, 1));
    var left := dropping.(sh := Shared(false, 2, Some({}), Some(map[])), owed := multiset{1});
    assert map[7 := 1] - {7} == map[] && multiset{} + multiset{1} == multiset{1};
    Leads(dropping, Unsubscribe(1), left);
    s := DropAfterLeaving(left, q);
  }

  lemma DropAfterLeaving(left: State, q: Req) returns (s: State)
    requires Reachable(left) && left.reqs == map[1 := q] && left.reader == Dropping(7, 1)
    requires left.sh == Shared(false, 2, Some({}), Some(map[])) && left.owed == multiset{1} && q.shutdowns == 0
    ensures Reachable(s) && 1 in s.reqs && s.reqs[1].shutdowns == 2
  {
    hide Run, Reachable;
    var dropped := left.(reader := ShuttingDown(1));
    var none: map<nat, nat> := map[];
    assert none - {7} == none;
    Leads(left, DropOneShot, dropped);
    s := ShutDownTwice(dropped, q);
  }

  lemma ShutDownTwice(dropped: State, q: Req) returns (s: State)
    requires Reachable(dropped) && dropped.reqs == map[1 := q] && dropped.reader == ShuttingDown(1)
    requires dropped.owed == multiset{1} && q.shutdowns == 0
    ensures Reachable(s) && 1 in s.reqs && s.reqs[1].shutdowns == 2
  {
    hide Run, Reachable;
    var once := dropped.(reader := Idle, reqs := map[1 := RunShutdown(q)]);
    assert dropped.reqs[1 := RunShutdown(q)] == once.reqs;
    Leads(dropped, ShutDownOneShot, once);
    s := once.(owed := multiset{}, reqs := map[1 := RunShutdown(RunShutdown(q))]);
    assert once.reqs[1 := RunShutdown(RunShutdown(q))] == s.reqs && multiset{1} - multiset{1} == multiset{};
    Leads(once, ShutDownUnsubscribed(1), s);
  }

  /** The request of a subscribe call that has returned success although it was refused. */
  function SilentReq(): (q: Req) {
    NewReq(false).(answer := Some(Refused(true)), replies := 1, caller := Succeeded)
  }

  /** A refusal with an empty message makes subscribe return success with nothing registered. */
  lemma SilentRefusalSucceeds() returns (s: State)
    ensures Reachable(s) && 1 in s.reqs && s.reqs[1].caller == Succeeded && s.reqs[1].subId.None?
    ensures s.sh.subs == Some(map[])
    ensures s == State(Shared(false, 1, Some({}), Some(map[])), map[1 := SilentReq()], Idle, multiset{}, NotStarted)
  {
    hide Run, Reachable;
    StartsReachable();
    var sending := NewReq(false);
    var enrolled := State(Shared(false, 1, Some({1}), Some(map[])), map[1 := sending], Idle, multiset{}, NotStarted);
    assert {} + {1} == {1};
    Leads(Init(), Action.Subscribe(false), enrolled);
    var waiting := sending.(caller := Waiting);
    var sent := enrolled.(reqs := map[1 := waiting]);
    assert enrolled.reqs[1 := waiting] == sent.reqs;
    Leads(enrolled, WriteDone(1, true), sent);
    s := SilentReply(sent, waiting);
  }

  lemma SilentReply(sent: State, waiting: Req) returns (s: State)
    requires Reachable(sent) && waiting == NewReq(false).(caller := Waiting)
    requires sent == State(Shared(false, 1, Some({1}), Some(map[])), map[1 := waiting], Idle, multiset{}, NotStarted)
    ensures Reachable(s)
    ensures s == State(Shared(false, 1, Some({}), Some(map[])), map[1 := SilentReq()], Idle, multiset{}, NotStarted)
  {
    hide Run, Reachable;
    var answered := waiting.(answer := Some(Refused(true)));
    var taken := State(Shared(false, 1, Some({}), Some(map[])), map[1 := answered], Replying(1, Refused(true)),
                       multiset{},
                       NotStarted);
    assert {1} - {1} == {} && sent.reqs[1 := answered] == taken.reqs;
    Leads(sent, ReplyFrame(1, Refused(true)), taken);
    var closed := taken.(reader := Idle, reqs := map[1 := answered.(replies := 1)]);
    assert taken.reqs[1 := answered.(replies := 1)] == closed.reqs;
    Leads(taken, ResolveError, closed);
    s := closed.(reqs := map[1 := answered.(replies := 1, caller := Succeeded)]);
    assert closed.reqs[1 := answered.(replies := 1, caller := Succeeded)] == s.reqs;
    Leads(closed, SeeReply(1), s);
  }

  /** Call 1 silently refused and returned, call 2 with request q, and the maps as sh says. */
  function BesideSilent(sh: Shared, q: Req, reader: Reader): (s: State) {
    State(sh, map[1 := SilentReq(), 2 := q], reader, multiset{}, NotStarted)
  }

  /**
   The premises of SilentHandleTakesForeignEntry are met: a second call is assigned id zero while the
   first holds a handle that names it.
   */
  lemma SilentHandleBesideZero() returns (s: State)
    ensures Reachable(s) && 1 in s.reqs && s.reqs[1].caller == Succeeded && s.reqs[1].subId.None?
    ensures Lookup(s.sh, 0) == Some(2)
  {
    hide Run, Reachable;
    var before := SilentRefusalSucceeds();
    var pending := Shared(false, 2, Some({2}), Some(map[]));
    var sending := NewReq(false);
    assert {} + {2} == {2};
    assert before.reqs[2 := sending] == map[1 := SilentReq(), 2 := sending];
    Leads(before, Action.Subscribe(false), BesideSilent(pending, sending, Idle));
    var waiting := sending.(caller := Waiting);
    assert map[1 := SilentReq(), 2 := sending][2 := waiting] == map[1 := SilentReq(), 2 := waiting];
    Leads(BesideSilent(pending, sending, Idle), WriteDone(2, true), BesideSilent(pending, waiting, Idle));
    s := ZeroAssigned(waiting);
  }

  lemma ZeroAssigned(waiting: Req) returns (s: State)
    requires waiting == NewReq(false).(caller := Waiting)
    requires Reachable(BesideSilent(Shared(false, 2, Some({2}), Some(map[])), waiting, Idle))
    ensures Reachable(s) && 1 in s.reqs && s.reqs[1].caller == Succeeded && s.reqs[1].subId.None?
    ensures Lookup(s.sh, 0) == Some(2)
  {
    hide Run, Reachable;
    var sent := BesideSilent(Shared(false, 2, Some({2}), Some(map[])), waiting, Idle);
    var answered := waiting.(answer := Some(Assigned(0)));
    var taken := BesideSilent(Shared(false, 2, Some({}), Some(map[])), answered, Replying(2, Assigned(0)));
    assert {2} - {2} == {} && sent.reqs[2 := answered] == taken.reqs;
    Leads(sent, ReplyFrame(2, Assigned(0)), taken);
    var entered := answered.(subId := Some(0));
    s := BesideSilent(Shared(false, 2, Some({}), Some(map[0 := 2])), entered, Acking(2));
    assert taken.reqs[2 := entered] == s.reqs;
    Leads(taken, Register, s);
  }
}
