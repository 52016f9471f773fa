/**
 The state of ws/client.go that the mutex guards, and its critical sections as methods: while the two
 maps hold what a state of the protocol in module WsProtocol says of the requests, each method leaves
 them holding what the corresponding step makes of that state.
 */
module WsClient {
  import opened Wire
  import opened WsProtocol
  import opened WsInvariant

  /** Names the channels and functions of the subscribe call with number req. */
  datatype PendingReply = PendingReply(req: nat, oneShot: bool)

  datatype SubEntry = SubEntry(subId: nat, req: nat, oneShot: bool)

  /** The request each entry belongs to. */
  function Requests(subs: map<nat, SubEntry>): (r: map<nat, nat>)
    ensures forall i :: i in r <==> i in subs
    ensures forall i :: i in r ==> r[i] == subs[i].req
  {
    map i | i in subs :: subs[i].req
  }

  class Client {
    var nextReqID: nat
    var pendingReqs: Option<map<nat, PendingReply>>
    var subscriptions: Option<map<nat, SubEntry>>
    var closedFlag: bool

    constructor ()
      ensures Mirrors(Init()) && Abs() == Init().sh
    {
      nextReqID := 0;
      pendingReqs := Some(map[]);
      subscriptions := Some(map[]);
      closedFlag := false;
      new;
      assert pendingReqs.value.Keys == {} && Requests(subscriptions.value) == map[];
    }

    /** Between critical sections: both maps are nil exactly when the client is closed. */
    predicate Valid()
      reads this
    {
      && (closedFlag <==> pendingReqs.None?)
      && (closedFlag <==> subscriptions.None?)
      && (pendingReqs.Some? ==> forall r :: r in pendingReqs.value ==> pendingReqs.value[r].req == r)
      && (subscriptions.Some? ==> forall i :: i in subscriptions.value ==> subscriptions.value[i].subId == i)
    }

    /** What the protocol sees of the fields. */
    function Abs(): (r: Shared)
      reads this
    {
      Shared(closedFlag, nextReqID,
             if pendingReqs.Some? then Some(pendingReqs.value.Keys) else None,
             if subscriptions.Some? then Some(Requests(subscriptions.value)) else None)
    }

    /**
     The fields hold what s says: every pending call and every entry stands under its own number, with
     the request it belongs to and with that request's one-shot flag.
     */
    predicate Mirrors(s: State)
      reads this
    {
      && Valid() && Abs() == s.sh
      && (forall r: nat :: pendingReqs.Some? && r in pendingReqs.value ==>
            r in s.reqs && pendingReqs.value[r] == PendingReply(r, s.reqs[r].oneShot))
      && (forall i: nat :: subscriptions.Some? && i in subscriptions.value ==>
            && subscriptions.value[i].req in s.reqs
            && subscriptions.value[i].oneShot == s.reqs[subscriptions.value[i].req].oneShot)
    }

    /** subscribe: refuses when closed; else the request has a fresh number and is pending. */
    method BeginSubscribe(oneShot: bool, ghost s: State) returns (r: Option<PendingReply>)
      requires Mirrors(s) && Inv(s)
      modifies this
      ensures Mirrors(Step(s, Action.Subscribe(oneShot)))
      ensures r.None? <==> old(closedFlag)
      ensures r.None? ==> nextReqID == old(nextReqID) && pendingReqs == old(pendingReqs)
      ensures r.Some? ==> nextReqID == old(nextReqID) + 1 && r.value == PendingReply(nextReqID, oneShot)
                          && nextReqID !in s.reqs && pendingReqs.Some?
                          && pendingReqs.value == old(pendingReqs.value)[nextReqID := r.value]
      ensures subscriptions == old(subscriptions) && closedFlag == old(closedFlag)
    {
      hide Inv, Step, MapsInv, ReaderInv, UniqueInv;
      Enrolled(s, oneShot);
      if closedFlag {
        return None;
      }
      nextReqID := nextReqID + 1;
      var pending := PendingReply(nextReqID, oneShot);
      pendingReqs := Some(pendingReqs.value[nextReqID := pending]);
      assert pendingReqs.value.Keys == old(pendingReqs.value.Keys) + {nextReqID};
      return Some(pending);
    }

    /** subscribe, when the write failed, the context is done or the client is. */
    method CancelPending(reqID: nat, ghost s: State)
      requires Mirrors(s) && Enabled(s, Action.CancelPending(reqID))
      modifies this`pendingReqs
      ensures Mirrors(Step(s, Action.CancelPending(reqID)))
    {
      ghost var cancelled := Step(s, Action.CancelPending(reqID));
      DeletePending(reqID);
      assert forall r :: r in s.reqs ==> r in cancelled.reqs && cancelled.reqs[r].oneShot == s.reqs[r].oneShot;
    }

    method DeletePending(reqID: nat)
      requires Valid()
      modifies this`pendingReqs
      ensures Valid() && Abs() == Withdraw(old(Abs()), reqID)
      ensures pendingReqs.Some? <==> old(pendingReqs.Some?)
      ensures pendingReqs.Some? ==> pendingReqs.value == old(pendingReqs.value) - {reqID}
    {
      if pendingReqs.Some? {
        pendingReqs := Some(pendingReqs.value - {reqID});
        assert pendingReqs.value.Keys == old(pendingReqs.value.Keys) - {reqID};
      }
    }

    /**
     handleReply, first section: whoever removes the pending entry is the one to close its channel. It is
     the entry that subscribe made, with its flag.
     */
    method TakePending(id: nat, reply: Reply, ghost s: State) returns (r: Option<PendingReply>)
      requires Mirrors(s) && Enabled(s, ReplyFrame(id, reply))
      modifies this`pendingReqs
      ensures Mirrors(Step(s, ReplyFrame(id, reply)))
      ensures r.Some? <==> id in Taken(s.sh)
      ensures r.Some? <==> Step(s, ReplyFrame(id, reply)).reader == Replying(id, reply)
      ensures r.Some? ==> id in s.reqs && r.value == PendingReply(id, s.reqs[id].oneShot)
      ensures id !in Taken(Abs())
    {
      if pendingReqs.Some? && id in pendingReqs.value {
        r := Some(pendingReqs.value[id]);
      } else {
        assert Withdraw(s.sh, id) == s.sh by {
          assert s.sh.pending.Some? ==> s.sh.pending.value - {id} == s.sh.pending.value;
        }
        r := None;
      }
      DeletePending(id);
    }

    /** handleReply, second section: registers the entry unless Close has come between. */
    method RegisterEntry(subId: nat, pending: PendingReply, ghost s: State) returns (ok: bool)
      requires Mirrors(s) && s.reader == Replying(pending.req, Assigned(subId)) && pending.req in s.reqs
      requires pending.oneShot == s.reqs[pending.req].oneShot
      modifies this`subscriptions
      ensures Mirrors(Step(s, Register))
      ensures ok == !closedFlag && ok == Step(s, Register).reader.Acking?
      ensures ok ==> subscriptions.Some? && old(subscriptions).Some?
      ensures ok ==> subscriptions.value
                     == old(subscriptions.value)[subId := SubEntry(subId, pending.req, pending.oneShot)]
    {
      if subscriptions.None? {
        return false;
      }
      subscriptions := Some(subscriptions.value[subId := SubEntry(subId, pending.req, pending.oneShot)]);
      assert Requests(subscriptions.value) == Requests(old(subscriptions.value))[subId := pending.req];
      return true;
    }

    /** dispatchIncoming, under the read lock: the entry, with the flag its subscribe call was given. */
    method LookupEntry(subId: nat, ghost s: State) returns (r: Option<SubEntry>)
      requires Mirrors(s)
      ensures r.Some? <==> Lookup(s.sh, subId).Some?
      ensures r.Some? ==> && Lookup(s.sh, subId) == Some(r.value.req) && r.value.req in s.reqs
                          && r.value == SubEntry(subId, r.value.req, s.reqs[r.value.req].oneShot)
      ensures s.reader == Idle ==> Mirrors(Step(s, NotifyFrame(subId)))
    {
      if subscriptions.Some? && subId in subscriptions.value {
        return Some(subscriptions.value[subId]);
      }
      return None;
    }

    method DeleteEntry(subId: nat)
      requires Valid()
      modifies this`subscriptions
      ensures Valid() && Abs() == Delete(old(Abs()), subId)
      ensures subscriptions.Some? <==> old(subscriptions.Some?)
      ensures subscriptions.Some? ==> subscriptions.value == old(subscriptions.value) - {subId}
    {
      if subscriptions.Some? {
        subscriptions := Some(subscriptions.value - {subId});
        assert Requests(subscriptions.value) == Requests(old(subscriptions.value)) - {subId};
      }
    }

    /** dispatchIncoming, after a one-shot's notification. */
    method DropEntry(subId: nat, ghost s: State)
      requires Mirrors(s) && s.reader.Dropping? && s.reader.sub == subId
      modifies this`subscriptions
      ensures Mirrors(Step(s, DropOneShot))
    {
      DeleteEntry(subId);
    }

    /** Unsubscribe: whoever removes the entry is the one to shut it down; its request gets a new number. */
    method TakeEntry(subId: nat, req: nat, ghost s: State)
      returns (r: Option<SubEntry>, closed: bool, reqID: nat)
      requires Mirrors(s) && Enabled(s, Action.Unsubscribe(req)) && HandleId(s.reqs[req]) == subId
      modifies this
      ensures Mirrors(Step(s, Action.Unsubscribe(req)))
      ensures r.Some? <==> Lookup(s.sh, subId).Some?
      ensures r.Some? ==> Lookup(s.sh, subId) == Some(r.value.req) && r.value.req in s.reqs
                          && r.value == SubEntry(subId, r.value.req, s.reqs[r.value.req].oneShot)
      ensures Lookup(Abs(), subId) == None
      ensures closed == closedFlag == old(closedFlag) && reqID == nextReqID == old(nextReqID) + 1
    {
      r := LookupEntry(subId, s);
      DeleteEntry(subId);
      closed := closedFlag;
      nextReqID := nextReqID + 1;
      reqID := nextReqID;
    }

    /** Close: takes both maps, leaving nil behind. */
    method TakeAll(ghost s: State) returns (pending: map<nat, PendingReply>, subs: map<nat, SubEntry>)
      requires Mirrors(s) && CloseInv(s) && Enabled(s, CloseLocked)
      modifies this
      ensures Mirrors(Step(s, CloseLocked))
      ensures Some(pending) == old(pendingReqs) && Some(subs) == old(subscriptions)
      ensures pending.Keys == Taken(s.sh)
      ensures forall r :: r in Entries(s.sh) <==> exists i :: i in subs && subs[i].req == r
      ensures closedFlag && pendingReqs.None? && subscriptions.None? && nextReqID == old(nextReqID)
    {
      pending, subs := pendingReqs.value, subscriptions.value;
      ghost var was := Abs().subs.value;
      assert forall i :: i in subs <==> i in was;
      assert forall i :: i in subs ==> was[i] == subs[i].req;
      closedFlag := true;
      pendingReqs := None;
      subscriptions := None;
    }
  }

  /** What enrolling makes of the state: only a call under a new number is added. */
  lemma Enrolled(s: State, oneShot: bool)
    requires Inv(s)
    ensures var t := Step(s, Action.Subscribe(oneShot));
            if s.sh.closed then t == s else
              && s.sh.nextReq + 1 !in s.reqs && s.sh.pending.Some?
              && t.reqs == s.reqs[s.sh.nextReq + 1 := NewReq(oneShot)]
              && t.sh == s.sh.(nextReq := s.sh.nextReq + 1, pending := Some(s.sh.pending.value + {s.sh.nextReq + 1}))
  {
    hide Inv, MapsInv, ReaderInv, UniqueInv;
    AllNumbered(s);
  }

  /** The steps that run under the mutex and change what it guards. */
  predicate Locked(a: Action) {
    || a.Subscribe? || a.CancelPending? || a.ReplyFrame? || a.Register? || a.DropOneShot? || a.Unsubscribe?
    || a.CloseLocked?
  }

  lemma SharedUntouched(s: State, a: Action)
    requires Enabled(s, a) && !Locked(a)
    ensures Step(s, a).sh == s.sh
  {
  }

  lemma FlagKept(s: State, a: Action, r: nat)
    requires Enabled(s, a) && !a.Subscribe? && r in s.reqs
    ensures r in Step(s, a).reqs && Step(s, a).reqs[r].oneShot == s.reqs[r].oneShot
  {
  }

  /** What the threads do outside the mutex leaves the two maps saying what the state says. */
  lemma OutsideTheMutex(c: Client, s: State, a: Action)
    requires c.Mirrors(s) && Enabled(s, a) && !Locked(a)
    ensures c.Mirrors(Step(s, a))
  {
    hide Step, Enabled;
    forall r | r in s.reqs ensures r in Step(s, a).reqs && Step(s, a).reqs[r].oneShot == s.reqs[r].oneShot {
      FlagKept(s, a, r);
    }
    SharedUntouched(s, a);
  }

  /** A call's flag never changes, so the entry that dispatchIncoming looked up still tells it afterwards. */
  lemma FlagStays(s: State, a: Action, r: nat)
    requires Inv(s) && Enabled(s, a) && r in s.reqs
    ensures r in Step(s, a).reqs && Step(s, a).reqs[r].oneShot == s.reqs[r].oneShot
  {
    hide Inv, Step, Enabled;
    if a.Subscribe? {
      Enrolled(s, a.oneShot);
    } else {
      FlagKept(s, a, r);
    }
  }
}
