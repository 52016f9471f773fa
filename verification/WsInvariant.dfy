/** Every step of every thread keeps the protocol's invariant, so every run does. */
module WsInvariant {
  import opened Wire
  import opened WsProtocol

  // ---------------------------------------------------------------- maps and threads

  ghost predicate Numbered(s: State) {
    forall r :: r in s.reqs ==> r <= s.sh.nextReq
  }

  lemma CloseKept(s: State, a: Action)
    requires CloseInv(s) && Enabled(s, a)
    ensures CloseInv(Step(s, a))
  {
  }

  /** The steps of a subscribing caller. */
  predicate CallerStep(a: Action) {
    a.Subscribe? || a.WriteDone? || a.ContextDone? || a.CancelPending? || a.SeeClientDone? || a.SeeReply?
  }

  /** The steps of the read loop over a reply frame. */
  predicate ReplyStep(a: Action) {
    a.ReplyFrame? || a.ResolveError? || a.Register? || a.CloseDone?
  }

  /** The steps of the read loop over a notification, and its end. */
  predicate NotifyStep(a: Action) {
    a.NotifyFrame? || a.Dispatch? || a.DropOneShot? || a.ShutDownOneShot? || a.ReadError?
  }

  predicate ReaderStep(a: Action) {
    ReplyStep(a) || NotifyStep(a)
  }

  /** The steps of an unsubscribing caller. */
  predicate LeaverStep(a: Action) {
    a.Unsubscribe? || a.ShutDownUnsubscribed?
  }

  /** The steps of the thread that runs Close. */
  predicate CloserStep(a: Action) {
    a.CloseLocked? || a.FailPending? || a.ShutDownEntry? || a.CloseFinished?
  }

  lemma CallerKeepsMaps(s: State, a: Action)
    requires CloseInv(s) && MapsInv(s) && Numbered(s) && Enabled(s, a) && CallerStep(a)
    ensures MapsInv(Step(s, a))
  {
  }

  lemma ReplyKeepsMaps(s: State, a: Action)
    requires MapsInv(s) && ReaderInv(s) && Enabled(s, a) && ReplyStep(a) && !a.Register?
    ensures MapsInv(Step(s, a))
  {
    hide CloseInv;
  }

  lemma NotifyKeepsMaps(s: State, a: Action)
    requires MapsInv(s) && ReaderInv(s) && Enabled(s, a) && NotifyStep(a)
    ensures MapsInv(Step(s, a))
  {
    hide CloseInv;
  }

  lemma LeaverKeepsMaps(s: State, a: Action)
    requires MapsInv(s) && Enabled(s, a) && LeaverStep(a)
    ensures MapsInv(Step(s, a))
  {
  }

  lemma CloserKeepsMaps(s: State, a: Action)
    requires MapsInv(s) && Enabled(s, a) && CloserStep(a)
    ensures MapsInv(Step(s, a))
  {
  }

  lemma RegisterKeepsMaps(s: State)
    requires FrameInv(s) && Enabled(s, Register) && RequestInv(s, s.reader.req)
    ensures MapsInv(Step(s, Register))
  {
  }

  lemma ReaderKeptByReader(s: State, a: Action)
    requires FrameInv(s) && Enabled(s, a) && ReaderStep(a)
    ensures ReaderInv(Step(s, a))
  {
  }

  lemma ReaderKeptByOthers(s: State, a: Action)
    requires FrameInv(s) && Numbered(s) && Enabled(s, a) && !ReaderStep(a)
    ensures ReaderInv(Step(s, a))
  {
    hide MapsInv, CloseInv;
  }

  lemma UniqueKeptByReader(s: State, a: Action)
    requires FrameInv(s) && Enabled(s, a) && ReaderStep(a)
    ensures UniqueInv(Step(s, a))
  {
  }

  lemma UniqueKeptByOthers(s: State, a: Action)
    requires FrameInv(s) && Numbered(s) && Enabled(s, a) && !ReaderStep(a)
    ensures UniqueInv(Step(s, a))
  {
    hide MapsInv, CloseInv;
  }

  // ---------------------------------------------------------------- one request, one step

  lemma CallerKeepsCall(s: State, a: Action, r: nat)
    requires FrameInv(s) && Enabled(s, a) && CallerStep(a) && r in s.reqs && CallInv(s, r)
    ensures CallInv(Step(s, a), r)
  {
    hide MapsInv, ReaderInv, UniqueInv;
  }

  lemma ReplyKeepsCall(s: State, a: Action, r: nat)
    requires FrameInv(s) && Enabled(s, a) && ReplyStep(a) && r in s.reqs && CallInv(s, r)
    ensures CallInv(Step(s, a), r)
  {
    hide MapsInv, UniqueInv;
  }

  lemma NotifyKeepsCall(s: State, a: Action, r: nat)
    requires FrameInv(s) && Enabled(s, a) && NotifyStep(a) && r in s.reqs && CallInv(s, r)
    ensures CallInv(Step(s, a), r)
  {
    hide MapsInv, UniqueInv;
  }

  lemma LeaverKeepsCall(s: State, a: Action, r: nat)
    requires FrameInv(s) && Enabled(s, a) && LeaverStep(a) && r in s.reqs && CallInv(s, r)
    ensures CallInv(Step(s, a), r)
  {
    hide FrameInv;
  }

  lemma CloserKeepsCall(s: State, a: Action, r: nat)
    requires FrameInv(s) && Enabled(s, a) && CloserStep(a) && r in s.reqs && CallInv(s, r)
    ensures CallInv(Step(s, a), r)
  {
    hide MapsInv, ReaderInv, UniqueInv;
  }

  lemma CallerKeepsEntry(s: State, a: Action, r: nat)
    requires FrameInv(s) && Enabled(s, a) && CallerStep(a) && r in s.reqs && RequestInv(s, r)
    ensures EntryInv(Step(s, a), r)
  {
    hide MapsInv, ReaderInv, UniqueInv;
  }

  lemma RegisterKeepsEntry(s: State, a: Action, r: nat)
    requires FrameInv(s) && Enabled(s, a) && a.Register? && r in s.reqs && RequestInv(s, r)
    ensures EntryInv(Step(s, a), r)
  {
    hide MapsInv, UniqueInv, CloseInv;
  }

  lemma AnswerKeepsEntry(s: State, a: Action, r: nat)
    requires FrameInv(s) && Enabled(s, a) && (ReplyStep(a) && !a.Register?) && r in s.reqs && RequestInv(s, r)
    ensures EntryInv(Step(s, a), r)
  {
    hide MapsInv, UniqueInv, CloseInv;
  }

  lemma ReplyKeepsEntry(s: State, a: Action, r: nat)
    requires FrameInv(s) && Enabled(s, a) && ReplyStep(a) && r in s.reqs && RequestInv(s, r)
    ensures EntryInv(Step(s, a), r)
  {
    hide FrameInv, Enabled, CallInv, EntryInv, Step;
    if a.Register? {
      RegisterKeepsEntry(s, a, r);
    } else {
      AnswerKeepsEntry(s, a, r);
    }
  }

  lemma DispatchKeepsEntry(s: State, a: Action, r: nat)
    requires FrameInv(s) && Enabled(s, a) && (a.NotifyFrame? || a.Dispatch? || a.ReadError?) && r in s.reqs
             && RequestInv(s, r)
    ensures EntryInv(Step(s, a), r)
  {
    hide CloseInv, ReaderInv;
  }

  lemma DropKeepsEntry(s: State, a: Action, r: nat)
    requires FrameInv(s) && Enabled(s, a) && a.DropOneShot? && r in s.reqs && RequestInv(s, r)
    requires a.DropOneShot? ==> RequestInv(s, s.reader.req)
    ensures EntryInv(Step(s, a), r)
  {
    hide CloseInv, ReaderInv;
  }

  lemma ShutDownKeepsEntry(s: State, a: Action, r: nat)
    requires FrameInv(s) && Enabled(s, a) && a.ShutDownOneShot? && r in s.reqs && RequestInv(s, r)
    ensures EntryInv(Step(s, a), r)
  {
    hide CloseInv, ReaderInv, MapsInv, UniqueInv;
  }

  lemma NotifyKeepsEntry(s: State, a: Action, r: nat)
    requires FrameInv(s) && Enabled(s, a) && NotifyStep(a) && r in s.reqs && RequestInv(s, r)
    requires a.DropOneShot? ==> RequestInv(s, s.reader.req)
    ensures EntryInv(Step(s, a), r)
  {
    hide FrameInv, Enabled, CallInv, EntryInv, Step;
    if a.DropOneShot? {
      DropKeepsEntry(s, a, r);
    } else if a.ShutDownOneShot? {
      ShutDownKeepsEntry(s, a, r);
    } else {
      DispatchKeepsEntry(s, a, r);
    }
  }

  lemma LeavingKeepsEntry(s: State, a: Action, r: nat)
    requires FrameInv(s) && Enabled(s, a) && a.Unsubscribe? && r in s.reqs && RequestInv(s, r)
    ensures EntryInv(Step(s, a), r)
  {
    hide CloseInv, ReaderInv, UniqueInv;
  }

  lemma OwedKeepsEntry(s: State, a: Action, r: nat)
    requires FrameInv(s) && Enabled(s, a) && a.ShutDownUnsubscribed? && r in s.reqs && RequestInv(s, r)
    ensures EntryInv(Step(s, a), r)
  {
    hide FrameInv, CallInv;
  }

  lemma CloserKeepsEntry(s: State, a: Action, r: nat)
    requires FrameInv(s) && Enabled(s, a) && CloserStep(a) && r in s.reqs && RequestInv(s, r)
    ensures EntryInv(Step(s, a), r)
  {
    hide ReaderInv, UniqueInv;
  }

  lemma NewRequestKept(s: State, oneShot: bool)
    requires FrameInv(s) && Numbered(s) && !s.sh.closed
    requires forall r :: r in s.owed || r in Taken(s.sh) ==> r in s.reqs
    ensures var t := Step(s, Action.Subscribe(oneShot));
            s.sh.nextReq + 1 in t.reqs && RequestInv(t, s.sh.nextReq + 1)
  {
  }

  lemma RequestKept(s: State, a: Action, r: nat)
    requires Inv(s) && Enabled(s, a) && r in s.reqs
    ensures r in Step(s, a).reqs && RequestInv(Step(s, a), r)
  {
    hide CallInv, EntryInv, FrameInv, Enabled;
    if ReplyStep(a) {
      ReplyKeepsCall(s, a, r);
      ReplyKeepsEntry(s, a, r);
    } else if NotifyStep(a) {
      if a.DropOneShot? {
        ReaderRequest(s, a);
      }
      NotifyKeepsCall(s, a, r);
      NotifyKeepsEntry(s, a, r);
    } else if CallerStep(a) {
      CallerKeepsCall(s, a, r);
      CallerKeepsEntry(s, a, r);
    } else if LeaverStep(a) {
      LeaverKeepsCall(s, a, r);
      if a.Unsubscribe? {
        LeavingKeepsEntry(s, a, r);
      } else {
        OwedKeepsEntry(s, a, r);
      }
    } else {
      CloserKeepsCall(s, a, r);
      CloserKeepsEntry(s, a, r);
    }
  }

  /** The request that the read loop works on satisfies the invariant. */
  lemma ReaderRequest(s: State, a: Action)
    requires Inv(s) && Enabled(s, a) && (a.Register? || a.DropOneShot?)
    ensures !s.reader.Idle? && !s.reader.Ended? && s.reader.req in s.reqs && RequestInv(s, s.reader.req)
  {
    hide RequestInv, MapsInv, UniqueInv;
  }

  lemma AllNumbered(s: State)
    requires Inv(s)
    ensures Numbered(s) && CloseInv(s) && MapsInv(s) && ReaderInv(s) && UniqueInv(s)
    ensures forall r :: r in s.owed || r in Taken(s.sh) ==> r in s.reqs
  {
    hide ReaderInv, UniqueInv;
  }

  lemma FrameKept(s: State, a: Action)
    requires Inv(s) && Enabled(s, a)
    ensures FrameInv(Step(s, a))
  {
    hide Step, Enabled, MapsInv, UniqueInv, CloseInv, ReaderInv, RequestInv;
    AllNumbered(s);
    CloseKept(s, a);
    if ReaderStep(a) {
      ReaderKeptByReader(s, a);
      UniqueKeptByReader(s, a);
    } else {
      ReaderKeptByOthers(s, a);
      UniqueKeptByOthers(s, a);
    }
    if a.Register? {
      ReaderRequest(s, a);
      RegisterKeepsMaps(s);
    } else if ReplyStep(a) {
      ReplyKeepsMaps(s, a);
    } else if NotifyStep(a) {
      NotifyKeepsMaps(s, a);
    } else if CallerStep(a) {
      CallerKeepsMaps(s, a);
    } else if LeaverStep(a) {
      LeaverKeepsMaps(s, a);
    } else {
      CloserKeepsMaps(s, a);
    }
  }

  lemma StepKeeps(s: State, a: Action)
    requires Inv(s) && Enabled(s, a)
    ensures Inv(Step(s, a))
  {
    hide Step, Enabled, FrameInv, RequestInv;
    FrameKept(s, a);
    forall r | r in Step(s, a).reqs ensures RequestInv(Step(s, a), r) {
      if r in s.reqs {
        RequestKept(s, a, r);
      } else {
        NewOnlyBySubscribe(s, a, r);
        AllNumbered(s);
        NewRequestKept(s, a.oneShot);
      }
    }
  }

  lemma NewOnlyBySubscribe(s: State, a: Action, r: nat)
    requires Enabled(s, a) && r in Step(s, a).reqs && r !in s.reqs
    ensures a.Subscribe? && !s.sh.closed && r == s.sh.nextReq + 1
  {
  }

  /** The invariant holds in every state of every run. */
  lemma {:induction false} RunKeeps(actions: seq<Action>)
    requires Run(Init(), actions).Some?
    ensures Inv(Run(Init(), actions).value)
  {
    hide Inv, Step, Enabled;
    if |actions| == 0 {
      InitHolds();
    } else {
      RunKeeps(actions[..|actions| - 1]);
      StepKeeps(Run(Init(), actions[..|actions| - 1]).value, actions[|actions| - 1]);
    }
  }

  lemma InitHolds()
    ensures Inv(Init())
  {
  }
}
