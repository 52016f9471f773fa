/**
 Drop-oldest delivery (sendOrDropOldest in ws/util.go) over a bounded channel: the call by itself,
 and one producer interleaved with any number of receivers, who may take values between any two of
 the call's three channel operations.
 */
module WsUtil {
  import opened Wire
  import opened Ordering

  // ---------------------------------------------------------------- one undisturbed call

  /** The buffer after v was sent: the oldest element makes room when the buffer is full. */
  function Pushed<T>(buf: seq<T>, cap: nat, v: T): (r: seq<T>)
    requires |buf| <= cap && cap > 0
    ensures |r| <= cap && |r| > 0 && r[|r| - 1] == v
  {
    if |buf| < cap then buf + [v] else buf[1..] + [v]
  }

  class Channel<T(!new)> {
    const cap: nat
    var buf: seq<T>

    constructor (capacity: nat)
      ensures cap == capacity && buf == []
    {
      cap := capacity;
      buf := [];
    }

    predicate Valid()
      reads this
    {
      |buf| <= cap
    }

    /** A send case: it is ready when the buffer has room. */
    method TrySend(v: T) returns (ok: bool)
      requires Valid()
      modifies this
      ensures Valid() && ok == (old(|buf|) < cap)
      ensures buf == if ok then old(buf) + [v] else old(buf)
    {
      ok := |buf| < cap;
      if ok {
        buf := buf + [v];
      }
    }

    /** A receive case: it is ready when the buffer is not empty. */
    method TryReceive() returns (v: Option<T>)
      requires Valid()
      modifies this
      ensures Valid()
      ensures old(buf) == [] ==> v == None && buf == []
      ensures old(buf) != [] ==> v == Some(old(buf)[0]) && buf == old(buf)[1..]
    {
      if buf == [] {
        return None;
      }
      v := Some(buf[0]);
      buf := buf[1..];
    }

    method SendOrDropOldest(v: T)
      requires Valid()
      modifies this
      ensures Valid()
      ensures cap > 0 ==> buf == Pushed(old(buf), cap, v)
      ensures cap == 0 ==> buf == old(buf)
    {
      var sent := TrySend(v);
      if !sent {
        var _ := TryReceive();
        var _ := TrySend(v);
      }
    }
  }

  // ---------------------------------------------------------------- one producer, any receivers

  /** Where the producer stands inside sendOrDropOldest; calls are numbered from 0. */
  datatype Producer = Free | Trying | Full | Retrying

  /**
   calls counts the calls begun. The three lists hold call numbers: of the values received, still
   buffered, and dropped; lost counts calls that ended without enqueuing their value.
   */
  datatype Delivery = Delivery(cap: nat, calls: nat, producer: Producer, received: seq<nat>, buf: seq<nat>,
                               dropped: seq<nat>, lost: nat)

  datatype Event = Call | FirstSend | DropOldest | SecondSend | Receive

  predicate CanHappen(s: Delivery, e: Event) {
    match e
    case Call => s.producer.Free?
    case FirstSend => s.producer.Trying?
    case DropOldest => s.producer.Full?
    case SecondSend => s.producer.Retrying?
    case Receive => |s.buf| > 0
  }

  /** The number of the call in progress. */
  function Current(s: Delivery): (r: nat) {
    if s.calls > 0 then s.calls - 1 else 0
  }

  function Next(s: Delivery, e: Event): (r: Delivery)
    requires CanHappen(s, e)
  {
    match e
    case Call => s.(calls := s.calls + 1, producer := Trying)
    case FirstSend =>
      if |s.buf| < s.cap then s.(buf := s.buf + [Current(s)], producer := Free) else s.(producer := Full)
    case DropOldest =>
      if |s.buf| > 0 then s.(dropped := s.dropped + [s.buf[0]], buf := s.buf[1..], producer := Retrying)
      else s.(producer := Retrying)
    case SecondSend =>
      if |s.buf| < s.cap then s.(buf := s.buf + [Current(s)], producer := Free)
      else s.(producer := Free, lost := s.lost + 1)
    case Receive => s.(received := s.received + [s.buf[0]], buf := s.buf[1..])
  }

  function Start(cap: nat): (r: Delivery) {
    Delivery(cap, 0, Free, [], [], [], 0)
  }

  function Deliver(s: Delivery, events: seq<Event>): (r: Option<Delivery>) {
    if |events| == 0 then Some(s)
    else
      var n := |events| - 1;
      match Deliver(s, events[..n])
      case Some(m) => if CanHappen(m, events[n]) then Some(Next(m, events[n])) else None
      case None => None
  }

  /** How many calls have enqueued their value. */
  function Enqueued(s: Delivery): (r: int) {
    if s.producer.Free? then s.calls else s.calls - 1
  }

  function Bag(xs: seq<nat>): (r: multiset<nat>) {
    multiset(xs)
  }

  function UpTo(n: nat): (m: multiset<nat>)
    ensures |m| == n && forall x: nat :: m[x] == if x < n then 1 else 0
  {
    if n == 0 then multiset{}
    else
      var last: nat := n - 1;
      UpTo(last) + multiset{last}
  }

  /** Everything that delivery in order without loss means. */
  ghost predicate InOrder(s: Delivery) {
    && |s.buf| <= s.cap && s.lost == 0 && Enqueued(s) >= 0
    // Received and buffered values are a subsequence of the values sent, in order.
    && Increasing(s.received + s.buf)
    // Every dropped value was then the oldest in the buffer.
    && Increasing(s.dropped + s.buf)
    // Every value sent was received, is buffered, or was dropped.
    && Bag(s.received) + Bag(s.buf) + Bag(s.dropped) == UpTo(Enqueued(s))
    // After making room, there is room.
    && (s.producer.Retrying? ==> |s.buf| < s.cap)
    && |s.dropped| + One(s.producer.Trying? || s.producer.Full?) <= s.calls
  }

  lemma AllBelow(s: Delivery)
    requires InOrder(s)
    ensures forall i :: 0 <= i < |s.received| ==> s.received[i] < Enqueued(s)
    ensures forall i :: 0 <= i < |s.buf| ==> s.buf[i] < Enqueued(s)
    ensures forall i :: 0 <= i < |s.dropped| ==> s.dropped[i] < Enqueued(s)
  {
    var all := Bag(s.received) + Bag(s.buf) + Bag(s.dropped);
    forall i | 0 <= i < |s.received| ensures s.received[i] < Enqueued(s) {
      assert s.received[i] in Bag(s.received);
      assert s.received[i] in all;
    }
    forall i | 0 <= i < |s.buf| ensures s.buf[i] < Enqueued(s) {
      assert s.buf[i] in Bag(s.buf);
      assert s.buf[i] in all;
    }
    forall i | 0 <= i < |s.dropped| ensures s.dropped[i] < Enqueued(s) {
      assert s.dropped[i] in Bag(s.dropped);
      assert s.dropped[i] in all;
    }
  }

  lemma Enqueues(s: Delivery)
    requires InOrder(s) && s.cap > 0 && !s.producer.Free? && |s.buf| < s.cap
    ensures InOrder(s.(buf := s.buf + [Current(s)], producer := Free))
  {
    var t := s.(buf := s.buf + [Current(s)], producer := Free);
    var last := Current(s);
    AllBelow(s);
    assert t.received + t.buf == (s.received + s.buf) + [last];
    assert t.dropped + t.buf == (s.dropped + s.buf) + [last];
    assert Bag(t.buf) == Bag(s.buf) + Bag([last]);
  }

  lemma TakesHead(s: Delivery)
    requires InOrder(s) && |s.buf| > 0
    ensures InOrder(s.(received := s.received + [s.buf[0]], buf := s.buf[1..]))
  {
    var t := s.(received := s.received + [s.buf[0]], buf := s.buf[1..]);
    assert s.buf == [s.buf[0]] + t.buf;
    assert t.received + t.buf == s.received + s.buf;
    assert Bag(s.buf) == Bag([s.buf[0]]) + Bag(t.buf);
    var before, after := s.dropped + s.buf, t.dropped + t.buf;
    assert forall i :: 0 <= i < |after| ==> after[i] == before[if i < |s.dropped| then i else i + 1];
  }

  lemma DropsHead(s: Delivery)
    requires InOrder(s) && |s.buf| > 0 && s.producer.Full?
    ensures InOrder(s.(dropped := s.dropped + [s.buf[0]], buf := s.buf[1..], producer := Retrying))
  {
    var t := s.(dropped := s.dropped + [s.buf[0]], buf := s.buf[1..], producer := Retrying);
    assert s.buf == [s.buf[0]] + t.buf;
    assert t.dropped + t.buf == s.dropped + s.buf;
    assert Bag(s.buf) == Bag([s.buf[0]]) + Bag(t.buf);
    var before, after := s.received + s.buf, t.received + t.buf;
    assert forall i :: 0 <= i < |after| ==> after[i] == before[if i < |s.received| then i else i + 1];
  }

  lemma NextKeepsOrder(s: Delivery, e: Event)
    requires InOrder(s) && s.cap > 0 && CanHappen(s, e)
    ensures InOrder(Next(s, e)) && Next(s, e).cap == s.cap
  {
    match e
    case Call =>
    case FirstSend =>
      if |s.buf| < s.cap {
        Enqueues(s);
      }
    case DropOldest =>
      if |s.buf| > 0 {
        DropsHead(s);
      }
    case SecondSend =>
      Enqueues(s);
    case Receive =>
      TakesHead(s);
  }

  /** With room for at least one value, every run delivers in order, loses no call's own value and conserves values. */
  lemma {:induction false} DeliveryInOrder(cap: nat, events: seq<Event>)
    requires cap > 0 && Deliver(Start(cap), events).Some?
    ensures InOrder(Deliver(Start(cap), events).value) && Deliver(Start(cap), events).value.cap == cap
  {
    hide InOrder, Next, CanHappen;
    if |events| == 0 {
      StartsInOrder(cap);
    } else {
      var n := |events| - 1;
      DeliveryInOrder(cap, events[..n]);
      NextKeepsOrder(Deliver(Start(cap), events[..n]).value, events[n]);
    }
  }

  lemma StartsInOrder(cap: nat)
    ensures InOrder(Start(cap))
  {
  }

  /** Counting: values sent are values received, buffered and dropped, at most one dropped per call. */
  lemma DeliveryCounts(cap: nat, events: seq<Event>)
    requires cap > 0 && Deliver(Start(cap), events).Some?
    ensures var s := Deliver(Start(cap), events).value;
            && s.lost == 0 && |s.dropped| <= s.calls
            && (s.producer.Free? ==> s.calls == |s.received| + |s.buf| + |s.dropped|)
            && forall i :: 0 <= i < s.calls - 1 ==> i in s.received || i in s.buf || i in s.dropped
  {
    DeliveryInOrder(cap, events);
    var s := Deliver(Start(cap), events).value;
    var all := Bag(s.received) + Bag(s.buf) + Bag(s.dropped);
    assert |all| == |UpTo(Enqueued(s))|;
    forall i | 0 <= i < s.calls - 1 ensures i in s.received || i in s.buf || i in s.dropped {
      assert i in UpTo(Enqueued(s));
      assert i in all;
    }
  }

  /** t continues the call begun in s: at most one value dropped so far, and in the end its own enqueued. */
  ghost predicate Continues(s: Delivery, t: Delivery) {
    && t.cap == s.cap > 0 && |t.buf| <= t.cap && t.calls == s.calls + 1
    && match t.producer
       case Trying => t.dropped == s.dropped
       case Full => t.dropped == s.dropped
       case Retrying => |t.buf| < t.cap && DropsOne(s, t)
       case Free => DropsOne(s, t) && (s.calls in t.received || s.calls in t.buf)
  }

  ghost predicate DropsOne(s: Delivery, t: Delivery) {
    t.dropped == s.dropped || exists x :: t.dropped == s.dropped + [x]
  }

  /**
   Each call drops at most one value, whatever is received meanwhile, and has enqueued its own when it
   returns.
   */
  lemma {:induction false} OneDropPerCall(s: Delivery, events: seq<Event>)
    requires s.producer.Free? && |s.buf| <= s.cap && s.cap > 0 && |events| > 0 && events[0] == Call
    requires (forall i :: 1 <= i < |events| ==> events[i] != Call) && Deliver(s, events).Some?
    ensures var t := Deliver(s, events).value;
            && Continues(s, t) && |t.dropped| <= |s.dropped| + 1
            && (t.producer.Free? ==> s.calls in t.received || s.calls in t.buf)
  {
    var n := |events| - 1;
    if n == 0 {
      assert Deliver(s, []) == Some(s) && events[..0] == [];
    } else {
      OneDropPerCall(s, events[..n]);
      CallGoesOn(s, Deliver(s, events[..n]).value, events[n]);
    }
  }

  lemma CallGoesOn(s: Delivery, t: Delivery, e: Event)
    requires Continues(s, t) && CanHappen(t, e) && e != Call
    ensures Continues(s, Next(t, e))
  {
    if e == Receive {
      assert t.buf == [t.buf[0]] + t.buf[1..];
    }
  }

  /** A call from first to last operation without receives is the undisturbed call. */
  lemma UndisturbedCall(s: Delivery)
    requires s.producer.Free? && |s.buf| <= s.cap && s.cap > 0
    ensures var events := if |s.buf| < s.cap then [Call, FirstSend] else [Call, FirstSend, DropOldest, SecondSend];
            Deliver(s, events).Some? && Deliver(s, events).value.buf == Pushed(s.buf, s.cap, s.calls)
  {
    var one, two, three := [Call], [Call, FirstSend], [Call, FirstSend, DropOldest];
    assert one[..0] == [] && two[..1] == one;
    assert Deliver(s, []) == Some(s);
    assert Deliver(s, one) == Some(Next(s, Call));
    assert Deliver(s, two) == Some(Next(Next(s, Call), FirstSend));
    if |s.buf| == s.cap {
      var four := [Call, FirstSend, DropOldest, SecondSend];
      assert three[..2] == two && four[..3] == three;
      assert Deliver(s, three).Some?;
      assert Deliver(s, four).Some?;
    }
  }
}
