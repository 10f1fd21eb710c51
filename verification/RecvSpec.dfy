/** The receive window over unbounded message numbers. */
module RecvSpec {
  import opened Words
  import opened SeqNum
  import opened SendSpec

  /** What the window remembers of an accepted message it has not yet passed: an ordered one is held
      for its turn, an unordered one was handed up on arrival and only its number is kept. */
  datatype Entry = Held(payload: seq<u8>) | HandedUp

  datatype Receiver = Receiver(cap: nat, isn: int, expected: nat, buf: map<nat, Entry>)

  /** A message handed up to the application, with its number. */
  datatype Item = Item(num: nat, msg: Msg)

  datatype Drained = Drained(rcv: Receiver, items: seq<Item>)

  datatype Outcome = Outcome(code: int, rcv: Receiver, items: seq<Item>)

  ghost predicate RecvOk(r: Receiver) {
    Capacity(r.cap) && forall n | n in r.buf :: r.expected <= n < r.expected + r.cap
  }

  function StartRecv(cap: nat, isn: int): (r: Receiver) {
    Receiver(cap, isn, 0, map[])
  }

  /** Every number ever accepted: those passed and those in the buffer. */
  predicate Accepted(r: Receiver, n: nat) {
    n < r.expected || n in r.buf
  }

  // ------------------------------------------------------------ draining

  function Advance(r: Receiver): (r': Receiver)
    requires r.expected in r.buf
    ensures |r'.buf| == |r.buf| - 1
    ensures RecvOk(r) ==> RecvOk(r')
  {
    var buf' := r.buf - {r.expected};
    assert buf'.Keys == r.buf.Keys - {r.expected};
    r.(expected := r.expected + 1, buf := buf')
  }

  /** What passing `expected` hands up: the held message, or nothing for one handed up on arrival. */
  function Passing(r: Receiver): (out: seq<Item>)
    requires r.expected in r.buf
  {
    match r.buf[r.expected]
    case Held(p) => [Item(r.expected, Msg(RELIABLE_ORDERED, p))]
    case HandedUp => []
  }

  /** Unlimited draining: pass contiguous numbers until one is missing. */
  function Drain(r: Receiver): (d: Drained)
    ensures d.rcv.expected !in d.rcv.buf
    decreases |r.buf|
  {
    if r.expected !in r.buf then Drained(r, [])
    else
      var d := Drain(Advance(r));
      Drained(d.rcv, Passing(r) + d.items)
  }

  /** `pop_ready` with room for k items: it stops as soon as the room is used up. */
  function Pop(r: Receiver, k: nat): (d: Drained)
    ensures |d.items| <= k
    ensures |d.items| < k ==> d.rcv.expected !in d.rcv.buf
    decreases |r.buf|
  {
    if k == 0 || r.expected !in r.buf then Drained(r, [])
    else
      var d := Pop(Advance(r), k - |Passing(r)|);
      Drained(d.rcv, Passing(r) + d.items)
  }

  /** The loop inlined in the unordered branch: it also passes unordered numbers without room. */
  function Skim(r: Receiver, k: nat): (d: Drained)
    ensures |d.items| <= k
    ensures |d.items| < k ==> d.rcv.expected !in d.rcv.buf
    decreases |r.buf|
  {
    if r.expected !in r.buf || |Passing(r)| > k then Drained(r, [])
    else
      var d := Skim(Advance(r), k - |Passing(r)|);
      Drained(d.rcv, Passing(r) + d.items)
  }

  /** A loop that has handed up `items` and stands at r is on its way to d. */
  ghost predicate PopReaches(r: Receiver, items: seq<Item>, max: nat, d: Drained) {
    && |items| <= max
    && d.rcv == Pop(r, max - |items|).rcv
    && d.items == items + Pop(r, max - |items|).items
  }

  lemma PopReachesStep(r: Receiver, items: seq<Item>, max: nat, d: Drained)
    requires PopReaches(r, items, max, d) && |items| < max && r.expected in r.buf
    ensures PopReaches(Advance(r), items + Passing(r), max, d)
  {
    var rest := Pop(Advance(r), max - |items| - |Passing(r)|).items;
    assert items + (Passing(r) + rest) == (items + Passing(r)) + rest;
  }

  ghost predicate SkimReaches(r: Receiver, items: seq<Item>, max: nat, d: Drained) {
    && |items| <= max
    && d.rcv == Skim(r, max - |items|).rcv
    && d.items == items + Skim(r, max - |items|).items
  }

  lemma SkimReachesStep(r: Receiver, items: seq<Item>, max: nat, d: Drained)
    requires SkimReaches(r, items, max, d) && r.expected in r.buf && |items| + |Passing(r)| <= max
    ensures SkimReaches(Advance(r), items + Passing(r), max, d)
  {
    var rest := Skim(Advance(r), max - |items| - |Passing(r)|).items;
    assert items + (Passing(r) + rest) == (items + Passing(r)) + rest;
  }

  // ------------------------------------------------------------ packets

  function Admit(r: Receiver, n: nat, msg: Msg): (r': Receiver)
    requires Reliable(msg.mode)
    ensures RecvOk(r) && r.expected <= n < r.expected + r.cap ==> RecvOk(r')
  {
    r.(buf := r.buf[n := if msg.mode == RELIABLE_ORDERED then Held(msg.payload) else HandedUp])
  }

  /** What an unordered message hands up by itself on acceptance. */
  function OnArrival(n: nat, msg: Msg): (out: seq<Item>) {
    if msg.mode == RELIABLE_UNORDERED then [Item(n, msg)] else []
  }

  /** 1 for an old or repeated word, -2 for one beyond the window, 0 otherwise. */
  function Verdict(r: Receiver, w: u32): (code: int) {
    var d := SeqDiff(w, Wire(r.isn, r.expected));
    if d < 0 then 1
    else if d >= r.cap then -2
    else if r.expected + d in r.buf then 1
    else 0
  }

  /** The number a word denotes, counted from `expected`. */
  function Number(r: Receiver, w: u32): (n: int) {
    r.expected + SeqDiff(w, Wire(r.isn, r.expected))
  }

  /** A reliable packet with unlimited output: the reference for the worker. */
  function Receive(r: Receiver, w: u32, msg: Msg): (o: Outcome)
    requires Reliable(msg.mode)
    ensures o.code == Verdict(r, w)
  {
    if Verdict(r, w) != 0 then Outcome(Verdict(r, w), r, [])
    else
      var n := Number(r, w);
      var d := Drain(Admit(r, n, msg));
      Outcome(0, d.rcv, OnArrival(n, msg) + d.items)
  }

  /** `on_packet` with room for `max` items. */
  function OnPacket(r: Receiver, w: u32, msg: Msg, max: nat): (o: Outcome)
    requires Reliable(msg.mode) && max >= 1
    ensures |o.items| <= max
  {
    if Verdict(r, w) != 0 then Outcome(Verdict(r, w), r, [])
    else
      var n := Number(r, w);
      var r' := Admit(r, n, msg);
      if msg.mode == RELIABLE_UNORDERED
      then var d := Skim(r', max - 1); Outcome(0, d.rcv, OnArrival(n, msg) + d.items)
      else var d := Pop(r', max); Outcome(0, d.rcv, d.items)
  }

  /** The worker's handling of a reliable packet: a duplicate also drains what is ready. */
  function Deliver(r: Receiver, w: u32, msg: Msg): (o: Outcome)
    requires Reliable(msg.mode)
  {
    if Verdict(r, w) == 1 then Outcome(1, Drain(r).rcv, Drain(r).items) else Receive(r, w, msg)
  }

  /** Nothing is waiting at `expected`: how every worker step leaves the window. */
  predicate Quiet(r: Receiver) {
    r.expected !in r.buf
  }

  // ------------------------------------------------------------ acknowledgment

  /** The first k bits of the selective mask. */
  function MaskUpTo(r: Receiver, k: nat): (mask: nat)
    ensures mask < Pow2(k)
  {
    if k == 0 then 0
    else MaskUpTo(r, k - 1) + (if r.expected + k - 1 in r.buf then Pow2(k - 1) else 0)
  }

  function AckNum(r: Receiver): (w: u32) {
    Wire(r.isn, r.expected - 1)
  }

  function SackMask(r: Receiver): (mask: u32) {
    Pow2Of32();
    MaskUpTo(r, 32)
  }

  lemma {:induction false} MaskBits(r: Receiver, k: nat, i: nat)
    ensures Bit(MaskUpTo(r, k), i) <==> i < k && r.expected + i in r.buf
  {
    if k == 0 {
      ZeroHasNoBits(i);
    } else {
      MaskBits(r, k - 1, i);
      BitOfSum(MaskUpTo(r, k - 1), k - 1, i);
    }
  }

  // ------------------------------------------------------------ batching is invisible

  lemma {:induction false} DrainOk(r: Receiver)
    requires RecvOk(r)
    ensures RecvOk(Drain(r).rcv)
    ensures Drain(r).rcv.cap == r.cap && Drain(r).rcv.isn == r.isn && r.expected <= Drain(r).rcv.expected
    decreases |r.buf|
  {
    if r.expected in r.buf { DrainOk(Advance(r)); }
  }

  /** Handing up `d.items` and then draining from `d.rcv` is draining from r. */
  ghost predicate Continues(r: Receiver, d: Drained) {
    Drain(r) == Drained(Drain(d.rcv).rcv, d.items + Drain(d.rcv).items)
  }

  lemma ContinuesStep(r: Receiver, d: Drained)
    requires r.expected in r.buf && Continues(Advance(r), d)
    ensures Continues(r, Drained(d.rcv, Passing(r) + d.items))
  {
    JoinAssoc(Drain(r), Passing(r), Drain(Advance(r)), d.items, Drain(d.rcv));
  }

  lemma ContinuesNone(r: Receiver)
    ensures Continues(r, Drained(r, []))
  {
    assert [] + Drain(r).items == Drain(r).items;
  }

  lemma ContinuesTrans(r: Receiver, d: Drained, e: Drained)
    requires Continues(r, d) && Continues(d.rcv, e)
    ensures Continues(r, Drained(e.rcv, d.items + e.items))
  {
    JoinAssoc(Drain(r), d.items, Drain(d.rcv), e.items, Drain(e.rcv));
  }

  lemma JoinAssoc(x: Drained, d: seq<Item>, y: Drained, e: seq<Item>, z: Drained)
    requires x == Drained(y.rcv, d + y.items) && y == Drained(z.rcv, e + z.items)
    ensures x == Drained(z.rcv, (d + e) + z.items)
  {
    assert d + (e + z.items) == (d + e) + z.items;
  }

  /** A pop that hands something up takes it out of the buffer. */
  lemma {:induction false} PopShrinks(r: Receiver, k: nat)
    ensures |Pop(r, k).rcv.buf| + |Pop(r, k).items| <= |r.buf|
    decreases |r.buf|
  {
    if k > 0 && r.expected in r.buf { PopShrinks(Advance(r), k - |Passing(r)|); }
  }

  /** Popping any number of items and then draining is draining. */
  lemma {:induction false} PopThenDrain(r: Receiver, k: nat)
    ensures Continues(r, Pop(r, k))
    decreases |r.buf|
  {
    if k > 0 && r.expected in r.buf {
      PopThenDrain(Advance(r), k - |Passing(r)|);
      ContinuesStep(r, Pop(Advance(r), k - |Passing(r)|));
    } else {
      ContinuesNone(r);
    }
  }

  lemma {:induction false} SkimThenDrain(r: Receiver, k: nat)
    ensures Continues(r, Skim(r, k))
    decreases |r.buf|
  {
    if r.expected in r.buf && |Passing(r)| <= k {
      SkimThenDrain(Advance(r), k - |Passing(r)|);
      ContinuesStep(r, Skim(Advance(r), k - |Passing(r)|));
    } else {
      ContinuesNone(r);
    }
  }

  /** A packet with limited room followed by a full drain is the packet with unlimited room; and
      leftover room means there was nothing left to drain. */
  lemma LimitedThenDrain(r: Receiver, w: u32, msg: Msg, max: nat)
    requires Reliable(msg.mode) && max >= 1 && Verdict(r, w) == 0
    ensures
      var o := OnPacket(r, w, msg, max);
      && Receive(r, w, msg).rcv == Drain(o.rcv).rcv
      && Receive(r, w, msg).items == o.items + Drain(o.rcv).items
      && (|o.items| < max ==> o.rcv.expected !in o.rcv.buf)
  {
    var r', arrival := Admit(r, Number(r, w), msg), OnArrival(Number(r, w), msg);
    var d := if msg.mode == RELIABLE_UNORDERED then Skim(r', max - 1) else Pop(r', max);
    assert Continues(r', d) by {
      SkimThenDrain(r', max - 1);
      PopThenDrain(r', max);
    }
    ArrivalFirst(r', d, arrival);
    assert OnPacket(r, w, msg, max) == Outcome(0, d.rcv, arrival + d.items);
  }

  lemma ArrivalFirst(r: Receiver, d: Drained, arrival: seq<Item>)
    requires Continues(r, d)
    ensures Drain(r).rcv == Drain(d.rcv).rcv
    ensures arrival + Drain(r).items == (arrival + d.items) + Drain(d.rcv).items
    ensures arrival == [] ==> arrival + d.items == d.items
  {
    JoinAssoc(Drained(Drain(r).rcv, arrival + Drain(r).items), arrival, Drain(r), d.items, Drain(d.rcv));
  }
}
