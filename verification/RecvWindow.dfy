/** The receive window as the C code keeps it, and the worker's delivery of a data packet. */
module RecvWindow {
  import opened Words
  import opened SeqNum
  import opened SendSpec
  import opened RecvSpec
  import SW = SendWindow
  import N = Newest

  datatype RecvSlot = RecvSlot(seqNum: u32, mode: u8, received: bool, payload: seq<u8>)

  const EMPTY_SLOT := RecvSlot(0, 0, false, [])

  /** The ring position of number n. */
  function Pos(r: Receiver, n: nat): (k: nat)
    requires r.cap >= 1
    ensures k < r.cap
  {
    Slot(Wire(r.isn, n), r.cap)
  }

  ghost predicate Stores(slot: RecvSlot, e: Entry) {
    match e
    case Held(p) => slot.mode == RELIABLE_ORDERED && slot.payload == p
    case HandedUp => slot.mode == RELIABLE_UNORDERED
  }

  /** The slot of number n is occupied exactly when n is buffered, and then by n. */
  ghost predicate Reflects(slot: RecvSlot, r: Receiver, n: nat) {
    && (slot.received <==> n in r.buf)
    && (n in r.buf ==> slot.seqNum == Wire(r.isn, n) && Stores(slot, r.buf[n]))
  }

  ghost predicate RingReflects(ring: seq<RecvSlot>, r: Receiver) {
    && RecvOk(r)
    && |ring| == r.cap
    && forall n: nat | r.expected <= n < r.expected + r.cap :: Reflects(ring[Pos(r, n)], r, n)
  }

  lemma RingAfterAdvance(ring: seq<RecvSlot>, r: Receiver, slot: RecvSlot)
    requires RingReflects(ring, r) && r.expected in r.buf && !slot.received
    ensures RingReflects(ring[Pos(r, r.expected) := slot], Advance(r))
  {
    var r', k := Advance(r), Pos(r, r.expected);
    forall n: nat | r'.expected <= n < r'.expected + r'.cap ensures Reflects(ring[k := slot][Pos(r', n)], r', n) {
      if n == r.expected + r.cap {
        SlotPeriodic(r.isn, r.expected, r.cap);
      } else {
        SlotInjective(r.isn, n, r.expected, r.cap);
        assert Reflects(ring[Pos(r, n)], r, n);
      }
    }
  }

  lemma RingAfterAdmit(ring: seq<RecvSlot>, r: Receiver, n: nat, msg: Msg, slot: RecvSlot)
    requires RingReflects(ring, r) && r.expected <= n < r.expected + r.cap && Reliable(msg.mode)
    requires Reflects(slot, Admit(r, n, msg), n)
    ensures RingReflects(ring[Pos(r, n) := slot], Admit(r, n, msg))
  {
    var r', k := Admit(r, n, msg), Pos(r, n);
    forall m: nat | r'.expected <= m < r'.expected + r'.cap ensures Reflects(ring[k := slot][Pos(r', m)], r', m) {
      if m != n {
        SlotInjective(r.isn, m, n, r.cap);
        assert Reflects(ring[Pos(r, m)], r, m);
      }
    }
  }

  /** An output slot for an item. */
  function ReadySlot(isn: int, item: Item): (slot: RecvSlot) {
    RecvSlot(Wire(isn, item.num), item.msg.mode, true, item.msg.payload)
  }

  ghost predicate Matches(isn: int, out: seq<RecvSlot>, items: seq<Item>) {
    |out| == |items| && forall i | 0 <= i < |items| :: out[i] == ReadySlot(isn, items[i])
  }

  lemma MatchesNext(r: Receiver, out: seq<RecvSlot>, items: seq<Item>, slot: RecvSlot)
    requires Matches(r.isn, out, items) && r.expected in r.buf
    requires slot.received && slot.seqNum == Wire(r.isn, r.expected) && Stores(slot, r.buf[r.expected])
    ensures slot.mode == RELIABLE_ORDERED <==> |Passing(r)| == 1
    ensures Matches(r.isn, if slot.mode == RELIABLE_ORDERED then out + [slot] else out, items + Passing(r))
  {
  }

  /** A word that passes the two range tests denotes the number it is the word of. */
  lemma NumberOfWord(r: Receiver, w: u32)
    requires RecvOk(r) && 0 <= SeqDiff(w, Wire(r.isn, r.expected)) < r.cap
    ensures r.expected <= Number(r, w) < r.expected + r.cap
    ensures Wire(r.isn, Number(r, w)) == w
  {
    WrapBack(r.isn + r.expected, w);
    assert r.isn + Number(r, w) == r.isn + r.expected + SeqDiff(w, Wire(r.isn, r.expected));
  }

  class RecvWindow {
    const slots: array<RecvSlot>
    const capacity: u32
    var expectedSeq: u32
    var highestUnrelSeq: u32
    var hasHighestUnrel: bool
    ghost var rcv: Receiver

    ghost predicate Valid()
      reads this, slots
    {
      && capacity == rcv.cap
      && slots.Length == rcv.cap
      && RingReflects(slots[..], rcv)
      && expectedSeq == Wire(rcv.isn, rcv.expected)
    }

    /** The newest unreliable-ordered packet handed up. */
    function Mark(): (h: N.Highest)
      reads this
    {
      if hasHighestUnrel then N.Highest(highestUnrelSeq) else N.Unset
    }

    constructor (capacity: u32, initialSeq: u32)
      requires SW.CapacityAccepted(capacity) && capacity <= 0x4000_0000
      ensures Valid() && fresh(slots)
      ensures rcv == StartRecv(capacity, initialSeq) && Mark() == N.Unset
    {
      SW.AcceptedCapacities(capacity);
      this.capacity := capacity;
      slots := new RecvSlot[capacity](_ => EMPTY_SLOT);
      expectedSeq := initialSeq;
      highestUnrelSeq, hasHighestUnrel := 0, false;
      rcv := StartRecv(capacity, initialSeq);
    }

    method Reset(initialSeq: u32)
      requires Valid()
      modifies this, slots
      ensures Valid()
      ensures rcv == StartRecv(old(rcv).cap, initialSeq) && Mark() == N.Unset
    {
      forall k | 0 <= k < slots.Length { slots[k] := EMPTY_SLOT; }
      expectedSeq := initialSeq;
      highestUnrelSeq, hasHighestUnrel := 0, false;
      rcv := StartRecv(rcv.cap, initialSeq);
    }

    lemma SlotReflects(n: nat)
      requires Valid() && rcv.expected <= n < rcv.expected + rcv.cap
      ensures Reflects(slots[Pos(rcv, n)], rcv, n)
    {
      assert slots[..][Pos(rcv, n)] == slots[Pos(rcv, n)];
    }

    /** The slot at `expected`, and whether it holds that number. */
    method PeekExpected() returns (slot: RecvSlot, present: bool)
      requires Valid()
      ensures present <==> rcv.expected in rcv.buf
      ensures present ==> slot.received && slot.seqNum == Wire(rcv.isn, rcv.expected)
                          && Stores(slot, rcv.buf[rcv.expected])
    {
      SlotReflects(rcv.expected);
      slot := slots[Slot(expectedSeq, capacity)];
      present := slot.received && slot.seqNum == expectedSeq;
    }

    /** Clear the slot at `expected` and move on. */
    method PassExpected()
      requires Valid() && rcv.expected in rcv.buf
      modifies this`expectedSeq, this`rcv, slots
      ensures Valid() && rcv == Advance(old(rcv))
    {
      var idx := Slot(expectedSeq, capacity);
      RingAfterAdvance(slots[..], rcv, slots[idx].(received := false));
      WrapOfSum(1, rcv.isn + rcv.expected);
      slots[idx] := slots[idx].(received := false);
      expectedSeq := Wrap(expectedSeq + 1);
      rcv := Advance(rcv);
    }

    method PopReady(maxReady: nat) returns (out: seq<RecvSlot>)
      requires Valid()
      modifies this`expectedSeq, this`rcv, slots
      ensures Valid() && rcv == Pop(old(rcv), maxReady).rcv && rcv.isn == old(rcv).isn
      ensures Matches(rcv.isn, out, Pop(old(rcv), maxReady).items)
    {
      out := [];
      ghost var items: seq<Item> := [];
      while |out| < maxReady
        invariant Valid() && rcv.isn == old(rcv).isn
        invariant Matches(rcv.isn, out, items)
        invariant PopReaches(rcv, items, maxReady, Pop(old(rcv), maxReady))
        decreases |rcv.buf|
      {
        var slot, present := PeekExpected();
        if !present { break; }
        MatchesNext(rcv, out, items, slot);
        PopReachesStep(rcv, items, maxReady, Pop(old(rcv), maxReady));
        if slot.mode == RELIABLE_ORDERED {
          out := out + [slot];
        }
        items := items + Passing(rcv);
        PassExpected();
      }
    }

    /** The drain inlined in the unordered branch, with the room left after the arriving message. */
    method SkimReady(room: nat) returns (out: seq<RecvSlot>)
      requires Valid()
      modifies this`expectedSeq, this`rcv, slots
      ensures Valid() && rcv == Skim(old(rcv), room).rcv && rcv.isn == old(rcv).isn
      ensures Matches(rcv.isn, out, Skim(old(rcv), room).items)
    {
      out := [];
      ghost var items: seq<Item> := [];
      while true
        invariant Valid() && rcv.isn == old(rcv).isn
        invariant Matches(rcv.isn, out, items)
        invariant SkimReaches(rcv, items, room, Skim(old(rcv), room))
        decreases |rcv.buf|
      {
        var slot, present := PeekExpected();
        if !present { break; }
        MatchesNext(rcv, out, items, slot);
        if slot.mode == RELIABLE_ORDERED {
          if |out| >= room { break; }
        }
        SkimReachesStep(rcv, items, room, Skim(old(rcv), room));
        if slot.mode == RELIABLE_ORDERED {
          out := out + [slot];
        }
        items := items + Passing(rcv);
        PassExpected();
      }
    }

    /** The tests shared by modes 2 and 3: old, beyond the window, already buffered, or new. */
    method Classify(w: u32) returns (code: int)
      requires Valid()
      ensures code == Verdict(rcv, w)
    {
      if SeqLt(w, expectedSeq) { return 1; }
      if SeqDiff(w, expectedSeq) >= capacity { return -2; }
      NumberOfWord(rcv, w);
      SlotReflects(Number(rcv, w));
      var slot := slots[Slot(w, capacity)];
      code := if slot.received && slot.seqNum == w then 1 else 0;
    }

    /** Modes 2 and 3 of `on_packet`. */
    method OnReliable(w: u32, mode: u8, payload: seq<u8>, maxReady: nat) returns (code: int, out: seq<RecvSlot>)
      requires Valid() && Reliable(mode) && maxReady >= 1
      modifies this`expectedSeq, this`rcv, slots
      ensures Valid() && rcv.isn == old(rcv).isn
      ensures var o := OnPacket(old(rcv), w, Msg(mode, payload), maxReady);
              code == o.code && rcv == o.rcv && Matches(rcv.isn, out, o.items)
    {
      out := [];
      code := Classify(w);
      if code == 0 {
        if mode == RELIABLE_UNORDERED {
          out := InsertUnordered(w, payload, maxReady);
        } else {
          out := InsertOrdered(w, payload, maxReady);
        }
      }
    }

    method InsertUnordered(w: u32, payload: seq<u8>, maxReady: nat) returns (out: seq<RecvSlot>)
      requires Valid() && maxReady >= 1 && Verdict(rcv, w) == 0
      modifies this`expectedSeq, this`rcv, slots
      ensures Valid() && rcv.isn == old(rcv).isn
      ensures var msg := Msg(RELIABLE_UNORDERED, payload);
              var d := Skim(Admit(old(rcv), Number(old(rcv), w), msg), maxReady - 1);
              rcv == d.rcv && Matches(rcv.isn, out, [Item(Number(old(rcv), w), msg)] + d.items)
    {
      NumberOfWord(rcv, w);
      AdmitSlot(w, RELIABLE_UNORDERED, payload, Number(rcv, w));
      var rest := SkimReady(maxReady - 1);
      out := [RecvSlot(w, RELIABLE_UNORDERED, true, payload)] + rest;
    }

    method InsertOrdered(w: u32, payload: seq<u8>, maxReady: nat) returns (out: seq<RecvSlot>)
      requires Valid() && maxReady >= 1 && Verdict(rcv, w) == 0
      modifies this`expectedSeq, this`rcv, slots
      ensures Valid() && rcv.isn == old(rcv).isn
      ensures var d := Pop(Admit(old(rcv), Number(old(rcv), w), Msg(RELIABLE_ORDERED, payload)), maxReady);
              rcv == d.rcv && Matches(rcv.isn, out, d.items)
    {
      NumberOfWord(rcv, w);
      AdmitSlot(w, RELIABLE_ORDERED, payload, Number(rcv, w));
      out := PopReady(maxReady);
    }

    /** Fill the slot of n; an unordered message leaves the stored payload alone. */
    method AdmitSlot(w: u32, mode: u8, payload: seq<u8>, ghost n: nat)
      requires Valid() && Reliable(mode)
      requires rcv.expected <= n < rcv.expected + rcv.cap && Wire(rcv.isn, n) == w
      modifies this`rcv, slots
      ensures Valid() && rcv == Admit(old(rcv), n, Msg(mode, payload))
    {
      var idx := Slot(w, capacity);
      var slot := slots[idx].(received := true, seqNum := w, mode := mode);
      if mode == RELIABLE_ORDERED {
        slot := slot.(payload := payload);
      }
      RingAfterAdmit(slots[..], rcv, n, Msg(mode, payload), slot);
      slots[idx] := slot;
      rcv := Admit(rcv, n, Msg(mode, payload));
    }

    /** `on_packet` for every mode byte and every amount of room. */
    method OnDataPacket(w: u32, mode: u8, payload: seq<u8>, maxReady: nat) returns (code: int, out: seq<RecvSlot>)
      requires Valid()
      modifies this, slots
      ensures Valid() && rcv.isn == old(rcv).isn
      ensures maxReady == 0 || mode > RELIABLE_ORDERED ==> code == -1 && out == []
      ensures maxReady == 0 || !Reliable(mode) ==> rcv == old(rcv)
      ensures mode != UNRELIABLE_ORDERED || maxReady == 0 ==> Mark() == old(Mark())
      ensures maxReady >= 1 && mode == UNRELIABLE_UNORDERED ==> code == 0 && out == [RecvSlot(w, mode, true, payload)]
      ensures maxReady >= 1 && mode == UNRELIABLE_ORDERED ==>
                && Mark() == N.Raise(old(Mark()), w)
                && (if N.Passes(old(Mark()), w) then code == 0 && out == [RecvSlot(w, mode, true, payload)]
                    else code == 1 && out == [])
      ensures maxReady >= 1 && Reliable(mode) ==>
                var o := OnPacket(old(rcv), w, Msg(mode, payload), maxReady);
                code == o.code && rcv == o.rcv && Matches(rcv.isn, out, o.items)
    {
      out := [];
      if maxReady == 0 { return -1, out; }
      if mode == UNRELIABLE_UNORDERED {
        return 0, [RecvSlot(w, mode, true, payload)];
      }
      if mode == UNRELIABLE_ORDERED {
        if !hasHighestUnrel || SeqGt(w, highestUnrelSeq) {
          highestUnrelSeq, hasHighestUnrel := w, true;
          return 0, [RecvSlot(w, mode, true, payload)];
        }
        return 1, out;
      }
      if mode == RELIABLE_UNORDERED || mode == RELIABLE_ORDERED {
        code, out := OnReliable(w, mode, payload, maxReady);
        return;
      }
      code := -1;
    }

    method GetAckInfo() returns (ackNum: u32, sackMask: u32)
      requires Valid()
      ensures ackNum == AckNum(rcv) && sackMask == SackMask(rcv)
    {
      WrapOfSum(-1, rcv.isn + rcv.expected);
      ackNum := Wrap(expectedSeq - 1);
      var mask := CollectMask();
      sackMask := mask;
    }

    method CollectMask() returns (mask: u32)
      requires Valid()
      ensures mask == SackMask(rcv)
    {
      var bits: nat := 0;
      for i := 0 to 32
        invariant bits == MaskUpTo(rcv, i)
      {
        WrapOfSum(i, rcv.isn + rcv.expected);
        var present := HoldsWord(Wrap(expectedSeq + i), rcv.expected + i);
        if present {
          // bit i is still clear, so the C code's `mask |= 1U << i` is an addition
          bits := bits + Pow2(i);
        }
      }
      Pow2Of32();
      mask := bits;
    }

    /** The slot test for a word up to 31 ahead, which may lie beyond a small window. */
    method HoldsWord(w: u32, ghost n: nat) returns (present: bool)
      requires Valid() && w == Wire(rcv.isn, n) && rcv.expected <= n < rcv.expected + 32
      ensures present <==> n in rcv.buf
    {
      var slot := slots[Slot(w, capacity)];
      present := slot.received && slot.seqNum == w;
      OccupantOf(n);
    }

    lemma OccupantOf(n: nat)
      requires Valid() && rcv.expected <= n < rcv.expected + 32
      ensures var slot := slots[Pos(rcv, n)];
              slot.received && slot.seqNum == Wire(rcv.isn, n) <==> n in rcv.buf
      decreases n
    {
      if n < rcv.expected + rcv.cap {
        SlotReflects(n);
      } else {
        var m := Representative(rcv, n);
        SlotReflects(m);
        WireDiff(rcv.isn, n, m);
      }
    }
  }

  /** A number beyond the window shares its slot with one inside it. */
  lemma {:induction false} Representative(r: Receiver, n: nat) returns (m: nat)
    requires Capacity(r.cap) && r.expected + r.cap <= n
    ensures r.expected <= m < r.expected + r.cap && Pos(r, m) == Pos(r, n)
    decreases n
  {
    SlotPeriodic(r.isn, n - r.cap, r.cap);
    assert n - r.cap + r.cap == n;
    if n - r.cap < r.expected + r.cap {
      m := n - r.cap;
    } else {
      m := Representative(r, n - r.cap);
    }
  }

  /** What an unreliable packet hands up by itself: mode 0 always, mode 1 when it is the newest so far. */
  predicate Unhindered(mode: u8, mark: N.Highest, w: u32) {
    mode == UNRELIABLE_UNORDERED || (mode == UNRELIABLE_ORDERED && N.Passes(mark, w))
  }

  /** The worker's delivery: one packet, then `pop_ready` in batches until nothing is left.  For every
      batch size the application sees what unlimited output would have given it.  An unreliable packet
      never disturbs the reliable window. */
  method DeliverData(win: RecvWindow, w: u32, mode: u8, payload: seq<u8>, batch: nat)
    returns (handed: seq<RecvSlot>, ackPending: bool)
    requires win.Valid() && batch >= 1
    modifies win, win.slots
    ensures win.Valid() && win.rcv.isn == old(win.rcv).isn
    ensures Reliable(mode) ==>
              var o := Deliver(old(win.rcv), w, Msg(mode, payload));
              win.rcv == o.rcv && Matches(win.rcv.isn, handed, o.items) && (ackPending <==> o.code >= 0)
    ensures !Reliable(mode) && Quiet(old(win.rcv)) ==>
              && win.rcv == old(win.rcv) && (ackPending <==> mode <= RELIABLE_ORDERED)
              && handed == if Unhindered(mode, old(win.Mark()), w) then [RecvSlot(w, mode, true, payload)] else []
    ensures win.Mark() == if mode == UNRELIABLE_ORDERED then N.Raise(old(win.Mark()), w) else old(win.Mark())
    ensures (Reliable(mode) && ackPending) || Quiet(old(win.rcv)) ==> Quiet(win.rcv)
  {
    var code, ready := win.OnDataPacket(w, mode, payload, batch);
    if Reliable(mode) {
      handed := FinishReliable(win, old(win.rcv), w, Msg(mode, payload), batch, code, ready);
    } else {
      handed := FinishUnreliable(win, batch, code, ready);
    }
    ackPending := code == 0 || code == 1;
  }

  /** What follows `on_packet` when the packet was a reliable one. */
  method FinishReliable(win: RecvWindow, ghost r0: Receiver, w: u32, msg: Msg, batch: nat, code: int, ready: seq<RecvSlot>)
    returns (handed: seq<RecvSlot>)
    requires win.Valid() && batch >= 1 && Reliable(msg.mode) && win.rcv.isn == r0.isn
    requires var o := OnPacket(r0, w, msg, batch); code == o.code && win.rcv == o.rcv && Matches(win.rcv.isn, ready, o.items)
    modifies win`expectedSeq, win`rcv, win.slots
    ensures win.Valid() && win.rcv.isn == r0.isn
    ensures var o := Deliver(r0, w, msg);
            win.rcv == o.rcv && Matches(win.rcv.isn, handed, o.items) && code == o.code
            && (code >= 0 || Quiet(r0) ==> Quiet(win.rcv))
  {
    handed := [];
    if code == 0 {
      ghost var r := win.rcv;
      var rest := DrainIfFull(win, |ready| == batch, batch);
      DeliveryComplete(r0, w, msg, batch, r, ready, rest);
      handed := ready + rest;
    } else if code == 1 {
      handed := DrainInBatches(win, batch, 1);
    }
  }

  /** What follows `on_packet` when it was not: the same loops, with nothing left for them to pop. */
  method FinishUnreliable(win: RecvWindow, batch: nat, code: int, ready: seq<RecvSlot>) returns (handed: seq<RecvSlot>)
    requires win.Valid() && batch >= 1
    modifies win`expectedSeq, win`rcv, win.slots
    ensures win.Valid() && win.rcv.isn == old(win.rcv).isn
    ensures Quiet(old(win.rcv)) ==> win.rcv == old(win.rcv) && handed == if code == 0 then ready else []
  {
    handed := [];
    if code == 0 {
      var rest := DrainIfFull(win, |ready| == batch, batch);
      handed := ready + rest;
    } else if code == 1 {
      handed := DrainInBatches(win, batch, 1);
    }
  }

  /** After a full batch the worker goes on popping. */
  method DrainIfFull(win: RecvWindow, full: bool, batch: nat) returns (rest: seq<RecvSlot>)
    requires win.Valid() && batch >= 1
    modifies win`expectedSeq, win`rcv, win.slots
    ensures win.Valid() && win.rcv.isn == old(win.rcv).isn
    ensures win.rcv == (if full then Drain(old(win.rcv)).rcv else old(win.rcv))
    ensures Matches(win.rcv.isn, rest, if full then Drain(old(win.rcv)).items else [])
  {
    rest := [];
    if full { rest := DrainInBatches(win, batch, batch); }
  }

  lemma DeliveryComplete(r0: Receiver, w: u32, msg: Msg, batch: nat, r: Receiver, ready: seq<RecvSlot>, rest: seq<RecvSlot>)
    requires Reliable(msg.mode) && batch >= 1 && Verdict(r0, w) == 0
    requires var o := OnPacket(r0, w, msg, batch); r == o.rcv && Matches(r.isn, ready, o.items)
    requires Matches(r.isn, rest, if |ready| == batch then Drain(r).items else [])
    ensures
      var o := Deliver(r0, w, msg);
      && (if |ready| == batch then Drain(r).rcv else r) == o.rcv && Quiet(o.rcv)
      && Matches(r.isn, ready + rest, o.items)
  {
    LimitedThenDrain(r0, w, msg, batch);
    var items := OnPacket(r0, w, msg, batch).items;
    MatchesConcat(r.isn, ready, items, rest, if |ready| == batch then Drain(r).items else []);
    assert items + [] == items;
  }

  lemma MatchesConcat(isn: int, a: seq<RecvSlot>, x: seq<Item>, b: seq<RecvSlot>, y: seq<Item>)
    requires Matches(isn, a, x) && Matches(isn, b, y)
    ensures Matches(isn, a + b, x + y)
  {
  }

  /** Pop batch after batch while the last one held at least `least` items. */
  method DrainInBatches(win: RecvWindow, batch: nat, least: nat) returns (handed: seq<RecvSlot>)
    requires win.Valid() && 1 <= least <= batch
    modifies win`expectedSeq, win`rcv, win.slots
    ensures win.Valid() && win.rcv == Drain(old(win.rcv)).rcv && win.rcv.isn == old(win.rcv).isn
    ensures Matches(win.rcv.isn, handed, Drain(old(win.rcv)).items)
  {
    PopThenDrain(win.rcv, batch);
    ghost var items := Pop(win.rcv, batch).items;
    handed := win.PopReady(batch);
    var count := |handed|;
    while count >= least
      invariant win.Valid() && win.rcv.isn == old(win.rcv).isn
      invariant Matches(win.rcv.isn, handed, items)
      invariant Continues(old(win.rcv), Drained(win.rcv, items))
      invariant count < least ==> Quiet(win.rcv)
      decreases |win.rcv.buf|, count
    {
      PopThenDrain(win.rcv, batch);
      ContinuesTrans(old(win.rcv), Drained(win.rcv, items), Pop(win.rcv, batch));
      ghost var more := Pop(win.rcv, batch).items;
      PopShrinks(win.rcv, batch);
      var ready := win.PopReady(batch);
      MatchesConcat(win.rcv.isn, handed, items, ready, more);
      handed, items := handed + ready, items + more;
      count := |ready|;
    }
    assert Drain(win.rcv) == Drained(win.rcv, []);
    assert items + [] == items;
  }
}
