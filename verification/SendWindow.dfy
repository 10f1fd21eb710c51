/** The send window as the C code keeps it: a ring of slots indexed by the low bits of a 32-bit
    sequence number, updated in place. */
module SendWindow {
  import opened Words
  import opened SeqNum
  import opened SendSpec
  import Rtt

  datatype SendSlot = SendSlot(
    seqNum: u32, firstSentNs: u64, lastSentNs: u64, retransmitCount: u8, mode: u8,
    payload: seq<u8>, inUse: bool, acked: bool)

  const EMPTY_SLOT := SendSlot(0, 0, 0, 0, 0, [], false, false)

  /** The ring position of message n. */
  function Pos(s: Sender, n: nat): (k: nat)
    requires s.cap >= 1
    ensures k < s.cap
  {
    Slot(Wire(s.isn, n), s.cap)
  }

  /** `out` lists the ring positions of the numbers in `due`. */
  ghost predicate Located(s: Sender, out: seq<nat>, due: seq<nat>)
    requires s.cap >= 1
  {
    |out| == |due| && forall i | 0 <= i < |due| :: out[i] == Pos(s, due[i])
  }

  /** A scan standing at n that has found `due` is on its way to the full list. */
  ghost predicate ScanReaches(s: Sender, n: nat, out: seq<nat>, due: seq<nat>, now: u64, rtoMs: u32, max: nat)
    requires s.cap >= 1
  {
    && |due| < max && Located(s, out, due)
    && due + Expired(s, n, now, rtoMs, max - |due|) == Expired(s, s.head, now, rtoMs, max)
  }

  lemma ScanNext(s: Sender, n: nat, out: seq<nat>, due: seq<nat>, now: u64, rtoMs: u32, max: nat)
    requires s.cap >= 1 && n < |s.log| && ScanReaches(s, n, out, due, now, rtoMs, max)
    ensures n !in s.acked && Due(s.log[n], now, rtoMs) ==>
              if |due| + 1 < max then ScanReaches(s, n + 1, out + [Pos(s, n)], due + [n], now, rtoMs, max)
              else Located(s, out + [Pos(s, n)], Expired(s, s.head, now, rtoMs, max))
    ensures !(n !in s.acked && Due(s.log[n], now, rtoMs)) ==>
              ScanReaches(s, n + 1, out, due, now, rtoMs, max)
  {
    if n !in s.acked && Due(s.log[n], now, rtoMs) {
      var rest := Expired(s, n + 1, now, rtoMs, max - |due| - 1);
      assert due + ([n] + rest) == (due + [n]) + rest;
    }
  }

  lemma ScanBound(s: Sender, n: nat)
    requires Ok(s) && s.head <= n <= |s.log|
    ensures SeqLt(Wire(s.isn, n), Wire(s.isn, |s.log|)) <==> n < |s.log|
  {
    WireOrder(s.isn, n, |s.log|);
  }

  /** The slot stores message n of the window. */
  ghost predicate Holds(slot: SendSlot, s: Sender, n: nat)
    requires n < |s.log|
  {
    && slot.inUse
    && slot.seqNum == Wire(s.isn, n)
    && slot.acked == (n in s.acked)
    && Carries(slot, s.log[n])
  }

  ghost predicate Carries(slot: SendSlot, m: Sent) {
    && Msg(slot.mode, slot.payload) == m.msg
    && slot.firstSentNs == m.first
    && slot.lastSentNs == m.last
    && slot.retransmitCount == m.resent % 256
  }

  /** Every number in the window has its own slot, and that slot stores it. */
  ghost predicate RingHolds(ring: seq<SendSlot>, s: Sender) {
    && Ok(s)
    && |ring| == s.cap
    && (forall n: nat | s.head <= n < |s.log| :: Holds(ring[Pos(s, n)], s, n))
    && (forall n: nat | s.head <= n < |s.log| :: Storable(s.log[n].msg))
  }

  lemma PosInjective(s: Sender, m: nat, n: nat)
    requires Ok(s) && m - n < s.cap && n - m < s.cap && m != n
    ensures Pos(s, m) != Pos(s, n)
  {
    SlotInjective(s.isn, m, n, s.cap);
  }

  lemma RingAfterPush(ring: seq<SendSlot>, s: Sender, msg: Msg, now: u64, slot: SendSlot)
    requires RingHolds(ring, s) && CanSend(s) && Storable(msg)
    requires Holds(slot, Push(s, msg, now), |s.log|)
    ensures RingHolds(ring[Pos(s, |s.log|) := slot], Push(s, msg, now))
  {
    var s', k := Push(s, msg, now), Pos(s, |s.log|);
    forall n: nat | s'.head <= n < |s'.log| ensures Holds(ring[k := slot][Pos(s', n)], s', n) {
      if n < |s.log| {
        PosInjective(s, n, |s.log|);
        assert Holds(ring[Pos(s, n)], s, n);
      }
    }
  }

  lemma RingAfterRetire(ring: seq<SendSlot>, a: Acking, now: u64, slot: SendSlot)
    requires RingHolds(ring, a.snd) && a.snd.head < |a.snd.log|
    ensures RingHolds(ring[Pos(a.snd, a.snd.head) := slot], Retire(a, now).snd)
  {
    var s, s' := a.snd, Retire(a, now).snd;
    var k := Pos(s, s.head);
    forall n: nat | s'.head <= n < |s'.log| ensures Holds(ring[k := slot][Pos(s', n)], s', n) {
      PosInjective(s, n, s.head);
      assert Holds(ring[Pos(s, n)], s, n);
    }
  }

  lemma RingAfterMark(ring: seq<SendSlot>, s: Sender, n: nat)
    requires RingHolds(ring, s) && s.head <= n < |s.log|
    ensures RingHolds(ring[Pos(s, n) := ring[Pos(s, n)].(acked := true)], s.(acked := s.acked + {n}))
  {
    var s', k := s.(acked := s.acked + {n}), Pos(s, n);
    var ring' := ring[k := ring[k].(acked := true)];
    forall m: nat | s'.head <= m < |s'.log| ensures Holds(ring'[Pos(s', m)], s', m) {
      assert Holds(ring[Pos(s, m)], s, m);
      if m != n { PosInjective(s, m, n); }
    }
  }

  lemma RingAfterResend(ring: seq<SendSlot>, s: Sender, n: nat, now: u64)
    requires RingHolds(ring, s) && s.head <= n < |s.log|
    ensures
      var slot := ring[Pos(s, n)];
      var slot' := slot.(lastSentNs := now, retransmitCount := (slot.retransmitCount + 1) % 256);
      RingHolds(ring[Pos(s, n) := slot'], Resend(s, n, now))
  {
    var s', k := Resend(s, n, now), Pos(s, n);
    var slot := ring[k];
    var ring' := ring[k := slot.(lastSentNs := now, retransmitCount := (slot.retransmitCount + 1) % 256)];
    assert Holds(slot, s, n);
    forall m: nat | s'.head <= m < |s'.log| ensures Holds(ring'[Pos(s', m)], s', m) {
      assert Holds(ring[Pos(s, m)], s, m);
      if m != n { PosInjective(s, m, n); }
    }
  }

  /** The acceptance test of `rel4u_send_window_init` and `rel4u_recv_window_init`. */
  predicate CapacityAccepted(capacity: u32) {
    capacity >= 2 && And(capacity, capacity - 1) == 0
  }

  lemma AcceptedCapacities(capacity: u32)
    ensures capacity <= 0x4000_0000 ==> (CapacityAccepted(capacity) <==> Capacity(capacity))
  {
    if capacity >= 1 { PowerOfTwoTest(capacity); }
  }

  /** What keeps the one further capacity the test accepts, 2^31, out of use: cast to a signed integer it
      is negative, so a window of that size refuses every reliable message at either end.  An empty
      window of any other accepted capacity takes one. */
  lemma UsableCapacities(capacity: u32, w: u32, v: u32)
    requires CapacityAccepted(capacity)
    ensures Capacity(capacity) ==> SeqDiff(w, w) < Signed(capacity) == capacity
    ensures !Capacity(capacity) ==> capacity == 0x8000_0000 && SeqDiff(w, v) >= Signed(capacity)
  {
    PowerOfTwoTest(capacity);
    if capacity > 0x4000_0000 { TopPowerOfTwo(capacity); }
  }

  class SendWindow {
    const slots: array<SendSlot>
    const capacity: u32
    var headSeq: u32
    var nextSeq: u32
    var nextUnrelSeq: u32
    var inFlight: nat
    ghost var snd: Sender

    ghost predicate Valid()
      reads this, slots
    {
      && capacity == snd.cap
      && slots.Length == snd.cap
      && RingHolds(slots[..], snd)
      && headSeq == Wire(snd.isn, snd.head)
      && nextSeq == Wire(snd.isn, |snd.log|)
      && inFlight == |Unacked(snd)|
    }

    constructor (capacity: u32, initialSeq: u32)
      requires CapacityAccepted(capacity) && capacity <= 0x4000_0000
      ensures Valid() && fresh(slots)
      ensures snd == Start(capacity, initialSeq) && nextUnrelSeq == initialSeq
    {
      AcceptedCapacities(capacity);
      this.capacity := capacity;
      slots := new SendSlot[capacity](_ => EMPTY_SLOT);
      headSeq, nextSeq, nextUnrelSeq := initialSeq, initialSeq, initialSeq;
      inFlight := 0;
      snd := Start(capacity, initialSeq);
    }

    method Reset(initialSeq: u32)
      requires Valid()
      modifies this, slots
      ensures Valid()
      ensures snd == Start(old(snd.cap), initialSeq) && nextUnrelSeq == initialSeq
    {
      forall k | 0 <= k < slots.Length { slots[k] := EMPTY_SLOT; }
      headSeq, nextSeq, nextUnrelSeq := initialSeq, initialSeq, initialSeq;
      inFlight := 0;
      snd := Start(snd.cap, initialSeq);
      assert Unacked(snd) == {};
    }

    method CanSendNow() returns (ok: bool)
      requires Valid()
      ensures ok <==> CanSend(snd)
      ensures ok <==> |snd.log| - snd.head < snd.cap
    {
      UnackedFits(snd);
      DiffExact(snd.isn + |snd.log|, snd.isn + snd.head);
      ok := inFlight < capacity && SeqDiff(nextSeq, headSeq) < capacity;
    }

    /** Returns 0 and the number assigned, -1 for an oversized message, -2 for a full window. */
    method PushMsg(mode: u8, data: seq<u8>, now: u64) returns (code: int, outSeq: u32)
      requires Valid()
      modifies this, slots
      ensures Valid()
      ensures |data| > MAX_PAYLOAD_SIZE ==> code == -1 && snd == old(snd) && nextUnrelSeq == old(nextUnrelSeq)
      ensures |data| <= MAX_PAYLOAD_SIZE && Reliable(mode) && !CanSend(old(snd)) ==>
                code == -2 && snd == old(snd) && nextUnrelSeq == old(nextUnrelSeq)
      ensures |data| <= 9216 && Reliable(mode) ==> (code == 0 <==> |old(snd).log| - old(snd).head < old(snd).cap)
      ensures |data| <= MAX_PAYLOAD_SIZE && Reliable(mode) && CanSend(old(snd)) ==>
                && code == 0 && nextUnrelSeq == old(nextUnrelSeq)
                && snd == Push(old(snd), Msg(mode, data), now)
                && outSeq == Wire(old(snd).isn, |old(snd).log|)
      ensures |data| <= MAX_PAYLOAD_SIZE && !Reliable(mode) ==>
                code == 0 && snd == old(snd) && outSeq == old(nextUnrelSeq) && nextUnrelSeq == Wrap(outSeq + 1)
    {
      outSeq := 0;
      if |data| > MAX_PAYLOAD_SIZE { return -1, outSeq; }
      if mode == RELIABLE_ORDERED || mode == RELIABLE_UNORDERED {
        UnackedFits(snd);
        DiffExact(snd.isn + |snd.log|, snd.isn + snd.head);
        if inFlight >= capacity || SeqDiff(nextSeq, headSeq) >= capacity {
          return -2, outSeq;
        }
        outSeq := nextSeq;
        Store(outSeq, mode, data, now);
      } else {
        outSeq := nextUnrelSeq;
        nextUnrelSeq := Wrap(nextUnrelSeq + 1);
      }
      code := 0;
    }

    /** The accepting path of a reliable push. */
    method Store(seqNum: u32, mode: u8, data: seq<u8>, now: u64)
      requires Valid() && seqNum == nextSeq && CanSend(snd) && Storable(Msg(mode, data))
      modifies this, slots
      ensures Valid() && nextUnrelSeq == old(nextUnrelSeq)
      ensures snd == Push(old(snd), Msg(mode, data), now)
    {
      var slot := SendSlot(seqNum, now, now, 0, mode, data, true, false);
      RingAfterPush(slots[..], snd, Msg(mode, data), now, slot);
      UnackedAfterPush(snd, Msg(mode, data), now);
      WrapOfSum(1, snd.isn + |snd.log|);
      nextSeq := Wrap(nextSeq + 1);
      slots[Slot(seqNum, capacity)] := slot;
      inFlight := inFlight + 1;
      snd := Push(snd, Msg(mode, data), now);
    }

    /** One round of the cumulative loop. */
    method RetireHead(now: u64, rtt: Rtt.Estimator)
      requires Valid() && snd.head < |snd.log|
      modifies this, slots, rtt
      ensures Valid() && nextUnrelSeq == old(nextUnrelSeq)
      ensures Acking(snd, rtt.View()) == Retire(old(Acking(snd, rtt.View())), now)
    {
      ghost var a := Acking(snd, rtt.View());
      var idx := Slot(headSeq, capacity);
      var slot := slots[idx];
      assert Holds(slot, snd, snd.head) by { assert slots[..][Pos(snd, snd.head)] == slot; }
      UnackedAfterRetire(a, now);
      WrapOfSum(1, snd.isn + snd.head);
      if slot.inUse && slot.seqNum == headSeq {
        if !slot.acked {
          slot := slot.(acked := true);
          if inFlight > 0 { inFlight := inFlight - 1; }
          TakeSample(slot, now, rtt);
        }
        slot := slot.(inUse := false);
      }
      RingAfterRetire(slots[..], a, now, slot);
      slots[idx] := slot;
      headSeq := Wrap(headSeq + 1);
      snd := Retire(a, now).snd;
    }

    /** Karn's rule as coded: only a slot whose resend counter reads zero is measured. */
    method TakeSample(slot: SendSlot, now: u64, rtt: Rtt.Estimator)
      modifies rtt
      ensures rtt.View() ==
                if slot.retransmitCount == 0 && now >= slot.firstSentNs
                then Rtt.Sample(old(rtt.View()), Wrap((now - slot.firstSentNs) / 1000000))
                else old(rtt.View())
    {
      if slot.retransmitCount == 0 && now >= slot.firstSentNs {
        rtt.UpdateSample(Wrap((now - slot.firstSentNs) / 1000000));
      }
    }

    /** One set bit of the selective mask. */
    method MarkWord(sackSeq: u32, now: u64, rtt: Rtt.Estimator)
      requires Valid()
      modifies this, slots, rtt
      ensures Valid() && nextUnrelSeq == old(nextUnrelSeq)
      ensures Acking(snd, rtt.View()) == Mark(old(Acking(snd, rtt.View())), sackSeq, now)
    {
      WindowWord(snd, sackSeq);
      if SeqLt(sackSeq, nextSeq) && SeqGte(sackSeq, headSeq) {
        ghost var n := Target(snd, sackSeq);
        var idx := Slot(sackSeq, capacity);
        var slot := slots[idx];
        assert Holds(slot, snd, n) by { assert slots[..][Pos(snd, n)] == slot; }
        if slot.inUse && slot.seqNum == sackSeq && !slot.acked {
          RingAfterMark(slots[..], snd, n);
          UnackedAfterMark(snd, n);
          slots[idx] := slot.(acked := true);
          if inFlight > 0 { inFlight := inFlight - 1; }
          TakeSample(slot, now, rtt);
          snd := snd.(acked := snd.acked + {n});
        }
      }
    }

    lemma WindowEmpty()
      requires Valid()
      ensures headSeq == nextSeq <==> snd.head == |snd.log|
    {
      WireDiff(snd.isn, |snd.log|, snd.head);
    }

    method OnAckPacket(ackNum: u32, sackMask: u32, now: u64, rtt: Rtt.Estimator)
      requires Valid()
      modifies this, slots, rtt
      ensures Valid() && nextUnrelSeq == old(nextUnrelSeq)
      ensures Acking(snd, rtt.View()) == OnAck(old(Acking(snd, rtt.View())), ackNum, sackMask, now)
    {
      CumulativeLoop(ackNum, now, rtt);
      SelectiveOfZero(Acking(snd, rtt.View()), ackNum, 0, now);
      if sackMask != 0 {
        SelectiveLoop(ackNum, sackMask, now, rtt);
      }
    }

    method CumulativeLoop(ackNum: u32, now: u64, rtt: Rtt.Estimator)
      requires Valid()
      modifies this, slots, rtt
      ensures Valid() && nextUnrelSeq == old(nextUnrelSeq)
      ensures Acking(snd, rtt.View()) == Cumulative(old(Acking(snd, rtt.View())), ackNum, now)
      ensures snd.head - old(snd).head <= capacity
    {
      ghost var a := Acking(snd, rtt.View());
      WindowEmpty();
      while SeqLte(headSeq, ackNum) && headSeq != nextSeq
        invariant Valid() && nextUnrelSeq == old(nextUnrelSeq)
        invariant snd.log == a.snd.log && snd.cap == a.snd.cap
        invariant Cumulative(Acking(snd, rtt.View()), ackNum, now) == Cumulative(a, ackNum, now)
        invariant headSeq == nextSeq <==> snd.head == |snd.log|
        decreases |snd.log| - snd.head
      {
        RetireHead(now, rtt);
        WindowEmpty();
      }
    }

    method SelectiveLoop(ackNum: u32, sackMask: u32, now: u64, rtt: Rtt.Estimator)
      requires Valid()
      modifies this, slots, rtt
      ensures Valid() && nextUnrelSeq == old(nextUnrelSeq)
      ensures Acking(snd, rtt.View()) == Selective(old(Acking(snd, rtt.View())), ackNum, sackMask, 0, now)
    {
      ghost var a := Acking(snd, rtt.View());
      for i := 0 to 32
        invariant Valid() && nextUnrelSeq == old(nextUnrelSeq)
        invariant Selective(Acking(snd, rtt.View()), ackNum, sackMask, i, now) == Selective(a, ackNum, sackMask, 0, now)
      {
        if Bit(sackMask, i) {
          MarkWord(Wrap(ackNum + 1 + i), now, rtt);
        }
      }
    }

    method SlotIsDue(seqNum: u32, ghost n: nat, now: u64, rtoMs: u32) returns (due: bool)
      requires Valid() && snd.head <= n < |snd.log| && seqNum == Wire(snd.isn, n)
      ensures due <==> n !in snd.acked && Due(snd.log[n], now, rtoMs)
    {
      var slot := slots[Slot(seqNum, capacity)];
      assert Holds(slot, snd, n) by { assert slots[..][Pos(snd, n)] == slot; }
      due := false;
      if slot.inUse && slot.seqNum == seqNum && !slot.acked {
        if now >= slot.lastSentNs && now - slot.lastSentNs >= rtoMs * 1000000 {
          due := true;
        }
      }
    }

    /** The ring positions of the due slots, oldest message first. */
    method GetExpired(now: u64, rtoMs: u32, maxSlots: nat) returns (out: seq<nat>)
      requires Valid()
      ensures Located(snd, out, Expired(snd, snd.head, now, rtoMs, maxSlots))
    {
      out := [];
      if maxSlots == 0 { return; }
      ghost var n: nat := snd.head;
      ghost var due: seq<nat> := [];
      var seqNum: u32 := headSeq;
      ScanBound(snd, n);
      while SeqLt(seqNum, nextSeq)
        invariant snd.head <= n <= |snd.log| && seqNum == Wire(snd.isn, n)
        invariant SeqLt(seqNum, nextSeq) <==> n < |snd.log|
        invariant ScanReaches(snd, n, out, due, now, rtoMs, maxSlots)
        decreases |snd.log| - n
      {
        var isDue := SlotIsDue(seqNum, n, now, rtoMs);
        ScanNext(snd, n, out, due, now, rtoMs, maxSlots);
        if isDue {
          out, due := out + [Slot(seqNum, capacity)], due + [n];
          if |out| >= maxSlots { return; }
        }
        WrapOfSum(1, snd.isn + n);
        seqNum := Wrap(seqNum + 1);
        n := n + 1;
        ScanBound(snd, n);
      }
    }

    /** The worker's retransmission: if any slot is due the timeout backs off, and every due slot is
        sent again and its counters move. */
    method RetransmitExpired(now: u64, rtt: Rtt.Estimator, maxSlots: nat) returns (packets: seq<(u32, Msg)>)
      requires Valid()
      modifies this, slots, rtt
      ensures Valid() && nextUnrelSeq == old(nextUnrelSeq)
      ensures var due := Expired(old(snd), old(snd).head, now, old(rtt.rtoMs), maxSlots);
              && Acking(snd, rtt.View()) == OnTimer(old(Acking(snd, rtt.View())), now, maxSlots)
              && packets == PacketsFirst(old(snd), due, |due|)
              && |packets| == |due|
              && forall i | 0 <= i < |due| ::
                   packets[i] == (Wire(old(snd).isn, due[i]), old(snd).log[due[i]].msg)
    {
      var expired := GetExpired(now, rtt.rtoMs, maxSlots);
      ghost var due := Expired(snd, snd.head, now, rtt.rtoMs, maxSlots);
      if |expired| > 0 { rtt.OnTimeout(); }
      packets := ResendAll(expired, due, now);
    }

    method ResendAll(expired: seq<nat>, ghost due: seq<nat>, now: u64) returns (packets: seq<(u32, Msg)>)
      requires Valid() && AllWithin(due, snd.head, |snd.log|) && Located(snd, expired, due)
      modifies this, slots
      ensures Valid() && nextUnrelSeq == old(nextUnrelSeq)
      ensures snd == ResendFirst(old(snd), due, |due|, now)
      ensures packets == PacketsFirst(old(snd), due, |due|)
    {
      packets := [];
      for e := 0 to |expired|
        invariant Valid() && nextUnrelSeq == old(nextUnrelSeq)
        invariant snd == ResendFirst(old(snd), due, e, now)
        invariant packets == PacketsFirst(old(snd), due, e)
      {
        var packet := ResendSlot(expired[e], due[e], now);
        packets := packets + [packet];
      }
    }

    method ResendSlot(idx: nat, ghost n: nat, now: u64) returns (packet: (u32, Msg))
      requires Valid() && snd.head <= n < |snd.log| && idx == Pos(snd, n)
      modifies this, slots
      ensures Valid() && nextUnrelSeq == old(nextUnrelSeq)
      ensures snd == Resend(old(snd), n, now)
      ensures packet == PacketOf(old(snd), n)
    {
      var slot := slots[idx];
      assert Holds(slot, snd, n) by { assert slots[..][Pos(snd, n)] == slot; }
      RingAfterResend(slots[..], snd, n, now);
      assert Unacked(Resend(snd, n, now)) == Unacked(snd);
      slots[idx] := slot.(lastSentNs := now, retransmitCount := (slot.retransmitCount + 1) % 256);
      snd := Resend(snd, n, now);
      packet := (slot.seqNum, Msg(slot.mode, slot.payload));
    }
  }
}
