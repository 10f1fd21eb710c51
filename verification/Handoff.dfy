/** The loops that move messages between the send queue and the send window, on the real structures. */
module Handoff {
  import opened Words
  import opened SeqNum
  import opened HandoffSpec
  import opened SessionSpec
  import S = SendSpec
  import SW = SendWindow
  import R = RecvSpec
  import RW = RecvWindow
  import N = Newest
  import Q = QueueSpec
  import M = Mpmc
  import Rtt

  /** The client's drain: while the window admits more, take the head of the queue, number and send it. */
  method DrainSendQueue(win: SW.SendWindow, queue: M.Mpmc, clock: nat -> u64) returns (sent: seq<(u32, S.Msg)>)
    requires win.Valid() && queue.Valid() && win !in queue.Repr && win.slots !in queue.Repr
    modifies win, win.slots, queue.Repr
    ensures win.Valid() && queue.Valid() && queue.Repr == old(queue.Repr)
    ensures Draining(win.snd, win.nextUnrelSeq, queue.q, sent)
            == Drain(Draining(old(win.snd), old(win.nextUnrelSeq), old(queue.q), []), clock)
  {
    sent := [];
    ghost var d := Draining(win.snd, win.nextUnrelSeq, queue.q, []);
    while true
      invariant win.Valid() && queue.Valid() && queue.Repr == old(queue.Repr)
      invariant Drain(Draining(win.snd, win.nextUnrelSeq, queue.q, sent), clock) == Drain(d, clock)
      decreases |queue.q.items|
    {
      var can := win.CanSendNow();
      if !can { break; }
      var got, packet := DrainHead(win, queue, clock(queue.count));
      if !got { break; }
      sent := sent + [packet];
    }
  }

  /** One round of the drain on a window with room. */
  method DrainHead(win: SW.SendWindow, queue: M.Mpmc, now: u64) returns (got: bool, packet: (u32, S.Msg))
    requires win.Valid() && queue.Valid() && win !in queue.Repr && win.slots !in queue.Repr
    requires S.CanSend(win.snd)
    modifies win, win.slots, queue.Repr
    ensures win.Valid() && queue.Valid() && queue.Repr == old(queue.Repr)
    ensures got <==> old(queue.q).items != []
    ensures !got ==> win.snd == old(win.snd) && win.nextUnrelSeq == old(win.nextUnrelSeq) && queue.q == old(queue.q)
    ensures got ==> forall sent ::
              Draining(win.snd, win.nextUnrelSeq, queue.q, sent + [packet])
              == DrainOne(Draining(old(win.snd), old(win.nextUnrelSeq), old(queue.q), sent), now)
  {
    var x: Q.QItem;
    packet := (0, S.Msg(0, []));
    got, x := queue.TryPop(Q.UNSET);
    if got {
      assert Q.Legal(x) by { assert x == old(queue.q).items[0]; }
      var code, seqNum := win.PushMsg(x.mode, x.data, now);
      packet := (seqNum, S.Msg(x.mode, x.data));
    }
  }

  /** Reclaim: walk the window from the newest number down and push the un-acked messages to the front. */
  method ReclaimUnacked(win: SW.SendWindow, queue: M.Mpmc, memory: u32 -> bool) returns (reclaimed: nat)
    requires win.Valid() && queue.Valid() && win !in queue.Repr && win.slots !in queue.Repr
    modifies queue.Repr
    ensures queue.Valid() && fresh(queue.Repr - old(queue.Repr))
    ensures Reclaimed(queue.q, reclaimed) == Reclaim(win.snd, |win.snd.log|, Reclaimed(old(queue.q), 0), memory)
  {
    reclaimed := WalkBack(win, queue, memory, win.nextSeq, win.headSeq);
  }

  method WalkBack(win: SW.SendWindow, queue: M.Mpmc, memory: u32 -> bool, nextSeq: u32, headSeq: u32)
    returns (reclaimed: nat)
    requires SW.RingHolds(win.slots[..], win.snd) && win.capacity == win.snd.cap
    requires nextSeq == Wire(win.snd.isn, |win.snd.log|) && headSeq == Wire(win.snd.isn, win.snd.head)
    requires queue.Valid() && win !in queue.Repr && win.slots !in queue.Repr
    modifies queue.Repr
    ensures queue.Valid() && fresh(queue.Repr - old(queue.Repr))
    ensures Reclaimed(queue.q, reclaimed) == Reclaim(win.snd, |win.snd.log|, Reclaimed(old(queue.q), 0), memory)
  {
    reclaimed := 0;
    ghost var s, n: nat := win.snd, |win.snd.log|;
    ghost var goal := Reclaim(s, n, Reclaimed(queue.q, 0), memory);
    var seqNum: u32 := nextSeq;
    while SeqGt(seqNum, headSeq)
      invariant queue.Valid() && fresh(queue.Repr - old(queue.Repr))
      invariant s.head <= n <= |s.log| && seqNum == Wire(s.isn, n)
      invariant Reclaim(s, n, Reclaimed(queue.q, reclaimed), memory) == goal
      decreases n
    {
      WalkBound(s, n);
      n := n - 1;
      seqNum, reclaimed := ReclaimOne(win, queue, seqNum, n, reclaimed, memory);
    }
    WalkBound(s, n);
  }

  lemma WalkBound(s: S.Sender, n: nat)
    requires S.Ok(s) && s.head <= n <= |s.log|
    ensures SeqGt(Wire(s.isn, n), Wire(s.isn, s.head)) <==> n > s.head
  {
    S.WireOrder(s.isn, n, s.head);
  }

  /** One round of the reclaim loop, for the number n before the word `seqNum`. */
  method ReclaimOne(win: SW.SendWindow, queue: M.Mpmc, seqNum: u32, ghost n: nat, count: nat, memory: u32 -> bool)
    returns (current: u32, count': nat)
    requires SW.RingHolds(win.slots[..], win.snd) && win.capacity == win.snd.cap
    requires queue.Valid() && win !in queue.Repr && win.slots !in queue.Repr
    requires win.snd.head <= n < |win.snd.log| && seqNum == Wire(win.snd.isn, n + 1)
    modifies queue.Repr
    ensures queue.Valid() && fresh(queue.Repr - old(queue.Repr))
    ensures current == Wire(win.snd.isn, n)
    ensures Reclaim(win.snd, n, Reclaimed(queue.q, count'), memory)
            == Reclaim(win.snd, n + 1, Reclaimed(old(queue.q), count), memory)
  {
    WrapOfSum(-1, win.snd.isn + n + 1);
    current := Wrap(seqNum - 1);
    var slot := win.slots[Slot(current, win.capacity)];
    assert SW.Holds(slot, win.snd, n) by { assert win.slots[..][SW.Pos(win.snd, n)] == slot; }
    count' := count;
    if slot.inUse && slot.seqNum == current && !slot.acked &&
       (slot.mode == S.RELIABLE_ORDERED || slot.mode == S.RELIABLE_UNORDERED) {
      var ok := queue.PushAt(Q.QItem(0, slot.mode, slot.payload), Q.Front, memory(current));
      if ok { count' := count + 1; }
    }
  }

  /** Give the un-acked messages back to the queue and start both windows and the estimator over. */
  method Restart(win: SW.SendWindow, rwin: RW.RecvWindow, rtt: Rtt.Estimator, queue: M.Mpmc, memory: u32 -> bool)
    requires win.Valid() && rwin.Valid() && queue.Valid()
    requires {win, win.slots, rwin, rwin.slots, rtt} !! queue.Repr
    modifies win, win.slots, rwin, rwin.slots, rtt, queue.Repr
    ensures win.Valid() && rwin.Valid() && queue.Valid() && fresh(queue.Repr - old(queue.Repr))
    ensures queue.q == Reclaim(old(win.snd), |old(win.snd).log|, Reclaimed(old(queue.q), 0), memory).q
    ensures win.snd == S.Start(old(win.snd).cap, 1) && win.nextUnrelSeq == 1
    ensures rwin.rcv == R.StartRecv(old(rwin.rcv).cap, 1) && rwin.Mark() == N.Unset
    ensures rtt.View() == Rtt.Init(Rtt.DEFAULT_RTO_MS, Rtt.MIN_RTO_MS, Rtt.MAX_RTO_MS)
  {
    var reclaimed := ReclaimUnacked(win, queue, memory);
    StartOver(win, rwin, rtt);
  }

  method StartOver(win: SW.SendWindow, rwin: RW.RecvWindow, rtt: Rtt.Estimator)
    requires win.Valid() && rwin.Valid()
    modifies win, win.slots, rwin, rwin.slots, rtt
    ensures win.Valid() && win.snd == S.Start(old(win.snd).cap, 1) && win.nextUnrelSeq == 1
    ensures rwin.Valid() && rwin.rcv == R.StartRecv(old(rwin.rcv).cap, 1) && rwin.Mark() == N.Unset
    ensures rtt.View() == Rtt.Init(Rtt.DEFAULT_RTO_MS, Rtt.MIN_RTO_MS, Rtt.MAX_RTO_MS)
  {
    win.Reset(1);
    rwin.Reset(1);
    rtt.Reinit(Rtt.DEFAULT_RTO_MS, Rtt.MIN_RTO_MS, Rtt.MAX_RTO_MS);
  }

  /** The connection state of the client object and what it owns. */
  class Client {
    const disableAutoReconnect: bool
    const win: SW.SendWindow
    const rwin: RW.RecvWindow
    const rtt: Rtt.Estimator
    const sendQueue: M.Mpmc
    var state: ConnState
    var sessionId: u32
    var ackPending: bool
    var lastActivityNs: u64

    ghost predicate Valid()
      reads this, win, win.slots, rwin, rwin.slots, sendQueue, sendQueue.Repr
    {
      && win.Valid() && rwin.Valid() && sendQueue.Valid()
      && {this, win, win.slots, rwin, rwin.slots, rtt} !! sendQueue.Repr
    }

    constructor (disableAutoReconnect: bool, win: SW.SendWindow, rwin: RW.RecvWindow, rtt: Rtt.Estimator, queue: M.Mpmc)
      requires win.Valid() && rwin.Valid() && queue.Valid()
      requires {win, win.slots, rwin, rwin.slots, rtt} !! queue.Repr
      ensures Valid() && state == Disconnected && sessionId == 0 && !ackPending
      ensures this.win == win && this.rwin == rwin && this.rtt == rtt && sendQueue == queue
    {
      this.disableAutoReconnect := disableAutoReconnect;
      this.win, this.rwin, this.rtt, sendQueue := win, rwin, rtt, queue;
      state, sessionId, ackPending, lastActivityNs := Disconnected, 0, false, 0;
    }

    /** `client_trigger_reconnect`: give the un-acked messages back to the queue, start both windows and the
        estimator over and forget the session, unless reconnecting is disabled. */
    method TriggerReconnect(now: u64, memory: u32 -> bool)
      requires Valid()
      modifies this, win, win.slots, rwin, rwin.slots, rtt, sendQueue.Repr
      ensures Valid()
      ensures disableAutoReconnect ==>
                && state == Disconnected && sessionId == old(sessionId)
                && ackPending == old(ackPending) && lastActivityNs == old(lastActivityNs)
                && sendQueue.q == old(sendQueue.q)
                && win.snd == old(win.snd) && win.nextUnrelSeq == old(win.nextUnrelSeq)
                && rwin.rcv == old(rwin.rcv) && rwin.Mark() == old(rwin.Mark())
                && rtt.View() == old(rtt.View())
      ensures !disableAutoReconnect ==>
                && state == Connecting && sessionId == 0 && !ackPending && lastActivityNs == now
                && sendQueue.q == Reclaim(old(win.snd), |old(win.snd).log|, Reclaimed(old(sendQueue.q), 0), memory).q
                && win.snd == S.Start(old(win.snd).cap, 1) && win.nextUnrelSeq == 1
                && rwin.rcv == R.StartRecv(old(rwin.rcv).cap, 1) && rwin.Mark() == N.Unset
                && rtt.View() == Rtt.Init(Rtt.DEFAULT_RTO_MS, Rtt.MIN_RTO_MS, Rtt.MAX_RTO_MS)
    {
      if disableAutoReconnect {
        state := Disconnected;
        return;
      }
      Restart(win, rwin, rtt, sendQueue, memory);
      assert Valid();
      Forget(now);
    }

    method Forget(now: u64)
      requires Valid()
      modifies this`sessionId, this`ackPending, this`lastActivityNs, this`state
      ensures Valid() && state == Connecting && sessionId == 0 && !ackPending && lastActivityNs == now
    {
      sessionId, ackPending, lastActivityNs, state := 0, false, now, Connecting;
    }
  }
}
