/** What a reconnect saves and what it loses.  The client gives its un-acked messages back to the queue and
    numbers from 0 again; the server either has forgotten the session and starts over too, or still knows
    the address and keeps its windows where they were. */
module Reconnect {
  import opened Words
  import opened SeqNum
  import opened SendSpec
  import opened RecvSpec
  import opened AckTheory
  import opened Link
  import opened LinkProofs
  import opened Scenarios
  import H = HandoffSpec
  import Q = QueueSpec
  import Rtt

  /** Message n has been handed up to the application. */
  ghost predicate Delivered(s: State, n: nat)
    requires n < |s.tx.snd.log|
  {
    var msg := s.tx.snd.log[n].msg;
    Item(n, msg) in OfMode(s.handed, msg.mode)
  }

  /** Message n waits in the receiver's buffer for an earlier one. */
  predicate Waiting(s: State, n: nat) {
    n in s.rcv.buf && s.rcv.buf[n].Held?
  }

  lemma {:induction false} OrderedBelowHas(log: seq<Sent>, k: nat, n: nat)
    requires k <= |log| && n < |log| && log[n].msg.mode == RELIABLE_ORDERED
    ensures Item(n, log[n].msg) in OrderedBelow(log, k) <==> n < k
  {
    if k > 0 {
      OrderedBelowHas(log, k - 1, n);
      if n == k - 1 {
        var items := OrderedBelow(log, k);
        assert items[|items| - 1] == Item(n, log[n].msg);
      }
    }
  }

  /** In every reachable state an accepted message is either handed up or waiting for its turn. */
  lemma DeliveredIff(s: State, n: nat)
    requires Inv(s) && n < |s.tx.snd.log|
    ensures Delivered(s, n) <==> Accepted(s.rcv, n) && !Waiting(s, n)
  {
    var log := s.tx.snd.log;
    assert Reliable(log[n].msg.mode);
    if n in s.rcv.buf { assert Agrees(s.rcv.buf[n], log[n].msg); }
    if log[n].msg.mode == RELIABLE_ORDERED {
      OrderedBelowHas(log, s.rcv.expected, n);
    } else {
      UnorderedDelivered(OfMode(s.handed, RELIABLE_UNORDERED), log, s.rcv, n);
    }
  }

  lemma UnorderedDelivered(u: seq<Item>, log: seq<Sent>, r: Receiver, n: nat)
    requires OnceEach(u, log, r) && n < |log| && log[n].msg.mode == RELIABLE_UNORDERED
    ensures Item(n, log[n].msg) in u <==> Accepted(r, n)
  {
    if Item(n, log[n].msg) in u {
      var i :| 0 <= i < |u| && u[i] == Item(n, log[n].msg);
      assert IsUnordered(log, r, u[i]);
    }
  }

  // ------------------------------------------------------------ what the client saves

  /** The client's queue after `TriggerReconnect`. */
  function Requeued(snd: Sender, q: Q.Queue, memory: u32 -> bool): (q': Q.Queue) {
    H.Reclaim(snd, |snd.log|, H.Reclaimed(q, 0), memory).q
  }

  /** The un-acked messages in order, before what was queued already. */
  function Wanted(snd: Sender, q: Q.Queue): (items: seq<Q.QItem>) {
    H.UnackedItems(snd, |snd.log|) + q.items
  }

  lemma RequeuedIff(s: State, q: Q.Queue, memory: u32 -> bool)
    requires Inv(s) && Q.Ok(q) && H.AlwaysMemory(memory)
    ensures Requeued(s.tx.snd, q, memory).items == Wanted(s.tx.snd, q)
            <==> Q.Within(q.store, Wanted(s.tx.snd, q))
  {
    assert H.LegalLog(s.tx.snd) by {
      assert forall n | 0 <= n < |s.tx.snd.log| :: Storable(s.tx.snd.log[n].msg);
    }
    H.ReclaimKeepsAllIff(s.tx.snd, q, memory);
  }

  lemma SentAccountedIff(s: State)
    requires Inv(s)
    ensures (forall n: nat | n < |s.tx.snd.log| :: Delivered(s, n) || n in Unacked(s.tx.snd))
            <==> forall n | n in s.tx.snd.acked :: !Waiting(s, n)
  {
    forall n: nat | n < |s.tx.snd.log|
      ensures Delivered(s, n) || n in Unacked(s.tx.snd) <==> !(n in s.tx.snd.acked && Waiting(s, n))
    {
      DeliveredIff(s, n);
    }
  }

  // ------------------------------------------------------------ a server that kept the session

  /** A packet that neither changes the server's window nor hands anything up. */
  predicate Ignored(r: Receiver, n: nat, msg: Msg)
    requires Reliable(msg.mode)
  {
    var o := Deliver(r, Wire(r.isn, n), msg);
    o.rcv == r && o.items == []
  }

  /** The client's window after it has started over and numbered messages from 0 again. */
  ghost predicate Renumbered(snd: Sender, isn: int) {
    && Ok(snd) && snd.isn == isn && snd.head == 0 && snd.acked == {}
    && forall n | 0 <= n < |snd.log| :: Storable(snd.log[n].msg)
  }

  lemma IgnoredIffAccepted(r: Receiver, n: nat, msg: Msg)
    requires RecvOk(r) && Quiet(r) && Reliable(msg.mode)
    requires r.expected <= 0x1_0000_0000 - r.cap && n < r.expected + r.cap
    ensures Ignored(r, n, msg) <==> Accepted(r, n)
  {
    DeliverMeaning(r, n, msg);
    if !Accepted(r, n) { AdmitAccepts(r, n, msg, n); }
  }

  lemma KeptHead(snd: Sender, r: Receiver)
    requires Renumbered(snd, r.isn) && r.expected <= 0x1_0000_0000
    ensures HeadAfter(snd, AckNum(r)) ==
            if r.expected > 0x8000_0001 then 0 else if r.expected <= |snd.log| then r.expected else |snd.log|
  {
    WireDiff(r.isn, r.expected - 1, 0);
    WrapIsMod(r.expected - 1);
  }

  /** What the kept window does to the new numbering.  Of the messages within its reach it ignores exactly
      those whose numbers it has accepted before: the first `expected`, and any it holds buffered.  Its ack
      retires the first min(expected, |log|) of them outright and marks the buffered ones the mask
      reaches, so the client never sends them again; past 2^31 numbers the ack retires nothing, and the
      client sends the ignored messages for ever. */
  lemma KeptSessionSwallows(a: Acking, r: Receiver, at: u64)
    requires Renumbered(a.snd, r.isn) && RecvOk(r) && Quiet(r) && r.expected <= 0x1_0000_0000 - r.cap
    ensures
      var log, e := a.snd.log, r.expected;
      var snd := OnAck(a, AckNum(r), SackMask(r), at).snd;
      && (forall n: nat | n < |log| && n < e + r.cap :: Ignored(r, n, log[n].msg) <==> n < e || n in r.buf)
      && (e <= 0x8000_0001 ==> snd.head == if e <= |log| then e else |log|)
      && (e > 0x8000_0001 ==> snd.head == 0)
      && (e <= 0x8000_0001 ==> forall n :: n in snd.acked <==> e <= n < |log| && n < e + 32 && n in r.buf)
  {
    var log, e := a.snd.log, r.expected;
    forall n: nat | n < |log| && n < e + r.cap ensures Ignored(r, n, log[n].msg) <==> n < e || n in r.buf {
      IgnoredIffAccepted(r, n, log[n].msg);
    }
    OnAckWindow(a, AckNum(r), SackMask(r), at);
    KeptHead(a.snd, r);
    if e <= 0x8000_0001 {
      forall n: nat | e <= n < |log| ensures Covered(a.snd, AckNum(r), SackMask(r), 0, n) <==> n < e + 32 && n in r.buf {
        KeptMark(a.snd, r, n);
      }
    }
  }

  lemma KeptMark(snd: Sender, r: Receiver, n: nat)
    requires Renumbered(snd, r.isn) && r.expected <= n < |snd.log|
    ensures Covered(snd, AckNum(r), SackMask(r), 0, n) <==> n < r.expected + 32 && n in r.buf
  {
    OffsetOfSoundAck(snd, AckPacket(r.expected, AckNum(r), SackMask(r)), n);
    MaskBits(r, 32, n - r.expected);
  }

  // ------------------------------------------------------------ when nothing is lost

  datatype Fate = Forgotten | Kept

  /** The client's window once it is connected again and has drained its queue. */
  function Restarted(s: State, q: Q.Queue, memory: u32 -> bool, unrel: u32, clock: nat -> u64): (snd: Sender) {
    H.Drain(H.Draining(Start(s.tx.snd.cap, s.rcv.isn), unrel, Requeued(s.tx.snd, q, memory), []), clock).snd
  }

  lemma {:induction false} ReliableStorable(items: seq<Q.QItem>, i: nat)
    requires forall j | 0 <= j < |items| :: Q.Legal(items[j])
    ensures i < |H.ReliableOf(items)| ==> Storable(H.ReliableOf(items)[i])
    decreases |items|
  {
    if items != [] {
      var first := if Reliable(items[0].mode) then 1 else 0;
      if i >= first { ReliableStorable(items[1..], i - first); }
    }
  }

  /** It carries, in order, the reliable messages from the front of the queue, as many as fit. */
  lemma RestartedMeaning(s: State, q: Q.Queue, memory: u32 -> bool, unrel: u32, clock: nat -> u64) returns (k: nat)
    requires Inv(s) && Q.Ok(q)
    ensures
      var items, snd := Requeued(s.tx.snd, q, memory).items, Restarted(s, q, memory, unrel, clock);
      && k <= |items| && (k == |items| || !CanSend(snd)) && snd.cap == s.tx.snd.cap
      && Renumbered(snd, s.rcv.isn) && H.MsgsFrom(snd, 0) == H.ReliableOf(items[..k])
  {
    var q' := Requeued(s.tx.snd, q, memory);
    var d := H.Draining(Start(s.tx.snd.cap, s.rcv.isn), unrel, q', []);
    k := H.DrainInOrder(d, clock);
    H.DrainKeepsOk(d, clock);
    H.ReclaimOk(s.tx.snd, |s.tx.snd.log|, H.Reclaimed(q, 0), memory);
    var snd := Restarted(s, q, memory, unrel, clock);
    forall n | 0 <= n < |snd.log| ensures Storable(snd.log[n].msg) {
      ReliableStorable(q'.items[..k], n);
      assert H.MsgsFrom(snd, 0)[n] == snd.log[n].msg;
    }
  }

  /** The un-acked numbers in order. */
  function UnackedList(snd: Sender): (u: seq<nat>) {
    Listed(Unacked(snd), snd.head, |snd.log|)
  }

  lemma {:induction false} UnackedItemsListed(snd: Sender, n: nat)
    requires Ok(snd) && snd.head <= n <= |snd.log|
    ensures
      var items, u := H.UnackedItems(snd, n), Listed(Unacked(snd), snd.head, n);
      |items| == |u| && forall i | 0 <= i < |u| :: items[i] == H.ItemOf(snd.log[u[i]].msg)
    decreases n
  {
    if n > snd.head {
      UnackedItemsListed(snd, n - 1);
      ListedSplit(Unacked(snd), snd.head, n - 1, n);
    }
  }

  lemma {:induction false} ReliableAtMost(items: seq<Q.QItem>)
    ensures |H.ReliableOf(items)| <= |items|
  {
    if items != [] { ReliableAtMost(items[1..]); }
  }

  lemma {:induction false} ReliableAll(items: seq<Q.QItem>)
    requires forall i | 0 <= i < |items| :: Reliable(items[i].mode)
    ensures |H.ReliableOf(items)| == |items|
    ensures forall i | 0 <= i < |items| :: H.ReliableOf(items)[i] == H.MsgOf(items[i])
    decreases |items|
  {
    if items != [] {
      assert Reliable(items[0].mode);
      ReliableAll(items[1..]);
    }
  }

  /** If the queue had room, the un-acked messages come first in the new numbering, in their old order. */
  lemma RestartedCarries(s: State, q: Q.Queue, memory: u32 -> bool, unrel: u32, clock: nat -> u64)
    requires Inv(s) && Q.Ok(q) && Requeued(s.tx.snd, q, memory).items == Wanted(s.tx.snd, q)
    ensures
      var u, snd := UnackedList(s.tx.snd), Restarted(s, q, memory, unrel, clock);
      |u| <= |snd.log| && forall n | 0 <= n < |u| :: snd.log[n].msg == s.tx.snd.log[u[n]].msg
  {
    var items, snd := H.UnackedItems(s.tx.snd, |s.tx.snd.log|), Restarted(s, q, memory, unrel, clock);
    var k := RestartedMeaning(s, q, memory, unrel, clock);
    UnackedItemsListed(s.tx.snd, |s.tx.snd.log|);
    FrontOfQueue(s.tx.snd, q, k, snd);
  }

  lemma FrontOfQueue(was: Sender, q: Q.Queue, k: nat, snd: Sender)
    requires Ok(was) && (forall n | 0 <= n < |was.log| :: Storable(was.log[n].msg)) && snd.head == 0
    requires var items := Wanted(was, q); k <= |items| && (k == |items| || |snd.log| >= was.cap)
                                           && H.MsgsFrom(snd, 0) == H.ReliableOf(items[..k])
    ensures
      var u := UnackedList(was);
      |u| <= |snd.log| && forall n | 0 <= n < |u| :: snd.log[n].msg == was.log[u[n]].msg
  {
    var u, front := UnackedList(was), H.UnackedItems(was, |was.log|);
    UnackedItemsListed(was, |was.log|);
    ListedLength(Unacked(was), was.head, |was.log|);
    var items := Wanted(was, q);
    ReliableAtMost(items[..k]);
    assert k >= |u|;
    assert items[..k] == front + q.items[..k - |u|];
    forall i | 0 <= i < |front| ensures Reliable(front[i].mode) {
      assert front[i] == H.ItemOf(was.log[u[i]].msg);
    }
    ReliableAll(front);
    H.ReliableConcat(front, q.items[..k - |u|]);
    forall n | 0 <= n < |u| ensures snd.log[n].msg == was.log[u[n]].msg {
      assert H.MsgsFrom(snd, 0)[n] == snd.log[n].msg;
      assert H.ReliableOf(front)[n] == H.MsgOf(front[n]);
    }
  }

  lemma {:induction false} ListedLength(ns: set<nat>, lo: nat, hi: nat)
    ensures lo <= hi ==> |Listed(ns, lo, hi)| <= hi - lo
    decreases hi - lo
  {
    if lo < hi { ListedLength(ns, lo + 1, hi); }
  }

  // ------------------------------------------------------------ what a kept session loses

  /** Message n of the new numbering is a further copy of one the server accepted before the reconnect. */
  ghost predicate Repeats(s: State, n: nat)
    requires Ok(s.tx.snd)
  {
    var u := UnackedList(s.tx.snd);
    n < |u| && Accepted(s.rcv, u[n])
  }

  /** Message n of the new numbering, now or whenever the client gets to that number, is lost: the server
      has accepted that number, so it takes the message for a duplicate, and it never had the message. */
  ghost predicate Lost(s: State, n: nat)
    requires Ok(s.tx.snd)
  {
    Accepted(s.rcv, n) && !Repeats(s, n)
  }

  /** Up to the age limit of `StaleDataLimit`, lost is what is ignored without being a repeat. */
  lemma LostMeaning(s: State, n: nat, msg: Msg)
    requires Inv(s) && Reliable(msg.mode)
    requires s.rcv.expected <= 0x1_0000_0000 - s.rcv.cap && n < s.rcv.expected + s.rcv.cap
    ensures Lost(s, n) <==> Ignored(s.rcv, n, msg) && !Repeats(s, n)
  {
    IgnoredIffAccepted(s.rcv, n, msg);
  }

  /** And it stays lost however the session goes on: a receiver that has accepted the number ignores it. */
  lemma LostForGood(r: Receiver, n: nat, msg: Msg)
    requires RecvOk(r) && Quiet(r) && Reliable(msg.mode) && Accepted(r, n)
    requires r.expected - n <= 0x1_0000_0000 - r.cap
    ensures Ignored(r, n, msg)
  {
    DeliverMeaning(r, n, msg);
  }

  lemma {:induction false} LargestAccepted(r: Receiver, x: nat, hi: nat) returns (m: nat)
    requires Accepted(r, x) && x < hi
    ensures Accepted(r, m) && x <= m < hi && forall n: nat | m < n < hi :: !Accepted(r, n)
    decreases hi
  {
    m := hi - 1;
    if !Accepted(r, m) { m := LargestAccepted(r, x, hi - 1); }
  }

  lemma {:induction false} Spread(u: seq<nat>, i: nat, j: nat)
    requires forall a, b | 0 <= a < b < |u| :: u[a] < u[b]
    requires i <= j < |u|
    ensures u[j] - u[i] >= j - i
    decreases j
  {
    if i < j { Spread(u, i, j - 1); }
  }

  /** Once any ack has taken effect, the largest number the server has accepted is lost.  Otherwise u, which
      ascends, would map that number to itself and so every smaller one too, and nothing would be acked. */
  lemma LargestIsLost(s: State, x: nat) returns (m: nat)
    requires Inv(s) && Accepted(s.rcv, x) && x !in Unacked(s.tx.snd)
    ensures Lost(s, m)
  {
    var u := UnackedList(s.tx.snd);
    ListedMeaning(Unacked(s.tx.snd), s.tx.snd.head, |s.tx.snd.log|);
    m := LargestAccepted(s.rcv, x, |s.tx.snd.log|);
    if m < |u| {
      Spread(u, 0, x);
      Spread(u, x, m);
      assert u[x] in u;
    }
  }

  lemma SomethingAcked(s: State) returns (x: nat)
    requires Inv(s) && (s.tx.snd.head > 0 || s.tx.snd.acked != {})
    ensures Accepted(s.rcv, x) && x !in Unacked(s.tx.snd)
  {
    if s.tx.snd.head > 0 {
      x := 0;
    } else {
      x :| x in s.tx.snd.acked;
    }
  }

  lemma {:induction false} ListedAll(ns: set<nat>, lo: nat, hi: nat)
    requires lo <= hi && forall n: nat | lo <= n < hi :: n in ns
    ensures |Listed(ns, lo, hi)| == hi - lo && forall i | 0 <= i < hi - lo :: Listed(ns, lo, hi)[i] == lo + i
    decreases hi - lo
  {
    if lo < hi { ListedAll(ns, lo + 1, hi); }
  }

  /** While no ack has taken effect the new numbering is the old one. */
  lemma NumberedAlike(snd: Sender)
    requires Ok(snd) && snd.head == 0 && snd.acked == {}
    ensures |UnackedList(snd)| == |snd.log| && forall n | 0 <= n < |snd.log| :: UnackedList(snd)[n] == n
  {
    ListedAll(Unacked(snd), 0, |snd.log|);
  }

  /** Then the session simply goes on.  The restarted window, the kept receiver, and even the packets and acks
      still in flight satisfy the invariant, so every theorem about runs holds from there. */
  lemma KeptSessionGoesOn(
    s: State, q: Q.Queue, memory: u32 -> bool, unrel: u32, clock: nat -> u64, rtt: Rtt.Estimate)
    requires Inv(s) && Q.Ok(q) && Requeued(s.tx.snd, q, memory).items == Wanted(s.tx.snd, q)
    requires s.tx.snd.head == 0 && s.tx.snd.acked == {}
    ensures Inv(s.(tx := Acking(Restarted(s, q, memory, unrel, clock), rtt)))
  {
    var snd := Restarted(s, q, memory, unrel, clock);
    var s' := s.(tx := Acking(snd, rtt));
    var k := RestartedMeaning(s, q, memory, unrel, clock);
    RestartedCarries(s, q, memory, unrel, clock);
    NumberedAlike(s.tx.snd);
    assert forall n | 0 <= n < |s.tx.snd.log| :: snd.log[n].msg == s.tx.snd.log[n].msg;
    LongerLog(s, s');
  }

  /** A kept session loses no message, now or later, exactly while no ack has taken effect. */
  lemma NothingLostIff(s: State)
    requires Inv(s)
    ensures (forall n: nat :: !Lost(s, n)) <==> s.tx.snd.head == 0 && s.tx.snd.acked == {}
  {
    if s.tx.snd.head == 0 && s.tx.snd.acked == {} {
      NumberedAlike(s.tx.snd);
    } else {
      var x := SomethingAcked(s);
      var m := LargestIsLost(s, x);
    }
  }

  // ------------------------------------------------------------ when nothing is lost

  /** Nothing is lost.  Everything the client owes is in its queue, and:
      if the server forgot the session, every message sent before was handed up or is back in the queue;
      if it kept it, no message of the new numbering is lost. */
  ghost predicate LosesNothing(s: State, q: Q.Queue, memory: u32 -> bool, fate: Fate)
    requires Ok(s.tx.snd)
  {
    && Requeued(s.tx.snd, q, memory).items == Wanted(s.tx.snd, q)
    && match fate
       case Forgotten => forall n: nat | n < |s.tx.snd.log| :: Delivered(s, n) || n in Unacked(s.tx.snd)
       case Kept => forall n: nat :: !Lost(s, n)
  }

  /** A reconnect loses nothing exactly when the queue has room for the un-acked messages beside what it
      holds, and
      - the server forgot the session and no message the client holds acked was still waiting in the
        server's buffer, or
      - the server kept the session and no ack has taken effect at the client yet, which the client can
        read off its own window: then the session goes on as if nothing had happened. */
  lemma ReconnectLosesNothingIff(run: seq<State>, i: nat, q: Q.Queue, memory: u32 -> bool, fate: Fate)
    requires IsRun(run) && i < |run| && Q.Ok(q) && H.AlwaysMemory(memory)
    ensures
      var s := run[i];
      && Inv(s)
      && (LosesNothing(s, q, memory, fate) <==>
          && Q.Within(q.store, Wanted(s.tx.snd, q))
          && match fate
             case Forgotten => forall n | n in s.tx.snd.acked :: !Waiting(s, n)
             case Kept => s.tx.snd.head == 0 && s.tx.snd.acked == {})
  {
    RunInv(run, i);
    var s := run[i];
    RequeuedIff(s, q, memory);
    match fate {
      case Forgotten => SentAccountedIff(s);
      case Kept => NothingLostIff(s);
    }
  }

  /** What a forgotten session hands up twice: the client sends anew, under some number, exactly its un-acked
      messages, so those already handed up and still un-acked come again. */
  lemma ForgottenSessionRepeats(
    s: State, q: Q.Queue, memory: u32 -> bool, unrel: u32, clock: nat -> u64, n: nat)
    requires Inv(s) && Q.Ok(q) && Requeued(s.tx.snd, q, memory).items == Wanted(s.tx.snd, q)
    requires n < |s.tx.snd.log|
    ensures
      var u, snd := UnackedList(s.tx.snd), Restarted(s, q, memory, unrel, clock);
      && |u| <= |snd.log|
      && (Delivered(s, n) && n in Unacked(s.tx.snd) <==>
          Accepted(s.rcv, n) && !Waiting(s, n)
          && exists j :: 0 <= j < |u| && u[j] == n && snd.log[j].msg == s.tx.snd.log[n].msg)
  {
    RestartedCarries(s, q, memory, unrel, clock);
    ListedMeaning(Unacked(s.tx.snd), s.tx.snd.head, |s.tx.snd.log|);
    DeliveredIff(s, n);
    var u := UnackedList(s.tx.snd);
    if n in Unacked(s.tx.snd) {
      assert n in u;
      var j :| 0 <= j < |u| && u[j] == n;
    }
  }

  // ------------------------------------------------------------ inputs that lose

  /** A forgotten session loses: two ordered messages, the first lost on the way, the second delivered and
      acked selectively.  Reclaim gives back the first alone, and the second was not handed up. */
  lemma ForgottenSessionCanLose(start: State, m0: Msg, m1: Msg) returns (run: seq<State>)
    requires Initial(start) && Storable(m0) && Storable(m1)
    requires m0.mode == RELIABLE_ORDERED && m1.mode == RELIABLE_ORDERED
    ensures IsRun(run) && run[0] == start
    ensures var s := run[|run| - 1];
            && |s.tx.snd.log| == 2 && Unacked(s.tx.snd) == {0}
            && 1 in s.tx.snd.acked && Waiting(s, 1) && !Delivered(s, 1)
  {
    run := SecondArrives(start, m0, m1);
    var s := run[|run| - 1];
    RunInv(run, |run| - 1);
    AckOfTheSecond(s.tx, s.rcv);
    run := Extend(run, EmitAck);
    run := Extend(run, DeliverAck(AckPacket(0, AckNum(s.rcv), SackMask(s.rcv)), 0));
    RunInv(run, |run| - 1);
    DeliveredIff(run[|run| - 1], 1);
  }

  /** A kept session loses: the first message delivered and acked, the second lost on the way.  Nothing is
      held acked and reclaim gives the second back; but it now has number 0, which the server passed
      long ago: its packet is ignored and the server's ack retires it. */
  lemma KeptSessionCanLose(start: State, m0: Msg, m1: Msg, at: u64) returns (run: seq<State>)
    requires Initial(start) && Storable(m0) && Storable(m1)
    ensures IsRun(run) && run[0] == start
    ensures
      var s := run[|run| - 1];
      var again := Push(Start(s.tx.snd.cap, s.rcv.isn), m1, at);
      && |s.tx.snd.log| == 2 && s.tx.snd.log[1].msg == m1
      && s.tx.snd.acked == {} && Unacked(s.tx.snd) == {1} && !Delivered(s, 1)
      && Ok(again) && Lost(s, 0) && Ignored(s.rcv, 0, m1)
      && Unacked(OnAck(Acking(again, s.tx.rtt), AckNum(s.rcv), SackMask(s.rcv), at).snd) == {}
  {
    run := FirstAcked(start, m0);
    run := Extend(run, Send(m1, 0));
    run := Extend(run, Lose({Packet(1, m1)}, {}));
    RunInv(run, |run| - 1);
    DeliveredIff(run[|run| - 1], 1);
    ZeroIsSwallowed(run[|run| - 1], m1, at);
    ListedMeaning(Unacked(run[|run| - 1].tx.snd), 1, 2);
  }

  lemma ZeroIsSwallowed(s: State, msg: Msg, at: u64)
    requires Inv(s) && s.rcv.expected == 1 && Storable(msg)
    ensures
      var again := Push(Start(s.tx.snd.cap, s.rcv.isn), msg, at);
      && Ok(again) && Ignored(s.rcv, 0, msg)
      && Unacked(OnAck(Acking(again, s.tx.rtt), AckNum(s.rcv), SackMask(s.rcv), at).snd) == {}
  {
    var again := Push(Start(s.tx.snd.cap, s.rcv.isn), msg, at);
    IgnoredIffAccepted(s.rcv, 0, msg);
    KeptSessionSwallows(Acking(again, s.tx.rtt), s.rcv, at);
    OnAckWindow(Acking(again, s.tx.rtt), AckNum(s.rcv), SackMask(s.rcv), at);
  }
}
