/** Recovery by the retransmission timer, which sends at most `max` messages again per round. */
module Rounds {
  import opened Words
  import opened SeqNum
  import opened SendSpec
  import opened RecvSpec
  import opened Link
  import opened LinkProofs
  import opened Recovery

  /** The times at which a round fires and at which the ack for it comes back. */
  datatype Tick = Tick(now: u64, at: u64)

  /** Every un-acked message has waited out the timeout in force. */
  ghost predicate AllDue(a: Acking, now: u64) {
    forall n | n in Unacked(a.snd) :: Due(a.snd.log[n], now, a.rtt.rto)
  }

  /** The numbers one round sends again. */
  function Batch(a: Acking, now: u64, max: nat): (due: seq<nat>) {
    Expired(a.snd, a.snd.head, now, a.rtt.rto, max)
  }

  /** What is handed up on the way to `DeliverAll`. */
  function HandedUpBy(r: Receiver, log: seq<Sent>, order: seq<nat>): (items: seq<Item>)
    requires forall i | 0 <= i < |order| :: order[i] < |log| && Reliable(log[order[i]].msg.mode)
    decreases |order|
  {
    if order == [] then []
    else
      var o := Deliver(r, Wire(r.isn, order[0]), log[order[0]].msg);
      o.items + HandedUpBy(o.rcv, log, order[1..])
  }

  /** The data packets that carry some numbers. */
  ghost function PacketsOf(log: seq<Sent>, order: seq<nat>): (data: set<Packet>)
    requires AllWithin(order, 0, |log|)
  {
    set i | 0 <= i < |order| :: Packet(order[i], log[order[i]].msg)
  }

  /** One round: the timer fires, what it sends arrives, and the receiver's ack comes back. */
  ghost function Round(s: State, t: Tick, max: nat): (s': State)
    requires WindowsAgree(s)
  {
    OnTimerKeeps(s.tx, t.now, max);
    var log, due := s.tx.snd.log, Batch(s.tx, t.now, max);
    var r := DeliverAll(s.rcv, log, due);
    State(OnAck(OnTimer(s.tx, t.now, max), AckNum(r), SackMask(r), t.at), r,
          s.data + PacketsOf(log, due), s.acks + {AckPacket(r.expected, AckNum(r), SackMask(r))},
          s.handed + HandedUpBy(s.rcv, log, due))
  }

  // ------------------------------------------------------------ the packets sent again

  /** The receiver after some packets, each taken by its word and content, and what is handed up meanwhile. */
  function DeliverPackets(r: Receiver, packets: seq<(u32, Msg)>): (d: Drained)
    requires forall i | 0 <= i < |packets| :: Reliable(packets[i].1.mode)
    decreases |packets|
  {
    if packets == [] then Drained(r, [])
    else
      var o := Deliver(r, packets[0].0, packets[0].1);
      var d := DeliverPackets(o.rcv, packets[1..]);
      Drained(d.rcv, o.items + d.items)
  }

  lemma DeliverKeepsIsn(r: Receiver, w: u32, msg: Msg)
    requires RecvOk(r) && Reliable(msg.mode)
    ensures Deliver(r, w, msg).rcv.isn == r.isn && RecvOk(Deliver(r, w, msg).rcv)
  {
    DrainOk(r);
    if Verdict(r, w) == 0 { DrainOk(Admit(r, Number(r, w), msg)); }
  }

  /** Delivering the packets of some numbers is delivering those numbers. */
  lemma {:induction false} PacketsDeliver(r: Receiver, log: seq<Sent>, order: seq<nat>, packets: seq<(u32, Msg)>)
    requires RecvOk(r) && |packets| == |order|
    requires forall i | 0 <= i < |order| :: order[i] < |log| && Reliable(log[order[i]].msg.mode)
    requires forall i | 0 <= i < |order| :: packets[i] == (Wire(r.isn, order[i]), log[order[i]].msg)
    ensures DeliverPackets(r, packets) == Drained(DeliverAll(r, log, order), HandedUpBy(r, log, order))
    decreases |order|
  {
    if order != [] {
      DeliverKeepsIsn(r, packets[0].0, packets[0].1);
      PacketsDeliver(Deliver(r, packets[0].0, packets[0].1).rcv, log, order[1..], packets[1..]);
    }
  }

  /** So what the retransmission sends, delivered, is what a round delivers. */
  lemma ResentPacketsDeliver(s: State, now: u64, max: nat)
    requires WindowsAgree(s)
    ensures
      var snd, due := s.tx.snd, Batch(s.tx, now, max);
      var packets := PacketsFirst(snd, due, |due|);
      && (forall i | 0 <= i < |packets| :: Reliable(packets[i].1.mode))
      && DeliverPackets(s.rcv, packets) ==
           Drained(DeliverAll(s.rcv, snd.log, due), HandedUpBy(s.rcv, snd.log, due))
  {
    var snd, due := s.tx.snd, Batch(s.tx, now, max);
    PacketsDeliver(s.rcv, snd.log, due, PacketsFirst(snd, due, |due|));
  }

  // ------------------------------------------------------------ a round is made of link steps

  /** s with the first k of `due` sent again. */
  ghost function SentAgain(s: State, due: seq<nat>, k: nat, now: u64): (s': State)
    requires k <= |due| && AllWithin(due, s.tx.snd.head, |s.tx.snd.log|)
  {
    s.(tx := s.tx.(snd := ResendFirst(s.tx.snd, due, k, now)), data := s.data + PacketsOf(s.tx.snd.log, due[..k]))
  }

  lemma {:induction false} SentAgainReaches(s: State, due: seq<nat>, k: nat, now: u64)
    requires k <= |due| && AllWithin(due, s.tx.snd.head, |s.tx.snd.log|)
    requires forall i | 0 <= i < |due| :: due[i] in Unacked(s.tx.snd)
    ensures Reaches(s, SentAgain(s, due, k, now))
  {
    if k == 0 {
      assert due[..0] == [] && s.data + PacketsOf(s.tx.snd.log, []) == s.data;
      ReachesItself(s);
    } else {
      SentAgainReaches(s, due, k - 1, now);
      var t, n := SentAgain(s, due, k - 1, now), due[k - 1];
      assert n in Unacked(t.tx.snd);
      OneMorePacket(s.tx.snd.log, due, k);
      assert Apply(t, Retransmit(n, now)).data == SentAgain(s, due, k, now).data;
      assert Apply(t, Retransmit(n, now)) == SentAgain(s, due, k, now);
      ReachesStep(s, t, Retransmit(n, now));
    }
  }

  lemma OneMorePacket(log: seq<Sent>, due: seq<nat>, k: nat)
    requires 0 < k <= |due| && AllWithin(due, 0, |log|)
    ensures PacketsOf(log, due[..k]) == PacketsOf(log, due[..k - 1]) + {Packet(due[k - 1], log[due[k - 1]].msg)}
  {
    var all, init := PacketsOf(log, due[..k]), PacketsOf(log, due[..k - 1]);
    forall i | 0 <= i < k ensures Packet(due[i], log[due[i]].msg) in all {
      assert due[..k][i] == due[i];
    }
    forall i | 0 <= i < k - 1 ensures Packet(due[i], log[due[i]].msg) in init {
      assert due[..k - 1][i] == due[i];
    }
  }

  /** s after everything in `order` has arrived. */
  ghost function Arrived(s: State, order: seq<nat>): (s': State)
    requires forall i | 0 <= i < |order| :: order[i] < |s.tx.snd.log| && Reliable(s.tx.snd.log[order[i]].msg.mode)
  {
    s.(rcv := DeliverAll(s.rcv, s.tx.snd.log, order), handed := s.handed + HandedUpBy(s.rcv, s.tx.snd.log, order))
  }

  lemma {:induction false} ArrivedReaches(s: State, order: seq<nat>, base: nat)
    requires Ready(s.rcv, s.tx.snd.log, base) && AllWithin(order, base, |s.tx.snd.log|)
    requires forall i | 0 <= i < |order| :: Packet(order[i], s.tx.snd.log[order[i]].msg) in s.data
    ensures Reaches(s, Arrived(s, order))
    decreases |order|
  {
    var log := s.tx.snd.log;
    if order == [] {
      assert s.handed + [] == s.handed;
      ReachesItself(s);
    } else {
      var n, rest := order[0], order[1..];
      var p := Packet(n, log[n].msg);
      var s1 := Apply(s, DeliverData(p));
      DeliverOne(s.rcv, log, base, n);
      ReachesItself(s);
      ReachesStep(s, s, DeliverData(p));
      ArrivedReaches(s1, rest, base);
      Assoc(s.handed, Deliver(s.rcv, Wire(s.rcv.isn, n), log[n].msg).items, HandedUpBy(s1.rcv, log, rest));
      ReachesTrans(s, s1, Arrived(s, order));
    }
  }

  /** Only the messages matter to the receiver, not when they were sent. */
  lemma {:induction false} SameDelivery(r: Receiver, log: seq<Sent>, log': seq<Sent>, order: seq<nat>)
    requires |log| == |log'| && forall n | 0 <= n < |log| :: log'[n].msg == log[n].msg
    requires forall i | 0 <= i < |order| :: order[i] < |log| && Reliable(log[order[i]].msg.mode)
    ensures DeliverAll(r, log', order) == DeliverAll(r, log, order)
    ensures HandedUpBy(r, log', order) == HandedUpBy(r, log, order)
    decreases |order|
  {
    if order != [] {
      SameDelivery(Deliver(r, Wire(r.isn, order[0]), log[order[0]].msg).rcv, log, log', order[1..]);
    }
  }

  /** s once the timer has fired. */
  ghost function Fired(s: State, now: u64, max: nat): (s': State) {
    s.(tx := OnTimer(s.tx, now, max), data := s.data + PacketsOf(s.tx.snd.log, Batch(s.tx, now, max)))
  }

  lemma FiredReaches(s: State, now: u64, max: nat)
    requires Ok(s.tx.snd)
    ensures Reaches(s, Fired(s, now, max))
  {
    var due := Batch(s.tx, now, max);
    ExpiredOldestFirst(s.tx.snd, s.tx.snd.head, now, s.tx.rtt.rto, max);
    ReachesItself(s);
    ReachesStep(s, s, Backoff);
    var s1 := if due == [] then s else Apply(s, Backoff);
    SentAgainReaches(s1, due, |due|, now);
    assert due[..|due|] == due;
    assert SentAgain(s1, due, |due|, now) == Fired(s, now, max);
    ReachesTrans(s, s1, Fired(s, now, max));
  }

  lemma AckReaches(s: State, at: u64)
    requires WindowsAgree(s)
    ensures
      var r := s.rcv;
      Reaches(s, s.(tx := OnAck(s.tx, AckNum(r), SackMask(r), at),
                    acks := s.acks + {AckPacket(r.expected, AckNum(r), SackMask(r))}))
  {
    var k := AckPacket(s.rcv.expected, AckNum(s.rcv), SackMask(s.rcv));
    var s1 := Apply(s, EmitAck);
    ReachesItself(s);
    ReachesStep(s, s, EmitAck);
    ReachesStep(s, s1, DeliverAck(k, at));
  }

  lemma FiredAgrees(s: State, now: u64, max: nat)
    requires WindowsAgree(s)
    ensures
      var s1, due := Fired(s, now, max), Batch(s.tx, now, max);
      && SameMessages(s.tx.snd, s1.tx.snd) && WindowsAgree(s1)
      && Ready(s1.rcv, s1.tx.snd.log, s1.tx.snd.head)
      && forall i | 0 <= i < |due| :: Packet(due[i], s1.tx.snd.log[due[i]].msg) in s1.data
  {
    OnTimerKeeps(s.tx, now, max);
    var s1, due := Fired(s, now, max), Batch(s.tx, now, max);
    forall i | 0 <= i < |due| ensures Packet(due[i], s1.tx.snd.log[due[i]].msg) in s1.data {
      assert Packet(due[i], s.tx.snd.log[due[i]].msg) in PacketsOf(s.tx.snd.log, due);
    }
  }

  /** So whatever holds of every run holds through the rounds as well. */
  lemma RoundReaches(s: State, t: Tick, max: nat)
    requires WindowsAgree(s)
    ensures Reaches(s, Round(s, t, max))
  {
    var due, s1 := Batch(s.tx, t.now, max), Fired(s, t.now, max);
    FiredReaches(s, t.now, max);
    FiredAgrees(s, t.now, max);
    ArrivedReaches(s1, due, s1.tx.snd.head);
    SameDelivery(s.rcv, s.tx.snd.log, s1.tx.snd.log, due);
    var s2 := Arrived(s1, due);
    ReachesTrans(s, s1, s2);
    ArrivedAgrees(s1, due);
    AckReaches(s2, t.at);
    ReachesTrans(s, s2, Round(s, t, max));
  }

  lemma ArrivedAgrees(s: State, order: seq<nat>)
    requires WindowsAgree(s) && Ready(s.rcv, s.tx.snd.log, s.tx.snd.head)
    requires AllWithin(order, s.tx.snd.head, |s.tx.snd.log|)
    ensures WindowsAgree(Arrived(s, order))
    decreases |order|
  {
    DeliverAllKeeps(s.rcv, s.tx.snd.log, s.tx.snd.head, order);
  }

  lemma {:induction false} DeliverAllKeeps(r: Receiver, log: seq<Sent>, base: nat, order: seq<nat>)
    requires Ready(r, log, base) && AllWithin(order, base, |log|)
    ensures
      var r' := DeliverAll(r, log, order);
      && Ready(r', log, base) && r'.isn == r.isn && r.expected <= r'.expected
      && forall m: nat | Accepted(r, m) :: Accepted(r', m)
    decreases |order|
  {
    if order != [] {
      DeliverOne(r, log, base, order[0]);
      DeliverAllKeeps(Deliver(r, Wire(r.isn, order[0]), log[order[0]].msg).rcv, log, base, order[1..]);
    }
  }

  // ------------------------------------------------------------ what a round achieves

  /** Where the receiver gets to: past all that was listed, and past everything if the list is short. */
  lemma BatchArrives(s: State, now: u64, max: nat)
    requires WindowsAgree(s) && AllDue(s.tx, now)
    ensures
      var snd, due := s.tx.snd, Batch(s.tx, now, max);
      var r := DeliverAll(s.rcv, snd.log, due);
      && Ready(r, snd.log, snd.head) && r.isn == s.rcv.isn
      && (forall m: nat | Accepted(s.rcv, m) :: Accepted(r, m))
      && (forall i | 0 <= i < |due| :: due[i] < r.expected)
      && (|due| < max ==> r.expected == |snd.log|)
  {
    var snd, due := s.tx.snd, Batch(s.tx, now, max);
    ExpiredOldestFirst(snd, snd.head, now, s.tx.rtt.rto, max);
    var top := if |due| < max then |snd.log| else if due == [] then snd.head else due[|due| - 1] + 1;
    forall m: nat | snd.head <= m < top ensures Accepted(s.rcv, m) || m in due {
      assert m in snd.acked || m in Unacked(snd);
    }
    OldestFirst(s.rcv, snd.log, snd.head, due, snd.head, top);
  }

  /** A set without the members of an ascending list is that much smaller. */
  lemma {:induction false} DistinctCount(xs: seq<nat>, u: set<nat>, v: set<nat>)
    requires forall i, j | 0 <= i < j < |xs| :: xs[i] < xs[j]
    requires (forall i | 0 <= i < |xs| :: xs[i] in u && xs[i] !in v) && v <= u
    ensures |v| <= |u| - |xs|
    decreases |xs|
  {
    if xs == [] {
      SubsetSize(v, u);
    } else {
      var last := xs[|xs| - 1];
      DistinctCount(xs[..|xs| - 1], u - {last}, v);
    }
  }

  /** The windows after a round: the head is where the receiver is, and marks are only added. */
  ghost predicate RoundEnds(s: State, s': State, r: Receiver) {
    && s'.rcv == r && SameLog(s.tx.snd, s'.tx.snd)
    && s.tx.snd.head <= s'.tx.snd.head == r.expected
    && WindowsAgree(s')
    && forall n | n in s.tx.snd.acked && n >= r.expected :: n in s'.tx.snd.acked
  }

  /** The sender's window after the ack of receiver r. */
  ghost predicate AckedBy(s: Sender, s': Sender, r: Receiver) {
    && Ok(s') && SameLog(s, s') && s'.isn == s.isn && s'.head == r.expected
    && (forall n | n in s'.acked :: n in s.acked || n in r.buf)
    && (forall n | n in s.acked && n >= r.expected :: n in s'.acked)
  }

  lemma AckOfRound(a: Acking, b: Acking, r: Receiver, at: u64)
    requires Ok(a.snd) && SameMessages(a.snd, b.snd) && r.isn == a.snd.isn
    requires Ready(r, a.snd.log, a.snd.head) && Ok(b.snd)
    ensures AckedBy(a.snd, OnAck(b, AckNum(r), SackMask(r), at).snd, r)
  {
    OwnAckEffect(b, r, at);
  }

  lemma AgreeAgain(s: State, s': State)
    requires WindowsAgree(s) && s'.rcv.isn == s.rcv.isn && Ready(s'.rcv, s.tx.snd.log, s.tx.snd.head)
    requires forall m: nat | Accepted(s.rcv, m) :: Accepted(s'.rcv, m)
    ensures AckedBy(s.tx.snd, s'.tx.snd, s'.rcv) ==> RoundEnds(s, s', s'.rcv)
  {
  }

  lemma RoundWindows(s: State, t: Tick, max: nat)
    requires WindowsAgree(s) && AllDue(s.tx, t.now)
    ensures RoundEnds(s, Round(s, t, max), DeliverAll(s.rcv, s.tx.snd.log, Batch(s.tx, t.now, max)))
  {
    var s' := Round(s, t, max);
    BatchArrives(s, t.now, max);
    AgreeAgain(s, s');
    assert AckedBy(s.tx.snd, s'.tx.snd, s'.rcv) by {
      OnTimerKeeps(s.tx, t.now, max);
      AckOfRound(s.tx, OnTimer(s.tx, t.now, max), s'.rcv, t.at);
    }
  }

  lemma FewerUnacked(s: State, due: seq<nat>, s': State)
    requires Ok(s.tx.snd) && RoundEnds(s, s', s'.rcv)
    requires forall i, j | 0 <= i < j < |due| :: due[i] < due[j]
    requires forall i | 0 <= i < |due| :: due[i] in Unacked(s.tx.snd) && due[i] < s'.rcv.expected
    ensures |Unacked(s'.tx.snd)| <= |Unacked(s.tx.snd)| - |due|
  {
    DistinctCount(due, Unacked(s.tx.snd), Unacked(s'.tx.snd));
  }

  /** The head number is never itself acked once the head is where the receiver is. */
  lemma HeadUnacked(s: State, s': State)
    requires RoundEnds(s, s', s'.rcv)
    ensures s'.tx.snd.head == |s'.tx.snd.log| <==> Unacked(s'.tx.snd) == {}
  {
    var snd := s'.tx.snd;
    if snd.head < |snd.log| {
      assert !Accepted(s'.rcv, snd.head);
      assert snd.head in Unacked(snd);
    }
  }

  /** What a round does, whatever its limit: with every un-acked message due, the head moves past
      everything the round listed, and the window is empty unless the list was cut off at the limit, in
      which case `max` fewer messages are un-acked.  The windows go on agreeing. */
  lemma ExpiryRoundRecovers(s: State, t: Tick, max: nat)
    requires WindowsAgree(s) && AllDue(s.tx, t.now)
    ensures
      var due, s' := Batch(s.tx, t.now, max), Round(s, t, max);
      && WindowsAgree(s') && SameLog(s.tx.snd, s'.tx.snd)
      && (forall i | 0 <= i < |due| :: due[i] < s'.tx.snd.head)
      && (s'.tx.snd.head == |s'.tx.snd.log| <==> Unacked(s'.tx.snd) == {})
      && (|due| < max ==> Unacked(s'.tx.snd) == {})
      && (|due| == max ==> |Unacked(s'.tx.snd)| <= |Unacked(s.tx.snd)| - max)
  {
    var due, s' := Batch(s.tx, t.now, max), Round(s, t, max);
    BatchArrives(s, t.now, max);
    RoundWindows(s, t, max);
    HeadUnacked(s, s');
    ExpiredOldestFirst(s.tx.snd, s.tx.snd.head, t.now, s.tx.rtt.rto, max);
    FewerUnacked(s, due, s');
  }

  // ------------------------------------------------------------ several rounds

  /** `states` are what the rounds at `ticks` lead through from two windows that agree.  At every round
      the messages still un-acked have waited out the timeout then in force. */
  ghost predicate IsRounds(states: seq<State>, ticks: seq<Tick>, max: nat) {
    && |states| == |ticks| + 1 && WindowsAgree(states[0])
    && forall k | 0 <= k < |ticks| :: RoundInto(states[k], ticks[k], states[k + 1], max)
  }

  ghost predicate RoundInto(s: State, t: Tick, s': State, max: nat) {
    WindowsAgree(s) ==> AllDue(s.tx, t.now) && s' == Round(s, t, max)
  }

  /** At most `left` of the messages of s are un-acked, and the head is not held up by acked ones. */
  ghost predicate Left(s: State, s': State, left: int) {
    && WindowsAgree(s') && SameLog(s.tx.snd, s'.tx.snd)
    && (if left <= 0 then Unacked(s'.tx.snd) == {} else |Unacked(s'.tx.snd)| <= left)
  }

  lemma OneMoreRound(s: State, s1: State, t: Tick, s2: State, left: int, max: nat)
    requires RoundInto(s1, t, s2, max) && max >= 1
    ensures Left(s, s1, left) ==> Left(s, s2, left - max)
    ensures Left(s, s1, left) ==> (s2.tx.snd.head == |s2.tx.snd.log| <==> Unacked(s2.tx.snd) == {})
  {
    if Left(s, s1, left) {
      ExpiryRoundRecovers(s1, t, max);
    }
  }

  lemma {:induction false} RoundsLeave(states: seq<State>, ticks: seq<Tick>, max: nat, k: nat)
    requires max >= 1 && IsRounds(states, ticks, max) && k <= |ticks|
    ensures Left(states[0], states[k], |Unacked(states[0].tx.snd)| - k * max)
    decreases k
  {
    if k > 0 {
      RoundsLeave(states, ticks, max, k - 1);
      assert k * max == (k - 1) * max + max;
      OneMoreRound(states[0], states[k - 1], ticks[k - 1], states[k], |Unacked(states[0].tx.snd)| - (k - 1) * max, max);
    }
  }

  lemma RoundIntoReaches(s: State, s1: State, t: Tick, s2: State, max: nat)
    ensures Reaches(s, s1) && WindowsAgree(s1) && RoundInto(s1, t, s2, max) ==> Reaches(s, s2)
  {
    if Reaches(s, s1) && WindowsAgree(s1) && RoundInto(s1, t, s2, max) {
      RoundReaches(s1, t, max);
      ReachesTrans(s, s1, s2);
    }
  }

  lemma RoundAt(states: seq<State>, ticks: seq<Tick>, max: nat, k: nat)
    requires max >= 1 && IsRounds(states, ticks, max) && 0 < k <= |ticks|
    ensures WindowsAgree(states[k - 1]) && RoundInto(states[k - 1], ticks[k - 1], states[k], max)
  {
    RoundsLeave(states, ticks, max, k - 1);
    assert RoundInto(states[k - 1], ticks[k - 1], states[k - 1 + 1], max);
  }

  lemma RoundsReachNext(states: seq<State>, ticks: seq<Tick>, max: nat, k: nat)
    requires max >= 1 && IsRounds(states, ticks, max) && 0 < k <= |ticks|
    ensures Reaches(states[0], states[k - 1]) ==> Reaches(states[0], states[k])
  {
    RoundAt(states, ticks, max, k);
    RoundIntoReaches(states[0], states[k - 1], ticks[k - 1], states[k], max);
  }

  lemma {:induction false} RoundsReach(states: seq<State>, ticks: seq<Tick>, max: nat, k: nat)
    requires max >= 1 && IsRounds(states, ticks, max) && k <= |ticks|
    ensures Reaches(states[0], states[k])
    decreases k
  {
    if k == 0 {
      ReachesItself(states[0]);
    } else {
      RoundsReach(states, ticks, max, k - 1);
      RoundsReachNext(states, ticks, max, k);
    }
  }

  /** Everything sent is in the application's hands: the ordered messages in order, the unordered ones
      too, each once. */
  ghost predicate AllHandedUp(s: State) {
    var log := s.tx.snd.log;
    && OfMode(s.handed, RELIABLE_ORDERED) == OrderedBelow(log, |log|)
    && OnceEach(OfMode(s.handed, RELIABLE_UNORDERED), log, s.rcv)
    && forall n: nat | n < |log| && log[n].msg.mode == RELIABLE_UNORDERED ::
         Item(n, log[n].msg) in OfMode(s.handed, RELIABLE_UNORDERED)
  }

  lemma EmptyWindowMeansHandedUp(s: State)
    requires Inv(s) && s.tx.snd.head == |s.tx.snd.log|
    ensures AllHandedUp(s)
  {
  }

  /** ceil(|un-acked| / max) rounds, and at least one, empty the window, for every limit and every
      capacity at either end; and from a reachable state everything sent has then been handed up. */
  lemma RoundsRecover(states: seq<State>, ticks: seq<Tick>, max: nat)
    requires max >= 1 && ticks != [] && IsRounds(states, ticks, max)
    requires |ticks| * max >= |Unacked(states[0].tx.snd)|
    ensures
      var s, s' := states[0], states[|ticks|];
      && SameLog(s.tx.snd, s'.tx.snd) && s'.tx.snd.head == |s'.tx.snd.log|
      && (Inv(s) ==> AllHandedUp(s'))
  {
    var k, u := |ticks|, |Unacked(states[0].tx.snd)|;
    RoundsLeave(states, ticks, max, k - 1);
    RoundsLeave(states, ticks, max, k);
    OneMoreRound(states[0], states[k - 1], ticks[k - 1], states[k], u - (k - 1) * max, max);
    if Inv(states[0]) {
      RoundsReach(states, ticks, max, k);
      ReachesInv(states[0], states[k]);
      EmptyWindowMeansHandedUp(states[k]);
    }
  }
}
