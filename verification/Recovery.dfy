/** Theorems about whole runs of the link, and about recovery from loss. */
module Recovery {
  import opened Words
  import opened SeqNum
  import opened SendSpec
  import opened RecvSpec
  import opened Link
  import opened LinkProofs

  // ------------------------------------------------------------ whole runs

  /** In every run the ordered payloads handed up are exactly, in order and once each, the ordered
      messages numbered below `expected`; 32-bit wraparound of the words plays no part. */
  lemma ExactlyOnceInOrder(run: seq<State>, i: nat)
    requires IsRun(run) && i < |run|
    ensures run[i].rcv.expected <= |run[i].tx.snd.log|
    ensures OfMode(run[i].handed, RELIABLE_ORDERED) == OrderedBelow(run[i].tx.snd.log, run[i].rcv.expected)
  {
    RunInv(run, i);
  }

  /** In every run the unordered messages handed up are exactly the accepted ones, once each. */
  lemma UnorderedExactlyOnce(run: seq<State>, i: nat)
    requires IsRun(run) && i < |run|
    ensures OnceEach(OfMode(run[i].handed, RELIABLE_UNORDERED), run[i].tx.snd.log, run[i].rcv)
  {
    RunInv(run, i);
  }

  /** The worker step that first accepts an unordered packet hands that message up, first. */
  lemma UnorderedAtOnce(run: seq<State>, i: nat, p: Packet)
    requires IsRun(run) && i < |run| && Enabled(run[i], DeliverData(p)) && p.msg.mode == RELIABLE_UNORDERED
    requires !Accepted(run[i].rcv, p.num)
    ensures
      var s, s' := run[i], Apply(run[i], DeliverData(p));
      Accepted(s'.rcv, p.num) <==>
        |s'.handed| > |s.handed| && s'.handed[|s.handed|] == Item(p.num, p.msg)
  {
    var s := run[i];
    RunInv(run, i);
    DeliverMeaning(s.rcv, p.num, p.msg);
    if p.num < s.rcv.expected + s.rcv.cap {
      AdmitAccepts(s.rcv, p.num, p.msg, p.num);
    }
  }

  /** In every run: the windows stay in step, and whatever the sender holds acked was accepted. */
  lemma AckSoundness(run: seq<State>, i: nat)
    requires IsRun(run) && i < |run|
    ensures
      var snd, r := run[i].tx.snd, run[i].rcv;
      && snd.head <= r.expected <= |snd.log| <= snd.head + snd.cap
      && forall n: nat | n < snd.head || n in snd.acked :: Accepted(r, n)
  {
    RunInv(run, i);
  }

  /** What a step may not undo. */
  ghost predicate Extends(s: State, s': State) {
    && s.handed <= s'.handed
    && s.tx.snd.head <= s'.tx.snd.head
    && s.rcv.expected <= s'.rcv.expected
    && forall n: nat | Accepted(s.rcv, n) :: Accepted(s'.rcv, n)
  }

  lemma StepExtends(s: State, step: Step)
    requires Inv(s) && Enabled(s, step)
    ensures Extends(s, Apply(s, step))
  {
    match step {
      case DeliverData(p) =>
        DeliverMeaning(s.rcv, p.num, p.msg);
        if !Accepted(s.rcv, p.num) && p.num < s.rcv.expected + s.rcv.cap {
          DrainOk(Admit(s.rcv, p.num, p.msg));
          forall m: nat | Accepted(s.rcv, m) ensures Accepted(Apply(s, step).rcv, m) {
            AdmitAccepts(s.rcv, p.num, p.msg, m);
          }
        }
      case DeliverAck(k, at) => SoundAckEffect(s.tx, k, s.rcv, at);
      case _ =>
    }
  }

  lemma ExtendsTrans(s: State, t: State, u: State)
    ensures Extends(s, t) && Extends(t, u) ==> Extends(s, u)
  {
  }

  lemma NextExtends(s: State, s': State)
    ensures Inv(s) && Next(s, s') ==> Extends(s, s')
  {
    if Inv(s) && Next(s, s') {
      var step :| Enabled(s, step) && s' == Apply(s, step);
      StepExtends(s, step);
    }
  }

  lemma RunStepExtends(run: seq<State>, j: nat)
    requires IsRun(run) && 0 < j < |run|
    ensures Extends(run[j - 1], run[j])
  {
    RunInv(run, j - 1);
    RunStep(run, j);
    NextExtends(run[j - 1], run[j]);
  }

  /** Nothing handed up is taken back, and nothing accepted is forgotten, between any two states. */
  lemma {:induction false} RunExtends(run: seq<State>, i: nat, j: nat)
    requires IsRun(run) && i <= j < |run|
    ensures Extends(run[i], run[j])
    decreases j
  {
    if i < j {
      RunExtends(run, i, j - 1);
      RunStepExtends(run, j);
      ExtendsTrans(run[i], run[j - 1], run[j]);
    }
  }

  // ------------------------------------------------------------ recovery

  /** The receiver after one copy of each number in `order`, each drained as the worker does. */
  function DeliverAll(r: Receiver, log: seq<Sent>, order: seq<nat>): (r': Receiver)
    requires forall i | 0 <= i < |order| :: order[i] < |log| && Reliable(log[order[i]].msg.mode)
    decreases |order|
  {
    if order == [] then r
    else DeliverAll(Deliver(r, Wire(r.isn, order[0]), log[order[0]].msg).rcv, log, order[1..])
  }

  /** The receiver is fit to recover from: what it holds was sent, and numbers from `base` on are
      close enough for their words to be read correctly. */
  ghost predicate Ready(r: Receiver, log: seq<Sent>, base: nat) {
    && Consistent(r, log) && Quiet(r)
    && base <= r.expected
    && |log| <= base + 0x4000_0000
    && forall n | 0 <= n < |log| :: Reliable(log[n].msg.mode)
  }

  lemma DeliverOne(r: Receiver, log: seq<Sent>, base: nat, n: nat)
    requires Ready(r, log, base) && base <= n < |log|
    ensures
      var r' := Deliver(r, Wire(r.isn, n), log[n].msg).rcv;
      && Ready(r', log, base) && r'.cap == r.cap && r'.isn == r.isn && r.expected <= r'.expected
      && forall m: nat :: Accepted(r', m) <==> Accepted(r, m) || (m == n && n < r.expected + r.cap)
  {
    DeliverMeaning(r, n, log[n].msg);
    if !Accepted(r, n) && n < r.expected + r.cap {
      var r1 := Admit(r, n, log[n].msg);
      assert Consistent(r1, log);
      DrainHandsUpOrdered(r1, log);
      DrainOk(r1);
      forall m: nat ensures Accepted(Drain(r1).rcv, m) <==> Accepted(r, m) || m == n {
        AdmitAccepts(r, n, log[n].msg, m);
      }
    }
  }

  /** A receiver that accepted every number has passed every number. */
  lemma AllAcceptedAllPassed(r: Receiver, log: seq<Sent>)
    requires Consistent(r, log) && Quiet(r)
    ensures (forall n: nat | n < |log| :: Accepted(r, n)) <==> r.expected == |log|
    ensures r.expected == |log| ==> r.buf == map[]
  {
    if forall n: nat | n < |log| :: Accepted(r, n) {
      assert r.expected < |log| ==> Accepted(r, r.expected);
    }
    if r.expected == |log| {
      assert forall n | n in r.buf :: false;
    }
  }

  /** If nothing sent lies beyond the receiver's window, every number in `order` gets accepted. */
  lemma {:induction false} AnyOrder(r: Receiver, log: seq<Sent>, base: nat, order: seq<nat>)
    requires Ready(r, log, base) && AllWithin(order, base, |log|) && |log| <= r.expected + r.cap
    ensures
      var r' := DeliverAll(r, log, order);
      && Ready(r', log, base) && r'.cap == r.cap && r'.isn == r.isn
      && forall m: nat :: Accepted(r', m) <==> Accepted(r, m) || m in order
    decreases |order|
  {
    if order != [] {
      var n, rest := order[0], order[1..];
      DeliverOne(r, log, base, n);
      AnyOrder(Deliver(r, Wire(r.isn, n), log[n].msg).rcv, log, base, rest);
      assert forall m: nat :: m in order <==> m == n || m in rest;
    }
  }

  /** Delivering from the oldest up works for a receiver of any capacity: if nothing below `top` is left
      out, everything below `top` is passed. */
  lemma {:induction false} OldestFirst(
    r: Receiver, log: seq<Sent>, base: nat, order: seq<nat>, done: nat, top: nat)
    requires Ready(r, log, base) && AllWithin(order, base, top) && top <= |log|
    requires forall i, j | 0 <= i < j < |order| :: order[i] < order[j]
    requires forall m: nat | m < done :: Accepted(r, m)
    requires forall m: nat | done <= m < top :: Accepted(r, m) || m in order
    ensures DeliverAll(r, log, order).expected >= top && DeliverAll(r, log, order).isn == r.isn
    ensures Ready(DeliverAll(r, log, order), log, base)
    ensures forall m: nat | Accepted(r, m) :: Accepted(DeliverAll(r, log, order), m)
    decreases |order|
  {
    if order == [] {
      assert r.expected < top ==> Accepted(r, r.expected);
    } else {
      var n, rest := order[0], order[1..];
      assert forall m | m in order :: m >= n;
      assert forall m: nat | m < n :: Accepted(r, m);
      assert r.expected < n ==> Accepted(r, r.expected);
      DeliverOne(r, log, base, n);
      var r' := Deliver(r, Wire(r.isn, n), log[n].msg).rcv;
      forall m: nat | n + 1 <= m < top ensures Accepted(r', m) || m in rest {
        if m in order { assert m in [n] + rest; }
      }
      OldestFirst(r', log, base, rest, n + 1, top);
    }
  }

  /** One ack from a receiver that passed everything empties the send window. */
  lemma FinalAck(a: Acking, r: Receiver, at: u64)
    requires Ok(a.snd) && r.isn == a.snd.isn && r.expected == |a.snd.log|
    ensures
      var s' := OnAck(a, AckNum(r), SackMask(r), at).snd;
      s'.head == |s'.log| == |a.snd.log| && Unacked(s') == {}
  {
    OwnAckEffect(a, r, at);
  }

  /** A number the network does not carry is not accepted. */
  lemma {:induction false} NotDelivered(r: Receiver, log: seq<Sent>, base: nat, order: seq<nat>, m: nat)
    requires Ready(r, log, base) && AllWithin(order, base, |log|) && m !in order && !Accepted(r, m)
    ensures !Accepted(DeliverAll(r, log, order), m)
    ensures Ready(DeliverAll(r, log, order), log, base) && DeliverAll(r, log, order).isn == r.isn
    decreases |order|
  {
    if order != [] {
      DeliverOne(r, log, base, order[0]);
      NotDelivered(Deliver(r, Wire(r.isn, order[0]), log[order[0]].msg).rcv, log, base, order[1..], m);
    }
  }

  /** The whole window is acknowledged after one copy of each number in `order` and one ack. */
  ghost predicate Recovers(s: State, order: seq<nat>, at: u64)
    requires Ok(s.tx.snd)
    requires forall i | 0 <= i < |order| :: order[i] < |s.tx.snd.log| && Reliable(s.tx.snd.log[order[i]].msg.mode)
  {
    var r := DeliverAll(s.rcv, s.tx.snd.log, order);
    var snd := OnAck(s.tx, AckNum(r), SackMask(r), at).snd;
    snd.head == |snd.log| && Unacked(snd) == {}
  }

  /** `order` sends every un-acked number again, in whatever order, and nothing outside the window. */
  ghost predicate Resupplies(s: State, order: seq<nat>) {
    && AllWithin(order, s.tx.snd.head, |s.tx.snd.log|)
    && forall n | n in Unacked(s.tx.snd) :: n in order
  }

  lemma InvReady(s: State)
    requires Inv(s)
    ensures Ready(s.rcv, s.tx.snd.log, s.tx.snd.head)
  {
  }

  /** Selective retransmission suffices: if the receiver's window reaches as far as what was sent,
      one copy of each un-acked message, in any order, and one ack leave nothing in flight. */
  lemma AnyOrderRecovers(s: State, order: seq<nat>, at: u64)
    requires Inv(s) && Resupplies(s, order)
    requires |s.tx.snd.log| <= s.rcv.expected + s.rcv.cap
    ensures Recovers(s, order, at)
  {
    InvReady(s);
    var snd, r := s.tx.snd, DeliverAll(s.rcv, s.tx.snd.log, order);
    AnyOrder(s.rcv, snd.log, snd.head, order);
    forall n: nat | n < |snd.log| ensures Accepted(r, n) {
      assert n < snd.head || n in snd.acked || n in Unacked(snd);
    }
    AllAcceptedAllPassed(r, snd.log);
    FinalAck(s.tx, r, at);
  }

  /** That always holds when the receiver's capacity is at least the sender's. */
  lemma SelectiveRetransmissionSuffices(run: seq<State>, i: nat, order: seq<nat>, at: u64)
    requires IsRun(run) && i < |run| && run[i].tx.snd.cap <= run[i].rcv.cap && Resupplies(run[i], order)
    ensures Inv(run[i]) && Recovers(run[i], order, at)
  {
    RunInv(run, i);
    AnyOrderRecovers(run[i], order, at);
  }

  /** And the reach of the receiver's window is exactly what it takes: without it, sending the newest
      message first is an order that fails. */
  lemma EveryOrderRecoversIff(s: State, at: u64)
    requires Inv(s)
    ensures (forall order: seq<nat> | Resupplies(s, order) :: Recovers(s, order, at))
            <==> |s.tx.snd.log| <= s.rcv.expected + s.rcv.cap
  {
    if |s.tx.snd.log| <= s.rcv.expected + s.rcv.cap {
      forall order: seq<nat> | Resupplies(s, order) ensures Recovers(s, order, at) {
        AnyOrderRecovers(s, order, at);
      }
    } else {
      var order := NewestFirst(s);
      InvReady(s);
      NewestFirstIsRefused(s.rcv, s.tx.snd.log, s.tx.snd.head, order);
      PartialAck(s.tx, DeliverAll(s.rcv, s.tx.snd.log, order), at);
      assert !Recovers(s, order, at);
    }
  }

  /** An ack from a receiver that still misses something leaves the window non-empty. */
  lemma PartialAck(a: Acking, r: Receiver, at: u64)
    requires Ok(a.snd) && r.isn == a.snd.isn && a.snd.head <= r.expected < |a.snd.log|
    ensures var s' := OnAck(a, AckNum(r), SackMask(r), at).snd; s'.head == r.expected < |s'.log|
  {
    OwnAckEffect(a, r, at);
  }

  /** The newest number, then the others from the head up. */
  lemma NewestFirst(s: State) returns (order: seq<nat>)
    requires s.tx.snd.head < |s.tx.snd.log|
    ensures Resupplies(s, order)
    ensures |order| >= 1 && order[0] == |s.tx.snd.log| - 1 && order[0] !in order[1..]
  {
    var head, last := s.tx.snd.head, |s.tx.snd.log| - 1;
    var rest := seq(last - head, i requires 0 <= i < last - head => head + i);
    order := [last] + rest;
    forall n: nat | head <= n <= last ensures n in order {
      if n != last { assert rest[n - head] == n; }
    }
    assert order[1..] == rest;
  }

  lemma NewestFirstIsRefused(r: Receiver, log: seq<Sent>, base: nat, order: seq<nat>)
    requires Ready(r, log, base) && AllWithin(order, base, |log|) && |log| > r.expected + r.cap
    requires |order| >= 1 && order[0] == |log| - 1 && order[0] !in order[1..]
    ensures var r' := DeliverAll(r, log, order); base <= r'.expected < |log| && r'.isn == r.isn
  {
    var last, rest := order[0], order[1..];
    DeliverOne(r, log, base, last);
    NotDelivered(Deliver(r, Wire(r.isn, last), log[last].msg).rcv, log, base, rest, last);
  }

  /** Oldest first, as the expiry scan lists them, recovers with a receiver of any capacity. */
  lemma OldestFirstRecovers(s: State, order: seq<nat>, at: u64)
    requires Inv(s) && Resupplies(s, order)
    requires forall i, j | 0 <= i < j < |order| :: order[i] < order[j]
    ensures Recovers(s, order, at)
  {
    InvReady(s);
    var snd := s.tx.snd;
    forall m: nat | snd.head <= m < |snd.log| ensures Accepted(s.rcv, m) || m in order {
      assert m in snd.acked || m in Unacked(snd);
    }
    OldestFirst(s.rcv, snd.log, snd.head, order, snd.head, |snd.log|);
    FinalAck(s.tx, DeliverAll(s.rcv, snd.log, order), at);
  }
}
