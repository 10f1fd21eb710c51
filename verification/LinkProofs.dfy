/** Every step of the link keeps its invariant. */
module LinkProofs {
  import opened Words
  import opened SeqNum
  import opened SendSpec
  import opened RecvSpec
  import opened AckTheory
  import opened Link

  // ------------------------------------------------------------ filtering

  lemma {:induction false} OfModeConcat(a: seq<Item>, b: seq<Item>, mode: u8)
    ensures OfMode(a + b, mode) == OfMode(a, mode) + OfMode(b, mode)
    decreases |b|
  {
    if b == [] {
      assert a + b == a;
    } else {
      var b' := b[..|b| - 1];
      assert (a + b)[..|a + b| - 1] == a + b';
      OfModeConcat(a, b', mode);
    }
  }

  lemma {:induction false} OfModeUniform(items: seq<Item>, mode: u8, common: u8)
    requires forall i | 0 <= i < |items| :: items[i].msg.mode == common
    ensures OfMode(items, mode) == if mode == common then items else []
    decreases |items|
  {
    if items != [] {
      OfModeUniform(items[..|items| - 1], mode, common);
      assert items == items[..|items| - 1] + [items[|items| - 1]];
    }
  }

  lemma {:induction false} OrderedBelowSame(log: seq<Sent>, log': seq<Sent>, k: nat)
    requires k <= |log| && k <= |log'|
    requires forall n | 0 <= n < k :: log'[n].msg == log[n].msg
    ensures OrderedBelow(log', k) == OrderedBelow(log, k)
  {
    if k > 0 { OrderedBelowSame(log, log', k - 1); }
  }

  // ------------------------------------------------------------ draining

  /** Draining accepts nothing and forgets nothing. */
  lemma {:induction false} DrainKeepsAccepted(r: Receiver, n: nat)
    requires RecvOk(r)
    ensures Accepted(Drain(r).rcv, n) <==> Accepted(r, n)
    decreases |r.buf|
  {
    if r.expected in r.buf { DrainKeepsAccepted(Advance(r), n); }
  }

  ghost predicate AllOrdered(items: seq<Item>) {
    forall i | 0 <= i < |items| :: items[i].msg.mode == RELIABLE_ORDERED
  }

  lemma AdvanceHandsUpOrdered(r: Receiver, log: seq<Sent>)
    requires Consistent(r, log) && r.expected in r.buf
    ensures Consistent(Advance(r), log)
    ensures OrderedBelow(log, r.expected + 1) == OrderedBelow(log, r.expected) + Passing(r)
    ensures AllOrdered(Passing(r))
  {
    assert Agrees(r.buf[r.expected], log[r.expected].msg);
  }

  /** d carries r on, handing up exactly the ordered messages in between. */
  ghost predicate HandsUpOrdered(r: Receiver, d: Drained, log: seq<Sent>) {
    && Consistent(d.rcv, log) && r.expected <= |log|
    && OrderedBelow(log, d.rcv.expected) == OrderedBelow(log, r.expected) + d.items
    && AllOrdered(d.items)
  }

  lemma HandsUpStep(r: Receiver, d: Drained, log: seq<Sent>)
    requires Consistent(r, log) && r.expected in r.buf && HandsUpOrdered(Advance(r), d, log)
    ensures HandsUpOrdered(r, Drained(d.rcv, Passing(r) + d.items), log)
  {
    AdvanceHandsUpOrdered(r, log);
    var below := OrderedBelow(log, r.expected);
    assert below + (Passing(r) + d.items) == (below + Passing(r)) + d.items;
  }

  /** Draining hands up exactly the ordered messages it passes, in order. */
  lemma {:induction false} DrainHandsUpOrdered(r: Receiver, log: seq<Sent>)
    requires Consistent(r, log)
    ensures HandsUpOrdered(r, Drain(r), log)
    decreases |r.buf|
  {
    if r.expected in r.buf {
      AdvanceHandsUpOrdered(r, log);
      DrainHandsUpOrdered(Advance(r), log);
      HandsUpStep(r, Drain(Advance(r)), log);
    }
  }

  /** Within the age limit a new word is read as the number it was sent for, and an old one changes
      nothing. */
  lemma DeliverMeaning(r: Receiver, n: nat, msg: Msg)
    requires RecvOk(r) && Quiet(r) && Reliable(msg.mode)
    requires -0x1_0000_0000 + r.cap <= n - r.expected < 0x8000_0000
    ensures
      var o := Deliver(r, Wire(r.isn, n), msg);
      if Accepted(r, n) || n >= r.expected + r.cap then o.rcv == r && o.items == []
      else
        var d := Drain(Admit(r, n, msg));
        o == Outcome(0, d.rcv, OnArrival(n, msg) + d.items)
  {
    NewIffVerdict(r, n);
  }

  lemma NewIffVerdict(r: Receiver, n: nat)
    requires RecvOk(r) && -0x1_0000_0000 + r.cap <= n - r.expected < 0x8000_0000
    ensures Verdict(r, Wire(r.isn, n)) == 0 <==> !Accepted(r, n) && n < r.expected + r.cap
    ensures Verdict(r, Wire(r.isn, n)) == 0 ==> Number(r, Wire(r.isn, n)) == n
  {
    if n < r.expected {
      StaleVerdict(r, r.expected - n);
    } else {
      CurrentVerdict(r, n);
    }
  }

  lemma CurrentVerdict(r: Receiver, n: nat)
    requires r.expected <= n < r.expected + 0x8000_0000
    ensures
      var w := Wire(r.isn, n);
      Number(r, w) == n && Verdict(r, w) == if n >= r.expected + r.cap then -2 else if n in r.buf then 1 else 0
  {
    WireOrder(r.isn, n, r.expected);
  }

  lemma StaleWord(r: Receiver, n: int)
    requires -0x1_0000_0000 < n - r.expected < -0x8000_0000
    ensures SeqDiff(Wire(r.isn, n), Wire(r.isn, r.expected)) == n - r.expected + 0x1_0000_0000
  {
    WireDiff(r.isn, n, r.expected);
  }

  /** The age limit on data is exact.  A packet passed `lag` numbers ago leaves the window alone unless
      its word has come round to a vacant number of the current window. */
  lemma StaleDataLimit(r: Receiver, lag: nat, msg: Msg)
    requires RecvOk(r) && Quiet(r) && Reliable(msg.mode) && 1 <= lag < 0x1_0000_0000
    ensures
      Deliver(r, Wire(r.isn, r.expected - lag), msg).rcv == r
      <==> lag <= 0x1_0000_0000 - r.cap || r.expected + 0x1_0000_0000 - lag in r.buf
  {
    var w, n := Wire(r.isn, r.expected - lag), r.expected + 0x1_0000_0000 - lag;
    StaleVerdict(r, lag);
    if Verdict(r, w) == 0 {
      AdmitAccepts(r, n, msg, n);
    }
  }

  lemma StaleVerdict(r: Receiver, lag: nat)
    requires 1 <= lag < 0x1_0000_0000
    ensures
      var w, n := Wire(r.isn, r.expected - lag), r.expected + 0x1_0000_0000 - lag;
      && (lag <= 0x8000_0000 ==> Verdict(r, w) == 1)
      && (lag > 0x8000_0000 ==>
            Number(r, w) == n && Verdict(r, w) == if n >= r.expected + r.cap then -2 else if n in r.buf then 1 else 0)
  {
    if lag > 0x8000_0000 {
      StaleWord(r, r.expected - lag);
    } else {
      WireOrder(r.isn, r.expected - lag, r.expected);
    }
  }

  // ------------------------------------------------------------ acknowledgment

  /** A sound ack moves the head to what the receiver expected when it was made and marks only
      accepted numbers, however stale, repeated or reordered it is. */
  lemma SoundAckEffect(a: Acking, k: AckPacket, r: Receiver, now: u64)
    requires Ok(a.snd) && SoundAck(k, r) && r.isn == a.snd.isn
    requires r.expected <= |a.snd.log| && a.snd.head - (k.expected - 1) < 0x8000_0000
    ensures
      var s, s' := a.snd, OnAck(a, k.ackNum, k.mask, now).snd;
      && Ok(s') && s' == s.(head := s'.head, acked := s'.acked)
      && s'.head == (if k.expected > s.head then k.expected else s.head)
      && forall n :: n in s'.acked <==>
           s'.head <= n < |s.log| && (n in s.acked || (n - k.expected < 32 && Bit(k.mask, n - k.expected)))
  {
    var s := a.snd;
    OnAckWindow(a, k.ackNum, k.mask, now);
    HeadOfSoundAck(s, k);
    forall n: nat | HeadAfter(s, k.ackNum) <= n < |s.log| ensures Offset(s, k.ackNum, n) == n - k.expected {
      OffsetOfSoundAck(s, k, n);
    }
  }

  lemma HeadOfSoundAck(s: Sender, k: AckPacket)
    requires Ok(s) && k.ackNum == Wire(s.isn, k.expected - 1) && k.expected <= |s.log|
    requires s.head - (k.expected - 1) < 0x8000_0000
    ensures HeadAfter(s, k.ackNum) == if k.expected > s.head then k.expected else s.head
  {
    WireDiff(s.isn, k.expected - 1, s.head);
  }

  lemma OffsetOfSoundAck(s: Sender, k: AckPacket, n: nat)
    requires Ok(s) && k.ackNum == Wire(s.isn, k.expected - 1)
    requires k.expected <= n < |s.log| && s.head - (k.expected - 1) < 0x8000_0000
    ensures Offset(s, k.ackNum, n) == n - k.expected
  {
    WireDiff(s.isn, n, k.expected - 1);
    WrapOfSum(-1, Wire(s.isn, n) - k.ackNum);
    WrapOfSum(-1, n - (k.expected - 1));
  }

  // ------------------------------------------------------------ the steps

  lemma InitialInv(s: State)
    requires Initial(s)
    ensures Inv(s)
  {
  }

  lemma SendInv(s: State, msg: Msg, at: u64)
    requires Inv(s) && Enabled(s, Send(msg, at))
    ensures Inv(Apply(s, Send(msg, at)))
  {
    var s' := Apply(s, Send(msg, at));
    LongerLog(s, s');
    assert forall n | 0 <= n < |s'.tx.snd.log| :: Storable(s'.tx.snd.log[n].msg);
  }

  /** Appending to the log, or touching only send times, disturbs nothing the receiver did. */
  lemma LongerLog(s: State, s': State)
    requires Inv(s) && s'.rcv == s.rcv && s'.handed == s.handed && s'.acks == s.acks
    requires |s.tx.snd.log| <= |s'.tx.snd.log|
    requires forall n | 0 <= n < |s.tx.snd.log| :: s'.tx.snd.log[n].msg == s.tx.snd.log[n].msg
    ensures Consistent(s'.rcv, s'.tx.snd.log)
    ensures OfMode(s'.handed, RELIABLE_ORDERED) == OrderedBelow(s'.tx.snd.log, s'.rcv.expected)
    ensures OnceEach(OfMode(s'.handed, RELIABLE_UNORDERED), s'.tx.snd.log, s'.rcv)
    ensures forall k | k in s'.acks :: SoundAck(k, s'.rcv)
  {
    OrderedBelowSame(s.tx.snd.log, s'.tx.snd.log, s.rcv.expected);
  }

  lemma RetransmitInv(s: State, n: nat, at: u64)
    requires Inv(s) && Enabled(s, Retransmit(n, at))
    ensures Inv(Apply(s, Retransmit(n, at)))
  {
    LongerLog(s, Apply(s, Retransmit(n, at)));
  }

  lemma LoseInv(s: State, lostData: set<Packet>, lostAcks: set<AckPacket>)
    requires Inv(s)
    ensures Inv(Apply(s, Lose(lostData, lostAcks)))
  {
  }

  /** The ack a receiver makes of its own state is sound. */
  lemma OwnAckIsSound(r: Receiver)
    ensures SoundAck(AckPacket(r.expected, AckNum(r), SackMask(r)), r)
  {
    forall i: nat ensures i < 32 && Bit(SackMask(r), i) ==> Accepted(r, r.expected + i) {
      MaskBits(r, 32, i);
    }
  }

  /** What a current ack does: the head moves up to `expected`, and of the numbers beyond it exactly the
      buffered ones within reach of the mask become acked. */
  lemma OwnAckEffect(a: Acking, r: Receiver, now: u64)
    requires Ok(a.snd) && r.isn == a.snd.isn && a.snd.head <= r.expected <= |a.snd.log|
    ensures
      var s, s' := a.snd, OnAck(a, AckNum(r), SackMask(r), now).snd;
      && s' == s.(head := r.expected, acked := s'.acked)
      && forall n :: n in s'.acked <==>
           r.expected <= n < |s.log| && (n in s.acked || (n < r.expected + 32 && n in r.buf))
  {
    OwnAckIsSound(r);
    SoundAckEffect(a, AckPacket(r.expected, AckNum(r), SackMask(r)), r, now);
    var acked := OnAck(a, AckNum(r), SackMask(r), now).snd.acked;
    forall n: nat | r.expected <= n < |a.snd.log|
      ensures n in acked <==> n in a.snd.acked || (n < r.expected + 32 && n in r.buf)
    {
      if n < r.expected + 32 { MaskBits(r, 32, n - r.expected); }
    }
  }

  lemma EmitAckInv(s: State)
    requires Inv(s)
    ensures Inv(Apply(s, EmitAck))
  {
    OwnAckIsSound(s.rcv);
  }

  lemma DeliverAckInv(s: State, k: AckPacket, at: u64)
    requires Inv(s) && Enabled(s, DeliverAck(k, at))
    ensures Inv(Apply(s, DeliverAck(k, at)))
  {
    SoundAckEffect(s.tx, k, s.rcv, at);
  }

  lemma DeliverDataInv(s: State, p: Packet)
    requires Inv(s) && Enabled(s, DeliverData(p))
    ensures Inv(Apply(s, DeliverData(p)))
  {
    var r := s.rcv;
    DeliverMeaning(r, p.num, p.msg);
    if !Accepted(r, p.num) && p.num < r.expected + r.cap {
      NewDataInv(s, p);
    } else {
      assert s.handed + [] == s.handed;
    }
  }

  lemma NewDataInv(s: State, p: Packet)
    requires Inv(s) && Enabled(s, DeliverData(p))
    requires !Accepted(s.rcv, p.num) && p.num < s.rcv.expected + s.rcv.cap
    requires var d := Drain(Admit(s.rcv, p.num, p.msg));
             Deliver(s.rcv, Wire(s.rcv.isn, p.num), p.msg) == Outcome(0, d.rcv, OnArrival(p.num, p.msg) + d.items)
    ensures Inv(Apply(s, DeliverData(p)))
  {
    var s' := Apply(s, DeliverData(p));
    AdmitWindows(s, p);
    AdmitHandsUp(s, p);
  }

  lemma AdmitAccepts(r: Receiver, n: nat, msg: Msg, m: nat)
    requires RecvOk(r) && Reliable(msg.mode) && r.expected <= n < r.expected + r.cap
    ensures Accepted(Drain(Admit(r, n, msg)).rcv, m) <==> Accepted(r, m) || m == n
  {
    DrainKeepsAccepted(Admit(r, n, msg), m);
  }

  lemma AdmitWindows(s: State, p: Packet)
    requires Inv(s) && p in s.data && Reliable(p.msg.mode)
    requires !Accepted(s.rcv, p.num) && p.num < s.rcv.expected + s.rcv.cap
    ensures
      var s' := s.(rcv := Drain(Admit(s.rcv, p.num, p.msg)).rcv);
      WindowsAgree(s') && NetworkHonest(s')
  {
    var r1 := Admit(s.rcv, p.num, p.msg);
    assert Consistent(r1, s.tx.snd.log);
    DrainHandsUpOrdered(r1, s.tx.snd.log);
    DrainOk(r1);
    forall m: nat ensures Accepted(s.rcv, m) ==> Accepted(Drain(r1).rcv, m) {
      AdmitAccepts(s.rcv, p.num, p.msg, m);
    }
  }

  lemma AdmitHandsUp(s: State, p: Packet)
    requires Inv(s) && p in s.data && Reliable(p.msg.mode)
    requires !Accepted(s.rcv, p.num) && p.num < s.rcv.expected + s.rcv.cap
    ensures
      var d := Drain(Admit(s.rcv, p.num, p.msg));
      var handed := s.handed + (OnArrival(p.num, p.msg) + d.items);
      && d.rcv.expected <= |s.tx.snd.log|
      && OfMode(handed, RELIABLE_ORDERED) == OrderedBelow(s.tx.snd.log, d.rcv.expected)
      && OnceEach(OfMode(handed, RELIABLE_UNORDERED), s.tx.snd.log, d.rcv)
  {
    var r1 := Admit(s.rcv, p.num, p.msg);
    var d, arrival := Drain(r1), OnArrival(p.num, p.msg);
    assert Consistent(r1, s.tx.snd.log);
    DrainHandsUpOrdered(r1, s.tx.snd.log);
    HandedByMode(s.handed, arrival, d.items, RELIABLE_ORDERED);
    HandedByMode(s.handed, arrival, d.items, RELIABLE_UNORDERED);
    OnceEachGrows(OfMode(s.handed, RELIABLE_UNORDERED), s.tx.snd.log, s.rcv, p);
  }

  lemma HandedByMode(before: seq<Item>, arrival: seq<Item>, drained: seq<Item>, mode: u8)
    requires mode == RELIABLE_ORDERED || mode == RELIABLE_UNORDERED
    requires forall i | 0 <= i < |arrival| :: arrival[i].msg.mode == RELIABLE_UNORDERED
    requires AllOrdered(drained)
    ensures OfMode(before + (arrival + drained), mode)
            == OfMode(before, mode) + (if mode == RELIABLE_ORDERED then drained else arrival)
  {
    OfModeConcat(before, arrival + drained, mode);
    OfModeConcat(arrival, drained, mode);
    OfModeUniform(arrival, mode, RELIABLE_UNORDERED);
    OfModeUniform(drained, mode, RELIABLE_ORDERED);
    assert [] + drained == drained && arrival + [] == arrival;
  }

  lemma OnceEachGrows(u: seq<Item>, log: seq<Sent>, r: Receiver, p: Packet)
    requires RecvOk(r) && OnceEach(u, log, r) && p.num < |log| && p.msg == log[p.num].msg
    requires !Accepted(r, p.num) && p.num < r.expected + r.cap && Reliable(p.msg.mode)
    ensures OnceEach(u + OnArrival(p.num, p.msg), log, Drain(Admit(r, p.num, p.msg)).rcv)
  {
    var r' := Drain(Admit(r, p.num, p.msg)).rcv;
    forall m: nat ensures Accepted(r', m) <==> Accepted(r, m) || m == p.num {
      AdmitAccepts(r, p.num, p.msg, m);
    }
    OnceEachExtended(u, log, r, r', p);
  }

  lemma OnceEachExtended(u: seq<Item>, log: seq<Sent>, r: Receiver, r': Receiver, p: Packet)
    requires OnceEach(u, log, r) && p.num < |log| && p.msg == log[p.num].msg && !Accepted(r, p.num)
    requires forall m: nat :: Accepted(r', m) <==> Accepted(r, m) || m == p.num
    ensures OnceEach(u + OnArrival(p.num, p.msg), log, r')
  {
    var u' := u + OnArrival(p.num, p.msg);
    forall i | 0 <= i < |u'| ensures IsUnordered(log, r', u'[i]) {
      if i < |u| { assert IsUnordered(log, r, u[i]); }
    }
    forall i, j | 0 <= i < j < |u'| ensures u'[i].num != u'[j].num {
      assert IsUnordered(log, r, u[i]);
    }
    forall n: nat | n < |log| && Accepted(r', n) && log[n].msg.mode == RELIABLE_UNORDERED
      ensures Item(n, log[n].msg) in u'
    {
      if n == p.num {
        assert u'[|u|] == Item(n, log[n].msg);
      } else {
        assert Item(n, log[n].msg) in u;
      }
    }
  }

  lemma StepInv(s: State, step: Step)
    requires Inv(s) && Enabled(s, step)
    ensures Inv(Apply(s, step))
  {
    match step
    case Send(msg, at) => SendInv(s, msg, at);
    case Retransmit(n, at) => RetransmitInv(s, n, at);
    case Backoff =>
    case DeliverData(p) => DeliverDataInv(s, p);
    case EmitAck => EmitAckInv(s);
    case DeliverAck(k, at) => DeliverAckInv(s, k, at);
    case Lose(lostData, lostAcks) => LoseInv(s, lostData, lostAcks);
  }

  lemma NextInv(s: State, s': State)
    ensures Inv(s) && Next(s, s') ==> Inv(s')
  {
    if Inv(s) && Next(s, s') {
      var step :| Enabled(s, step) && s' == Apply(s, step);
      StepInv(s, step);
    }
  }

  lemma PathStep(path: seq<State>, i: nat)
    ensures IsPath(path) && 0 < i < |path| ==> Next(path[i - 1], path[i])
  {
    if IsPath(path) && 0 < i < |path| { assert StepInto(path, i); }
  }

  lemma {:induction false} PathInv(path: seq<State>, i: nat)
    requires IsPath(path) && i < |path|
    ensures Inv(path[0]) ==> Inv(path[i])
  {
    if i > 0 {
      PathInv(path, i - 1);
      PathStep(path, i);
      NextInv(path[i - 1], path[i]);
    }
  }

  lemma RunStep(run: seq<State>, i: nat)
    ensures IsRun(run) && 0 < i < |run| ==> Next(run[i - 1], run[i])
  {
    PathStep(run, i);
  }

  lemma RunInv(run: seq<State>, i: nat)
    requires IsRun(run) && i < |run|
    ensures Inv(run[i])
  {
    InitialInv(run[0]);
    PathInv(run, i);
  }

  // ------------------------------------------------------------ paths

  lemma ReachesInv(s: State, s': State)
    ensures Reaches(s, s') && Inv(s) ==> Inv(s')
  {
    if Reaches(s, s') {
      var path :| IsPath(path) && path[0] == s && path[|path| - 1] == s';
      PathInv(path, |path| - 1);
    }
  }

  lemma ReachesItself(s: State)
    ensures Reaches(s, s)
  {
    assert IsPath([s]);
  }

  lemma ReachesNext(s: State, t: State, u: State)
    ensures Reaches(s, t) && Next(t, u) ==> Reaches(s, u)
  {
    if Reaches(s, t) && Next(t, u) {
      var path :| IsPath(path) && path[0] == s && path[|path| - 1] == t;
      var longer := path + [u];
      forall i | 0 < i < |longer| ensures StepInto(longer, i) {
        if i < |path| { assert StepInto(path, i); }
      }
      assert IsPath(longer);
    }
  }

  lemma ReachesStep(s: State, t: State, step: Step)
    requires Enabled(t, step)
    ensures Reaches(s, t) ==> Reaches(s, Apply(t, step))
  {
    assert Next(t, Apply(t, step));
    ReachesNext(s, t, Apply(t, step));
  }

  lemma ReachesTrans(s: State, t: State, u: State)
    ensures Reaches(s, t) && Reaches(t, u) ==> Reaches(s, u)
  {
    if Reaches(s, t) && Reaches(t, u) {
      var path :| IsPath(path) && path[0] == t && path[|path| - 1] == u;
      ReachesAlong(s, path, |path| - 1);
    }
  }

  lemma {:induction false} ReachesAlong(s: State, path: seq<State>, i: nat)
    requires IsPath(path) && i < |path| && Reaches(s, path[0])
    ensures Reaches(s, path[i])
  {
    if i > 0 {
      ReachesAlong(s, path, i - 1);
      PathStep(path, i);
      ReachesNext(s, path[i - 1], path[i]);
    }
  }
}
