/** The send window over unbounded message numbers.  Message n of a window that started at `isn`
    travels as the 32-bit word `Wire(isn, n)`. */
module SendSpec {
  import opened Words
  import opened SeqNum
  import Rtt

  const MAX_PAYLOAD_SIZE := 9216

  const UNRELIABLE_UNORDERED: u8 := 0
  const UNRELIABLE_ORDERED: u8 := 1
  const RELIABLE_UNORDERED: u8 := 2
  const RELIABLE_ORDERED: u8 := 3

  predicate Reliable(mode: u8) {
    mode == RELIABLE_ORDERED || mode == RELIABLE_UNORDERED
  }

  datatype Msg = Msg(mode: u8, payload: seq<u8>)

  /** What a slot of the window may store: push accepts nothing else. */
  predicate Storable(msg: Msg) {
    Reliable(msg.mode) && |msg.payload| <= MAX_PAYLOAD_SIZE
  }

  /** A message as first sent at `first`, last sent at `last` and sent again `resent` times. */
  datatype Sent = Sent(msg: Msg, first: u64, last: u64, resent: nat)

  /** `log` is everything ever numbered; numbers below `head` have left the window; `acked` are the
      numbers still in the window that a selective ack has covered. */
  datatype Sender = Sender(cap: nat, isn: int, head: nat, log: seq<Sent>, acked: set<nat>)

  ghost predicate Ok(s: Sender) {
    && Capacity(s.cap)
    && s.head <= |s.log| <= s.head + s.cap
    && forall n | n in s.acked :: s.head <= n < |s.log|
  }

  function Start(cap: nat, isn: int): (s: Sender) {
    Sender(cap, isn, 0, [], {})
  }

  function Unacked(s: Sender): (u: set<nat>) {
    set n: nat | s.head <= n < |s.log| && n !in s.acked
  }

  predicate CanSend(s: Sender) {
    |s.log| < s.head + s.cap
  }

  function Push(s: Sender, msg: Msg, now: u64): (s': Sender) {
    s.(log := s.log + [Sent(msg, now, now, 0)])
  }

  // ------------------------------------------------------------ acknowledgment

  /** The window and the estimator that an ack updates together. */
  datatype Acking = Acking(snd: Sender, rtt: Rtt.Estimate)

  /** Karn's test as coded: the 8-bit resend counter is zero and the clock did not run backwards. */
  predicate Measurable(m: Sent, now: u64) {
    m.resent % 256 == 0 && now >= m.first
  }

  function Measurement(m: Sent, now: u64): (r: u32)
    requires now >= m.first
  {
    Wrap((now - m.first) / 1000000)
  }

  /** The estimator after number n becomes acked for the first time. */
  function Measure(a: Acking, n: nat, now: u64): (e: Rtt.Estimate)
    requires n < |a.snd.log|
  {
    if Measurable(a.snd.log[n], now) then Rtt.Sample(a.rtt, Measurement(a.snd.log[n], now)) else a.rtt
  }

  /** The oldest number leaves the window. */
  function Retire(a: Acking, now: u64): (a': Acking)
    requires a.snd.head < |a.snd.log|
  {
    var s := a.snd;
    Acking(s.(head := s.head + 1, acked := s.acked - {s.head}),
           if s.head in s.acked then a.rtt else Measure(a, s.head, now))
  }

  /** The cumulative loop: retire the head while it is at or before `ackNum`. */
  function Cumulative(a: Acking, ackNum: u32, now: u64): (a': Acking)
    requires a.snd.head <= |a.snd.log|
    decreases |a.snd.log| - a.snd.head
  {
    if a.snd.head < |a.snd.log| && SeqLte(Wire(a.snd.isn, a.snd.head), ackNum)
    then Cumulative(Retire(a, now), ackNum, now)
    else a
  }

  /** The window number a wire word denotes, counted from the head. */
  function Target(s: Sender, w: u32): (n: nat) {
    s.head + Wrap(w - Wire(s.isn, s.head))
  }

  predicate InWindow(s: Sender, w: u32) {
    SeqLt(w, Wire(s.isn, |s.log|)) && SeqGte(w, Wire(s.isn, s.head))
  }

  /** One selective bit for the word `w`. */
  function Mark(a: Acking, w: u32, now: u64): (a': Acking)
    requires Ok(a.snd)
    ensures Ok(a'.snd)
  {
    var n := Target(a.snd, w);
    if InWindow(a.snd, w) && n < |a.snd.log| && n !in a.snd.acked
    then Acking(a.snd.(acked := a.snd.acked + {n}), Measure(a, n, now))
    else a
  }

  /** The selective loop from bit i on. */
  function Selective(a: Acking, ackNum: u32, mask: u32, i: nat, now: u64): (a': Acking)
    requires Ok(a.snd) && i <= 32
    ensures Ok(a'.snd)
    decreases 32 - i
  {
    if i == 32 then a
    else Selective(if Bit(mask, i) then Mark(a, Wrap(ackNum + 1 + i), now) else a, ackNum, mask, i + 1, now)
  }

  lemma {:induction false} SelectiveOfZero(a: Acking, ackNum: u32, i: nat, now: u64)
    requires Ok(a.snd) && i <= 32
    ensures Selective(a, ackNum, 0, i, now) == a
    decreases 32 - i
  {
    if i < 32 {
      ZeroHasNoBits(i);
      SelectiveOfZero(a, ackNum, i + 1, now);
    }
  }

  lemma {:induction false} CumulativeOk(a: Acking, ackNum: u32, now: u64)
    requires Ok(a.snd)
    ensures Ok(Cumulative(a, ackNum, now).snd)
    decreases |a.snd.log| - a.snd.head
  {
    if a.snd.head < |a.snd.log| { CumulativeOk(Retire(a, now), ackNum, now); }
  }

  function OnAck(a: Acking, ackNum: u32, mask: u32, now: u64): (a': Acking)
    requires Ok(a.snd)
    ensures Ok(a'.snd)
  {
    CumulativeOk(a, ackNum, now);
    Selective(Cumulative(a, ackNum, now), ackNum, mask, 0, now)
  }

  // ------------------------------------------------------------ retransmission

  /** `m` has waited at least the timeout since it was last sent. */
  predicate Due(m: Sent, now: u64, rtoMs: u32) {
    now >= m.last && now - m.last >= rtoMs * 1000000
  }

  /** The due un-acked numbers from n on, oldest first, at most `max` of them. */
  function Expired(s: Sender, n: nat, now: u64, rtoMs: u32, max: nat): (due: seq<nat>)
    ensures |due| <= max && AllWithin(due, n, |s.log|)
    decreases |s.log| - n
  {
    if n >= |s.log| || max == 0 then []
    else if n !in s.acked && Due(s.log[n], now, rtoMs) then [n] + Expired(s, n + 1, now, rtoMs, max - 1)
    else Expired(s, n + 1, now, rtoMs, max)
  }

  function Resend(s: Sender, n: nat, now: u64): (s': Sender)
    requires n < |s.log|
  {
    var m := s.log[n];
    s.(log := s.log[n := m.(last := now, resent := m.resent + 1)])
  }

  ghost predicate AllWithin(due: seq<nat>, lo: nat, hi: nat) {
    forall i | 0 <= i < |due| :: lo <= due[i] < hi
  }

  /** The first k numbers of `due` sent again. */
  function ResendFirst(s: Sender, due: seq<nat>, k: nat, now: u64): (s': Sender)
    requires k <= |due| && AllWithin(due, s.head, |s.log|)
    ensures SameMessages(s, s')
  {
    if k == 0 then s else Resend(ResendFirst(s, due, k - 1, now), due[k - 1], now)
  }

  /** What message n looks like on the wire: its sequence word and its content. */
  function PacketOf(s: Sender, n: nat): (p: (u32, Msg))
    requires n < |s.log|
  {
    (Wire(s.isn, n), s.log[n].msg)
  }

  /** The packets of the first k numbers of `due`. */
  function PacketsFirst(s: Sender, due: seq<nat>, k: nat): (packets: seq<(u32, Msg)>)
    requires k <= |due| && AllWithin(due, s.head, |s.log|)
    ensures |packets| == k && forall i | 0 <= i < k :: packets[i] == PacketOf(s, due[i])
  {
    if k == 0 then [] else PacketsFirst(s, due, k - 1) + [PacketOf(s, due[k - 1])]
  }

  /** The retransmission timer: the due numbers are sent again, and the timeout backs off if any was. */
  function OnTimer(a: Acking, now: u64, max: nat): (a': Acking) {
    var due := Expired(a.snd, a.snd.head, now, a.rtt.rto, max);
    Acking(ResendFirst(a.snd, due, |due|, now), if due == [] then a.rtt else Rtt.Timeout(a.rtt))
  }

  /** Two windows that differ at most in send times and resend counts. */
  ghost predicate SameMessages(s: Sender, t: Sender) {
    s.cap == t.cap && s.isn == t.isn && s.head == t.head && s.acked == t.acked && SameLog(s, t)
  }

  /** Two windows over the same messages. */
  ghost predicate SameLog(s: Sender, t: Sender) {
    |s.log| == |t.log| && forall n | 0 <= n < |s.log| :: t.log[n].msg == s.log[n].msg
  }

  lemma OnTimerKeeps(a: Acking, now: u64, max: nat)
    requires Ok(a.snd)
    ensures Ok(OnTimer(a, now, max).snd) && SameMessages(a.snd, OnTimer(a, now, max).snd)
  {
  }

  /** The scan returns due un-acked numbers only, oldest first, and skips none: every due un-acked
      number is listed unless `max` older ones are. */
  lemma {:induction false} ExpiredOldestFirst(s: Sender, n: nat, now: u64, rtoMs: u32, max: nat)
    ensures
      var due := Expired(s, n, now, rtoMs, max);
      && (forall i | 0 <= i < |due| :: due[i] !in s.acked && Due(s.log[due[i]], now, rtoMs))
      && (forall i, j | 0 <= i < j < |due| :: due[i] < due[j])
      && (forall m: nat | n <= m < |s.log| && m !in s.acked && Due(s.log[m], now, rtoMs) ::
            m in due || (|due| == max && forall i | 0 <= i < |due| :: due[i] < m))
    decreases |s.log| - n
  {
    if n < |s.log| && max > 0 {
      var max' := if n !in s.acked && Due(s.log[n], now, rtoMs) then max - 1 else max;
      ExpiredOldestFirst(s, n + 1, now, rtoMs, max');
    }
  }

  /** Number n is listed, if the limit permits, exactly when it is un-acked and a full timeout, counted in
      nanoseconds from t, has passed. */
  ghost predicate ListedAfter(w: Sender, n: nat, t: u64, now: u64, rtoMs: u32, max: nat) {
    var due := Expired(w, w.head, now, rtoMs, max);
    && (n in due ==> n !in w.acked && now >= t && now - t >= rtoMs * 1000000)
    && (n !in w.acked && now >= t && now - t >= rtoMs * 1000000 ==> n in due || |due| == max)
  }

  /** A message pushed at t and not sent again since, in whatever window it is by now. */
  lemma PushedIsDue(s: Sender, msg: Msg, t: u64, w: Sender, now: u64, rtoMs: u32, max: nat)
    requires w.head <= |s.log| < |w.log| && w.log[|s.log|] == Push(s, msg, t).log[|s.log|]
    ensures ListedAfter(w, |s.log|, t, now, rtoMs, max)
  {
    ExpiredOldestFirst(w, w.head, now, rtoMs, max);
  }

  /** A message last sent again at t. */
  lemma ResentIsDue(s: Sender, n: nat, t: u64, w: Sender, now: u64, rtoMs: u32, max: nat)
    requires n < |s.log| && w.head <= n < |w.log| && w.log[n] == Resend(s, n, t).log[n]
    ensures ListedAfter(w, n, t, now, rtoMs, max)
  {
    ExpiredOldestFirst(w, w.head, now, rtoMs, max);
  }

  /** A round of resends touches each listed message once: its time is now, its count one more, its content
      and first time as they were; no other message is touched. */
  lemma {:induction false} ResendFirstMeaning(s: Sender, due: seq<nat>, k: nat, now: u64, n: nat)
    requires k <= |due| && AllWithin(due, s.head, |s.log|) && n < |s.log|
    requires forall i, j | 0 <= i < j < |due| :: due[i] < due[j]
    ensures
      ResendFirst(s, due, k, now).log[n] ==
        if n in due[..k] then Sent(s.log[n].msg, s.log[n].first, now, s.log[n].resent + 1) else s.log[n]
    decreases k
  {
    if k > 0 {
      ResendFirstMeaning(s, due, k - 1, now, n);
      var init, last := due[..k - 1], due[k - 1];
      assert due[..k] == init + [last];
      assert forall m | m in init :: m < last;
    }
  }

  /** The timer in full: which messages it touches and how, and the backoff, which happens exactly if it
      touches any. */
  lemma OnTimerMeaning(a: Acking, now: u64, max: nat, n: nat)
    requires Ok(a.snd) && n < |a.snd.log| && a.rtt.rto <= a.rtt.maxRto < 0x8000_0000
    ensures
      var due, a' := Expired(a.snd, a.snd.head, now, a.rtt.rto, max), OnTimer(a, now, max);
      var m := a.snd.log[n];
      && |a'.snd.log| == |a.snd.log|
      && a'.snd.log[n] == (if n in due then Sent(m.msg, m.first, now, m.resent + 1) else m)
      && a'.rtt == a.rtt.(rto := if due == [] then a.rtt.rto
                                 else if 2 * a.rtt.rto < a.rtt.maxRto then 2 * a.rtt.rto else a.rtt.maxRto)
  {
    TimerTouches(a.snd, now, a.rtt.rto, max, n);
    Rtt.OneTimeout(a.rtt);
  }

  lemma TimerTouches(s: Sender, now: u64, rtoMs: u32, max: nat, n: nat)
    requires n < |s.log|
    ensures
      var due, m := Expired(s, s.head, now, rtoMs, max), s.log[n];
      ResendFirst(s, due, |due|, now).log[n] == if n in due then Sent(m.msg, m.first, now, m.resent + 1) else m
  {
    var due := Expired(s, s.head, now, rtoMs, max);
    ExpiredOldestFirst(s, s.head, now, rtoMs, max);
    assert forall i, j | 0 <= i < j < |due| :: due[i] < due[j];
    ResendFirstMeaning(s, due, |due|, now, n);
    assert due[..|due|] == due;
  }

  // ------------------------------------------------------------ counting

  lemma UnackedAfterPush(s: Sender, msg: Msg, now: u64)
    requires Ok(s)
    ensures Unacked(Push(s, msg, now)) == Unacked(s) + {|s.log|}
    ensures |Unacked(Push(s, msg, now))| == |Unacked(s)| + 1
  {
    assert Unacked(Push(s, msg, now)) == Unacked(s) + {|s.log|};
  }

  lemma UnackedAfterRetire(a: Acking, now: u64)
    requires Ok(a.snd) && a.snd.head < |a.snd.log|
    ensures Ok(Retire(a, now).snd)
    ensures Unacked(Retire(a, now).snd) == Unacked(a.snd) - {a.snd.head}
    ensures |Unacked(Retire(a, now).snd)| == |Unacked(a.snd)| - (if a.snd.head in a.snd.acked then 0 else 1)
  {
    assert Unacked(Retire(a, now).snd) == Unacked(a.snd) - {a.snd.head};
  }

  lemma UnackedAfterMark(s: Sender, n: nat)
    requires Ok(s) && n in Unacked(s)
    ensures Unacked(s.(acked := s.acked + {n})) == Unacked(s) - {n}
    ensures |Unacked(s.(acked := s.acked + {n}))| == |Unacked(s)| - 1
  {
    assert Unacked(s.(acked := s.acked + {n})) == Unacked(s) - {n};
  }

  /** `in_flight < capacity` never refuses what the distance test admits. */
  lemma UnackedFits(s: Sender)
    requires Ok(s)
    ensures |Unacked(s)| <= |s.log| - s.head
  {
    IntervalSize(Unacked(s), s.head, |s.log|);
  }

  lemma {:induction false} IntervalSize(u: set<nat>, lo: nat, hi: nat)
    requires lo <= hi && forall n | n in u :: lo <= n < hi
    ensures |u| <= hi - lo
    decreases hi - lo
  {
    if lo < hi {
      IntervalSize(u - {lo}, lo + 1, hi);
    } else {
      assert u == {};
    }
  }

  // ------------------------------------------------------------ words and numbers

  /** A word passes the two window comparisons exactly when it is the word of a number in the window,
      and then `Target` finds that number. */
  lemma WindowWord(s: Sender, w: u32)
    requires Ok(s)
    ensures InWindow(s, w) <==> Target(s, w) < |s.log|
    ensures Wire(s.isn, Target(s, w)) == w
  {
    WrapBack(s.isn + s.head, w);
    assert s.isn + Target(s, w) == s.isn + s.head + Wrap(w - Wire(s.isn, s.head));
    WordDistance(s, Wrap(w - Wire(s.isn, s.head)));
  }

  lemma WordDistance(s: Sender, d: u32)
    requires Ok(s)
    ensures InWindow(s, Wire(s.isn, s.head + d)) <==> s.head + d < |s.log|
  {
    WireOrder(s.isn, s.head + d, s.head);
    WireOrder(s.isn, s.head + d, |s.log|);
  }

  /** How two words compare, by the true difference of their numbers. */
  lemma WireOrder(isn: int, m: int, n: int)
    ensures -0x8000_0000 <= m - n < 0x8000_0000 ==> SeqDiff(Wire(isn, m), Wire(isn, n)) == m - n
    ensures 0x8000_0000 <= m - n < 0x1_0000_0000 ==> SeqLt(Wire(isn, m), Wire(isn, n))
  {
    WireDiff(isn, m, n);
  }

  lemma TargetOfWire(s: Sender, n: nat)
    requires Ok(s) && s.head <= n < |s.log|
    ensures Target(s, Wire(s.isn, n)) == n
  {
    WireDiff(s.isn, n, s.head);
  }
}
