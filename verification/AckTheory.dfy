/** What an acknowledgment does to the send window, for every `ack_num` and mask, sound or not. */
module AckTheory {
  import opened Words
  import opened SeqNum
  import opened SendSpec
  import Rtt

  /** How far ahead of the head an `ack_num` reads, modulo 2^32. */
  function Lead(s: Sender, ackNum: u32): (d: u32) {
    Wrap(ackNum - Wire(s.isn, s.head))
  }

  /** The head after the cumulative loop: an `ack_num` up to 2^31 ahead retires everything through
      it, but nothing beyond what was sent; any other one retires nothing. */
  function HeadAfter(s: Sender, ackNum: u32): (h: nat)
    requires s.head <= |s.log|
    ensures s.head <= h <= |s.log|
  {
    var d := Lead(s, ackNum);
    if d > 0x8000_0000 then s.head
    else if s.head + d + 1 <= |s.log| then s.head + d + 1
    else |s.log|
  }

  lemma LeadTest(s: Sender, ackNum: u32)
    ensures SeqLte(Wire(s.isn, s.head), ackNum) <==> Lead(s, ackNum) <= 0x8000_0000
  {
    WrapIsMod(ackNum - Wire(s.isn, s.head));
    WrapIsMod(Wire(s.isn, s.head) - ackNum);
  }

  lemma LeadStep(s: Sender, t: Sender, ackNum: u32)
    requires t.isn == s.isn && t.head == s.head + 1
    ensures Lead(s, ackNum) > 0 ==> Lead(t, ackNum) == Lead(s, ackNum) - 1
    ensures Lead(s, ackNum) == 0 ==> Lead(t, ackNum) == 0xFFFF_FFFF
  {
    WrapOfSum(1, s.isn + s.head);
    WrapIsMod(ackNum - Wire(s.isn, s.head));
    WrapIsMod(ackNum - Wire(t.isn, t.head));
  }

  /** The cumulative loop in closed form. */
  lemma {:induction false} CumulativeClosed(a: Acking, ackNum: u32, now: u64)
    requires Ok(a.snd)
    ensures
      var s := Cumulative(a, ackNum, now).snd;
      && s == a.snd.(head := HeadAfter(a.snd, ackNum), acked := s.acked)
      && forall n :: n in s.acked <==> n in a.snd.acked && n >= HeadAfter(a.snd, ackNum)
    decreases |a.snd.log| - a.snd.head
  {
    LeadTest(a.snd, ackNum);
    if a.snd.head < |a.snd.log| {
      var a' := Retire(a, now);
      LeadStep(a.snd, a'.snd, ackNum);
      LeadTest(a'.snd, ackNum);
      CumulativeClosed(a', ackNum, now);
    }
  }

  /** The mask bit that speaks of number n under a given `ack_num`. */
  function Offset(s: Sender, ackNum: u32, n: nat): (i: u32) {
    Wrap(Wire(s.isn, n) - ackNum - 1)
  }

  predicate Covered(s: Sender, ackNum: u32, mask: u32, i: nat, n: nat) {
    s.head <= n < |s.log| && i <= Offset(s, ackNum, n) < 32 && Bit(mask, Offset(s, ackNum, n))
  }

  /** Bit i and number n speak of each other exactly when n is the target of bit i's word. */
  lemma OffsetTarget(s: Sender, ackNum: u32, i: nat, n: nat)
    requires Ok(s) && s.head <= n < |s.log| && i < 32
    ensures
      var w := Wrap(ackNum + 1 + i);
      Offset(s, ackNum, n) == i <==> InWindow(s, w) && Target(s, w) == n
  {
    var w := Wrap(ackNum + 1 + i);
    WindowWord(s, w);
    TargetOfWire(s, n);
    WordOffset(Wire(s.isn, n), ackNum, i);
  }

  lemma WordOffset(w: u32, ackNum: u32, i: nat)
    requires i < 32
    ensures Wrap(w - ackNum - 1) == i <==> w == Wrap(ackNum + 1 + i)
  {
  }

  /** Bit i speaks of number n and is set. */
  predicate BitFor(s: Sender, ackNum: u32, mask: u32, i: nat, n: nat) {
    s.head <= n < |s.log| && Offset(s, ackNum, n) == i && Bit(mask, i)
  }

  lemma CoveredFrom(s: Sender, t: Sender, ackNum: u32, mask: u32, i: nat, n: nat)
    requires i < 32 && t == s.(acked := t.acked)
    ensures Covered(s, ackNum, mask, i, n) <==> Covered(t, ackNum, mask, i + 1, n) || BitFor(s, ackNum, mask, i, n)
  {
  }

  lemma MarkHits(a: Acking, ackNum: u32, mask: u32, i: nat, now: u64, n: nat)
    requires Ok(a.snd) && i < 32 && Bit(mask, i)
    ensures n in Mark(a, Wrap(ackNum + 1 + i), now).snd.acked <==> n in a.snd.acked || BitFor(a.snd, ackNum, mask, i, n)
  {
    WindowWord(a.snd, Wrap(ackNum + 1 + i));
    if a.snd.head <= n < |a.snd.log| { OffsetTarget(a.snd, ackNum, i, n); }
  }

  /** One turn of the selective loop, for one number. */
  lemma MarkCovers(a: Acking, ackNum: u32, mask: u32, i: nat, now: u64, n: nat)
    requires Ok(a.snd) && i < 32
    ensures
      var a' := if Bit(mask, i) then Mark(a, Wrap(ackNum + 1 + i), now) else a;
      n in a'.snd.acked || Covered(a'.snd, ackNum, mask, i + 1, n)
      <==> n in a.snd.acked || Covered(a.snd, ackNum, mask, i, n)
  {
    var a' := if Bit(mask, i) then Mark(a, Wrap(ackNum + 1 + i), now) else a;
    CoveredFrom(a.snd, a'.snd, ackNum, mask, i, n);
    if Bit(mask, i) { MarkHits(a, ackNum, mask, i, now, n); }
  }

  lemma {:induction false} SelectiveClosed(a: Acking, ackNum: u32, mask: u32, i: nat, now: u64)
    requires Ok(a.snd) && i <= 32
    ensures
      var s := Selective(a, ackNum, mask, i, now).snd;
      && s == a.snd.(acked := s.acked)
      && forall n :: n in s.acked <==> n in a.snd.acked || Covered(a.snd, ackNum, mask, i, n)
    decreases 32 - i
  {
    if i < 32 {
      var a' := if Bit(mask, i) then Mark(a, Wrap(ackNum + 1 + i), now) else a;
      SelectiveClosed(a', ackNum, mask, i + 1, now);
      forall n: nat
        ensures n in a'.snd.acked || Covered(a'.snd, ackNum, mask, i + 1, n)
                <==> n in a.snd.acked || Covered(a.snd, ackNum, mask, i, n)
      {
        MarkCovers(a, ackNum, mask, i, now, n);
      }
    }
  }

  /** The window after an ack: the new head, and the numbers marked acked are those marked before that
      are still in the window and those the mask covers. */
  lemma OnAckWindow(a: Acking, ackNum: u32, mask: u32, now: u64)
    requires Ok(a.snd)
    ensures
      var s, s' := a.snd, OnAck(a, ackNum, mask, now).snd;
      && Ok(s') && s' == s.(head := HeadAfter(s, ackNum), acked := s'.acked)
      && forall n :: n in s'.acked <==>
           s'.head <= n < |s.log| && (n in s.acked || Covered(s, ackNum, mask, 0, n))
  {
    CumulativeOk(a, ackNum, now);
    CumulativeClosed(a, ackNum, now);
    SelectiveClosed(Cumulative(a, ackNum, now), ackNum, mask, 0, now);
    var s, b := a.snd, Cumulative(a, ackNum, now).snd;
    var acked := OnAck(a, ackNum, mask, now).snd.acked;
    forall n: nat
      ensures n in acked <==> b.head <= n < |s.log| && (n in s.acked || Covered(s, ackNum, mask, 0, n))
    {
      CoveredAbove(s, b, ackNum, mask, n);
    }
  }

  lemma CoveredAbove(s: Sender, b: Sender, ackNum: u32, mask: u32, n: nat)
    requires s.head <= b.head && b == s.(head := b.head, acked := b.acked)
    ensures Covered(b, ackNum, mask, 0, n) <==> b.head <= n && Covered(s, ackNum, mask, 0, n)
  {
  }

  /** The age limit on acks is exact.  An ack for number `head - lag`, long since retired, is harmless
      exactly while it lags less than 2^31; from a lag of 2^31 on it retires messages nobody received. */
  lemma StaleAckLimit(a: Acking, lag: nat, mask: u32, now: u64)
    requires Ok(a.snd) && a.snd.head < |a.snd.log| && 1 <= lag < 0x1_0000_0000
    ensures OnAck(a, Wire(a.snd.isn, a.snd.head - lag), mask, now).snd.head == a.snd.head <==> lag < 0x8000_0000
  {
    var ackNum := Wire(a.snd.isn, a.snd.head - lag);
    OnAckWindow(a, ackNum, mask, now);
    WireDiff(a.snd.isn, a.snd.head - lag, a.snd.head);
  }

  // ------------------------------------------------------------ the estimator

  /** The members of `ns` from lo to hi, in ascending order. */
  function Listed(ns: set<nat>, lo: nat, hi: nat): (list: seq<nat>)
    ensures AllWithin(list, lo, hi)
    decreases hi - lo
  {
    if lo >= hi then []
    else if lo in ns then [lo] + Listed(ns, lo + 1, hi)
    else Listed(ns, lo + 1, hi)
  }

  lemma {:induction false} ListedMeaning(ns: set<nat>, lo: nat, hi: nat)
    ensures
      var list := Listed(ns, lo, hi);
      && (forall i, j | 0 <= i < j < |list| :: list[i] < list[j])
      && (forall n :: n in list <==> n in ns && lo <= n < hi)
    decreases hi - lo
  {
    if lo < hi { ListedMeaning(ns, lo + 1, hi); }
  }

  lemma {:induction false} ListedSame(ns: set<nat>, ms: set<nat>, lo: nat, hi: nat)
    requires forall n: nat | lo <= n < hi :: n in ns <==> n in ms
    ensures Listed(ns, lo, hi) == Listed(ms, lo, hi)
    decreases hi - lo
  {
    if lo < hi { ListedSame(ns, ms, lo + 1, hi); }
  }

  lemma {:induction false} ListedSplit(ns: set<nat>, lo: nat, mid: nat, hi: nat)
    requires lo <= mid <= hi
    ensures Listed(ns, lo, hi) == Listed(ns, lo, mid) + Listed(ns, mid, hi)
    decreases mid - lo
  {
    if lo < mid { ListedSplit(ns, lo + 1, mid, hi); }
  }

  lemma {:induction false} ListedMin(ns: set<nat>, ms: set<nat>, t: nat, lo: nat, hi: nat)
    requires t in ns && lo <= t < hi && (forall n | n in ns :: t <= n)
    requires forall n :: n in ms <==> n in ns && n != t
    ensures Listed(ns, lo, hi) == [t] + Listed(ms, lo, hi)
    decreases hi - lo
  {
    if lo < t {
      ListedMin(ns, ms, t, lo + 1, hi);
    } else {
      ListedSame(ns, ms, lo + 1, hi);
    }
  }

  /** The sample a newly acked message yields, if any, by Karn's test as coded. */
  function Taken(m: Sent, now: u64): (history: seq<Rtt.Event>) {
    if Measurable(m, now) then [Rtt.Measured(Measurement(m, now))] else []
  }

  /** The samples taken from the numbers of `ns` in turn. */
  function Samples(log: seq<Sent>, ns: seq<nat>, now: u64): (history: seq<Rtt.Event>)
    requires AllWithin(ns, 0, |log|)
  {
    if ns == [] then [] else Taken(log[ns[0]], now) + Samples(log, ns[1..], now)
  }

  lemma {:induction false} SamplesBoth(log: seq<Sent>, ns: seq<nat>, ms: seq<nat>, now: u64)
    requires AllWithin(ns, 0, |log|) && AllWithin(ms, 0, |log|)
    ensures Samples(log, ns + ms, now) == Samples(log, ns, now) + Samples(log, ms, now)
    decreases |ns|
  {
    if ns == [] {
      assert ns + ms == ms;
    } else {
      assert (ns + ms)[1..] == ns[1..] + ms;
      SamplesBoth(log, ns[1..], ms, now);
      Assoc(Taken(log[ns[0]], now), Samples(log, ns[1..], now), Samples(log, ms, now));
    }
  }

  /** The estimator of `a` has taken in the samples of `ns` to become that of b. */
  ghost predicate Fed(a: Acking, b: Acking, ns: seq<nat>, now: u64) {
    && AllWithin(ns, 0, |a.snd.log|)
    && b.rtt == Rtt.After(a.rtt, Samples(a.snd.log, ns, now))
  }

  lemma FedBoth(a: Acking, b: Acking, c: Acking, ns: seq<nat>, ms: seq<nat>, now: u64)
    ensures Fed(a, b, ns, now) && Fed(b, c, ms, now) && a.snd.log == b.snd.log ==> Fed(a, c, ns + ms, now)
  {
    if Fed(a, b, ns, now) && Fed(b, c, ms, now) && a.snd.log == b.snd.log {
      SamplesBoth(a.snd.log, ns, ms, now);
      Rtt.AfterBoth(a.rtt, Samples(a.snd.log, ns, now), Samples(a.snd.log, ms, now));
    }
  }

  lemma FedOne(a: Acking, n: nat, now: u64)
    requires n < |a.snd.log|
    ensures Fed(a, a.(rtt := Measure(a, n, now)), [n], now)
  {
    assert Samples(a.snd.log, [n], now) == Taken(a.snd.log[n], now);
  }

  lemma FedNone(a: Acking, now: u64)
    ensures Fed(a, a, [], now)
  {
  }

  /** The un-acked numbers below h are what took the estimator of `a` to that of c. */
  ghost predicate FedBelow(a: Acking, c: Acking, h: nat, now: u64) {
    Fed(a, c, Listed(Unacked(a.snd), a.snd.head, h), now)
  }

  /** The cumulative loop samples the un-acked numbers it retires, oldest first. */
  lemma {:induction false} CumulativeFeeds(a: Acking, ackNum: u32, now: u64)
    requires Ok(a.snd)
    ensures FedBelow(a, Cumulative(a, ackNum, now), HeadAfter(a.snd, ackNum), now)
    decreases |a.snd.log| - a.snd.head
  {
    CumulativeStep(a, ackNum, now);
    if a.snd.head < HeadAfter(a.snd, ackNum) {
      CumulativeFeeds(Retire(a, now), ackNum, now);
      RetireFeedsBelow(a, Cumulative(a, ackNum, now), HeadAfter(a.snd, ackNum), now);
    } else {
      FedNone(a, now);
    }
  }

  /** One turn of the cumulative loop, by where its head will end. */
  lemma CumulativeStep(a: Acking, ackNum: u32, now: u64)
    requires Ok(a.snd)
    ensures
      if a.snd.head < HeadAfter(a.snd, ackNum)
      then && a.snd.head < |a.snd.log| && Ok(Retire(a, now).snd)
           && Cumulative(a, ackNum, now) == Cumulative(Retire(a, now), ackNum, now)
           && HeadAfter(Retire(a, now).snd, ackNum) == HeadAfter(a.snd, ackNum)
      else Cumulative(a, ackNum, now) == a
  {
    LeadTest(a.snd, ackNum);
    if a.snd.head < |a.snd.log| {
      UnackedAfterRetire(a, now);
      LeadStep(a.snd, Retire(a, now).snd, ackNum);
    }
  }

  /** What retiring the head newly acks. */
  function HeadNews(s: Sender): (ns: seq<nat>) {
    if s.head in s.acked then [] else [s.head]
  }

  lemma RetireList(a: Acking, h: nat, now: u64)
    requires Ok(a.snd) && a.snd.head < h <= |a.snd.log|
    ensures Listed(Unacked(a.snd), a.snd.head, h) ==
            HeadNews(a.snd) + Listed(Unacked(Retire(a, now).snd), a.snd.head + 1, h)
  {
    UnackedAfterRetire(a, now);
    ListedSame(Unacked(a.snd), Unacked(Retire(a, now).snd), a.snd.head + 1, h);
  }

  lemma RetireFeeds(a: Acking, c: Acking, rest: seq<nat>, now: u64)
    requires a.snd.head < |a.snd.log|
    ensures Fed(Retire(a, now), c, rest, now) ==> Fed(a, c, HeadNews(a.snd) + rest, now)
  {
    var a' := Retire(a, now);
    if a.snd.head in a.snd.acked {
      assert [] + rest == rest;
    } else {
      FedOne(a, a.snd.head, now);
      FedBoth(a, a', c, [a.snd.head], rest, now);
    }
  }

  lemma RetireFeedsBelow(a: Acking, c: Acking, h: nat, now: u64)
    requires Ok(a.snd) && a.snd.head < h <= |a.snd.log|
    ensures FedBelow(Retire(a, now), c, h, now) ==> FedBelow(a, c, h, now)
  {
    RetireList(a, h, now);
    RetireFeeds(a, c, Listed(Unacked(Retire(a, now).snd), a.snd.head + 1, h), now);
  }

  /** The un-acked numbers the mask covers from bit i on. */
  function Marks(s: Sender, ackNum: u32, mask: u32, i: nat): (ns: set<nat>) {
    set n | n in Unacked(s) && Covered(s, ackNum, mask, i, n)
  }

  /** Higher bits speak of higher numbers. */
  lemma OffsetOrder(s: Sender, ackNum: u32, m: nat, n: nat)
    requires Ok(s) && s.head <= m < |s.log| && s.head <= n < |s.log|
    requires Offset(s, ackNum, m) < Offset(s, ackNum, n) < 32
    ensures m < n
  {
    OffsetAsNumber(s, ackNum, m);
    OffsetAsNumber(s, ackNum, n);
    NearWords(s.isn + m - ackNum - 1, s.isn + n - ackNum - 1);
  }

  lemma OffsetAsNumber(s: Sender, ackNum: u32, n: nat)
    ensures Offset(s, ackNum, n) == Wrap(s.isn + n - ackNum - 1)
  {
    WrapOfSum(0 - ackNum - 1, s.isn + n);
  }

  lemma NearWords(x: int, y: int)
    requires -0x4000_0000 <= y - x <= 0x4000_0000 && Wrap(x) < Wrap(y) < 32
    ensures x < y
  {
    WrapIsMod(x);
    WrapIsMod(y);
  }

  lemma MarksAfter(a: Acking, ackNum: u32, mask: u32, i: nat, now: u64)
    requires Ok(a.snd) && i < 32
    ensures
      var s, w := a.snd, Wrap(ackNum + 1 + i);
      var t := Target(s, w);
      if Bit(mask, i) && InWindow(s, w) && t < |s.log| && t !in s.acked
      then && t in Marks(s, ackNum, mask, i)
           && (forall n | n in Marks(s, ackNum, mask, i) :: t <= n)
           && Marks(Mark(a, w, now).snd, ackNum, mask, i + 1) == Marks(s, ackNum, mask, i) - {t}
      else Marks(s, ackNum, mask, i + 1) == Marks(s, ackNum, mask, i)
  {
    var s, w := a.snd, Wrap(ackNum + 1 + i);
    var t := Target(s, w);
    WindowWord(s, w);
    forall n: nat | s.head <= n < |s.log| ensures Offset(s, ackNum, n) == i <==> n == t && InWindow(s, w) {
      OffsetTarget(s, ackNum, i, n);
    }
    if Bit(mask, i) && InWindow(s, w) && t < |s.log| && t !in s.acked {
      forall n | n in Marks(s, ackNum, mask, i) && n != t ensures t < n {
        OffsetOrder(s, ackNum, t, n);
      }
    }
  }

  /** The un-acked numbers the mask covers from bit i on are what took the estimator of `a` to that of c. */
  ghost predicate FedMarks(a: Acking, c: Acking, ackNum: u32, mask: u32, i: nat, now: u64) {
    Fed(a, c, Listed(Marks(a.snd, ackNum, mask, i), a.snd.head, |a.snd.log|), now)
  }

  lemma HitFeeds(a: Acking, b: Acking, c: Acking, t: nat, rest: seq<nat>, now: u64)
    requires t < |a.snd.log| && b.snd.log == a.snd.log && b.rtt == Measure(a, t, now)
    ensures Fed(b, c, rest, now) ==> Fed(a, c, [t] + rest, now)
  {
    FedOne(a, t, now);
    FedBoth(a, b, c, [t], rest, now);
  }

  lemma MarkFeeds(a: Acking, c: Acking, ackNum: u32, mask: u32, i: nat, now: u64)
    requires Ok(a.snd) && i < 32
    ensures
      var a' := if Bit(mask, i) then Mark(a, Wrap(ackNum + 1 + i), now) else a;
      FedMarks(a', c, ackNum, mask, i + 1, now) ==> FedMarks(a, c, ackNum, mask, i, now)
  {
    var s, w := a.snd, Wrap(ackNum + 1 + i);
    var t := Target(s, w);
    MarksAfter(a, ackNum, mask, i, now);
    if Bit(mask, i) && InWindow(s, w) && t < |s.log| && t !in s.acked {
      var b := Mark(a, w, now);
      var marks, rest := Marks(s, ackNum, mask, i), Marks(b.snd, ackNum, mask, i + 1);
      ListedMin(marks, rest, t, s.head, |s.log|);
      HitFeeds(a, b, c, t, Listed(rest, s.head, |s.log|), now);
    }
  }

  lemma NoMarksLeft(a: Acking, ackNum: u32, mask: u32, now: u64)
    ensures FedMarks(a, a, ackNum, mask, 32, now)
  {
    assert Marks(a.snd, ackNum, mask, 32) == {};
    ListedNone(a.snd.head, |a.snd.log|);
    FedNone(a, now);
  }

  /** The selective loop samples the un-acked numbers the mask covers, oldest first. */
  lemma {:induction false} SelectiveFeeds(a: Acking, ackNum: u32, mask: u32, i: nat, now: u64)
    requires Ok(a.snd) && i <= 32
    ensures FedMarks(a, Selective(a, ackNum, mask, i, now), ackNum, mask, i, now)
    decreases 32 - i
  {
    if i == 32 {
      NoMarksLeft(a, ackNum, mask, now);
    } else {
      SelectiveFeeds(if Bit(mask, i) then Mark(a, Wrap(ackNum + 1 + i), now) else a, ackNum, mask, i + 1, now);
      MarkFeeds(a, Selective(a, ackNum, mask, i, now), ackNum, mask, i, now);
    }
  }

  lemma {:induction false} ListedNone(lo: nat, hi: nat)
    ensures Listed({}, lo, hi) == []
    decreases hi - lo
  {
    if lo < hi { ListedNone(lo + 1, hi); }
  }

  /** The numbers an ack makes acked, oldest first. */
  function NewlyAcked(s: Sender, s': Sender): (ns: seq<nat>)
    ensures AllWithin(ns, 0, |s.log|)
    ensures forall i, j | 0 <= i < j < |ns| :: ns[i] < ns[j]
    ensures forall n :: n in ns <==> n in Unacked(s) && n !in Unacked(s')
  {
    ListedMeaning(Unacked(s) - Unacked(s'), s.head, |s.log|);
    Listed(Unacked(s) - Unacked(s'), s.head, |s.log|)
  }

  /** An ack in closed form, window and estimator: every number that leaves the un-acked ones is sampled
      once, if Karn's test as coded admits it, and no other number is; oldest first. */
  lemma OnAckClosed(a: Acking, ackNum: u32, mask: u32, now: u64)
    requires Ok(a.snd)
    ensures
      var s, s' := a.snd, OnAck(a, ackNum, mask, now).snd;
      && Ok(s') && s' == s.(head := HeadAfter(s, ackNum), acked := s'.acked)
      && (forall n :: n in s'.acked <==>
            s'.head <= n < |s.log| && (n in s.acked || Covered(s, ackNum, mask, 0, n)))
      && OnAck(a, ackNum, mask, now).rtt == Rtt.After(a.rtt, Samples(s.log, NewlyAcked(s, s'), now))
  {
    OnAckWindow(a, ackNum, mask, now);
    OnAckFeeds(a, ackNum, mask, now);
    OnAckNews(a, ackNum, mask, now);
  }

  lemma OnAckFeeds(a: Acking, ackNum: u32, mask: u32, now: u64)
    requires Ok(a.snd)
    ensures
      var s, b := a.snd, Cumulative(a, ackNum, now).snd;
      Fed(a, OnAck(a, ackNum, mask, now),
          Listed(Unacked(s), s.head, b.head) + Listed(Marks(b, ackNum, mask, 0), b.head, |s.log|), now)
  {
    CumulativeOk(a, ackNum, now);
    CumulativeClosed(a, ackNum, now);
    CumulativeFeeds(a, ackNum, now);
    var s, b := a.snd, Cumulative(a, ackNum, now);
    SelectiveFeeds(b, ackNum, mask, 0, now);
    FedBoth(a, b, OnAck(a, ackNum, mask, now), Listed(Unacked(s), s.head, b.snd.head),
            Listed(Marks(b.snd, ackNum, mask, 0), b.snd.head, |s.log|), now);
  }

  lemma OnAckNews(a: Acking, ackNum: u32, mask: u32, now: u64)
    requires Ok(a.snd)
    ensures
      var s, b := a.snd, Cumulative(a, ackNum, now).snd;
      NewlyAcked(s, OnAck(a, ackNum, mask, now).snd) ==
        Listed(Unacked(s), s.head, b.head) + Listed(Marks(b, ackNum, mask, 0), b.head, |s.log|)
  {
    CumulativeOk(a, ackNum, now);
    CumulativeClosed(a, ackNum, now);
    SelectiveClosed(Cumulative(a, ackNum, now), ackNum, mask, 0, now);
    var s, b := a.snd, Cumulative(a, ackNum, now).snd;
    var newly := Unacked(s) - Unacked(OnAck(a, ackNum, mask, now).snd);
    ListedSplit(newly, s.head, b.head, |s.log|);
    ListedSame(newly, Unacked(s), s.head, b.head);
    ListedSame(newly, Marks(b, ackNum, mask, 0), b.head, |s.log|);
  }

  // ------------------------------------------------------------ Karn's rule

  /** The samples Karn's rule, section 3 of RFC 6298, allows: those of messages sent once. */
  function KarnSamples(log: seq<Sent>, ns: seq<nat>, now: u64): (history: seq<Rtt.Event>)
    requires AllWithin(ns, 0, |log|)
  {
    if ns == [] then []
    else (if log[ns[0]].resent == 0 && now >= log[ns[0]].first
          then [Rtt.Measured(Measurement(log[ns[0]], now))] else []) +
         KarnSamples(log, ns[1..], now)
  }

  /** A message sent again so often that its 8-bit counter reads zero, with the clock not run back. */
  predicate LooksFresh(m: Sent, now: u64) {
    m.resent > 0 && m.resent % 256 == 0 && now >= m.first
  }

  lemma {:induction false} KarnSamplesIff(log: seq<Sent>, ns: seq<nat>, now: u64)
    requires AllWithin(ns, 0, |log|)
    ensures |KarnSamples(log, ns, now)| <= |Samples(log, ns, now)|
    ensures Samples(log, ns, now) == KarnSamples(log, ns, now) <==>
            forall i | 0 <= i < |ns| :: !LooksFresh(log[ns[i]], now)
    decreases |ns|
  {
    if ns != [] {
      var rest := ns[1..];
      KarnSamplesIff(log, rest, now);
      assert (forall i | 0 <= i < |ns| :: !LooksFresh(log[ns[i]], now)) <==>
             !LooksFresh(log[ns[0]], now) && forall i | 0 <= i < |rest| :: !LooksFresh(log[rest[i]], now);
      if LooksFresh(log[ns[0]], now) {
        assert |Samples(log, ns, now)| > |KarnSamples(log, ns, now)|;
      } else {
        assert Samples(log, ns, now)[|Samples(log, ns, now)| - |Samples(log, rest, now)|..] == Samples(log, rest, now);
      }
    }
  }

  /** Number n becomes acked by this ack, as the window and the ack alone tell. */
  predicate AcksAnew(s: Sender, ackNum: u32, mask: u32, n: nat)
    requires s.head <= |s.log|
  {
    n in Unacked(s) && (n < HeadAfter(s, ackNum) || Covered(s, ackNum, mask, 0, n))
  }

  /** Karn's rule holds of an ack, whatever the window, `ack_num` and mask, exactly when no message it
      newly acks has been sent again a positive multiple of 256 times. */
  lemma KarnsRule(a: Acking, ackNum: u32, mask: u32, now: u64)
    requires Ok(a.snd)
    ensures
      var s, a' := a.snd, OnAck(a, ackNum, mask, now);
      var newly := NewlyAcked(s, a'.snd);
      && (forall n :: n in newly <==> AcksAnew(s, ackNum, mask, n))
      && a'.rtt == Rtt.After(a.rtt, Samples(s.log, newly, now))
      && (Samples(s.log, newly, now) == KarnSamples(s.log, newly, now) <==>
          forall n | n in Unacked(s) && AcksAnew(s, ackNum, mask, n) :: !LooksFresh(s.log[n], now))
  {
    OnAckClosed(a, ackNum, mask, now);
    var s, s' := a.snd, OnAck(a, ackNum, mask, now).snd;
    var newly := NewlyAcked(s, s');
    KarnSamplesIff(s.log, newly, now);
    assert forall n | n in Unacked(s) && AcksAnew(s, ackNum, mask, n) :: n in newly;
    assert forall i | 0 <= i < |newly| :: newly[i] in newly;
  }

  // ------------------------------------------------------------ one message's sample

  lemma OneSample(e: Rtt.Estimate, r: u32)
    ensures Rtt.After(e, [Rtt.Measured(r)]) == Rtt.Sample(e, r)
  {
    assert [Rtt.Measured(r)][..0] == [];
  }

  /** A message pushed at t, not sent again, and acked at `now` feeds the estimator the milliseconds in
      between, in its turn among the others the same ack makes acked. */
  lemma PushedFeeds(a: Acking, s: Sender, msg: Msg, t: u64, ackNum: u32, mask: u32, now: u64)
    returns (earlier: seq<nat>, later: seq<nat>)
    requires Ok(a.snd) && |s.log| < |a.snd.log| && a.snd.log[|s.log|] == Push(s, msg, t).log[|s.log|]
    requires AcksAnew(a.snd, ackNum, mask, |s.log|) && now >= t
    ensures AllWithin(earlier, 0, |a.snd.log|) && AllWithin(later, 0, |a.snd.log|)
    ensures NewlyAcked(a.snd, OnAck(a, ackNum, mask, now).snd) == (earlier + [|s.log|]) + later
    ensures
      var before := Rtt.After(a.rtt, Samples(a.snd.log, earlier, now));
      var after := Rtt.Sample(before, ((now - t) / 1000000) % 0x1_0000_0000);
      OnAck(a, ackNum, mask, now).rtt == Rtt.After(after, Samples(a.snd.log, later, now))
  {
    earlier, later := AckedInTurn(a, ackNum, mask, now, |s.log|);
    PushedMeasurement(s, msg, t, now);
    SampleInTurn(a.snd.log, a.rtt, earlier, |s.log|, later, now, ((now - t) / 1000000) % 0x1_0000_0000);
  }

  lemma PushedMeasurement(s: Sender, msg: Msg, t: u64, now: u64)
    requires now >= t
    ensures Taken(Push(s, msg, t).log[|s.log|], now) == [Rtt.Measured(((now - t) / 1000000) % 0x1_0000_0000)]
  {
    WrapIsMod((now - t) / 1000000);
  }

  lemma AckedInTurn(a: Acking, ackNum: u32, mask: u32, now: u64, n: nat) returns (earlier: seq<nat>, later: seq<nat>)
    requires Ok(a.snd) && AcksAnew(a.snd, ackNum, mask, n)
    ensures AllWithin(earlier, 0, |a.snd.log|) && AllWithin(later, 0, |a.snd.log|) && n < |a.snd.log|
    ensures NewlyAcked(a.snd, OnAck(a, ackNum, mask, now).snd) == (earlier + [n]) + later
    ensures OnAck(a, ackNum, mask, now).rtt ==
            Rtt.After(a.rtt, Samples(a.snd.log, (earlier + [n]) + later, now))
  {
    KarnsRule(a, ackNum, mask, now);
    earlier, later := SplitAt(NewlyAcked(a.snd, OnAck(a, ackNum, mask, now).snd), n);
    WithinParts(earlier, n, later, |a.snd.log|);
  }

  lemma SplitAt(ns: seq<nat>, n: nat) returns (earlier: seq<nat>, later: seq<nat>)
    requires n in ns
    ensures ns == (earlier + [n]) + later
  {
    var i :| 0 <= i < |ns| && ns[i] == n;
    earlier, later := ns[..i], ns[i + 1..];
  }

  lemma WithinParts(earlier: seq<nat>, n: nat, later: seq<nat>, hi: nat)
    requires AllWithin((earlier + [n]) + later, 0, hi)
    ensures AllWithin(earlier, 0, hi) && AllWithin(later, 0, hi) && n < hi
  {
    var all := (earlier + [n]) + later;
    assert all[|earlier|] == n;
    assert forall i | 0 <= i < |earlier| :: all[i] == earlier[i];
    forall i | 0 <= i < |later| ensures 0 <= later[i] < hi {
      assert all[|earlier| + 1 + i] == later[i];
    }
  }

  lemma SampleInTurn(log: seq<Sent>, e: Rtt.Estimate, earlier: seq<nat>, n: nat, later: seq<nat>, now: u64, r: u32)
    requires AllWithin(earlier, 0, |log|) && n < |log| && AllWithin(later, 0, |log|)
    requires Taken(log[n], now) == [Rtt.Measured(r)]
    ensures Rtt.After(e, Samples(log, (earlier + [n]) + later, now)) ==
            Rtt.After(Rtt.Sample(Rtt.After(e, Samples(log, earlier, now)), r), Samples(log, later, now))
  {
    SamplesBoth(log, earlier + [n], later, now);
    SamplesBoth(log, earlier, [n], now);
    assert Samples(log, [n], now) == [Rtt.Measured(r)];
    Rtt.AfterBoth(e, Samples(log, earlier + [n], now), Samples(log, later, now));
    Rtt.AfterBoth(e, Samples(log, earlier, now), Samples(log, [n], now));
    OneSample(Rtt.After(e, Samples(log, earlier, now)), r);
  }
}
