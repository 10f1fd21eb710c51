/** Round-trip estimator: integer Jacobson-Karels smoothing with clamped timeout and backoff. */
module Rtt {
  import opened Words

  const DEFAULT_RTO_MS: u32 := 200
  const MIN_RTO_MS: u32 := 20
  const MAX_RTO_MS: u32 := 2000

  datatype Estimate = Estimate(
    srtt: u32, rttvar: u32, rto: u32, minRto: u32, maxRto: u32, hasSample: bool)

  /** The two successive clamping tests; the upper one wins when the bounds cross. */
  function Clamp(x: u32, lo: u32, hi: u32): (y: u32)
    ensures lo <= hi ==> lo <= y <= hi
    ensures lo <= x <= hi ==> y == x
    ensures x < lo <= hi ==> y == lo
    ensures x > hi ==> y == hi
  {
    var z := if x < lo then lo else x;
    if z > hi then hi else z
  }

  function Init(initial: u32, minRto: u32, maxRto: u32): (e: Estimate) {
    var lo := if minRto > 0 then minRto else MIN_RTO_MS;
    var hi := if maxRto > 0 then maxRto else MAX_RTO_MS;
    var rto := if initial > 0 then initial else DEFAULT_RTO_MS;
    Estimate(0, 0, Clamp(rto, lo, hi), lo, hi, false)
  }

  /** `|(int32_t)srtt - (int32_t)r|`. */
  function Distance(s: u32, r: u32): (d: nat) {
    var diff := Signed(Wrap(Signed(s) - Signed(r)));
    if diff < 0 then -diff else diff
  }

  function AtLeastOne(v: nat): (a: nat)
    ensures a >= 1
  {
    if v < 1 then 1 else v
  }

  /** One sample, every intermediate result truncated to 32 bits as the C code does. */
  function NextVar(e: Estimate, r: u32): (v: u32) {
    AtLeastOne(if e.hasSample then Wrap(Wrap(3 * e.rttvar) + Distance(e.srtt, r)) / 4 else r / 2)
  }

  function NextSrtt(e: Estimate, r: u32): (s: u32) {
    if e.hasSample then Wrap(Wrap(7 * e.srtt) + r) / 8 else r
  }

  function Sample(e: Estimate, r: u32): (e': Estimate) {
    Estimate(NextSrtt(e, r), NextVar(e, r),
             Clamp(Wrap(NextSrtt(e, r) + AtLeastOne(Wrap(4 * NextVar(e, r)))), e.minRto, e.maxRto),
             e.minRto, e.maxRto, true)
  }

  function Timeout(e: Estimate): (e': Estimate) {
    var doubled := Wrap(2 * e.rto);
    e.(rto := if doubled > e.maxRto then e.maxRto else doubled)
  }

  class Estimator {
    var srttMs: u32
    var rttvarMs: u32
    var rtoMs: u32
    var minRtoMs: u32
    var maxRtoMs: u32
    var hasSample: bool

    function View(): (e: Estimate)
      reads this
    {
      Estimate(srttMs, rttvarMs, rtoMs, minRtoMs, maxRtoMs, hasSample)
    }

    constructor (initial: u32, minRto: u32, maxRto: u32)
      ensures View() == Init(initial, minRto, maxRto)
    {
      minRtoMs := if minRto > 0 then minRto else MIN_RTO_MS;
      maxRtoMs := if maxRto > 0 then maxRto else MAX_RTO_MS;
      rtoMs := if initial > 0 then initial else DEFAULT_RTO_MS;
      srttMs, rttvarMs, hasSample := 0, 0, false;
      new;
      if rtoMs < minRtoMs { rtoMs := minRtoMs; }
      if rtoMs > maxRtoMs { rtoMs := maxRtoMs; }
    }

    /** `rel4u_rtt_init` on an estimator already in use. */
    method Reinit(initial: u32, minRto: u32, maxRto: u32)
      modifies this
      ensures View() == Init(initial, minRto, maxRto)
    {
      minRtoMs := if minRto > 0 then minRto else MIN_RTO_MS;
      maxRtoMs := if maxRto > 0 then maxRto else MAX_RTO_MS;
      rtoMs := if initial > 0 then initial else DEFAULT_RTO_MS;
      if rtoMs < minRtoMs { rtoMs := minRtoMs; }
      if rtoMs > maxRtoMs { rtoMs := maxRtoMs; }
      srttMs, rttvarMs, hasSample := 0, 0, false;
    }

    method UpdateSample(r: u32)
      modifies this
      ensures View() == Sample(old(View()), r)
    {
      if !hasSample {
        srttMs := r;
        rttvarMs := r / 2;
        if rttvarMs < 1 { rttvarMs := 1; }
        hasSample := true;
      } else {
        var diff := Signed(Wrap(Signed(srttMs) - Signed(r)));
        if diff < 0 { diff := -diff; }
        rttvarMs := Wrap(Wrap(3 * rttvarMs) + diff) / 4;
        if rttvarMs < 1 { rttvarMs := 1; }
        srttMs := Wrap(Wrap(7 * srttMs) + r) / 8;
      }
      assert srttMs == NextSrtt(old(View()), r) && rttvarMs == NextVar(old(View()), r);
      var kVar := Wrap(4 * rttvarMs);
      if kVar < 1 { kVar := 1; }
      rtoMs := Wrap(srttMs + kVar);
      if rtoMs < minRtoMs { rtoMs := minRtoMs; }
      if rtoMs > maxRtoMs { rtoMs := maxRtoMs; }
    }

    method OnTimeout()
      modifies this
      ensures View() == Timeout(old(View()))
    {
      rtoMs := Wrap(2 * rtoMs);
      if rtoMs > maxRtoMs { rtoMs := maxRtoMs; }
    }
  }

  // ------------------------------------------------------------ agreement with RFC 6298

  function Abs(x: int): (a: nat) { if x < 0 then -x else x }

  /** Sections 2.2 and 2.3 of RFC 6298 over unbounded integers: the smoothed time and the variation. */
  function Smoothed(e: Estimate, r: nat): (s: nat) {
    if e.hasSample then SrttStep(e.srtt, r) else r
  }

  function Variation(e: Estimate, r: nat): (v: nat) {
    if e.hasSample then VarStep(e.rttvar, e.srtt, r) else AtLeastOne(r / 2)
  }

  function SrttStep(s: nat, r: nat): (s': nat) {
    (7 * s + r) / 8
  }

  function VarStep(v: nat, s: nat, r: nat): (v': nat) {
    AtLeastOne((3 * v + Abs(s - r)) / 4)
  }

  /** Every history of samples below this limit is computed without a 32-bit wrap. */
  const SAMPLE_LIMIT := 0x2000_0000

  ghost predicate Small(e: Estimate) {
    && e.srtt < SAMPLE_LIMIT
    && e.rttvar < SAMPLE_LIMIT
    && e.minRto <= e.maxRto < 0x8000_0000
    && e.minRto <= e.rto <= e.maxRto
  }

  lemma SampleIsExact(e: Estimate, r: u32)
    requires Small(e) && r < SAMPLE_LIMIT
    ensures Sample(e, r).srtt == Smoothed(e, r) < SAMPLE_LIMIT
    ensures Sample(e, r).rttvar == Variation(e, r) < SAMPLE_LIMIT
    ensures Sample(e, r).rto == Clamp(Smoothed(e, r) + 4 * Variation(e, r), e.minRto, e.maxRto)
    ensures Small(Sample(e, r))
  {
    assert NextSrtt(e, r) == Smoothed(e, r) < SAMPLE_LIMIT;
    VariationIsExact(e, r);
  }

  /** The same in plain numbers: the first sample is taken as it is with half of it for the variation; later
      ones weigh an eighth and a quarter.  The timeout is the time plus four variations, within its bounds. */
  lemma SampleMeaning(e: Estimate, r: u32)
    requires Small(e) && r < SAMPLE_LIMIT
    ensures
      var e' := Sample(e, r);
      && e'.srtt == (if e.hasSample then (7 * e.srtt + r) / 8 else r)
      && e'.rttvar == AtLeastOne(if e.hasSample then (3 * e.rttvar + Abs(e.srtt - r)) / 4 else r / 2)
      && e'.hasSample && e'.minRto == e.minRto && e'.maxRto == e.maxRto
      && (e.minRto <= e'.srtt + 4 * e'.rttvar <= e.maxRto ==> e'.rto == e'.srtt + 4 * e'.rttvar)
      && (e'.srtt + 4 * e'.rttvar < e.minRto ==> e'.rto == e.minRto)
      && (e'.srtt + 4 * e'.rttvar > e.maxRto ==> e'.rto == e.maxRto)
  {
    SampleIsExact(e, r);
  }

  lemma VariationIsExact(e: Estimate, r: u32)
    requires Small(e) && r < SAMPLE_LIMIT
    ensures NextVar(e, r) == Variation(e, r) < SAMPLE_LIMIT
  {
    assert Distance(e.srtt, r) == Abs(e.srtt - r) < SAMPLE_LIMIT;
  }

  /** The limit is sharp: on a constant sample r the second update is exact precisely below it. */
  lemma SampleLimitIsSharp(e: Estimate, r: u32)
    requires !e.hasSample
    ensures Sample(Sample(e, r), r).srtt == Smoothed(Sample(e, r), r) <==> r < SAMPLE_LIMIT
  {
    SecondSrtt(r);
    assert SrttStep(r, r) == r;
  }

  lemma SecondSrtt(r: u32)
    ensures Wrap(Wrap(7 * r) + r) / 8 == r <==> r < SAMPLE_LIMIT
  {
    WrapOfSum(r, 7 * r);
    assert r + 7 * r == 8 * r;
    var w := Wrap(8 * r);
    if r < SAMPLE_LIMIT {
      assert w == 8 * r;
    } else {
      assert w / 8 < SAMPLE_LIMIT;
    }
  }

  datatype Event = Measured(r: u32) | Expired

  function After(e: Estimate, history: seq<Event>): (e': Estimate) {
    if history == [] then e
    else
      var before := After(e, history[..|history| - 1]);
      match history[|history| - 1]
      case Measured(r) => Sample(before, r)
      case Expired => Timeout(before)
  }

  lemma {:induction false} AfterBoth(e: Estimate, earlier: seq<Event>, later: seq<Event>)
    ensures After(e, earlier + later) == After(After(e, earlier), later)
    decreases |later|
  {
    if later == [] {
      assert earlier + later == earlier;
    } else {
      assert (earlier + later)[..|earlier + later| - 1] == earlier + later[..|later| - 1];
      AfterBoth(e, earlier, later[..|later| - 1]);
    }
  }

  /** Once sampled, SRTT lies between lo and hi and RTTVAR within [1, max(1, hi)]. */
  ghost predicate Between(e: Estimate, lo: u32, hi: u32) {
    e.hasSample ==> lo <= e.srtt <= hi && 1 <= e.rttvar <= AtLeastOne(hi)
  }

  lemma SampleBetween(e: Estimate, r: u32, lo: u32, hi: u32)
    requires Small(e) && Between(e, lo, hi) && lo <= r <= hi < SAMPLE_LIMIT
    ensures Small(Sample(e, r)) && Between(Sample(e, r), lo, hi)
  {
    SampleIsExact(e, r);
  }

  lemma TimeoutBetween(e: Estimate, lo: u32, hi: u32)
    requires Small(e) && Between(e, lo, hi)
    ensures Small(Timeout(e)) && Between(Timeout(e), lo, hi)
  {
  }

  /** Over every history of samples in [lo, hi] and timeouts, SRTT stays between the smallest and
      the largest sample, RTTVAR within [1, max(1, hi)] and RTO within its bounds; `SampleIsExact`
      applies at every step, so no 32-bit operation wraps. */
  lemma {:induction false} HistoryBounds(
    initial: u32, minRto: u32, maxRto: u32, history: seq<Event>, lo: u32, hi: u32)
    requires var e := Init(initial, minRto, maxRto); e.minRto <= e.maxRto < 0x8000_0000
    requires lo <= hi < SAMPLE_LIMIT
    requires forall ev | ev in history :: ev.Measured? ==> lo <= ev.r <= hi
    ensures
      var e0 := Init(initial, minRto, maxRto);
      var e := After(e0, history);
      && Small(e) && Between(e, lo, hi)
      && e.minRto == e0.minRto && e.maxRto == e0.maxRto
      && (e.hasSample <==> exists ev :: ev in history && ev.Measured?)
      && e.minRto <= e.rto <= e.maxRto
    decreases |history|
  {
    if history != [] {
      var prefix, last := history[..|history| - 1], history[|history| - 1];
      HistoryBounds(initial, minRto, maxRto, prefix, lo, hi);
      assert history == prefix + [last];
      assert forall ev :: ev in history <==> ev in prefix || ev == last;
      var e := After(Init(initial, minRto, maxRto), prefix);
      match last {
        case Measured(r) =>
          assert last in history;
          SampleBetween(e, r, lo, hi);
        case Expired => TimeoutBetween(e, lo, hi);
      }
    }
  }

  // ------------------------------------------------------------ defaults and backoff

  /** Zero arguments ask for 200, 20 and 2000 ms; otherwise the arguments are taken as given. */
  lemma InitMeaning(initial: u32, minRto: u32, maxRto: u32)
    ensures Init(0, 0, 0) == Estimate(0, 0, 200, 20, 2000, false)
    ensures 0 < minRto <= initial <= maxRto ==>
              Init(initial, minRto, maxRto) == Estimate(0, 0, initial, minRto, maxRto, false)
  {
  }

  /** k timeouts in a row. */
  function Timeouts(e: Estimate, k: nat): (e': Estimate) {
    if k == 0 then e else Timeout(Timeouts(e, k - 1))
  }

  function Least(x: nat, y: nat): (m: nat) { if x < y then x else y }

  lemma PowerStep(k: nat, x: nat)
    ensures Pow2(k + 1) * x == 2 * (Pow2(k) * x)
  {
  }

  lemma OneTimeout(e: Estimate)
    requires e.rto <= e.maxRto < 0x8000_0000
    ensures Timeout(e) == e.(rto := Least(2 * e.rto, e.maxRto))
  {
  }

  /** After k timeouts in a row the timeout is 2^k times what it was, or the maximum if that is less, and
      nothing else has moved. */
  lemma {:induction false} BackoffDoubles(e: Estimate, k: nat)
    requires Small(e)
    ensures Least(Pow2(k) * e.rto, e.maxRto) < 0x8000_0000
    ensures Timeouts(e, k) == e.(rto := Least(Pow2(k) * e.rto, e.maxRto))
  {
    if k == 0 {
      assert Pow2(0) * e.rto == e.rto;
    } else {
      BackoffDoubles(e, k - 1);
      OneTimeout(Timeouts(e, k - 1));
      PowerStep(k - 1, e.rto);
    }
  }

  lemma {:induction false} TimeoutsStay(e: Estimate, k: nat)
    requires 0 < e.rto <= e.maxRto < 0x8000_0000
    ensures 0 < Timeouts(e, k).rto <= Timeouts(e, k).maxRto == e.maxRto
  {
    if k > 0 {
      TimeoutsStay(e, k - 1);
      OneTimeout(Timeouts(e, k - 1));
    }
  }

  /** So the timeout grows with every one of them until it reaches the maximum, and then stays there. */
  lemma BackoffGrows(e: Estimate, k: nat)
    requires Small(e) && e.rto > 0
    ensures Timeouts(e, k).rto < e.maxRto ==> Timeouts(e, k + 1).rto > Timeouts(e, k).rto
    ensures Timeouts(e, k).rto == e.maxRto ==> Timeouts(e, k + 1).rto == e.maxRto
  {
    TimeoutsStay(e, k);
    OneTimeout(Timeouts(e, k));
  }

  // ------------------------------------------------------------ convergence

  function Repeat(e: Estimate, r: u32, n: nat): (e': Estimate) {
    if n == 0 then e else Sample(Repeat(e, r, n - 1), r)
  }

  /** The same iteration on the bare numbers. */
  function SrttAfter(s: nat, r: nat, n: nat): (s': nat) {
    if n == 0 then s else SrttStep(SrttAfter(s, r, n - 1), r)
  }

  function VarAfter(v: nat, s: nat, r: nat, n: nat): (v': nat) {
    if n == 0 then v else VarStep(VarAfter(v, s, r, n - 1), SrttAfter(s, r, n - 1), r)
  }

  ghost predicate Tracks(e: Estimate, lo: u32, hi: u32, s: nat, v: nat) {
    && Small(e) && e.hasSample
    && e.minRto == lo && e.maxRto == hi
    && e.srtt == s && e.rttvar == v
    && e.rto == Clamp(s + 4 * v, lo, hi)
  }

  lemma SampleTracks(e: Estimate, r: u32)
    requires Small(e) && e.hasSample && r < SAMPLE_LIMIT
    ensures Tracks(Sample(e, r), e.minRto, e.maxRto, SrttStep(e.srtt, r), VarStep(e.rttvar, e.srtt, r))
  {
    SampleIsExact(e, r);
  }

  lemma {:induction false} RepeatIsExact(e: Estimate, r: u32, n: nat)
    requires Small(e) && e.hasSample && r < SAMPLE_LIMIT && n >= 1
    ensures Tracks(Repeat(e, r, n), e.minRto, e.maxRto, SrttAfter(e.srtt, r, n), VarAfter(e.rttvar, e.srtt, r, n))
    decreases n
  {
    if n > 1 { RepeatIsExact(e, r, n - 1); }
    SampleTracks(Repeat(e, r, n - 1), r);
  }

  function Max0(x: int): (y: nat) { if x < 0 then 0 else x }

  /** Distance of SRTT from the band [r - 7, r]. */
  function SrttGap(s: int, r: int): (g: nat) {
    if s > r then s - r else Max0(r - 7 - s)
  }

  /** Distance of RTTVAR from its resting band once SRTT rests `d` below the sample. */
  function VarGap(v: int, d: nat): (g: nat) {
    if v > AtLeastOne(d) then v - AtLeastOne(d) else Max0(d - 3 - v)
  }

  lemma {:induction false} SrttSettles(s: nat, r: nat, n: nat)
    ensures SrttGap(SrttAfter(s, r, n), r) <= Max0(SrttGap(s, r) - n)
  {
    if n > 0 { SrttSettles(s, r, n - 1); }
  }

  lemma {:induction false} VarBounded(v: nat, s: nat, r: nat, n: nat)
    ensures VarAfter(v, s, r, n) <= v + SrttGap(s, r) + 8
  {
    if n > 0 {
      var v', s' := VarAfter(v, s, r, n - 1), SrttAfter(s, r, n - 1);
      VarBounded(v, s, r, n - 1);
      assert SrttGap(s', r) <= SrttGap(s, r) by { SrttSettles(s, r, n - 1); }
      VarStepBound(v', s', r, v + SrttGap(s, r) + 8);
    }
  }

  lemma VarStepBound(v: nat, s: nat, r: nat, bound: nat)
    requires v <= bound && SrttGap(s, r) + 7 <= bound
    ensures VarStep(v, s, r) <= bound
  {
  }

  /** Once SRTT rests it stays put, and from then on RTTVAR closes in by at least one a step. */
  lemma {:induction false} VarSettles(v: nat, s: nat, r: nat, n: nat)
    requires n >= SrttGap(s, r)
    ensures
      var s' := SrttAfter(s, r, n);
      && r - 7 <= s' <= r
      && VarGap(VarAfter(v, s, r, n), r - s') <= Max0(v + 2 * SrttGap(s, r) + 16 - n)
    decreases n
  {
    SrttSettles(s, r, n);
    VarBounded(v, s, r, n);
    if n > SrttGap(s, r) {
      VarSettles(v, s, r, n - 1);
      RestingStep(VarAfter(v, s, r, n - 1), SrttAfter(s, r, n - 1), r);
    }
  }

  lemma RestingStep(v: nat, s: nat, r: nat)
    requires r - 7 <= s <= r
    ensures SrttStep(s, r) == s
    ensures VarGap(VarStep(v, s, r), r - s) <= Max0(VarGap(v, r - s) - 1)
  {
  }

  lemma RestingTimeout(v: nat, d: nat)
    requires d <= 7 && v >= 1 && VarGap(v, d) == 0
    ensures 0 <= 4 * v - d <= 21
  {
  }

  lemma RestingNumbers(v: nat, s: nat, r: nat, n: nat)
    requires n >= 2 * SrttGap(s, r) + v + 16
    ensures r - 7 <= SrttAfter(s, r, n) <= r
    ensures r <= SrttAfter(s, r, n) + 4 * VarAfter(v, s, r, n) <= r + 21
  {
    VarSettles(v, s, r, n);
    RestingTimeout(VarAfter(v, s, r, n), r - SrttAfter(s, r, n));
  }

  /** SRTT within 7 below the sample, and the timeout before clamping within 21 above it. */
  ghost predicate AtRest(e: Estimate, r: int) {
    && r - 7 <= e.srtt <= r
    && r <= e.srtt + 4 * e.rttvar <= r + 21
    && e.srtt + 4 * e.rttvar < 0x1_0000_0000
    && e.rto == Clamp(e.srtt + 4 * e.rttvar, e.minRto, e.maxRto)
  }

  lemma TracksToRest(e: Estimate, lo: u32, hi: u32, s: nat, v: nat, r: nat)
    requires Tracks(e, lo, hi, s, v) && r - 7 <= s <= r && r <= s + 4 * v <= r + 21
    ensures AtRest(e, r)
  {
  }

  lemma {:induction false} FreshRepeatIsExact(e: Estimate, r: u32, n: nat)
    requires Small(e) && !e.hasSample && r < SAMPLE_LIMIT
    ensures Tracks(Repeat(e, r, n + 1), e.minRto, e.maxRto,
                   SrttAfter(r, r, n), VarAfter(AtLeastOne(r / 2), r, r, n))
    decreases n
  {
    if n == 0 {
      assert Repeat(e, r, 1) == Sample(e, r);
      SampleIsExact(e, r);
    } else {
      FreshRepeatIsExact(e, r, n - 1);
      SampleTracks(Repeat(e, r, n), r);
    }
  }

  /** How many updates with a constant sample r are enough from a given state. */
  function UpdatesToRest(e: Estimate, r: u32): (n: nat) {
    if e.hasSample then 2 * SrttGap(e.srtt, r) + e.rttvar + 16 else AtLeastOne(r / 2) + 17
  }

  lemma UsedConverges(e: Estimate, r: u32, n: nat)
    requires Small(e) && e.hasSample && r < SAMPLE_LIMIT && n >= 2 * SrttGap(e.srtt, r) + e.rttvar + 16
    ensures AtRest(Repeat(e, r, n), r)
  {
    RepeatIsExact(e, r, n);
    RestingNumbers(e.rttvar, e.srtt, r, n);
    TracksToRest(Repeat(e, r, n), e.minRto, e.maxRto,
                 SrttAfter(e.srtt, r, n), VarAfter(e.rttvar, e.srtt, r, n), r);
  }

  lemma FreshConverges(e: Estimate, r: u32, n: nat)
    requires Small(e) && !e.hasSample && r < SAMPLE_LIMIT && n >= AtLeastOne(r / 2) + 16
    ensures AtRest(Repeat(e, r, n + 1), r)
  {
    var v := AtLeastOne(r / 2);
    FreshRepeatIsExact(e, r, n);
    RestingNumbers(v, r, r, n);
    TracksToRest(Repeat(e, r, n + 1), e.minRto, e.maxRto, SrttAfter(r, r, n), VarAfter(v, r, r, n), r);
  }

  /** Fed a constant sample r, the estimator comes to rest from any state that does not wrap, fresh or
      not, in a number of updates known beforehand, and stays at rest. */
  lemma ConstantSampleConverges(e: Estimate, r: u32, n: nat)
    requires Small(e) && r < SAMPLE_LIMIT && n >= UpdatesToRest(e, r)
    ensures AtRest(Repeat(e, r, n), r)
  {
    if e.hasSample {
      UsedConverges(e, r, n);
    } else {
      FreshConverges(e, r, n - 1);
    }
  }
}
