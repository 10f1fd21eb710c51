/** Unreliable-ordered delivery: only packets newer than everything handed up before pass. */
module Newest {
  import opened Words
  import opened SeqNum
  import S = SendSpec

  /** `has_highest_unrel` and `highest_unrel_seq`. */
  datatype Highest = Unset | Highest(w: u32)

  predicate Passes(h: Highest, w: u32) {
    h.Unset? || SeqGt(w, h.w)
  }

  function Raise(h: Highest, w: u32): (h': Highest) {
    if Passes(h, w) then Highest(w) else h
  }

  /** The mark after the packets numbered nums, in arrival order. */
  function After(isn: int, nums: seq<int>): (h: Highest) {
    if nums == [] then Unset else Raise(After(isn, nums[..|nums| - 1]), Wire(isn, nums[|nums| - 1]))
  }

  function Largest(nums: seq<int>): (m: int)
    requires nums != []
    ensures m in nums && forall i | 0 <= i < |nums| :: nums[i] <= m
  {
    var last := nums[|nums| - 1];
    if |nums| == 1 then last
    else
      var m := Largest(nums[..|nums| - 1]);
      assert forall i | 0 <= i < |nums| - 1 :: nums[i] == nums[..|nums| - 1][i];
      if last > m then last else m
  }

  /** How far the next number may be from the largest so far.  Nothing bounds how far the numbers go
      on: the words may wrap any number of times. */
  predicate Near(nums: seq<int>, n: int) {
    nums == [] || -0x8000_0000 <= n - Largest(nums) < 0x8000_0000
  }

  /** Every arrival was near the largest before it. */
  predicate Tracked(nums: seq<int>) {
    nums == [] || (Tracked(nums[..|nums| - 1]) && Near(nums[..|nums| - 1], nums[|nums| - 1]))
  }

  /** The mark is the word of the largest number so far. */
  lemma {:induction false} MarkIsLargest(isn: int, nums: seq<int>)
    requires nums != [] && Tracked(nums)
    ensures After(isn, nums) == Highest(Wire(isn, Largest(nums)))
    decreases |nums|
  {
    var before, last := nums[..|nums| - 1], nums[|nums| - 1];
    if before != [] {
      MarkIsLargest(isn, before);
      S.WireOrder(isn, last, Largest(before));
    }
  }

  /** The next packet is handed up exactly when its number exceeds every number that arrived before,
      handed up or not: what passes is strictly increasing, without repeats, and each new maximum passes. */
  lemma PassesIffNewest(isn: int, nums: seq<int>, n: int)
    requires Tracked(nums) && Near(nums, n)
    ensures Passes(After(isn, nums), Wire(isn, n)) <==> forall i | 0 <= i < |nums| :: nums[i] < n
  {
    if nums != [] {
      MarkIsLargest(isn, nums);
      S.WireOrder(isn, n, Largest(nums));
    }
  }

  /** The distance is the exact one: one step further on either side, up to a full turn of the words,
      and a newer packet is dropped or an older one handed up. */
  lemma NearIsSharp(isn: int, nums: seq<int>, n: int)
    requires nums != [] && Tracked(nums) && -0x1_0000_0000 < n - Largest(nums) < 0x1_0000_0000
    ensures (Passes(After(isn, nums), Wire(isn, n)) <==> n > Largest(nums)) <==> Near(nums, n)
  {
    MarkIsLargest(isn, nums);
    NewerWord(isn, n, Largest(nums));
  }

  lemma NewerWord(isn: int, n: int, m: int)
    requires -0x1_0000_0000 < n - m < 0x1_0000_0000
    ensures SeqGt(Wire(isn, n), Wire(isn, m)) <==> 0 < n - m < 0x8000_0000 || n - m < -0x8000_0000
  {
    WireDiff(isn, n, m);
  }
}
