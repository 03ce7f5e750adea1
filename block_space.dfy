/**
 * An abstract stand-in for the drm_mm range allocator that the VRAM cache
 * uses to find room for a buffer: the allocator is a set of free block
 * numbers, and a search returns the lowest aligned start at which `n`
 * consecutive blocks are all free.
 */
module BlockSpace {
  import opened Common

  /** The blocks `start .. start+n-1`. */
  function Range(start: nat, n: nat): set<nat>
    decreases n
  {
    if n == 0 then {} else Range(start, n - 1) + {start + n - 1}
  }

  lemma {:induction false} InRange(start: nat, n: nat, i: nat)
    ensures i in Range(start, n) <==> start <= i < start + n
    decreases n
  {
    if n > 0 {
      InRange(start, n - 1, i);
    }
  }

  /** `align == 0` means no alignment constraint, as for drm_mm. */
  predicate Aligned(start: nat, align: nat)
  {
    align == 0 || start % align == 0
  }

  /** Every block of `start .. start+n-1` is free. */
  predicate Fits(free: set<nat>, start: nat, n: nat)
  {
    forall i | start <= i < start + n :: i in free
  }

  /** First-fit scan from block `from` upwards. */
  function SearchFrom(free: set<nat>, total: nat, n: nat, align: nat, from: nat): (r: Option<nat>)
    decreases total - from
    ensures r.Some? ==>
      from <= r.value && r.value + n <= total && Aligned(r.value, align) && Fits(free, r.value, n)
    ensures r.Some? ==>
      forall t: nat :: from <= t < r.value && Aligned(t, align) ==> !Fits(free, t, n)
    ensures r.None? ==>
      forall t: nat :: from <= t && t + n <= total && Aligned(t, align) ==> !Fits(free, t, n)
  {
    if from + n > total then None
    else if Aligned(from, align) && Fits(free, from, n) then Some(from)
    else SearchFrom(free, total, n, align, from + 1)
  }

  /**
   * drm_mm_search_free followed by drm_mm_get_block: the lowest aligned
   * start whose `n` blocks are free and inside the managed space, or None
   * when there is no such start.
   */
  function Search(free: set<nat>, total: nat, n: nat, align: nat): (r: Option<nat>)
    ensures r.Some? ==>
      r.value + n <= total && Aligned(r.value, align) && Fits(free, r.value, n) &&
      forall t: nat :: t < r.value && Aligned(t, align) ==> !Fits(free, t, n)
    ensures r.None? <==>
      forall t: nat :: t + n <= total && Aligned(t, align) ==> !Fits(free, t, n)
  {
    SearchFrom(free, total, n, align, 0)
  }

  lemma {:induction false} RangeCard(start: nat, n: nat)
    ensures |Range(start, n)| == n
    decreases n
  {
    if n > 0 {
      RangeCard(start, n - 1);
      InRange(start, n - 1, start + n - 1);
    }
  }

  lemma FitsRange(free: set<nat>, start: nat, n: nat)
    ensures Fits(free, start, n) <==> Range(start, n) <= free
  {
    forall i: nat { InRange(start, n, i); }
  }

  /** A fit of `n` blocks needs at least `n` free blocks. */
  lemma {:induction false} FitNeedsFreeBlocks(free: set<nat>, start: nat, n: nat)
    requires Fits(free, start, n)
    ensures n <= |free|
  {
    RangeCard(start, n);
    FitsRange(free, start, n);
    assert |Range(start, n)| <= |free| by {
      var r := Range(start, n);
      assert free == r + (free - r);
    }
  }
}
