/**
 * Argument checks and address arithmetic around a PSCMM buffer object
 * (attic/nouveau/nouveau_pscmm.c): the alignment check shared by
 * nouveau_pscmm_new and nouveau_pscmm_object_bind_to_gart, and the
 * source/destination offsets of a VRAM <-> GART copy in
 * nouveau_pscmm_move_m2mf.
 */
module PscmmObject {
  import opened Common

  /**
   * The alignment check: 0 stands for PAGE_SIZE, and any other value must
   * be a multiple of PAGE_SIZE, else -EINVAL. For a negative `int` the
   * driver's `align & (PAGE_SIZE - 1)` keeps the low twelve bits of the
   * two's-complement word, which is the non-negative remainder computed here.
   */
  function CheckAlign(align: int): (r: Result<int>)
    ensures r.Err? <==> align % PAGE_SIZE != 0
    ensures r.Err? ==> r.code == EINVAL
    ensures r.Ok? ==> r.value != 0 && r.value % PAGE_SIZE == 0
    ensures r.Ok? && align != 0 ==> r.value == align
  {
    var a := if align == 0 then PAGE_SIZE as int else align;
    if a % PAGE_SIZE != 0 then Err(EINVAL) else Ok(a)
  }

  /** An alignment that passed the check passes it again unchanged. */
  lemma CheckAlignIdempotent(align: int)
    requires CheckAlign(align).Ok?
    ensures CheckAlign(CheckAlign(align).value) == CheckAlign(align)
  {
  }

  /** A zero alignment means one page. */
  lemma CheckAlignDefault()
    ensures CheckAlign(0) == Ok(PAGE_SIZE as int)
  {
  }

  /**
   * The copy offset as nouveau_pscmm_move_m2mf writes it:
   * `base + (same) ? 0 : window`. `+` binds tighter than `?:`, so the
   * condition is the 64-bit sum base + (same ? 1 : 0), and the result is 0
   * whenever that sum is non-zero, the window base otherwise.
   */
  function CopyOffsetAsWritten(base: nat, sameChannel: bool, window: nat): (r: nat)
    requires base < TWO_64 && window < TWO_64
    ensures r == 0 || r == window
  {
    if (base + (if sameChannel then 1 else 0)) % TWO_64 != 0 then 0 else window
  }

  /**
   * The offset as written never depends on where the buffer lies: for every
   * base other than the two that wrap to 0 it is 0.
   */
  lemma CopyOffsetIgnoresBase(base: nat, sameChannel: bool, window: nat)
    requires 0 < base < TWO_64 - 1 && window < TWO_64
    ensures CopyOffsetAsWritten(base, sameChannel, window) == 0
  {
  }

  /** A buffer at VRAM offset 0x1000 copied by a foreign channel: the copy reads from 0. */
  lemma CopyOffsetCounterexample()
    ensures CopyOffsetAsWritten(0x1000, false, 0x4000_0000) == 0
    ensures CopyOffset(0x1000, false, 0x4000_0000) == 0x4000_1000
  {
  }

  /**
   * The evidently intended offset: the buffer's own offset, moved into the
   * channel's virtual window (vm_vram_base / vm_gart_base) unless the copy
   * runs on the driver's own channel, in 64-bit arithmetic.
   */
  function CopyOffset(base: nat, sameChannel: bool, window: nat): (r: nat)
    requires base < TWO_64 && window < TWO_64
    ensures r < TWO_64
    ensures sameChannel ==> r == base
    ensures !sameChannel ==> (r - base - window) % TWO_64 == 0
  {
    if sameChannel then base else (base + window) % TWO_64
  }

  /** Two buffers at different offsets are copied from or to different addresses. */
  lemma CopyOffsetInjective(b1: nat, b2: nat, sameChannel: bool, window: nat)
    requires b1 < TWO_64 && b2 < TWO_64 && window < TWO_64 && b1 != b2
    ensures CopyOffset(b1, sameChannel, window) != CopyOffset(b2, sameChannel, window)
  {
    if !sameChannel {
      if b1 + window >= TWO_64 { assert CopyOffset(b1, sameChannel, window) == b1 + window - TWO_64; }
      if b2 + window >= TWO_64 { assert CopyOffset(b2, sameChannel, window) == b2 + window - TWO_64; }
    }
  }
}
