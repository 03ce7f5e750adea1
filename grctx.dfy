/**
 * The context-value ("ctxvals") side of the NV50 graphics context generator
 * (pscnv/nv50_grctx.c): the two emitters that lay words out in the context
 * image, the MMIO data block, the eight-strand xfer areas, and the
 * chipset gate of nv50_grctx_init. The ctxprog microcode (cp_* macros) and
 * the long per-gene value lists are not modelled word by word: a gene is a
 * list of emits of known counts and values.
 */
module Grctx {
  import opened Common

  /** NOUVEAU_GRCTX_PROG only counts positions; NOUVEAU_GRCTX_VALS also writes values. */
  datatype Mode = Prog | Vals

  /** One dd_emit / xf_emit call: `num` words of value `val`. */
  datatype Emit = Emit(num: nat, val: u32)

  /** The words a list of emits advances over. */
  function Total(es: seq<Emit>): (r: nat)
    ensures es != [] ==> r >= es[|es| - 1].num
  {
    if es == [] then 0 else Total(es[..|es| - 1]) + es[|es| - 1].num
  }

  /** The longest strand, in 8-word blocks: the `size` the xfer constructors compute. */
  function MaxLen(strands: seq<seq<Emit>>): (r: nat)
  {
    if strands == [] then 0
    else Max(MaxLen(strands[..|strands| - 1]), Total(strands[|strands| - 1]))
  }

  /** No strand is longer than MaxLen, and some strand is exactly that long. */
  lemma {:induction false} MaxLenSpec(strands: seq<seq<Emit>>, k: nat)
    requires k < |strands|
    ensures Total(strands[k]) <= MaxLen(strands)
    ensures exists i :: 0 <= i < |strands| && Total(strands[i]) == MaxLen(strands)
  {
    var last := |strands| - 1;
    assert strands[..last + 1] == strands;
    if last == 0 {
      assert Total(strands[0]) == MaxLen(strands);
    } else {
      var prefix := strands[..last];
      MaxLenSpec(prefix, if k < last then k else 0);
      var i :| 0 <= i < last && Total(prefix[i]) == MaxLen(prefix);
      if MaxLen(strands) == MaxLen(prefix) {
        assert Total(strands[i]) == MaxLen(strands);
      } else {
        assert Total(strands[last]) == MaxLen(strands);
      }
      if k < last {
        assert strands[k] == prefix[k];
      }
    }
  }

  /** `(x + 0x3f) & ~0x3f` for a non-negative position. */
  function Align64(x: nat): (r: nat)
    ensures r % 64 == 0
    ensures x <= r < x + 64
  {
    (x + 63) / 64 * 64
  }

  /** Align64 gives the least multiple of 64 at or above x, and leaves multiples of 64 alone. */
  lemma Align64Least(x: nat, m: nat)
    requires m % 64 == 0 && x <= m
    ensures Align64(x) <= m
    ensures x % 64 == 0 ==> Align64(x) == x
  {
  }

  /** The chipsets nv50_grctx_init can build a context program for. */
  predicate Supported(chipset: int)
  {
    chipset in {0x50, 0x84, 0x86, 0x92, 0x94, 0x96, 0x98, 0xa0, 0xa3, 0xa5, 0xa8, 0xaa, 0xac}
  }

  /**
   * The register cp_ctx names for the MMIO data block: 0x404800 on
   * NVA3/NVA5/NVA8 (between 0xa0 and 0xaa, exclusive), else 0x405400.
   */
  function MmioDataReg(chipset: int): (r: int)
    ensures r == 0x404800 <==> 0xa0 < chipset < 0xaa
    ensures r == 0x404800 || r == 0x405400
  {
    if chipset > 0xa0 && chipset < 0xaa then 0x404800 else 0x405400
  }

  /**
   * The generator state: the mode, the context image `data` (one 32-bit
   * word per slot), the position ctxvals_pos and the xfer base
   * ctxvals_base.
   */
  class Grctx {
    const mode: Mode
    const data: array<u32>
    var pos: nat
    var base: nat

    constructor(mode: Mode, data: array<u32>, pos: nat)
      ensures this.mode == mode && this.data == data && this.pos == pos && base == 0
    {
      this.mode := mode;
      this.data := data;
      this.pos := pos;
      base := 0;
    }

    /** Whether an emit of `val` writes anything. */
    predicate Writes(val: u32)
    {
      val != 0 && mode == Vals
    }

    /**
     * dd_emit: advance by `num` words; in VALS mode a non-zero `val` is
     * written to each of them, a zero leaves the image alone.
     */
    method DdEmit(num: nat, val: u32)
      requires Writes(val) ==> pos + num <= data.Length
      modifies this, data
      ensures pos == old(pos) + num && base == old(base)
      ensures forall j :: 0 <= j < data.Length ==>
        data[j] == (if Writes(val) && old(pos) <= j < old(pos) + num then val else old(data[j]))
    {
      if Writes(val) {
        var i := 0;
        while i < num
          invariant 0 <= i <= num && pos == old(pos) && base == old(base)
          invariant forall j :: 0 <= j < data.Length ==>
            data[j] == (if pos <= j < pos + i then val else old(data[j]))
        {
          data[pos + i] := val;
          i := i + 1;
        }
      }
      pos := pos + num;
    }

    /**
     * xf_emit: advance by `num` 8-word blocks; in VALS mode a non-zero
     * `val` is written to the slot of the current strand in each block,
     * pos + 8 * i, and to no other.
     */
    method XfEmit(num: nat, val: u32)
      requires Writes(val) && num > 0 ==> pos + 8 * (num - 1) < data.Length
      modifies this, data
      ensures pos == old(pos) + 8 * num && base == old(base)
      ensures forall j :: 0 <= j < data.Length ==>
        data[j] == (if Writes(val) && old(pos) <= j < old(pos) + 8 * num && (j - old(pos)) % 8 == 0
                    then val else old(data[j]))
    {
      if Writes(val) {
        var i := 0;
        while i < num
          invariant 0 <= i <= num && pos == old(pos) && base == old(base)
          invariant forall j :: 0 <= j < data.Length ==>
            data[j] == (if pos <= j < pos + 8 * i && (j - pos) % 8 == 0 then val else old(data[j]))
        {
          data[pos + 8 * i] := val;
          i := i + 1;
        }
      }
      pos := pos + 8 * num;
    }

    /**
     * nv50_graph_construct_mmio_ddata: emit the MMIO data words `es`
     * (the chipset's list), then rewind to where it started. It gives
     * cp_ctx its register and the word count, the total advance of the
     * emits.
     */
    method MmioDdata(chipset: int, es: seq<Emit>) returns (reg: int, num: nat)
      requires pos + Total(es) <= data.Length
      modifies this, data
      ensures pos == old(pos) && base == old(base)
      ensures num == Total(es) && reg == MmioDataReg(chipset)
      ensures forall j :: 0 <= j < data.Length && !(old(pos) <= j < old(pos) + num) ==> data[j] == old(data[j])
    {
      var start := pos;
      var i := 0;
      while i < |es|
        invariant 0 <= i <= |es|
        invariant pos == start + Total(es[..i]) && base == old(base)
        invariant forall j :: 0 <= j < data.Length && !(start <= j < pos) ==> data[j] == old(data[j])
      {
        TotalPrefix(es, i + 1);
        TotalMono(es, i + 1);
        DdEmit(es[i].num, es[i].val);
        i := i + 1;
      }
      assert es[..|es|] == es;
      num := pos - start;
      pos := start;
      reg := MmioDataReg(chipset);
    }

    /**
     * The emits of one strand, starting at the current position: each
     * written slot lies in the strand's residue class modulo 8.
     */
    method EmitStrand(es: seq<Emit>)
      requires Total(es) > 0 ==> pos + 8 * (Total(es) - 1) < data.Length
      modifies this, data
      ensures pos == old(pos) + 8 * Total(es) && base == old(base)
      ensures forall j :: 0 <= j < data.Length && data[j] != old(data[j]) ==>
        old(pos) <= j < pos && (j - old(pos)) % 8 == 0
    {
      var start := pos;
      var i := 0;
      while i < |es|
        invariant 0 <= i <= |es|
        invariant pos == start + 8 * Total(es[..i]) && base == old(base)
        invariant forall j :: 0 <= j < data.Length && data[j] != old(data[j]) ==>
          start <= j < pos && (j - start) % 8 == 0
      {
        TotalPrefix(es, i + 1);
        TotalMono(es, i + 1);
        ghost var before := data[..];
        ghost var blocks := Total(es[..i]);
        assert forall j :: 0 <= j < |before| && before[j] != old(data[j]) ==>
          start <= j < pos && (j - start) % 8 == 0;
        XfEmit(es[i].num, es[i].val);
        forall j | 0 <= j < data.Length && data[j] != old(data[j])
          ensures start <= j < pos && (j - start) % 8 == 0
        {
          if data[j] == before[j] {
            assert before[j] != old(data[j]);
          } else {
            ResidueShift(start, blocks, j);
          }
        }
        i := i + 1;
      }
      assert es[..|es|] == es;
    }

    /**
     * One strand of an xfer area at `offset`: strand k starts at offset + k
     * and writes only slots congruent to k modulo 8 within its blocks.
     */
    method PlaceStrand(offset: nat, k: nat, es: seq<Emit>)
      requires k < 8 && offset + 8 * Total(es) <= data.Length
      modifies this, data
      ensures pos == offset + k + 8 * Total(es) && base == old(base)
      ensures forall j :: 0 <= j < data.Length && data[j] != old(data[j]) ==>
        offset <= j < offset + 8 * Total(es) && (j - offset) % 8 == k
    {
      pos := offset + k;
      EmitStrand(es);
      forall j | 0 <= j < data.Length && data[j] != old(data[j])
        ensures offset <= j < offset + 8 * Total(es) && (j - offset) % 8 == k
      {
        StrandSlot(offset, k, Total(es), j);
      }
    }

    /**
     * The layout of nv50_graph_construct_xfer1 (setBase) and
     * nv50_graph_construct_xfer2: start at the next multiple of 64; strand
     * k starts at offset + k; size is the longest strand in 8-word
     * blocks; the position ends at the multiple of 64 after the area.
     * Strand k writes only slots congruent to k modulo 8.
     */
    method ConstructXfer(strands: seq<seq<Emit>>, setBase: bool) returns (offset: nat, size: nat)
      requires |strands| <= 8
      requires Align64(pos) + 8 * MaxLen(strands) <= data.Length
      modifies this, data
      ensures offset == Align64(old(pos)) && size == MaxLen(strands)
      ensures pos == Align64(offset + 8 * size)
      ensures base == (if setBase then offset else old(base))
      ensures forall j :: 0 <= j < data.Length && data[j] != old(data[j]) ==>
        offset <= j < offset + 8 * size && (j - offset) % 8 < |strands|
    {
      offset := Align64(pos);
      if setBase {
        base := offset;
      }
      size := 0;
      var k := 0;
      while k < |strands|
        invariant 0 <= k <= |strands|
        invariant size == MaxLen(strands[..k])
        invariant base == (if setBase then offset else old(base))
        invariant forall j :: 0 <= j < data.Length && data[j] != old(data[j]) ==>
          offset <= j < offset + 8 * size && (j - offset) % 8 < k
      {
        MaxLenPrefix(strands, k + 1);
        MaxLenSpec(strands, k);
        ghost var before := data[..];
        ghost var size0 := size;
        assert forall j :: 0 <= j < |before| && before[j] != old(data[j]) ==>
          offset <= j < offset + 8 * size0 && (j - offset) % 8 < k;
        ghost var t := Total(strands[k]);
        PlaceStrand(offset, k, strands[k]);
        StrandBlocks(k, t);
        if (pos - offset) / 8 > size {
          size := (pos - offset) / 8;
        }
        forall j | 0 <= j < data.Length && data[j] != old(data[j])
          ensures offset <= j < offset + 8 * size && (j - offset) % 8 < k + 1
        {
          if data[j] == before[j] {
            assert before[j] != old(data[j]);
          }
        }
        k := k + 1;
      }
      assert strands[..|strands|] == strands;
      pos := offset + size * 8;
      pos := Align64(pos);
    }

    /**
     * The ctxvals side of nv50_grctx_init: -ENOSYS before anything else for
     * a chipset outside Supported; otherwise the two xfer areas follow and
     * 0x400 words of padding end the image. `pos` on entry stands for the
     * position after nv50_graph_construct_mmio, whose cp_ctx calls advance
     * it and are not modelled.
     */
    method Init(chipset: int, xfer1: seq<seq<Emit>>, xfer2: seq<seq<Emit>>) returns (ret: int)
      requires |xfer1| <= 8 && |xfer2| <= 8
      requires Align64(Align64(pos) + 8 * MaxLen(xfer1)) + 8 * MaxLen(xfer2) <= data.Length
      modifies this, data
      ensures !Supported(chipset) ==>
        (ret == -ENOSYS && pos == old(pos) && base == old(base) && unchanged(data))
      ensures Supported(chipset) ==>
        (ret == 0 && base == Align64(old(pos)) &&
         pos == Align64(Align64(base + 8 * MaxLen(xfer1)) + 8 * MaxLen(xfer2)) + 0x400 && pos % 64 == 0)
    {
      if !Supported(chipset) {
        return -ENOSYS;
      }
      var o1, s1 := ConstructXfer(xfer1, true);
      assert pos == Align64(base + 8 * MaxLen(xfer1));
      var o2, s2 := ConstructXfer(xfer2, false);
      assert pos % 64 == 0;
      pos := pos + 0x400;
      return 0;
    }
  }

  /** A prefix of a list of emits advances no further than the whole list. */
  lemma {:induction false} TotalMono(es: seq<Emit>, n: nat)
    requires n <= |es|
    ensures Total(es[..n]) <= Total(es)
    decreases |es| - n
  {
    if n < |es| {
      TotalPrefix(es, n + 1);
      TotalMono(es, n + 1);
    } else {
      assert es[..n] == es;
    }
  }

  /** A slot a whole number of blocks after a strand's start is still in the strand. */
  lemma ResidueShift(start: int, blocks: int, j: int)
    requires (j - (start + 8 * blocks)) % 8 == 0
    ensures (j - start) % 8 == 0
  {
  }

  /** A strand of t blocks ends t blocks after its start, whichever of the eight strands it is. */
  lemma StrandBlocks(k: nat, t: nat)
    requires k < 8
    ensures (k + 8 * t) / 8 == t
  {
  }

  /** A slot of strand k of an area at `offset` lies in residue class k and inside the strand's blocks. */
  lemma StrandSlot(offset: nat, k: nat, t: nat, j: int)
    requires k < 8 && offset + k <= j < offset + k + 8 * t && (j - (offset + k)) % 8 == 0
    ensures (j - offset) % 8 == k && j < offset + 8 * t
  {
  }

  lemma TotalPrefix(es: seq<Emit>, n: nat)
    requires 0 < n <= |es|
    ensures Total(es[..n]) == Total(es[..n - 1]) + es[n - 1].num
  {
    assert es[..n][..n - 1] == es[..n - 1];
  }

  lemma MaxLenPrefix(strands: seq<seq<Emit>>, n: nat)
    requires 0 < n <= |strands|
    ensures MaxLen(strands[..n]) == Max(MaxLen(strands[..n - 1]), Total(strands[n - 1]))
  {
    assert strands[..n][..n - 1] == strands[..n - 1];
  }
}
