/**
 * The push-buffer helpers of the NVC0 test program (test/9039.c): method
 * headers and data words appended to the push buffer `pb`, and FIRE_RING,
 * which hands the words pushed since the last fire to the GPU as one
 * indirect-buffer (IB) entry and advances the IB put pointer.
 */
module Ring {
  import opened Common
  import opened Nvc0Fifo

  /** The IB put register of the channel's control page, regs[0x8c / 4]. */
  const IB_PUT: nat := 0x23

  /**
   * Buffers are kept under 2^29 words: `pb_base * 4` and `(pb_pos - pb_base) * 4`
   * are computed in `int`, which holds them only below 2^31.
   */
  const MAX_WORDS: nat := 0x2000_0000

  /**
   * A method header: kind 2 (BEGIN_RING, incrementing) or 6 (CONST_RING,
   * non-incrementing) in bits 28..31, word count `s` from bit 16, subchannel
   * `c` from bit 13 and the method address `m` in words, in 32 bits.
   */
  function Header(kind: bv32, c: bv32, m: bv32, s: bv32): bv32
  {
    (kind << 28) | (s << 16) | (c << 13) | (m >> 2)
  }

  /** The header of BEGIN_RING(c, m, s). */
  function BeginHeader(c: bv32, m: bv32, s: bv32): bv32
  {
    Header(2, c, m, s)
  }

  /** The header of CONST_RING(c, m, s). */
  function ConstHeader(c: bv32, m: bv32, s: bv32): bv32
  {
    Header(6, c, m, s)
  }

  /**
   * Every field reads back from a header whose fields fit: the kind from
   * bits 28..31, the subchannel from 13..15, the count from 16..27 and the
   * method address (a multiple of 4 below 2^15) from the low 13 bits.
   */
  lemma HeaderDecode(kind: bv32, c: bv32, m: bv32, s: bv32)
    requires kind < 16 && c < 8 && s < 0x1000 && m & 3 == 0 && m < 0x8000
    ensures Header(kind, c, m, s) >> 28 == kind
    ensures (Header(kind, c, m, s) >> 16) & 0xfff == s
    ensures (Header(kind, c, m, s) >> 13) & 7 == c
    ensures (Header(kind, c, m, s) & 0x1fff) << 2 == m
  {
  }

  /** The two kinds are told apart by bit 30 alone. */
  lemma HeaderKinds(c: bv32, m: bv32, s: bv32)
    requires c < 8 && s < 0x1000 && m < 0x8000
    ensures BeginHeader(c, m, s) & 0x4000_0000 == 0
    ensures ConstHeader(c, m, s) & 0x4000_0000 != 0
    ensures BeginHeader(c, m, s) | 0x4000_0000 == ConstHeader(c, m, s)
  {
  }

  /** The low 64 bits of `n`, bit by bit. */
  function Bits64(n: nat): bv64
    decreases n
  {
    if n == 0 then 0
    else if n % 2 == 0 then Bits64(n / 2) << 1
    else (Bits64(n / 2) << 1) | 1
  }

  /** The low 32 bits of `n`, bit by bit. */
  function Bits32(n: nat): bv32
    decreases n
  {
    if n == 0 then 0
    else if n % 2 == 0 then Bits32(n / 2) << 1
    else (Bits32(n / 2) << 1) | 1
  }

  /** ib_virt + pb_base * 4 in uint64_t arithmetic: the GPU address of pb word `index`. */
  function Addr(ibVirt: bv64, index: nat): bv64
  {
    ibVirt + (Bits64(index) << 2)
  }

  /** (pb_pos - pb_base) * 4 as the uint32_t byte count of `words` words. */
  function ByteSize(words: nat): bv32
  {
    Bits32(words) << 2
  }

  /** The two words of an IB entry for `size` bytes at `virt`: the low address word, then the high address bits or-ed with size << 8. */
  function EntryLow(virt: bv64): bv32
  {
    Lo(virt)
  }

  function EntryHigh(virt: bv64, size: bv32): bv32
  {
    Hi(virt) | (size << 8)
  }

  /**
   * The entry reads back: for a 40-bit address and a size below 2^24, the
   * address is the low word joined with the low byte of the high word, and
   * the size is the high word shifted down by 8.
   */
  lemma EntryDecode(virt: bv64, size: bv32)
    requires Hi(virt) < 0x100 && size < 0x100_0000
    ensures ((EntryHigh(virt, size) & 0xff) as bv64 << 32) | (EntryLow(virt) as bv64) == virt
    ensures EntryHigh(virt, size) >> 8 == size
  {
    assert EntryHigh(virt, size) & 0xff == Hi(virt);
    SplitJoin(virt);
  }

  /**
   * A run of push-buffer words [start, end) handed to the GPU by one IB
   * entry, with the GPU address and byte size the entry gives for it.
   */
  datatype Segment = Segment(start: nat, end: nat, virt: bv64, size: bv32)

  /** The entry's address and size are those of the run: ib_virt + 4 * start and 4 * (end - start). */
  ghost predicate Locates(ibVirt: bv64, s: Segment)
  {
    s.start < s.end < MAX_WORDS && s.virt == Addr(ibVirt, s.start) && s.size == ByteSize(s.end - s.start)
  }

  /**
   * The runs follow each other without gap or overlap from `origin` up to
   * `base`, and none is empty.
   */
  ghost predicate Chain(segs: seq<Segment>, origin: nat, base: nat)
    decreases |segs|
  {
    if segs == [] then origin == base
    else segs[0].start == origin && origin < segs[0].end && Chain(segs[1..], segs[0].end, base)
  }

  /** The number of words the runs hand over. */
  function Words(segs: seq<Segment>): int
  {
    if segs == [] then 0 else segs[0].end - segs[0].start + Words(segs[1..])
  }

  /** Appending a non-empty run that starts at the end of the chain extends it. */
  lemma {:induction false} ChainSnoc(segs: seq<Segment>, origin: nat, base: nat, s: Segment)
    requires Chain(segs, origin, base) && s.start == base < s.end
    ensures Chain(segs + [s], origin, s.end)
    decreases |segs|
  {
    if segs != [] {
      ChainSnoc(segs[1..], segs[0].end, base, s);
      assert (segs + [s])[1..] == segs[1..] + [s];
    }
  }

  /** A chain from `origin` to `base` hands over every word in between exactly once: base - origin words, in order. */
  lemma {:induction false} ChainCovers(segs: seq<Segment>, origin: nat, base: nat)
    requires Chain(segs, origin, base)
    ensures origin <= base && Words(segs) == base - origin
    ensures |segs| <= base - origin
    decreases |segs|
  {
    if segs != [] {
      ChainCovers(segs[1..], segs[0].end, base);
    }
  }

  /** The IB words hold, in entry k, the address and byte size run k is given. */
  ghost predicate Entries(words: seq<bv32>, segs: seq<Segment>)
  {
    2 * |segs| <= |words| &&
    forall k :: 0 <= k < |segs| ==>
      words[2 * k] == EntryLow(segs[k].virt) && words[2 * k + 1] == EntryHigh(segs[k].virt, segs[k].size)
  }

  /** Writing the entry of a new run just past the existing entries records it. */
  lemma EntriesSnoc(words: seq<bv32>, segs: seq<Segment>, s: Segment)
    requires Entries(words, segs) && 2 * |segs| + 2 <= |words|
    ensures var n := 2 * |segs|;
      Entries(words[n := EntryLow(s.virt)][n + 1 := EntryHigh(s.virt, s.size)], segs + [s])
  {
  }

  /** Words outside the recorded entries may change without disturbing them. */
  lemma EntriesKeep(words: seq<bv32>, words': seq<bv32>, segs: seq<Segment>)
    requires Entries(words, segs) && |words'| == |words|
    requires forall k :: 0 <= k < 2 * |segs| ==> words'[k] == words[k]
    ensures Entries(words', segs)
  {
    forall k | 0 <= k < |segs|
      ensures words'[2 * k] == words[2 * k] && words'[2 * k + 1] == words[2 * k + 1]
    {
    }
  }

  /** A uint32_t byte count of 4 * n is 0 only for n == 0 below 2^29 words. */
  lemma ByteSizeZero(n: nat)
    requires n < MAX_WORDS
    ensures (4 * n) % TWO_32 == 0 <==> n == 0
  {
  }

  /**
   * The ring invariant over values: buffers under 2^29 words; pushing
   * started at `origin` and pb_base <= pb_pos inside the push buffer; when
   * the two buffers are one, the IB entries lie below `origin`; the runs
   * chain from `origin` to pb_base, entry k holds run k's address and size,
   * and those locate the run.
   */
  ghost predicate Inv(pbLen: nat, words: seq<bv32>, aliased: bool, ibVirt: bv64,
                      origin: nat, base: nat, pos: nat, n: nat, segs: seq<Segment>)
  {
    pbLen < MAX_WORDS && |words| < MAX_WORDS &&
    origin <= base <= pos <= pbLen &&
    (aliased ==> 2 * n <= origin) &&
    |segs| == n && Chain(segs, origin, base) && Entries(words, segs) &&
    forall k :: 0 <= k < |segs| ==> Locates(ibVirt, segs[k])
  }

  /** A push that leaves the entries alone keeps the invariant. */
  lemma InvPush(pbLen: nat, words: seq<bv32>, words': seq<bv32>, aliased: bool, ibVirt: bv64,
                origin: nat, base: nat, pos: nat, n: nat, segs: seq<Segment>)
    requires Inv(pbLen, words, aliased, ibVirt, origin, base, pos, n, segs) && pos < pbLen
    requires |words'| == |words| && forall k :: 0 <= k < 2 * n ==> words'[k] == words[k]
    ensures Inv(pbLen, words', aliased, ibVirt, origin, base, pos + 1, n, segs)
  {
    EntriesKeep(words, words', segs);
  }

  /** Submitting the pending run `s` as entry n keeps the invariant, with pb_base caught up. */
  lemma InvSubmit(pbLen: nat, words: seq<bv32>, aliased: bool, ibVirt: bv64,
                  origin: nat, base: nat, pos: nat, n: nat, segs: seq<Segment>, s: Segment)
    requires Inv(pbLen, words, aliased, ibVirt, origin, base, pos, n, segs)
    requires s.start == base && s.end == pos && Locates(ibVirt, s)
    requires 2 * n + 2 <= |words| && (aliased ==> 2 * n + 2 <= origin)
    ensures Inv(pbLen, words[2 * n := EntryLow(s.virt)][2 * n + 1 := EntryHigh(s.virt, s.size)],
                aliased, ibVirt, origin, pos, pos, n + 1, segs + [s])
  {
    EntriesSnoc(words, segs, s);
    ChainSnoc(segs, origin, base, s);
  }

  /**
   * The test's channel context: the push buffer `pb`, the IB ring `ib`
   * (the test maps both onto one buffer object, the IB entries below the
   * push-buffer words), the channel's control page `regs`, the GPU address
   * `ibVirt` of the buffer, and the counters pb_base, pb_pos and ib_pos.
   * `origin` is where pushing started; `segs` records the run each IB
   * entry hands over.
   */
  class Ring {
    const pb: array<bv32>
    const ib: array<bv32>
    const regs: array<u32>
    const ibVirt: bv64
    ghost const origin: nat
    var pbBase: nat
    var pbPos: nat
    var ibPos: nat
    ghost var segs: seq<Segment>

    /** The words pushed since pushing started. */
    ghost function Pushed(): seq<bv32>
      reads this, pb
      requires origin <= pbPos <= pb.Length
    {
      pb[origin..pbPos]
    }

    /**
     * The counters stay inside the buffers; when pb and ib are one buffer
     * the IB entries lie below the pushed words; entry k holds the address
     * and byte size of run k, and the runs chain from `origin` to pb_base.
     */
    ghost predicate Valid()
      reads this, ib
    {
      regs.Length > IB_PUT && regs as object != pb && regs as object != ib &&
      Inv(pb.Length, ib[..], pb == ib, ibVirt, origin, pbBase, pbPos, ibPos, segs)
    }

    /** main's set-up: pushing starts at word `base`, with no IB entry yet. */
    constructor(pb: array<bv32>, ib: array<bv32>, regs: array<u32>, ibVirt: bv64, base: nat)
      requires pb.Length < MAX_WORDS && ib.Length < MAX_WORDS && regs.Length > IB_PUT
      requires regs as object != pb && regs as object != ib
      requires base <= pb.Length
      ensures Valid()
      ensures this.pb == pb && this.ib == ib && this.regs == regs && this.ibVirt == ibVirt
      ensures origin == base && pbBase == base && pbPos == base && ibPos == 0 && segs == []
    {
      this.pb := pb;
      this.ib := ib;
      this.regs := regs;
      this.ibVirt := ibVirt;
      origin := base;
      pbBase := base;
      pbPos := base;
      ibPos := 0;
      segs := [];
    }

    /** The store ctx.pb[ctx.pb_pos++] = w the three push helpers share. */
    method Push(w: bv32)
      requires Valid() && pbPos < pb.Length
      modifies this, pb
      ensures Valid()
      ensures Pushed() == old(Pushed()) + [w]
      ensures pbPos == old(pbPos) + 1 && pbBase == old(pbBase) && ibPos == old(ibPos) && segs == old(segs)
      ensures forall k :: 0 <= k < pb.Length && k != old(pbPos) ==> pb[k] == old(pb[k])
    {
      pb[pbPos] := w;
      InvPush(pb.Length, old(ib[..]), ib[..], pb == ib, ibVirt, origin, pbBase, pbPos, ibPos, segs);
      pbPos := pbPos + 1;
      assert Pushed() == old(Pushed()) + [w];
    }

    /** BEGIN_RING(c, m, s): the incrementing method header is pushed. */
    method BeginRing(c: bv32, m: bv32, s: bv32)
      requires Valid() && pbPos < pb.Length
      modifies this, pb
      ensures Valid()
      ensures Pushed() == old(Pushed()) + [BeginHeader(c, m, s)]
      ensures pbPos == old(pbPos) + 1 && pbBase == old(pbBase) && ibPos == old(ibPos) && segs == old(segs)
    {
      Push((0x2 << 28) | (s << 16) | (c << 13) | (m >> 2));
    }

    /** CONST_RING(c, m, s): the non-incrementing method header is pushed. */
    method ConstRing(c: bv32, m: bv32, s: bv32)
      requires Valid() && pbPos < pb.Length
      modifies this, pb
      ensures Valid()
      ensures Pushed() == old(Pushed()) + [ConstHeader(c, m, s)]
      ensures pbPos == old(pbPos) + 1 && pbBase == old(pbBase) && ibPos == old(ibPos) && segs == old(segs)
    {
      Push((0x6 << 28) | (s << 16) | (c << 13) | (m >> 2));
    }

    /** OUT_RING(d): one data word is pushed. */
    method OutRing(d: bv32)
      requires Valid() && pbPos < pb.Length
      modifies this, pb
      ensures Valid()
      ensures Pushed() == old(Pushed()) + [d]
      ensures pbPos == old(pbPos) + 1 && pbBase == old(pbBase) && ibPos == old(ibPos) && segs == old(segs)
    {
      Push(d);
    }

    /** The run pb_base..pb_pos with the address and byte size FIRE_RING computes for it. */
    function Pending(): (s: Segment)
      reads this
      requires pbBase < pbPos < MAX_WORDS
      ensures s.start == pbBase && s.end == pbPos && Locates(ibVirt, s)
    {
      Segment(pbBase, pbPos, Addr(ibVirt, pbBase), ByteSize(pbPos - pbBase))
    }

    /**
     * FIRE_RING: nothing when no word was pushed since the last fire;
     * otherwise the words pb_base..pb_pos are submitted as the next IB entry.
     */
    method FireRing()
      requires Valid()
      requires pbPos != pbBase ==> 2 * ibPos + 2 <= ib.Length && (pb == ib ==> 2 * ibPos + 2 <= origin)
      modifies this, ib, regs
      ensures Valid()
      ensures Pushed() == old(Pushed()) && pbPos == old(pbPos)
      ensures old(pbPos) == old(pbBase) ==>
        pbBase == old(pbBase) && ibPos == old(ibPos) && segs == old(segs) &&
        ib[..] == old(ib[..]) && regs[..] == old(regs[..])
      ensures old(pbPos) != old(pbBase) ==>
        pbBase == pbPos && ibPos == old(ibPos) + 1 && segs == old(segs) + [old(Pending())] &&
        ib[..] == old(ib[..])[2 * old(ibPos) := EntryLow(old(Pending()).virt)]
                             [2 * old(ibPos) + 1 := EntryHigh(old(Pending()).virt, old(Pending()).size)] &&
        regs[..] == old(regs[..])[IB_PUT := ibPos]
    {
      var size := (4 * (pbPos - pbBase)) % TWO_32;
      ByteSizeZero(pbPos - pbBase);
      if size == 0 {
        return;
      }
      Submit();
    }

    /**
     * The rest of FIRE_RING once the byte count is not 0: the next IB entry
     * gets the address and byte size of the words pb_base..pb_pos, the IB
     * put register gets the new entry count, and pb_base catches up with
     * pb_pos. The pushed words stay as they are.
     */
    method Submit()
      requires Valid() && pbPos != pbBase
      requires 2 * ibPos + 2 <= ib.Length && (pb == ib ==> 2 * ibPos + 2 <= origin)
      modifies this, ib, regs
      ensures Valid()
      ensures Pushed() == old(Pushed()) && pbPos == old(pbPos)
      ensures pbBase == pbPos && ibPos == old(ibPos) + 1
      ensures segs == old(segs) + [old(Pending())]
      ensures ib[..] == old(ib[..])[2 * old(ibPos) := EntryLow(old(Pending()).virt)]
                                   [2 * old(ibPos) + 1 := EntryHigh(old(Pending()).virt, old(Pending()).size)]
      ensures regs[..] == old(regs[..])[IB_PUT := ibPos]
    {
      var s := Pending();
      InvSubmit(pb.Length, ib[..], pb == ib, ibVirt, origin, pbBase, pbPos, ibPos, segs, s);
      SetEntry(2 * ibPos, EntryLow(s.virt), EntryHigh(s.virt, s.size));
      Advance(s);
    }

    /**
     * The counter updates once the entry for run `s` is written: ++ib_pos,
     * the IB put register set to it, pb_base = pb_pos.
     */
    method Advance(s: Segment)
      requires regs.Length > IB_PUT && regs as object != pb && regs as object != ib
      requires s.start == pbBase && s.end == pbPos
      requires Inv(pb.Length, ib[..], pb == ib, ibVirt, origin, pbPos, pbPos, ibPos + 1, segs + [s])
      modifies this, regs
      ensures Valid()
      ensures pbPos == old(pbPos) && pbBase == pbPos && ibPos == old(ibPos) + 1 && segs == old(segs) + [s]
      ensures regs[..] == old(regs[..])[IB_PUT := ibPos]
    {
      ibPos := ibPos + 1;
      regs[IB_PUT] := ibPos;
      segs := segs + [s];
      pbBase := pbPos;
    }

    /**
     * The two stores ctx.ib[ib_pos * 2 + 0] and ctx.ib[ib_pos * 2 + 1],
     * below the pushed words when the two buffers are one.
     */
    method SetEntry(n: nat, low: bv32, high: bv32)
      requires n + 2 <= ib.Length && (pb == ib ==> n + 2 <= origin) && origin <= pbPos <= pb.Length
      modifies ib
      ensures ib[..] == old(ib[..])[n := low][n + 1 := high]
      ensures pb[origin..pbPos] == old(pb[origin..pbPos])
    {
      ib[n] := low;
      ib[n + 1] := high;
      assert forall k :: origin <= k < pbPos ==> pb[k] == old(pb[k]);
    }
  }
}
