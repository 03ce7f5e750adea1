/**
 * The NVC0 PFIFO engine of pscnv (pscnv/nvc0_fifo.c): the channel
 * playlist the hardware schedules from, killing and setting up a channel,
 * and the interrupt handler's decoding of page faults and sub-FIFO faults.
 * Register reads are inputs: `rd` gives the value each register reads.
 */
module Nvc0Fifo {
  import opened Common

  /** The engine has 128 channels; each owns a 0x1000-byte page of the control area. */
  const CHANNELS: nat := 128
  /** A playlist buffer is 0x1000 bytes, i.e. 0x400 words. */
  const PLAYLIST_WORDS: nat := 0x400
  /** One control-area page in words. */
  const CTL_PAGE_WORDS: nat := 0x400
  /** The words of the channel's RAMFC block cleared and set up by chan_init_ib (0x100 bytes). */
  const RAMFC_WORDS: nat := 0x40

  /** The low and high 32 bits of a 64-bit value, as the uint32_t stores take them. */
  function Lo(x: bv64): bv32 { (x & 0xffff_ffff) as bv32 }
  function Hi(x: bv64): bv32 { (x >> 32) as bv32 }

  /** A 32-bit word as the uint32_t a buffer object holds. */
  function U32(x: bv32): u32
  {
    x as int
  }

  /** The two halves give back the whole. */
  lemma SplitJoin(x: bv64)
    ensures ((Hi(x) as bv64) << 32) | (Lo(x) as bv64) == x
  {
  }

  // ---------------------------------------------------------------------
  // Bits of a mask
  // ---------------------------------------------------------------------

  /** Bit j (0..31) of x. */
  predicate Bit(x: bv32, j: bv32)
  {
    x & (1 << (j & 31)) != 0
  }

  /** j is one of the 32 bit indexes and bit j of x is set. */
  predicate IsSet(x: bv32, j: bv32)
  {
    j < 32 && Bit(x, j)
  }

  /** The mask of the bits below k (all 32 bits when k is 32). */
  function Below(k: bv32): bv32
    requires k <= 32
  {
    (1 << k) - 1
  }

  /** i is the lowest set bit of x. */
  predicate IsLowest(x: bv32, i: bv32)
  {
    i < 32 && Bit(x, i) && x & Below(i) == 0
  }

  /** The index of the lowest set bit of a non-zero x. */
  function LowestBit(x: bv32): bv32
    requires x != 0
    decreases x
  {
    if x & 1 == 1 then 0 else LowestBit(x >> 1) + 1
  }

  lemma LowestBitZero(x: bv32)
    requires x & 1 == 1
    ensures IsLowest(x, 0)
  {
  }

  lemma LowestBitShift(x: bv32, r: bv32)
    requires x & 1 == 0 && IsLowest(x >> 1, r)
    ensures IsLowest(x, r + 1)
  {
  }

  lemma LowestBitStep(x: bv32)
    requires x != 0 && x & 1 == 0 && x >> 1 != 0 && IsLowest(x >> 1, LowestBit(x >> 1))
    ensures IsLowest(x, LowestBit(x))
  {
    var r := LowestBit(x >> 1);
    assert LowestBit(x) == r + 1;
    LowestBitShift(x, r);
  }

  lemma ShiftFacts(x: bv32)
    requires x != 0 && x & 1 == 0
    ensures x >> 1 != 0 && x >> 1 < x
  {
  }

  /** LowestBit finds the lowest set bit. */
  lemma {:induction false} LowestBitSpec(x: bv32)
    requires x != 0
    ensures IsLowest(x, LowestBit(x))
    decreases x
  {
    if x & 1 == 1 {
      LowestBitZero(x);
    } else {
      ShiftFacts(x);
      LowestBitSpec(x >> 1);
      LowestBitStep(x);
    }
  }

  /**
   * ffs(x): 0 for 0, otherwise one more than the index of the lowest set
   * bit (a compiler builtin, given here by its contract).
   */
  method Ffs(x: bv32) returns (r: bv32)
    ensures x == 0 ==> r == 0
    ensures x != 0 ==> r == LowestBit(x) + 1 && IsLowest(x, r - 1)
  {
    if x == 0 {
      r := 0;
    } else {
      LowestBitSpec(x);
      r := LowestBit(x) + 1;
    }
  }

  /** The set bits of x, lowest first: the order the unit loops visit them. */
  function SetBits(x: bv32): seq<bv32>
    decreases x
  {
    if x == 0 then [] else [LowestBit(x)] + SetBits(x & (x - 1))
  }

  /** Clearing the lowest set bit i, as `units &= ~(1 << i)` does, is x & (x - 1). */
  lemma ClearLowest(x: bv32, i: bv32)
    requires IsLowest(x, i)
    ensures x & !(1 << i) == x & (x - 1)
  {
  }

  lemma ClearSmaller(x: bv32)
    requires x != 0
    ensures x & (x - 1) < x
  {
  }

  /** Clearing the lowest bit keeps exactly the other set bits, all above it. */
  lemma ClearLowestBits(x: bv32, i: bv32, j: bv32)
    requires IsLowest(x, i) && j < 32
    ensures Bit(x & (x - 1), j) <==> Bit(x, j) && j != i
    ensures Bit(x, j) ==> i <= j
  {
  }

  /** a < b on bit indexes. */
  predicate Lt(a: bv32, b: bv32)
  {
    a < b
  }

  /** Each element is above the one before it. */
  predicate Increasing(s: seq<bv32>)
  {
    forall k :: 0 < k < |s| ==> Lt(s[k - 1], s[k])
  }

  lemma ConsIncreasing(i: bv32, t: seq<bv32>)
    requires Increasing(t) && (t != [] ==> Lt(i, t[0]))
    ensures Increasing([i] + t)
  {
    var s := [i] + t;
    forall k | 0 < k < |s|
      ensures Lt(s[k - 1], s[k])
    {
      if k > 1 {
        assert s[k - 1] == t[k - 2] && s[k] == t[k - 1];
      }
    }
  }

  /** The bits left after clearing the lowest one lie above it. */
  lemma AboveLowest(x: bv32, i: bv32, j: bv32)
    requires IsLowest(x, i) && IsSet(x & (x - 1), j)
    ensures Lt(i, j)
  {
    ClearLowestBits(x, i, j);
  }

  /** Each set bit of x appears in SetBits(x) and nothing else does. */
  lemma {:induction false} SetBitsMembers(x: bv32)
    ensures forall j :: j in SetBits(x) <==> IsSet(x, j)
    decreases x
  {
    if x != 0 {
      var i := LowestBit(x);
      var rest := x & (x - 1);
      LowestBitSpec(x);
      ClearSmaller(x);
      SetBitsMembers(rest);
      assert SetBits(x) == [i] + SetBits(rest);
      forall j
        ensures j in SetBits(x) <==> IsSet(x, j)
      {
        if j < 32 {
          ClearLowestBits(x, i, j);
        }
      }
    }
  }

  /** The set bits come lowest first, each once. */
  lemma {:induction false} SetBitsIncreasing(x: bv32)
    ensures Increasing(SetBits(x))
    decreases x
  {
    if x != 0 {
      var i := LowestBit(x);
      var rest := x & (x - 1);
      LowestBitSpec(x);
      ClearSmaller(x);
      SetBitsIncreasing(rest);
      if rest != 0 {
        LowestBitSpec(rest);
        AboveLowest(x, i, LowestBit(rest));
      }
      ConsIncreasing(i, SetBits(rest));
      assert SetBits(x) == [i] + SetBits(rest);
    }
  }

  // ---------------------------------------------------------------------
  // The playlist
  // ---------------------------------------------------------------------

  /** Bit 0 of a channel's status word (0x3004 + cid * 8): enabled. */
  predicate Enabled(status: bv32)
  {
    status & 1 != 0
  }

  /** The channels below n whose status word has the enabled bit, in increasing order. */
  function EnabledBelow(status: seq<bv32>, n: nat): (cids: seq<nat>)
    requires n <= |status|
    ensures |cids| <= n
    ensures forall k :: 0 <= k < |cids| ==> cids[k] < n
  {
    if n == 0 then []
    else EnabledBelow(status, n - 1) + (if Enabled(status[n - 1]) then [n - 1] else [])
  }

  /** The enabled channels of a status table, in increasing order. */
  function EnabledChannels(status: seq<bv32>): seq<nat>
  {
    EnabledBelow(status, |status|)
  }

  /** A channel is listed iff it is enabled, and the list is strictly increasing. */
  lemma {:induction false} EnabledBelowSpec(status: seq<bv32>, n: nat)
    requires n <= |status|
    ensures forall c: nat :: c in EnabledBelow(status, n) <==> c < n && Enabled(status[c])
    ensures forall a, b :: 0 <= a < b < |EnabledBelow(status, n)| ==>
      EnabledBelow(status, n)[a] < EnabledBelow(status, n)[b]
  {
    if n > 0 {
      EnabledBelowSpec(status, n - 1);
    }
  }

  /** The playlist entries at the front of `buf`: word 2k is the k-th channel id, word 2k + 1 is 0x4. */
  ghost predicate Lists(buf: seq<u32>, cids: seq<nat>)
  {
    2 * |cids| <= |buf| &&
    forall k :: 0 <= k < |cids| ==> buf[2 * k] == cids[k] && buf[2 * k + 1] == 4
  }

  /** The playlist address register 0x2270: the buffer's VRAM address >> 12, in 32 bits. */
  function ListAddr(start: bv64): bv32
  {
    Lo(start >> 12)
  }

  /** The count register 0x2274: 0x1f00000 | number of entries. */
  function CountWord(entries: nat): (w: bv32)
    requires entries <= CHANNELS
  {
    0x1f0_0000 | entries as bv32
  }

  /** The entry count reads back from the low 20 bits, below the fixed 0x1f in bits 20..27. */
  lemma CountWordFields(entries: nat)
    requires entries <= CHANNELS
    ensures CountWord(entries) & 0xf_ffff == entries as bv32
    ensures CountWord(entries) >> 20 == 0x1f
  {
  }

  /** chan_kill's status write: bit 0 cleared, every other bit kept. */
  function Disable(status: bv32): (r: bv32)
    ensures !Enabled(r)
    ensures r & 0xffff_fffe == status & 0xffff_fffe
  {
    status & !1
  }

  /** Killing channel cid delists it and leaves every other channel's membership as it was. */
  lemma KillDelists(status: seq<bv32>, cid: nat)
    requires |status| == CHANNELS && cid < CHANNELS
    ensures cid !in EnabledChannels(status[cid := Disable(status[cid])])
    ensures forall c :: c != cid ==>
      (c in EnabledChannels(status[cid := Disable(status[cid])]) <==> c in EnabledChannels(status))
  {
    EnabledBelowSpec(status, |status|);
    EnabledBelowSpec(status[cid := Disable(status[cid])], |status|);
  }

  /** The status word chan_init_ib writes, 0x1f0001, has the enabled bit. */
  lemma InitEnables(status: seq<bv32>, cid: nat)
    requires |status| == CHANNELS && cid < CHANNELS
    ensures cid in EnabledChannels(status[cid := 0x1f_0001])
  {
    EnabledBelowSpec(status[cid := 0x1f_0001], |status|);
  }

  // ---------------------------------------------------------------------
  // The RAMFC set up by chan_init_ib
  // ---------------------------------------------------------------------

  /** Word 0x4c: the IB address's high half with ib_order << 16 (uint32_t) or-ed in. */
  function IbHighWord(ibStart: bv64, ibOrder: bv32): bv32
  {
    Hi(ibStart) | (ibOrder << 16)
  }

  /**
   * The word at byte offset `ofst` of the RAMFC after chan_init_ib: the
   * control-area address, the IB address and size, the fixed setup
   * values, the sub-channel mask, and 0 elsewhere.
   */
  function RamfcWord(ofst: nat, fifoRegs: bv64, ibStart: bv64, ibOrder: bv32, slimask: bv32): u32
  {
    if ofst == 0x08 then U32(Lo(fifoRegs))
    else if ofst == 0x0c then U32(Hi(fifoRegs))
    else if ofst == 0x10 then 0xface
    else if ofst == 0x30 then 0xffff_f902
    else if ofst == 0x48 then U32(Lo(ibStart))
    else if ofst == 0x4c then U32(IbHighWord(ibStart, ibOrder))
    else if ofst == 0x54 then 0x2
    else if ofst == 0x84 then 0x2040_0000
    else if ofst == 0x94 then U32(0x3000_0000 ^ slimask)
    else if ofst == 0x9c then 0x100
    else if ofst == 0xa4 || ofst == 0xa8 then 0x1f1f_1f1f
    else if ofst == 0xac then 0x1f
    else if ofst == 0xf8 then 0x1000_3080
    else if ofst == 0xfc then 0x1000_0010
    else 0
  }

  /** For an IB address below 2^48 and an accepted order, word 0x4c gives back the high half and the order. */
  lemma IbHighWordDecode(ibStart: bv64, ibOrder: bv32)
    requires Hi(ibStart) < 0x1_0000 && ibOrder <= 29
    ensures (((IbHighWord(ibStart, ibOrder) & 0xffff) as bv64) << 32) | (Lo(ibStart) as bv64) == ibStart
    ensures IbHighWord(ibStart, ibOrder) >> 16 == ibOrder
  {
    SplitJoin(ibStart);
  }

  /**
   * The RAMFC hands the hardware back what the caller gave: words 0x08 and
   * 0x0c are the halves of the control-page address, words 0x48 and 0x4c
   * the IB start with, for an IB address below 2^48 and an accepted
   * ib_order, the order in bits 16 and up, and the sub-channel mask is
   * recovered from word 0x94 by xor.
   */
  lemma RamfcDecode(fifoRegs: bv64, ibStart: bv64, ibOrder: bv32, slimask: bv32)
    requires Hi(ibStart) < 0x1_0000 && ibOrder <= 29
    ensures RamfcWord(0x08, fifoRegs, ibStart, ibOrder, slimask) == U32(Lo(fifoRegs))
    ensures RamfcWord(0x0c, fifoRegs, ibStart, ibOrder, slimask) == U32(Hi(fifoRegs))
    ensures ((Hi(fifoRegs) as bv64) << 32) | (Lo(fifoRegs) as bv64) == fifoRegs
    ensures RamfcWord(0x48, fifoRegs, ibStart, ibOrder, slimask) == U32(Lo(ibStart))
    ensures RamfcWord(0x4c, fifoRegs, ibStart, ibOrder, slimask) == U32(IbHighWord(ibStart, ibOrder))
    ensures (((IbHighWord(ibStart, ibOrder) & 0xffff) as bv64) << 32) | (Lo(ibStart) as bv64) == ibStart
    ensures IbHighWord(ibStart, ibOrder) >> 16 == ibOrder
    ensures RamfcWord(0x94, fifoRegs, ibStart, ibOrder, slimask) == U32(0x3000_0000 ^ slimask)
    ensures (0x3000_0000 ^ slimask) ^ 0x3000_0000 == slimask
  {
    SplitJoin(fifoRegs);
    IbHighWordDecode(ibStart, ibOrder);
  }

  /** The byte offsets of a channel's control page that chan_init_ib clears. */
  predicate ClearedCtl(ofst: nat)
  {
    ofst % 4 == 0 && (0x40 <= ofst <= 0x50 || 0x58 <= ofst <= 0x60 || ofst == 0x88 || ofst == 0x8c)
  }

  /** The address the channel's instance register 0x3000 + cid * 8 gets: valid bits over bo->start >> 12. */
  function InstWord(boStart: bv64): bv32
  {
    0xc000_0000 | Lo(boStart >> 12)
  }

  // ---------------------------------------------------------------------
  // Fault decoding
  // ---------------------------------------------------------------------

  /** The units pgf_unit_str names. */
  predicate KnownUnit(unit: int)
  {
    unit == 0 || unit == 3 || unit == 4 || unit == 5 || unit == 7
  }

  /** pgf_unit_str: the name of a faulting unit, with a fallback for any other number. */
  function PgfUnitStr(unit: int): (r: string)
    ensures r == "(unknown unit)" <==> !KnownUnit(unit)
  {
    match unit
    case 0 => "PGRAPH"
    case 3 => "PEEPHOLE"
    case 4 => "FB BAR"
    case 5 => "RAMIN BAR"
    case 7 => "PUSHBUF"
    case _ => "(unknown unit)"
  }

  /** Distinct known units have distinct names. */
  lemma PgfUnitStrInjective(a: int, b: int)
    requires KnownUnit(a) && KnownUnit(b) && a != b
    ensures PgfUnitStr(a) != PgfUnitStr(b)
  {
  }

  /** The fault causes pgf_cause_str names, by the low 4 bits of the flags. */
  predicate KnownCause(code: bv32)
  {
    code == 0 || code == 1 || code == 2 || code == 3 || code == 5 || code == 6
  }

  /** pgf_cause_str: the name of the cause in flags' low 4 bits, with a fallback. */
  function PgfCauseStr(flags: bv32): (r: string)
    ensures r == "unknown cause" <==> !KnownCause(flags & 0xf)
  {
    var code := flags & 0xf;
    if code == 0 then "PDE not present"
    else if code == 1 then "PT too short"
    else if code == 2 then "PTE not present"
    else if code == 3 then "LIMIT exceeded"
    else if code == 5 then "NOUSER"
    else if code == 6 then "PTE set read-only"
    else "unknown cause"
  }

  /** Only the low 4 bits matter, and distinct known causes have distinct names. */
  lemma PgfCauseStrSpec(flags: bv32, other: bv32)
    ensures PgfCauseStr(flags) == PgfCauseStr(flags & 0xf)
    ensures KnownCause(flags & 0xf) && KnownCause(other & 0xf) && flags & 0xf != other & 0xf ==>
      PgfCauseStr(flags) != PgfCauseStr(other)
  {
  }

  /** What nvc0_pfifo_page_fault reports for one unit. */
  datatype PageFault = PageFault(unit: string, chan: bv32, virt: bv64, write: bool, cause: string)

  /** Register `reg` of unit `unit`'s block of `stride` bytes. */
  function UnitReg(reg: int, unit: bv32, stride: int): int
  {
    reg + unit as int * stride
  }

  /**
   * nvc0_pfifo_page_fault's decoding: the channel register shifted left
   * by 12 (in 32 bits), the 64-bit address from the high and low
   * registers, the write flag (bit 7) and the cause.
   */
  function DecodePageFault(unit: bv32, rd: int -> bv32): (f: PageFault)
    ensures Hi(f.virt) == rd(UnitReg(0x2808, unit, 0x10)) && Lo(f.virt) == rd(UnitReg(0x2804, unit, 0x10))
    ensures f.chan & 0xfff == 0
    ensures f.write <==> rd(UnitReg(0x280c, unit, 0x10)) & 0x80 != 0
  {
    var chan := rd(UnitReg(0x2800, unit, 0x10)) << 12;
    var virt := ((rd(UnitReg(0x2808, unit, 0x10)) as bv64) << 32) | (rd(UnitReg(0x2804, unit, 0x10)) as bv64);
    var flags := rd(UnitReg(0x280c, unit, 0x10));
    PageFault(PgfUnitStr(unit as int), chan, virt, flags & 0x80 != 0, PgfCauseStr(flags))
  }

  /** The fields nvc0_pfifo_subfifo_fault decodes from the channel and address registers. */
  datatype MethodFault = MethodFault(cid: bv32, sub: bv32, mthd: bv32, mode: bv32, nonIncr: bool)

  /** cid = chan & 0x7f, sub = addr >> 16 & 7, mthd = addr & 0x3ffc, mode = addr >> 21 & 7, NI = addr & 1. */
  function DecodeMethod(chan: bv32, addr: bv32): (f: MethodFault)
    ensures f.cid < 128 && f.sub < 8 && f.mode < 8
    ensures f.mthd < 0x4000 && f.mthd & 3 == 0
  {
    MethodFault(chan & 0x7f, (addr >> 16) & 7, addr & 0x3ffc, (addr >> 21) & 7, addr & 1 != 0)
  }

  /** A method address built from a sub-channel, a method and a mode. */
  function MethodAddr(sub: bv32, mthd: bv32, mode: bv32): bv32
  {
    (mode << 21) | (sub << 16) | mthd
  }

  /**
   * The decoded fields are exactly bits 2..13, 16..18 and 21..23 of the
   * address, and decoding an address built from valid fields gives them back.
   */
  lemma DecodeMethodRoundTrip(chan: bv32, addr: bv32, sub: bv32, mthd: bv32, mode: bv32)
    ensures var f := DecodeMethod(chan, addr); MethodAddr(f.sub, f.mthd, f.mode) == addr & 0x00e7_3ffc
    ensures sub < 8 && mode < 8 && mthd < 0x4000 && mthd & 3 == 0 ==>
      var f := DecodeMethod(chan, MethodAddr(sub, mthd, mode));
      f.sub == sub && f.mthd == mthd && f.mode == mode && !f.nonIncr
  {
  }

  /** A register write: register address and value. */
  datatype Write = Write(reg: int, val: bv32)

  const ILLEGAL_MTHD: bv32 := 0x20_0000
  const EMPTY_SUBCHANNEL: bv32 := 0x80_0000

  /** The status bits of a sub-FIFO interrupt the handler does not know. */
  function UnknownSubfifo(status: bv32): bv32
  {
    status & !ILLEGAL_MTHD & !EMPTY_SUBCHANNEL
  }

  /** The two known bits and the unknown rest partition the status. */
  lemma SubfifoStatusPartition(status: bv32)
    ensures status == (status & ILLEGAL_MTHD) | (status & EMPTY_SUBCHANNEL) | UnknownSubfifo(status)
    ensures UnknownSubfifo(status) & (ILLEGAL_MTHD | EMPTY_SUBCHANNEL) == 0
  {
  }

  /**
   * The writes of nvc0_pfifo_subfifo_fault for one unit: each known
   * status bit resets the method register and is acknowledged; unknown
   * bits are masked off in the unit's interrupt enable.
   */
  function SubfifoWrites(unit: bv32, rd: int -> bv32): (w: seq<Write>)
    ensures forall k :: 0 <= k < |w| ==>
      w[k].reg in {UnitReg(0x400c0, unit, 0x2000), UnitReg(0x40108, unit, 0x2000), UnitReg(0x4010c, unit, 0x2000)}
  {
    var status := rd(UnitReg(0x40108, unit, 0x2000));
    var reset := Write(UnitReg(0x400c0, unit, 0x2000), 0x8060_0008);
    var ack := UnitReg(0x40108, unit, 0x2000);
    var en := UnitReg(0x4010c, unit, 0x2000);
    (if status & ILLEGAL_MTHD != 0 then [reset, Write(ack, ILLEGAL_MTHD)] else []) +
    (if status & EMPTY_SUBCHANNEL != 0 then [reset, Write(ack, EMPTY_SUBCHANNEL)] else []) +
    (if UnknownSubfifo(status) != 0 then [Write(en, rd(en) & !UnknownSubfifo(status))] else [])
  }

  /** A unit's handling acknowledges exactly the known bits set in its status. */
  lemma SubfifoAcks(unit: bv32, rd: int -> bv32)
    ensures var status := rd(UnitReg(0x40108, unit, 0x2000));
      (Write(UnitReg(0x40108, unit, 0x2000), ILLEGAL_MTHD) in SubfifoWrites(unit, rd) <==> status & ILLEGAL_MTHD != 0) &&
      (Write(UnitReg(0x40108, unit, 0x2000), EMPTY_SUBCHANNEL) in SubfifoWrites(unit, rd) <==> status & EMPTY_SUBCHANNEL != 0)
  {
  }

  /** A unit's enable register is written once, clearing exactly the unknown status bits, and only when there are some. */
  lemma SubfifoMasks(unit: bv32, rd: int -> bv32)
    ensures var status := rd(UnitReg(0x40108, unit, 0x2000));
      var en := UnitReg(0x4010c, unit, 0x2000);
      forall v :: Write(en, v) in SubfifoWrites(unit, rd) <==>
        UnknownSubfifo(status) != 0 && v == rd(en) & !UnknownSubfifo(status)
  {
  }

  /** The writes of the sub-FIFO handler for each unit in turn; all of them go to the sub-FIFO register blocks. */
  function AllSubfifoWrites(units: seq<bv32>, rd: int -> bv32): (ws: seq<Write>)
    ensures forall k :: 0 <= k < |ws| ==> ws[k].reg >= 0x400c0
  {
    if units == [] then [] else AllSubfifoWrites(units[..|units| - 1], rd) + SubfifoWrites(units[|units| - 1], rd)
  }

  /** The page-fault reports for each unit in turn. */
  function PageFaults(units: seq<bv32>, rd: int -> bv32): (fs: seq<PageFault>)
    ensures |fs| == |units|
    ensures forall k :: 0 <= k < |units| ==> fs[k] == DecodePageFault(units[k], rd)
  {
    if units == [] then [] else PageFaults(units[..|units| - 1], rd) + [DecodePageFault(units[|units| - 1], rd)]
  }

  /** Moving the next element of the remaining list onto the visited one. */
  lemma SnocShift<T>(visited: seq<T>, all: seq<T>, i: T, rest: seq<T>)
    requires visited + ([i] + rest) == all
    ensures (visited + [i]) + rest == all
  {
    assert (visited + [i]) + rest == visited + ([i] + rest);
  }

  lemma PageFaultsSnoc(units: seq<bv32>, i: bv32, rd: int -> bv32)
    ensures PageFaults(units + [i], rd) == PageFaults(units, rd) + [DecodePageFault(i, rd)]
  {
    assert (units + [i])[..|units|] == units;
  }

  lemma AllSubfifoWritesSnoc(units: seq<bv32>, i: bv32, rd: int -> bv32)
    ensures AllSubfifoWrites(units + [i], rd) == AllSubfifoWrites(units, rd) + SubfifoWrites(i, rd)
  {
    assert (units + [i])[..|units|] == units;
  }

  /**
   * The first two statements of each unit-loop iteration:
   * `i = ffs(units) - 1; units &= ~(1 << i);` take the lowest set bit
   * off the mask.
   */
  method TakeLowest(units: bv32) returns (i: bv32, rest: bv32)
    requires units != 0
    ensures SetBits(units) == [i] + SetBits(rest)
  {
    var f := Ffs(units);
    i := f - 1;
    ClearLowest(units, i);
    rest := units & !(1 << i);
  }

  /** The page-fault loop of nvc0_fifo_irq_handler: one report per set bit of `bits`, lowest first. */
  method PageFaultUnits(bits: bv32, rd: int -> bv32) returns (faults: seq<PageFault>)
    ensures faults == PageFaults(SetBits(bits), rd)
  {
    var units := bits;
    faults := [];
    ghost var visited: seq<bv32> := [];
    while units != 0
      invariant visited + SetBits(units) == SetBits(bits)
      invariant faults == PageFaults(visited, rd)
      decreases |SetBits(units)|
    {
      var i;
      i, units := TakeLowest(units);
      faults := faults + [DecodePageFault(i, rd)];
      SnocShift(visited, SetBits(bits), i, SetBits(units));
      PageFaultsSnoc(visited, i, rd);
      visited := visited + [i];
    }
    assert visited + [] == visited;
  }

  /** The sub-FIFO loop of nvc0_fifo_irq_handler: each set bit's unit handled once, lowest first. */
  method SubfifoUnits(bits: bv32, rd: int -> bv32) returns (writes: seq<Write>)
    ensures writes == AllSubfifoWrites(SetBits(bits), rd)
  {
    var units := bits;
    writes := [];
    ghost var visited: seq<bv32> := [];
    while units != 0
      invariant visited + SetBits(units) == SetBits(bits)
      invariant writes == AllSubfifoWrites(visited, rd)
      decreases |SetBits(units)|
    {
      var i;
      i, units := TakeLowest(units);
      writes := writes + SubfifoWrites(i, rd);
      SnocShift(visited, SetBits(bits), i, SetBits(units));
      AllSubfifoWritesSnoc(visited, i, rd);
      visited := visited + [i];
    }
    assert visited + [] == visited;
  }

  // ---------------------------------------------------------------------
  // The interrupt handler
  // ---------------------------------------------------------------------

  const PAGE_FAULT_INTR: bv32 := 0x1000_0000
  const SUBFIFO_INTR: bv32 := 0x2000_0000

  /** The pending interrupt bits the handler does not clear: all but bits 0, 28 and 29. */
  function Unhandled(status: bv32): bv32
  {
    Clear(Clear(Clear(status, 1), PAGE_FAULT_INTR), SUBFIFO_INTR)
  }

  /** The PFIFO interrupt registers: status 0x2100, enable 0x2140 and the unit masks 0x259c and 0x25a0. */
  predicate IrqReg(reg: int)
  {
    reg == 0x2100 || reg == 0x2140 || reg == 0x259c || reg == 0x25a0
  }

  /** `x & ~b`: x with the bits of b cleared. */
  function Clear(x: bv32, b: bv32): bv32
  {
    x & !b
  }

  /** Clearing a bit that is not set changes nothing. */
  lemma ClearAbsent(x: bv32, b: bv32)
    requires !Has(x, b)
    ensures Clear(x, b) == x
  {
  }

  /** A write that happens only when `c` holds. */
  function WriteIf(c: bool, w: Write): (r: seq<Write>)
    ensures w in r <==> c
    ensures forall x :: x in r ==> x == w
  {
    if c then [w] else []
  }

  /** Some bit of `b` is set in `x`. */
  predicate Has(x: bv32, b: bv32)
  {
    x & b != 0
  }

  /** Acknowledging one interrupt source leaves the tests for the later ones as they were. */
  lemma ClearKeeps(x: bv32)
    ensures Has(Clear(x, 1), PAGE_FAULT_INTR) <==> Has(x, PAGE_FAULT_INTR)
    ensures Has(Clear(x, 1), SUBFIFO_INTR) <==> Has(x, SUBFIFO_INTR)
    ensures Has(Clear(x, PAGE_FAULT_INTR), SUBFIFO_INTR) <==> Has(x, SUBFIFO_INTR)
  {
    ClearOther(x, 1, PAGE_FAULT_INTR);
    ClearOther(x, 1, SUBFIFO_INTR);
    ClearOther(x, PAGE_FAULT_INTR, SUBFIFO_INTR);
  }

  /** Clearing the bits of `a` leaves the bits of a disjoint `b` as they were. */
  lemma ClearOther(x: bv32, a: bv32, b: bv32)
    requires a & b == 0
    ensures Clear(x, a) & b == x & b
  {
  }

  /**
   * The writes the handler makes to the PFIFO interrupt registers, in
   * order, for the pending and enabled bits `status`, the enable register
   * `en` and the unit masks `pfUnits` (0x259c) and `sfUnits` (0x25a0):
   * the acknowledgement of bit 0, the page-fault unit mask, the sub-FIFO
   * unit mask, and the enable register with the unhandled bits cleared.
   */
  function IrqAcks(status: bv32, en: bv32, pfUnits: bv32, sfUnits: bv32): seq<Write>
  {
    WriteIf(Has(status, 1), Write(0x2100, 1)) +
    WriteIf(Has(status, PAGE_FAULT_INTR), Write(0x259c, pfUnits)) +
    WriteIf(Has(status, SUBFIFO_INTR), Write(0x25a0, sfUnits)) +
    WriteIf(Unhandled(status) != 0, Write(0x2140, Clear(en, Unhandled(status))))
  }

  /** IrqAcks built up one interrupt source at a time, as the handler does. */
  lemma IrqAcksUnfold(status: bv32, en: bv32, pfUnits: bv32, sfUnits: bv32, a: seq<Write>, b: seq<Write>, c: seq<Write>, d: seq<Write>)
    requires a == WriteIf(Has(status, 1), Write(0x2100, 1))
    requires b == a + WriteIf(Has(status, PAGE_FAULT_INTR), Write(0x259c, pfUnits))
    requires c == b + WriteIf(Has(status, SUBFIFO_INTR), Write(0x25a0, sfUnits))
    requires d == c + WriteIf(Unhandled(status) != 0, Write(0x2140, Clear(en, Unhandled(status))))
    ensures d == IrqAcks(status, en, pfUnits, sfUnits)
  {
  }

  /**
   * Each interrupt source is acknowledged exactly when it is pending and
   * enabled; the enable register is written once, with the unhandled bits
   * cleared, exactly when some are left.
   */
  lemma IrqAcksSpec(status: bv32, en: bv32, pfUnits: bv32, sfUnits: bv32)
    ensures var acks := IrqAcks(status, en, pfUnits, sfUnits);
      (Write(0x2100, 1) in acks <==> Has(status, 1)) &&
      (Write(0x259c, pfUnits) in acks <==> Has(status, PAGE_FAULT_INTR)) &&
      (Write(0x25a0, sfUnits) in acks <==> Has(status, SUBFIFO_INTR))
    ensures var acks := IrqAcks(status, en, pfUnits, sfUnits);
      forall v :: Write(0x2140, v) in acks <==> Unhandled(status) != 0 && v == Clear(en, Unhandled(status))
  {
    var a := WriteIf(Has(status, 1), Write(0x2100, 1));
    var b := WriteIf(Has(status, PAGE_FAULT_INTR), Write(0x259c, pfUnits));
    var c := WriteIf(Has(status, SUBFIFO_INTR), Write(0x25a0, sfUnits));
    var d := WriteIf(Unhandled(status) != 0, Write(0x2140, Clear(en, Unhandled(status))));
    assert IrqAcks(status, en, pfUnits, sfUnits) == a + b + c + d;
  }

  /** The handler writes nothing outside the interrupt registers. */
  lemma IrqAcksRegs(status: bv32, en: bv32, pfUnits: bv32, sfUnits: bv32)
    ensures forall w :: w in IrqAcks(status, en, pfUnits, sfUnits) ==> IrqReg(w.reg)
  {
    var a := WriteIf(Has(status, 1), Write(0x2100, 1));
    var b := WriteIf(Has(status, PAGE_FAULT_INTR), Write(0x259c, pfUnits));
    var c := WriteIf(Has(status, SUBFIFO_INTR), Write(0x25a0, sfUnits));
    var d := WriteIf(Unhandled(status) != 0, Write(0x2140, Clear(en, Unhandled(status))));
    assert IrqAcks(status, en, pfUnits, sfUnits) == a + b + c + d;
  }

  /**
   * nvc0_fifo_irq_handler over the register values `rd` gives: the
   * page-fault reports, the writes to the PFIFO interrupt registers in
   * order, and the writes of the sub-FIFO handling in order. Bit 0 is
   * acknowledged; bit 28 reports a page fault per unit set in 0x259c and
   * acknowledges the mask; bit 29 handles each sub-FIFO set in 0x25a0 and
   * acknowledges the mask; every other pending bit, bit 8 included since
   * its clearing is commented out, is masked off in the enable register.
   */
  method IrqHandler(rd: int -> bv32) returns (faults: seq<PageFault>, acks: seq<Write>, unitWrites: seq<Write>)
    ensures var status := rd(0x2100) & rd(0x2140);
      faults == (if Has(status, PAGE_FAULT_INTR) then PageFaults(SetBits(rd(0x259c)), rd) else [])
    ensures var status := rd(0x2100) & rd(0x2140);
      unitWrites == (if Has(status, SUBFIFO_INTR) then AllSubfifoWrites(SetBits(rd(0x25a0)), rd) else [])
    ensures acks == IrqAcks(rd(0x2100) & rd(0x2140), rd(0x2140), rd(0x259c), rd(0x25a0))
  {
    var status := rd(0x2100) & rd(0x2140);
    ghost var pending := status;
    acks := [];
    if Has(status, 1) {
      acks := acks + [Write(0x2100, 1)];
      status := Clear(status, 1);
    } else {
      ClearAbsent(status, 1);
    }
    ghost var a := acks;
    ClearKeeps(pending);
    ClearKeeps(status);
    var pfAck, sfAck;
    faults, pfAck, status := PageFaultStage(status, rd);
    unitWrites, sfAck, status := SubfifoStage(status, rd);
    acks := acks + pfAck + sfAck;
    ghost var c := acks;
    assert status == Unhandled(pending);
    // Bit 8 only logs the IB packet; its clearing is commented out.
    if status != 0 {
      acks := acks + [Write(0x2140, Clear(rd(0x2140), status))];
    }
    IrqAcksUnfold(pending, rd(0x2140), rd(0x259c), rd(0x25a0), a, a + pfAck, c, acks);
  }

  /** The bit-28 block of the handler: a report per faulting unit, the unit mask acknowledged, bit 28 cleared. */
  method PageFaultStage(status: bv32, rd: int -> bv32) returns (faults: seq<PageFault>, ack: seq<Write>, left: bv32)
    ensures faults == if Has(status, PAGE_FAULT_INTR) then PageFaults(SetBits(rd(0x259c)), rd) else []
    ensures ack == WriteIf(Has(status, PAGE_FAULT_INTR), Write(0x259c, rd(0x259c)))
    ensures left == Clear(status, PAGE_FAULT_INTR)
  {
    faults, ack, left := [], [], status;
    if Has(status, PAGE_FAULT_INTR) {
      var bits := rd(0x259c);
      faults := PageFaultUnits(bits, rd);
      ack := [Write(0x259c, bits)];
      left := Clear(status, PAGE_FAULT_INTR);
    } else {
      ClearAbsent(status, PAGE_FAULT_INTR);
    }
  }

  /** The bit-29 block of the handler: each faulting sub-FIFO handled, the unit mask acknowledged, bit 29 cleared. */
  method SubfifoStage(status: bv32, rd: int -> bv32) returns (unitWrites: seq<Write>, ack: seq<Write>, left: bv32)
    ensures unitWrites == if Has(status, SUBFIFO_INTR) then AllSubfifoWrites(SetBits(rd(0x25a0)), rd) else []
    ensures ack == WriteIf(Has(status, SUBFIFO_INTR), Write(0x25a0, rd(0x25a0)))
    ensures left == Clear(status, SUBFIFO_INTR)
  {
    unitWrites, ack, left := [], [], status;
    if Has(status, SUBFIFO_INTR) {
      var bits := rd(0x25a0);
      unitWrites := SubfifoUnits(bits, rd);
      ack := [Write(0x25a0, bits)];
      left := Clear(status, SUBFIFO_INTR);
    } else {
      ClearAbsent(status, SUBFIFO_INTR);
    }
  }

  /** A pending bit 8 is never acknowledged: the handler disables it in the enable register. */
  lemma IbPacketDisables(intr: bv32, en: bv32)
    requires intr & en & 0x100 != 0
    ensures Unhandled(intr & en) != 0
    ensures Clear(en, Unhandled(intr & en)) & 0x100 == 0
  {
  }

  // ---------------------------------------------------------------------
  // The engine: playlist and channel set-up
  // ---------------------------------------------------------------------

  /** fifo_regs: the channel's control page, ctrl_bo->start + (cid << 12), in 64 bits. */
  function FifoRegs(ctrlStart: bv64, cid: nat): bv64
    requires cid < CHANNELS
  {
    ctrlStart + ((cid as bv64) << 12)
  }

  /** Byte `ofst` of channel cid's control page is word cid * 0x400 + ofst / 4 of the control area. */
  lemma CtlIndex(cid: nat, ofst: nat)
    requires ofst % 4 == 0
    ensures (cid * 0x1000 + ofst) / 4 == cid * CTL_PAGE_WORDS + ofst / 4
  {
  }

  /** Word w of the control area is one chan_init_ib clears for channel cid. */
  predicate CtlCleared(cid: nat, w: nat)
  {
    cid * CTL_PAGE_WORDS <= w && ClearedCtl(4 * (w - cid * CTL_PAGE_WORDS))
  }

  /** nv_wv32: store a word at byte offset `ofst` of a buffer object. */
  method Wv32(bo: array<u32>, ofst: nat, val: u32)
    requires ofst % 4 == 0 && ofst / 4 < bo.Length
    modifies bo
    ensures bo[..] == Put(old(bo[..]), ofst / 4, val)
  {
    bo[ofst / 4] := val;
  }

  /** A word store on a sequence of words. */
  function Put(s: seq<u32>, i: nat, v: u32): (r: seq<u32>)
    requires i < |s|
    ensures |r| == |s|
  {
    s[i := v]
  }

  /** The RAMFC image: the words chan_init_ib stores, in its order, over a zeroed block `z`. */
  function RamfcImage(z: seq<u32>, fifoRegs: bv64, ibStart: bv64, ibOrder: bv32, slimask: bv32): (img: seq<u32>)
    requires |z| >= RAMFC_WORDS
    ensures |img| == |z|
  {
    var w0 := Put(z, 2, U32(Lo(fifoRegs)));
    var w1 := Put(w0, 3, U32(Hi(fifoRegs)));
    var w2 := Put(w1, 18, U32(Lo(ibStart)));
    var w3 := Put(w2, 19, U32(IbHighWord(ibStart, ibOrder)));
    var w4 := Put(w3, 4, 0xface);
    var w5 := Put(w4, 21, 2);
    var w6 := Put(w5, 39, 0x100);
    var w7 := Put(w6, 33, 0x2040_0000);
    var w8 := Put(w7, 37, U32(0x3000_0000 ^ slimask));
    var w9 := Put(w8, 41, 0x1f1f_1f1f);
    var w10 := Put(w9, 42, 0x1f1f_1f1f);
    var w11 := Put(w10, 43, 0x1f);
    var w12 := Put(w11, 12, 0xffff_f902);
    var w13 := Put(w12, 62, 0x1000_3080);
    Put(w13, 63, 0x1000_0010)
  }

  /** Over a zeroed block, the image holds RamfcWord at every word and leaves the rest of the object alone. */
  lemma RamfcImageSpec(z: seq<u32>, fifoRegs: bv64, ibStart: bv64, ibOrder: bv32, slimask: bv32)
    requires |z| >= RAMFC_WORDS && forall k :: 0 <= k < RAMFC_WORDS ==> z[k] == 0
    ensures forall k :: 0 <= k < RAMFC_WORDS ==>
      RamfcImage(z, fifoRegs, ibStart, ibOrder, slimask)[k] == RamfcWord(4 * k, fifoRegs, ibStart, ibOrder, slimask)
    ensures RamfcImage(z, fifoRegs, ibStart, ibOrder, slimask)[RAMFC_WORDS..] == z[RAMFC_WORDS..]
  {
  }

  /** The loop nv_wv32(bo, i, 0) for i = 0, 4, ..., 0xfc: the 0x40 RAMFC words become 0. */
  method ZeroRamfc(bo: array<u32>)
    requires bo.Length >= RAMFC_WORDS
    modifies bo
    ensures forall k :: 0 <= k < RAMFC_WORDS ==> bo[k] == 0
    ensures bo[RAMFC_WORDS..] == old(bo[RAMFC_WORDS..])
  {
    var i := 0;
    while i < 0x100
      invariant 0 <= i <= 0x100 && i % 4 == 0
      invariant forall k :: 0 <= k < i / 4 ==> bo[k] == 0
      invariant bo[RAMFC_WORDS..] == old(bo[RAMFC_WORDS..])
    {
      bo[i / 4] := 0;
      i := i + 4;
    }
  }

  /**
   * chan_init_ib's RAMFC writes on the channel object `bo`: the first 0x100
   * bytes zeroed, then the set-up words stored.
   */
  method SetupRamfc(bo: array<u32>, fifoRegs: bv64, ibStart: bv64, ibOrder: bv32, slimask: bv32)
    requires bo.Length >= RAMFC_WORDS
    modifies bo
    ensures forall k :: 0 <= k < RAMFC_WORDS ==> bo[k] == RamfcWord(4 * k, fifoRegs, ibStart, ibOrder, slimask)
    ensures bo[RAMFC_WORDS..] == old(bo[RAMFC_WORDS..])
  {
    ZeroRamfc(bo);
    ghost var z := bo[..];
    Wv32(bo, 0x08, U32(Lo(fifoRegs)));
    Wv32(bo, 0x0c, U32(Hi(fifoRegs)));
    Wv32(bo, 0x48, U32(Lo(ibStart)));
    Wv32(bo, 0x4c, U32(IbHighWord(ibStart, ibOrder)));
    Wv32(bo, 0x10, 0xface);
    Wv32(bo, 0x54, 0x2);
    Wv32(bo, 0x9c, 0x100);
    Wv32(bo, 0x84, 0x2040_0000);
    Wv32(bo, 0x94, U32(0x3000_0000 ^ slimask));
    Wv32(bo, 0xa4, 0x1f1f_1f1f);
    Wv32(bo, 0xa8, 0x1f1f_1f1f);
    Wv32(bo, 0xac, 0x1f);
    Wv32(bo, 0x30, 0xffff_f902);
    Wv32(bo, 0xf8, 0x1000_3080);
    Wv32(bo, 0xfc, 0x1000_0010);
    assert bo[..] == RamfcImage(z, fifoRegs, ibStart, ibOrder, slimask);
    RamfcImageSpec(z, fifoRegs, ibStart, ibOrder, slimask);
  }

  /** Storing the entry (c, 0x4) just past the entries of `cids` lists c after them and leaves the later words alone. */
  lemma EntryStep(buf: seq<u32>, cids: seq<nat>, c: u32)
    requires Lists(buf, cids) && 2 * |cids| + 2 <= |buf|
    ensures var b := Put(Put(buf, 2 * |cids|, c), 2 * |cids| + 1, 4);
      Lists(b, cids + [c]) && forall k :: 2 * |cids| + 2 <= k < |buf| ==> b[k] == buf[k]
  {
  }

  lemma EightDiv(n: nat)
    ensures (8 * n) / 8 == n && (8 * n) / 4 == 2 * n && (8 * n + 4) / 4 == 2 * n + 1
  {
  }

  /**
   * The two stores of one playlist entry, nv_wv32(vo, pos, cid) and
   * nv_wv32(vo, pos + 4, 0x4), just past the entries already written.
   */
  method StoreEntry(vo: array<u32>, pos: nat, cid: u32, ghost cids: seq<nat>, ghost orig: seq<u32>)
    requires pos == 8 * |cids| && 2 * |cids| + 2 <= vo.Length == |orig|
    requires Lists(vo[..], cids)
    requires forall k :: 2 * |cids| <= k < vo.Length ==> vo[k] == orig[k]
    modifies vo
    ensures Lists(vo[..], cids + [cid])
    ensures forall k :: 2 * |cids| + 2 <= k < vo.Length ==> vo[k] == orig[k]
  {
    EightDiv(|cids|);
    ghost var before := vo[..];
    Wv32(vo, pos, cid);
    Wv32(vo, pos + 4, 4);
    EntryStep(before, cids, cid);
  }

  /**
   * The loop of nvc0_fifo_playlist_update: an entry (cid, 0x4) at byte
   * `pos` of `vo` for each channel whose status word has the enabled bit,
   * in cid order; `pos` ends at 8 bytes per entry and the words past the
   * entries keep their contents.
   */
  method FillPlaylist(vo: array<u32>, status: seq<bv32>) returns (pos: nat)
    requires vo.Length == PLAYLIST_WORDS && |status| == CHANNELS
    modifies vo
    ensures pos == 8 * |EnabledChannels(status)| && pos / 8 == |EnabledChannels(status)| <= CHANNELS
    ensures Lists(vo[..], EnabledChannels(status))
    ensures forall k :: 2 * |EnabledChannels(status)| <= k < vo.Length ==> vo[k] == old(vo[k])
  {
    ghost var orig := vo[..];
    var i: nat := 0;
    pos := 0;
    while i < CHANNELS
      invariant i <= CHANNELS
      invariant pos == 8 * |EnabledBelow(status, i)|
      invariant Lists(vo[..], EnabledBelow(status, i))
      invariant forall k :: 2 * |EnabledBelow(status, i)| <= k < vo.Length ==> vo[k] == orig[k]
    {
      if status[i] & 1 != 0 {
        StoreEntry(vo, pos, i, EnabledBelow(status, i), orig);
        assert EnabledBelow(status, i + 1) == EnabledBelow(status, i) + [i];
        pos := pos + 8;
      } else {
        assert EnabledBelow(status, i + 1) == EnabledBelow(status, i);
      }
      i := i + 1;
    }
    EightDiv(|EnabledChannels(status)|);
  }

  /**
   * The PFIFO state nvc0_fifo.c reads and writes: the channels' instance
   * and status registers (0x3000 and 0x3004 + cid * 8), the two playlist
   * buffers with their VRAM addresses and which one is current, the
   * playlist address and count registers (0x2270, 0x2274), the kill
   * register 0x2634, and the control area with its address.
   */
  class Pfifo {
    var inst: seq<bv32>
    var status: seq<bv32>
    var cur: nat
    const playlist0: array<u32>
    const playlist1: array<u32>
    const start0: bv64
    const start1: bv64
    var listAddr: bv32
    var listCount: bv32
    var killed: u32
    const ctrlStart: bv64
    const ctl: array<u32>

    ghost predicate Valid()
      reads this
    {
      |inst| == CHANNELS && |status| == CHANNELS && cur < 2 &&
      playlist0.Length == PLAYLIST_WORDS && playlist1.Length == PLAYLIST_WORDS && playlist0 != playlist1 &&
      ctl.Length == CHANNELS * CTL_PAGE_WORDS
    }

    /** The playlist buffer the hardware was last pointed at. */
    function Current(): array<u32>
      reads this
    {
      if cur == 0 then playlist0 else playlist1
    }

    /** The other buffer, which the next update fills. */
    function Other(): array<u32>
      reads this
    {
      if cur == 0 then playlist1 else playlist0
    }

    /** The channels the hardware schedules: the enabled ones, in cid order. */
    ghost function Listed(): seq<nat>
      reads this
      requires Valid()
    {
      EnabledChannels(status)
    }

    /**
     * The hardware is pointed at the current buffer, which lists exactly
     * the enabled channels, and the count register holds their number.
     */
    ghost predicate Scheduled()
      reads this, Current()
    {
      Valid() && Lists(Current()[..], Listed()) &&
      listCount == CountWord(|Listed()|) &&
      listAddr == ListAddr(if cur == 0 then start0 else start1)
    }

    /**
     * nvc0_fifo_init's allocation: fresh zeroed playlists and control area
     * at the given VRAM addresses, playlist 0 current, and the channel
     * registers as they read.
     */
    constructor(inst: seq<bv32>, status: seq<bv32>, ctrlStart: bv64, start0: bv64, start1: bv64)
      requires |inst| == CHANNELS && |status| == CHANNELS
      ensures Valid() && fresh(playlist0) && fresh(playlist1) && fresh(ctl)
      ensures this.inst == inst && this.status == status && cur == 0
      ensures this.ctrlStart == ctrlStart && this.start0 == start0 && this.start1 == start1
    {
      this.inst := inst;
      this.status := status;
      cur := 0;
      playlist0 := new u32[PLAYLIST_WORDS](_ => 0);
      playlist1 := new u32[PLAYLIST_WORDS](_ => 0);
      this.start0 := start0;
      this.start1 := start1;
      listAddr := 0;
      listCount := 0;
      killed := 0;
      this.ctrlStart := ctrlStart;
      ctl := new u32[CHANNELS * CTL_PAGE_WORDS](_ => 0);
    }

    /**
     * nvc0_fifo_playlist_update: switch to the other buffer, write an
     * entry (cid, 0x4) for each enabled channel in cid order, and point
     * the hardware at it. The words past the entries and the other
     * buffer are left as they were.
     */
    method PlaylistUpdate()
      requires Valid()
      modifies this, playlist0, playlist1
      ensures Valid() && Scheduled()
      ensures cur == 1 - old(cur)
      ensures inst == old(inst) && status == old(status) && killed == old(killed)
      ensures forall k :: 2 * |Listed()| <= k < PLAYLIST_WORDS ==> Current()[k] == old(Other()[k])
      ensures Other()[..] == old(Current()[..])
    {
      cur := 1 - cur;
      var pos;
      if cur == 0 {
        pos := FillPlaylist(playlist0, status);
        listAddr := ListAddr(start0);
      } else {
        pos := FillPlaylist(playlist1, status);
        listAddr := ListAddr(start1);
      }
      listCount := CountWord(pos / 8);
    }

    /**
     * nvc0_fifo_chan_kill: clear the channel's enabled bit, write its id
     * to the kill register, and rebuild the playlist, which then no
     * longer lists it.
     */
    method ChanKill(cid: nat)
      requires Valid() && cid < CHANNELS
      modifies this, playlist0, playlist1
      ensures Valid() && Scheduled()
      ensures status == old(status)[cid := Disable(old(status)[cid])]
      ensures inst == old(inst) && killed == cid && cur == 1 - old(cur)
      ensures cid !in Listed()
      ensures forall c :: c != cid ==> (c in Listed() <==> c in EnabledChannels(old(status)))
    {
      var s := status[cid];
      status := status[cid := Disable(s)];
      killed := cid;
      PlaylistUpdate();
      KillDelists(old(status), cid);
    }

    /** nvchan_wr32: store `val` at byte `ofst` of channel cid's control page. */
    method ChanWr32(cid: nat, ofst: nat, val: u32)
      requires Valid() && cid < CHANNELS && ofst % 4 == 0 && ofst < 0x1000
      modifies ctl
      ensures ctl[..] == Put(old(ctl[..]), cid * CTL_PAGE_WORDS + ofst / 4, val)
    {
      CtlIndex(cid, ofst);
      ctl[(cid * 0x1000 + ofst) / 4] := val;
    }

    /** `for (i = lo; i <= hi; i += 4) nvchan_wr32(ch, i, 0)`: the words lo..hi of the page zeroed. */
    method ClearCtlRange(cid: nat, lo: nat, hi: nat)
      requires Valid() && cid < CHANNELS && lo % 4 == 0 && lo <= hi < 0x1000 - 4
      modifies ctl
      ensures forall w :: 0 <= w < ctl.Length ==>
        ctl[w] == if cid * CTL_PAGE_WORDS <= w && lo <= 4 * (w - cid * CTL_PAGE_WORDS) <= hi then 0 else old(ctl[w])
    {
      var i := lo;
      while i <= hi
        invariant lo <= i <= hi + 4 && i % 4 == 0
        invariant forall w :: 0 <= w < ctl.Length ==>
          ctl[w] == if cid * CTL_PAGE_WORDS <= w && lo <= 4 * (w - cid * CTL_PAGE_WORDS) < i then 0 else old(ctl[w])
      {
        ChanWr32(cid, i, 0);
        i := i + 4;
      }
    }

    /**
     * chan_init_ib's writes to the control area: words 0x40..0x50,
     * 0x58..0x60, 0x88 and 0x8c of the channel's page zeroed.
     */
    method ClearCtl(cid: nat)
      requires Valid() && cid < CHANNELS
      modifies ctl
      ensures forall w :: 0 <= w < ctl.Length ==> ctl[w] == if CtlCleared(cid, w) then 0 else old(ctl[w])
    {
      ClearCtlRange(cid, 0x40, 0x50);
      ClearCtlRange(cid, 0x58, 0x60);
      ChanWr32(cid, 0x88, 0);
      ChanWr32(cid, 0x8c, 0);
    }

    /**
     * nvc0_fifo_chan_init_ib: an ib_order above 29 is refused with -EINVAL
     * before anything is written. Otherwise the channel's control words are
     * cleared, its RAMFC in `bo` is set up, its instance register points
     * at `bo` and its status enables it, and the playlist is rebuilt, so
     * it is scheduled. (pb_handle and flags are unused.)
     */
    method ChanInitIb(cid: nat, bo: array<u32>, boStart: bv64, slimask: bv32, ibStart: bv64, ibOrder: bv32) returns (r: int)
      requires Valid() && cid < CHANNELS && bo.Length >= RAMFC_WORDS && bo != ctl && bo != playlist0 && bo != playlist1
      modifies this, playlist0, playlist1, ctl, bo
      ensures Valid()
      ensures ibOrder > 29 ==> r == -EINVAL && unchanged(this, playlist0, playlist1, ctl, bo)
      ensures ibOrder <= 29 ==> r == 0 && Scheduled() && cid in Listed()
      ensures ibOrder <= 29 ==> status == old(status)[cid := 0x1f_0001] && inst == old(inst)[cid := InstWord(boStart)]
      ensures ibOrder <= 29 ==> forall k :: 0 <= k < RAMFC_WORDS ==>
        bo[k] == RamfcWord(4 * k, FifoRegs(ctrlStart, cid), ibStart, ibOrder, slimask)
      ensures ibOrder <= 29 ==> forall w :: 0 <= w < ctl.Length ==>
        ctl[w] == if CtlCleared(cid, w) then 0 else old(ctl[w])
      ensures ibOrder <= 29 ==> bo[RAMFC_WORDS..] == old(bo[RAMFC_WORDS..])
      ensures ibOrder <= 29 ==> killed == old(killed) && cur == 1 - old(cur) && Other()[..] == old(Current()[..])
    {
      var fifoRegs := FifoRegs(ctrlStart, cid);
      if ibOrder > 29 {
        return -EINVAL;
      }
      ClearCtl(cid);
      SetupRamfc(bo, fifoRegs, ibStart, ibOrder, slimask);
      inst := inst[cid := 0xc000_0000 | Lo(boStart >> 12)];
      status := status[cid := 0x1f_0001];
      PlaylistUpdate();
      InitEnables(old(status), cid);
      return 0;
    }
  }
}
