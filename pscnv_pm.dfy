/**
 * pscnv's own power management (pscnv/pscnv_pm.c): clock readings in MHz,
 * reprogramming a PLL's multiplier for a wanted clock, the PM-mode listing
 * and the PM-mode switch driven through sysfs.
 */
module PscnvPm {
  import opened Common
  import opened Pll
  import opened VbiosPm

  /** The register pairs (reg0, reg1) of the PLLs the driver reads and reprograms. */
  const CORE_PLL: (int, int) := (0x4028, 0x402c)
  const SHADER_PLL: (int, int) := (0x4020, 0x4024)
  const MEMORY_PLL: (int, int) := (0x4008, 0x400c)

  /** pscnv_calculate_frequency: the PLL frequency of Pll.Frequency, in units of 1000 (MHz). */
  function CalculateFrequency(refclk: u32, reg0: u32, reg1: u32): (r: nat)
    requires ParseClockRegs(reg0, reg1).m != 0
    ensures r * 1000 <= Frequency(refclk, reg0, reg1) < (r + 1) * 1000
  {
    DivBounds(Frequency(refclk, reg0, reg1), 1000);
    Frequency(refclk, reg0, reg1) / 1000
  }

  /** `(wanted * 1000) << p` in uint32_t arithmetic. */
  function Shifted(wanted: u32, p: nat): u32
  {
    ((wanted * 1000) % TWO_32) * Pow2(p) % TWO_32
  }

  /**
   * The multiplier pscnv_pm_clock_to computes: the shifted wanted clock
   * divided by refclk / m, rounded down; refclk / m == 0 is a division by
   * zero the driver does not guard against.
   */
  function ClockN(wanted: u32, refclk: u32, c: Coefs): (n: u32)
    requires c.m > 0 && refclk / c.m > 0 && c.p >= 0
    ensures n * (refclk / c.m) <= Shifted(wanted, c.p) < (n + 1) * (refclk / c.m)
  {
    var s := Shifted(wanted, c.p);
    DivBounds(s, refclk / c.m);
    s / (refclk / c.m)
  }

  /** The new reg1: bits 8..15 replaced by `n << 8`, in 32 bits. */
  function NewReg1(reg1: bv32, n: bv32): bv32
  {
    (reg1 & 0xffff_00ff) | (n << 8)
  }

  /**
   * For a multiplier that fits its byte, the new reg1 keeps every bit
   * outside 8..15, and its n field, read as the parse reads it, is `n`.
   */
  lemma NewReg1Fields(reg1: bv32, n: bv32)
    requires n < 256
    ensures NewReg1(reg1, n) & 0xffff_00ff == reg1 & 0xffff_00ff
    ensures (NewReg1(reg1, n) & 0xff00) >> 8 == n
  {
  }

  /** m, bits 0..7, survives whatever the multiplier. */
  lemma NewReg1KeepsM(reg1: bv32, n: bv32)
    ensures NewReg1(reg1, n) & 0xff == reg1 & 0xff
  {
  }

  /** A multiplier of 256 or more is not masked and spills into the bits above 15. */
  lemma NewReg1Spills()
    ensures NewReg1(0, 0x100) == 0x1_0000
  {
  }

  /** The reg1 value as the uint32_t the parse and frequency functions take. */
  function Word(x: bv32): (r: u32)
  {
    x as int
  }

  /** A PLL pair whose registers and reference clock are known and whose m is not 0: its clock can be read. */
  ghost predicate Readable(regs: map<int, bv32>, refclks: map<int, u32>, pll: (int, int))
  {
    pll.0 in regs && pll.1 in regs && pll.0 in refclks &&
    ParseClockRegs(Word(regs[pll.0]), Word(regs[pll.1])).m > 0
  }

  /** A PLL pair whose registers and reference clock are known and whose refclk / m is not 0. */
  ghost predicate Ready(regs: map<int, bv32>, refclks: map<int, u32>, pll: (int, int))
  {
    pll.0 in regs && pll.1 in regs && pll.0 in refclks &&
    var c := ParseClockRegs(Word(regs[pll.0]), Word(regs[pll.1]));
    c.m > 0 && refclks[pll.0] / c.m > 0
  }

  /**
   * The registers after pscnv_pm_clock_to(pll, wanted): reg1 gets the
   * recomputed multiplier. The closeness check on the result only logs,
   * so it changes nothing.
   */
  function Reprogram(regs: map<int, bv32>, refclks: map<int, u32>, pll: (int, int), wanted: u32): (r: map<int, bv32>)
    requires Ready(regs, refclks, pll)
    ensures r.Keys == regs.Keys
    ensures forall a :: a in regs && a != pll.1 ==> r[a] == regs[a]
  {
    var c := ParseClockRegs(Word(regs[pll.0]), Word(regs[pll.1]));
    var n := ClockN(wanted, refclks[pll.0], c);
    regs[pll.1 := NewReg1(regs[pll.1], n as bv32)]
  }

  /** Whatever the multiplier, reprogramming keeps m, bits 0..7 of reg1. */
  lemma ReprogramKeepsM(regs: map<int, bv32>, refclks: map<int, u32>, pll: (int, int), wanted: u32)
    requires Ready(regs, refclks, pll)
    ensures Reprogram(regs, refclks, pll, wanted)[pll.1] & 0xff == regs[pll.1] & 0xff
  {
    ReprogramReg1(regs, refclks, pll, wanted);
    var n := ClockN(wanted, refclks[pll.0], ParseClockRegs(Word(regs[pll.0]), Word(regs[pll.1])));
    var x, a, b := Reprogram(regs, refclks, pll, wanted)[pll.1], regs[pll.1], n as bv32;
    NewReg1KeepsM(a, b);
  }

  /** reg1 went from `before` to `after` with only its n field, now `n`, changed. */
  predicate NSet(before: bv32, after: bv32, n: bv32)
  {
    after & 0xffff_00ff == before & 0xffff_00ff && (after & 0xff00) >> 8 == n
  }

  /**
   * When the recomputed multiplier fits its byte, reprogramming keeps every
   * bit of reg1 outside 8..15 and its n field then holds the multiplier.
   */
  lemma ReprogramSetsN(regs: map<int, bv32>, refclks: map<int, u32>, pll: (int, int), wanted: u32, n: u32)
    requires Ready(regs, refclks, pll) && n < 256
    requires n == ClockN(wanted, refclks[pll.0], ParseClockRegs(Word(regs[pll.0]), Word(regs[pll.1])))
    ensures NSet(regs[pll.1], Reprogram(regs, refclks, pll, wanted)[pll.1], n as bv32)
  {
    ReprogramReg1(regs, refclks, pll, wanted);
    ByteWord(n);
    NewReg1Read(regs[pll.1], n as bv32, Reprogram(regs, refclks, pll, wanted)[pll.1]);
  }

  /** The new reg1 is NewReg1 of the old one with multiplier n. */
  lemma ReprogramReg1(regs: map<int, bv32>, refclks: map<int, u32>, pll: (int, int), wanted: u32)
    requires Ready(regs, refclks, pll)
    ensures var n := ClockN(wanted, refclks[pll.0], ParseClockRegs(Word(regs[pll.0]), Word(regs[pll.1])));
      Reprogram(regs, refclks, pll, wanted)[pll.1] == NewReg1(regs[pll.1], n as bv32)
  {
  }

  /** A value below 256 stays below 256 as a 32-bit word. */
  lemma ByteWord(n: u32)
    requires n < 256
    ensures n as bv32 < 256
  {
  }

  /** NewReg1Fields, for a register value known to be the new reg1. */
  lemma NewReg1Read(reg1: bv32, n: bv32, x: bv32)
    requires n < 256 && x == NewReg1(reg1, n)
    ensures NSet(reg1, x, n)
  {
    NewReg1Fields(reg1, n);
  }


  /** pscnv_set_pm_mode's guard as written: the signed `buf[0] - '0'` below the count. */
  predicate ModeGuardAsWritten(buf0: int, count: nat)
  {
    buf0 - '0' as int < count
  }

  /** The evidently intended guard: a digit naming one of the modes. */
  predicate ModeGuard(buf0: int, count: nat)
  {
    0 <= buf0 - '0' as int < count
  }

  /** The character code of the decimal digit (or digit-like value) i. */
  function Digit(i: int): int
  {
    '0' as int + i
  }

  /** The intended guard admits exactly the valid mode indexes, and the guard as written admits them too. */
  lemma ModeGuardSpec(buf0: int, count: nat)
    ensures ModeGuard(buf0, count) <==> exists i :: 0 <= i < count && Digit(i) == buf0
    ensures ModeGuard(buf0, count) ==> ModeGuardAsWritten(buf0, count)
  {
    if ModeGuard(buf0, count) {
      var i := buf0 - '0' as int;
      assert 0 <= i < count && Digit(i) == buf0;
    }
  }

  /** Writing " " selects profile -16, which the guard as written lets through. */
  lemma ModeGuardCounterexample()
    ensures ModeGuardAsWritten(' ' as int, 3)
    ensures !ModeGuard(' ' as int, 3)
    ensures ' ' as int - '0' as int == -16
  {
  }

  /** One line of the PM-mode listing: the marker and the fields it prints. */
  datatype ModeLine = ModeLine(current: bool, id: nat, coreclk: int, shaderclk: int, memclk: int, mV: int)

  /**
   * pscnv_pm_mode_to_string's marker as written: the mode's coreclk, which
   * the VBIOS parser stores in kHz, against the core clock in MHz.
   */
  predicate IsCurrentAsWritten(coreclk: int, curMHz: nat)
  {
    coreclk == curMHz
  }

  /** The evidently intended marker: the mode's clock in MHz is the core clock. */
  predicate IsCurrent(coreclk: int, curMHz: nat)
  {
    coreclk / 1000 == curMHz
  }

  /** A 500 MHz mode (500000 kHz) while the core runs at 500 MHz is not marked as written. */
  lemma IsCurrentCounterexample()
    ensures !IsCurrentAsWritten(500000, 500)
    ensures IsCurrent(500000, 500)
  {
  }

  /**
   * A mode stored in kHz (a whole number of MHz) is marked as written only
   * when the core clock reads 1000 MHz or more.
   */
  lemma IsCurrentAsWrittenRare(mhz: nat, curMHz: nat)
    requires IsCurrentAsWritten(mhz * 1000, curMHz)
    ensures mhz == 0 || curMHz >= 1000
  {
  }

  /**
   * The state pscnv_pm.c reads and writes: the PLL registers, the reference
   * clocks the VBIOS PLL limits give for them, and the parsed PM modes.
   */
  class Device {
    var regs: map<int, bv32>
    const refclks: map<int, u32>
    const modes: seq<PmMode>

    constructor(regs: map<int, bv32>, refclks: map<int, u32>, modes: seq<PmMode>)
      ensures this.regs == regs && this.refclks == refclks && this.modes == modes
    {
      this.regs := regs;
      this.refclks := refclks;
      this.modes := modes;
    }

    /** pscnv_get_core_clocks and friends: the clock of `pll` in MHz. */
    function ClockOf(pll: (int, int)): (r: nat)
      reads this
      requires Readable(regs, refclks, pll)
      ensures r * 1000 <= Frequency(refclks[pll.0], Word(regs[pll.0]), Word(regs[pll.1])) < (r + 1) * 1000
    {
      CalculateFrequency(refclks[pll.0], Word(regs[pll.0]), Word(regs[pll.1]))
    }

    /**
     * pscnv_pm_mode_to_string: nothing for an id at or past the mode count;
     * otherwise mode `id`, marked (with the intended test) when it runs at
     * the current core clock.
     */
    function PmModeToString(id: nat): (r: Option<ModeLine>)
      reads this
      requires id < |modes| ==> Readable(regs, refclks, CORE_PLL)
      ensures r.None? <==> id >= |modes|
      ensures r.Some? ==> r.value.id == id && r.value.coreclk == modes[id].coreclk
      ensures r.Some? ==> (r.value.current <==> IsCurrent(modes[id].coreclk, ClockOf(CORE_PLL)))
    {
      if id >= |modes| then None
      else
        var m := modes[id];
        Some(ModeLine(IsCurrent(m.coreclk, ClockOf(CORE_PLL)), id, m.coreclk, m.shaderclk, m.memclk, m.voltage * 10))
    }

    /**
     * pscnv_pm_clock_to: recompute the multiplier of `pll` for `wanted` MHz
     * and write the new reg1; always 0.
     */
    method ClockTo(pll: (int, int), wanted: u32) returns (ret: u32)
      requires Ready(regs, refclks, pll)
      modifies this
      ensures ret == 0
      ensures regs == Reprogram(old(regs), refclks, pll, wanted)
    {
      var reg0 := regs[pll.0];
      var reg1 := regs[pll.1];
      var refclk := refclks[pll.0];
      var c := ParseClockRegs(Word(reg0), Word(reg1));
      var n := ClockN(wanted, refclk, c);
      reg1 := (reg1 & 0xffff_00ff) | ((n as bv32) << 8);
      regs := regs[pll.1 := reg1];
      return 0;
    }

    /**
     * pscnv_set_pm_mode with the first byte `buf0` of the written text: a
     * digit naming a mode reprograms the core, shader and memory PLLs to
     * its clocks; the byte count is returned either way.
     */
    method SetPmMode(buf0: int, count: nat) returns (r: nat)
      requires ModeGuard(buf0, |modes|) ==>
        var m := modes[buf0 - '0' as int];
        0 <= m.coreclk < TWO_32 && 0 <= m.shaderclk < TWO_32 && 0 <= m.memclk < TWO_32
      requires ModeGuard(buf0, |modes|) ==>
        Ready(regs, refclks, CORE_PLL) && Ready(regs, refclks, SHADER_PLL) && Ready(regs, refclks, MEMORY_PLL)
      modifies this
      ensures r == count
      ensures !ModeGuard(buf0, |modes|) ==> regs == old(regs)
      ensures ModeGuard(buf0, |modes|) ==>
        var m := modes[buf0 - '0' as int];
        var r1 := Reprogram(old(regs), refclks, CORE_PLL, m.coreclk);
        var r2 := Reprogram(r1, refclks, SHADER_PLL, m.shaderclk);
        regs == Reprogram(r2, refclks, MEMORY_PLL, m.memclk)
    {
      var profile := buf0 - '0' as int;
      if 0 <= profile < |modes| {
        var m := modes[profile];
        var _ := ClockTo(CORE_PLL, m.coreclk);
        var _ := ClockTo(SHADER_PLL, m.shaderclk);
        var _ := ClockTo(MEMORY_PLL, m.memclk);
      }
      return count;
    }
  }
}
