/**
 * Voltage control, temperature limits and status lines of nouveau's power
 * management (pscnv/nouveau_pm.c). The PLL arithmetic it shares with
 * pscnv_pm.c is module Pll; the tables it reads are those of VbiosPm.
 */
module NouveauPm {
  import opened Common
  import opened VbiosPm

  /** -EINVAL returned through a uint32_t. */
  const EINVAL_U32: u32 := TWO_32 - EINVAL

  /** The bits of register 0xe104 that a voltage write keeps. */
  const VOLT_KEEP: bv32 := 0x666f_ffff

  // Voltage-ID encoding

  /**
   * The VID of register 0xe104 as nouveau_get_voltage reads it: the bits
   * outside VOLT_KEEP, shifted down by 20, must be one of the eight codes
   * 0x000, 0x001, 0x010, ..., 0x111, which stand for 0..7; anything else is
   * the unknown index 0xfe.
   */
  function VidDecode(reg: bv32): (index: u8)
    ensures index < 8 || index == 0xfe
  {
    var code := (reg & !VOLT_KEEP) >> 20;
    if code == 0x000 then 0
    else if code == 0x001 then 1
    else if code == 0x010 then 2
    else if code == 0x011 then 3
    else if code == 0x100 then 4
    else if code == 0x101 then 5
    else if code == 0x110 then 6
    else if code == 0x111 then 7
    else 0xfe
  }

  /** The code nouveau_set_voltage writes for VID `k`; None is its -EINVAL default case. */
  function VidCode(k: int): (code: Option<bv32>)
    ensures code.Some? <==> 0 <= k < 8
  {
    if k == 0 then Some(0x000)
    else if k == 1 then Some(0x001)
    else if k == 2 then Some(0x010)
    else if k == 3 then Some(0x011)
    else if k == 4 then Some(0x100)
    else if k == 5 then Some(0x101)
    else if k == 6 then Some(0x110)
    else if k == 7 then Some(0x111)
    else None
  }

  /** The read-modify-write of register 0xe104: keep VOLT_KEEP, put the code at bit 20. */
  function VidWrite(reg: bv32, code: bv32): bv32
  {
    (reg & VOLT_KEEP) | (code << 20)
  }

  /** Writing VID k and reading the register back gives k. */
  lemma VidRoundTrip(reg: bv32, k: int)
    requires 0 <= k < 8
    ensures VidDecode(VidWrite(reg, VidCode(k).value)) == k
  {
    var code := VidCode(k).value;
    assert (VidWrite(reg, code) & !VOLT_KEEP) >> 20 == code;
  }

  /** A voltage write leaves every bit of VOLT_KEEP as it was. */
  lemma VidWriteKeeps(reg: bv32, k: int)
    requires 0 <= k < 8
    ensures VidWrite(reg, VidCode(k).value) & VOLT_KEEP == reg & VOLT_KEEP
  {
  }

  /** A register whose VID field holds `code` is rebuilt exactly by writing `code` back. */
  lemma FieldRestore(reg: bv32, code: bv32)
    requires (reg & !VOLT_KEEP) >> 20 == code
    ensures VidWrite(reg, code) == reg
  {
  }

  /** Rewriting the VID the register already holds leaves the register as it was. */
  lemma VidWriteCurrent(reg: bv32)
    requires VidDecode(reg) < 8
    ensures VidWrite(reg, VidCode(VidDecode(reg)).value) == reg
  {
    FieldRestore(reg, (reg & !VOLT_KEEP) >> 20);
  }

  // Voltage table lookups

  /** The field a lookup compares: the VID (byIndex) or the voltage. */
  function Key(e: VoltageEntry, byIndex: bool): int
  {
    if byIndex then e.index else e.voltage
  }

  /** The position of the first entry whose key is `want`, as the driver's loops find it. */
  function First(vs: seq<VoltageEntry>, byIndex: bool, want: int): (r: Option<nat>)
    ensures r.Some? ==> r.value < |vs| && Key(vs[r.value], byIndex) == want
    ensures r.Some? ==> forall j :: 0 <= j < r.value ==> Key(vs[j], byIndex) != want
    ensures r.None? <==> forall j :: 0 <= j < |vs| ==> Key(vs[j], byIndex) != want
    decreases |vs|
  {
    if vs == [] then None
    else if Key(vs[0], byIndex) == want then Some(0)
    else match First(vs[1..], byIndex, want)
      case None => None
      case Some(i) => assert vs[i + 1] == vs[1..][i]; Some(i + 1)
  }

  /** `index & voltage_mask` on two bytes. */
  function And8(a: u8, b: u8): u8
  {
    ((a as bv8) & (b as bv8)) as int
  }

  /**
   * nouveau_get_voltage: before NV50 -EINVAL; otherwise the voltage of the
   * first table entry whose VID is the one register 0xe104 holds, or
   * -EINVAL when no entry has it. Voltages are in units of 10 mV.
   */
  function CurrentVoltage(chipset: int, vs: seq<VoltageEntry>, reg: bv32): (r: u32)
    ensures chipset < 0x50 ==> r == EINVAL_U32
    ensures r != EINVAL_U32 ==>
      exists i :: 0 <= i < |vs| && vs[i].voltage == r && vs[i].index == VidDecode(reg) &&
        forall j :: 0 <= j < i ==> vs[j].index != VidDecode(reg)
    ensures chipset >= 0x50 && (exists i :: 0 <= i < |vs| && vs[i].index == VidDecode(reg)) ==> r != EINVAL_U32
  {
    if chipset < 0x50 then EINVAL_U32
    else match First(vs, true, VidDecode(reg))
      case Some(i) => vs[i].voltage
      case None => EINVAL_U32
  }

  /**
   * nouveau_set_voltage as a return value and the new register 0xe104.
   * Before NV50 -EINVAL; voltage 0, or the voltage already set, returns 0
   * without a write; otherwise the first entry with that voltage gives the
   * VID index & voltage_mask, which must be 0..7, else -EINVAL; no entry
   * is -EINVAL too.
   */
  function SetVoltageEffect(chipset: int, vs: seq<VoltageEntry>, mask: u8, reg: bv32, voltage: u8): (r: (u32, bv32))
    ensures r.0 == 0 || r.0 == EINVAL_U32
    ensures r.1 != reg ==> r.0 == 0
    ensures r.1 == reg || exists k :: 0 <= k < 8 && r.1 == VidWrite(reg, VidCode(k).value)
    ensures (chipset < 0x50 ||
             (voltage != 0 && CurrentVoltage(chipset, vs, reg) != voltage && First(vs, false, voltage).None?)) ==>
            r == (EINVAL_U32, reg)
    // voltage 0, or the voltage already set, is accepted without a write
    ensures chipset >= 0x50 && (voltage == 0 || CurrentVoltage(chipset, vs, reg) == voltage) ==> r == (0, reg)
    // otherwise the first entry with that voltage decides: its index & voltage_mask is written, or -EINVAL past 7
    ensures chipset >= 0x50 && voltage != 0 && CurrentVoltage(chipset, vs, reg) != voltage ==>
      forall i :: 0 <= i < |vs| && vs[i].voltage == voltage && (forall j :: 0 <= j < i ==> vs[j].voltage != voltage) ==>
        r == if And8(vs[i].index, mask) < 8 then (0, VidWrite(reg, VidCode(And8(vs[i].index, mask)).value)) else (EINVAL_U32, reg)
  {
    if chipset < 0x50 then (EINVAL_U32, reg)
    else if voltage == 0 || CurrentVoltage(chipset, vs, reg) == voltage then (0, reg)
    else match First(vs, false, voltage)
      case None => (EINVAL_U32, reg)
      case Some(i) =>
        var k := And8(vs[i].index, mask);
        if k < 8 then
          (0, VidWrite(reg, VidCode(k).value))
        else (EINVAL_U32, reg)
  }

  /** nouveau_set_voltage changes no bit of register 0xe104 outside the VID field. */
  lemma SetVoltageKeeps(chipset: int, vs: seq<VoltageEntry>, mask: u8, reg: bv32, voltage: u8)
    ensures SetVoltageEffect(chipset, vs, mask, reg, voltage).1 & VOLT_KEEP == reg & VOLT_KEEP
  {
    var r := SetVoltageEffect(chipset, vs, mask, reg, voltage);
    if r.1 != reg {
      var k :| 0 <= k < 8 && r.1 == VidWrite(reg, VidCode(k).value);
      VidWriteKeeps(reg, k);
    }
  }

  /**
   * A voltage table the VID register can represent: every index is 0..7,
   * kept by the mask, and names one entry only.
   */
  ghost predicate WellFormedTable(vs: seq<VoltageEntry>, mask: u8)
  {
    (forall i :: 0 <= i < |vs| ==> vs[i].index < 8 && And8(vs[i].index, mask) == vs[i].index) &&
    (forall i, j :: 0 <= i < j < |vs| ==> vs[i].index != vs[j].index)
  }

  /** On NV50 and later, setting a voltage of a well-formed table and reading it back gives that voltage. */
  lemma SetThenGet(chipset: int, vs: seq<VoltageEntry>, mask: u8, reg: bv32, voltage: u8)
    requires chipset >= 0x50 && voltage != 0
    requires WellFormedTable(vs, mask)
    requires exists i :: 0 <= i < |vs| && vs[i].voltage == voltage
    ensures var r := SetVoltageEffect(chipset, vs, mask, reg, voltage);
      r.0 == 0 && CurrentVoltage(chipset, vs, r.1) == voltage
  {
    if CurrentVoltage(chipset, vs, reg) != voltage {
      var i := First(vs, false, voltage).value;
      var k := vs[i].index;
      var reg' := VidWrite(reg, VidCode(k).value);
      assert SetVoltageEffect(chipset, vs, mask, reg, voltage) == (0, reg');
      VidRoundTrip(reg, k);
      var j := First(vs, true, k).value;
      assert j == i;
    }
  }

  // Status lines

  /**
   * nouveau_is_the_current_pm_entry as written: `clock_diff` is unsigned,
   * so `clock_diff > 0 ? clock_diff : -clock_diff` never negates, and a
   * current clock above the mode's wraps to a huge difference.
   */
  function IsCurrentModeAsWritten(coreclk: u32, cur: u32): (r: bool)
    ensures cur > coreclk ==> !r
  {
    var diff := (coreclk - cur) % TWO_32;
    var absDiff := if diff > 0 then diff else (0 - diff) % TWO_32;
    absDiff < coreclk / 100
  }

  /** The evidently intended test: the current clock is within 1% of the mode's. */
  function IsCurrentMode(coreclk: u32, cur: u32): (r: bool)
    ensures r <==> (coreclk - cur < coreclk / 100 && cur - coreclk < coreclk / 100)
  {
    var d := if coreclk >= cur then coreclk - cur else cur - coreclk;
    d < coreclk / 100
  }

  /** The two agree when the current clock is at most the mode's. */
  lemma IsCurrentModeAgrees(coreclk: u32, cur: u32)
    requires cur <= coreclk
    ensures IsCurrentModeAsWritten(coreclk, cur) == IsCurrentMode(coreclk, cur)
  {
  }

  /** A 500 MHz mode while the core runs at 500.1 MHz: not marked as written, marked as intended. */
  lemma IsCurrentModeCounterexample()
    ensures !IsCurrentModeAsWritten(500000, 500100)
    ensures IsCurrentMode(500000, 500100)
  {
  }

  /** One line of the pm_status / pm_mode listing: the marker and the fields it prints. */
  datatype ModeLine = ModeLine(current: bool, id: nat, coreMHz: int, shaderMHz: int, memMHz: int, mV: int)

  /**
   * nouveau_pm_mode_to_string: nothing (length 0) for an id at or past
   * mode_info_count; else mode `id`, marked when the core clock `cur` is
   * within 1% of its own.
   */
  function PmModeToString(modes: seq<PmMode>, id: nat, cur: u32): (r: Option<ModeLine>)
    requires forall i :: 0 <= i < |modes| ==> 0 <= modes[i].coreclk < TWO_32
    ensures r.None? <==> id >= |modes|
    ensures r.Some? ==> r.value.id == id && r.value.coreMHz == modes[id].coreclk / 1000
    ensures r.Some? ==> (r.value.current <==> IsCurrentMode(modes[id].coreclk, cur))
  {
    if id >= |modes| then None
    else
      var m := modes[id];
      Some(ModeLine(IsCurrentMode(m.coreclk, cur), id, m.coreclk / 1000, m.shaderclk / 1000,
                    m.memclk / 1000, m.voltage * 10))
  }

  /** One line of the voltage listing: the marker, the id and millivolts. */
  datatype VoltageLine = VoltageLine(current: bool, id: nat, mV: int)

  /**
   * nouveau_voltage_to_string: nothing for an id at or past
   * voltage_entry_count; else entry `id`, marked when it is the voltage
   * the card runs at.
   */
  function VoltageToString(vs: seq<VoltageEntry>, id: nat, current: u32): (r: Option<VoltageLine>)
    ensures r.None? <==> id >= |vs|
    ensures r.Some? ==> r.value.id == id && r.value.mV == 10 * vs[id].voltage
    ensures r.Some? ==> (r.value.current <==> vs[id].voltage == current)
  {
    if id >= |vs| then None
    else Some(VoltageLine(vs[id].voltage == current, id, vs[id].voltage * 10))
  }

  /** When VIDs are unique, the line of the current voltage is marked. */
  lemma CurrentLineMarked(chipset: int, vs: seq<VoltageEntry>, reg: bv32, id: nat)
    requires chipset >= 0x50 && id < |vs| && vs[id].index == VidDecode(reg)
    requires forall i, j :: 0 <= i < j < |vs| ==> vs[i].index != vs[j].index
    ensures VoltageToString(vs, id, CurrentVoltage(chipset, vs, reg)).value.current
  {
    var i := First(vs, true, VidDecode(reg)).value;
    assert i == id;
  }

  /**
   * The device state nouveau_pm.c reads and writes: register 0xe104, the
   * voltage table and mask, and the temperature limits of vbios.pm.
   */
  class Device {
    const chipset: int
    var regE104: bv32
    var voltages: seq<VoltageEntry>
    var voltageMask: u8
    var temps: Temps

    constructor(chipset: int, reg: bv32, vs: seq<VoltageEntry>, mask: u8, temps: Temps)
      ensures this.chipset == chipset && regE104 == reg && voltages == vs && voltageMask == mask && this.temps == temps
    {
      this.chipset := chipset;
      regE104 := reg;
      voltages := vs;
      voltageMask := mask;
      this.temps := temps;
    }

    /** nouveau_get_voltage, scanning the table for the VID of register 0xe104. */
    method GetVoltage() returns (r: u32)
      ensures r == CurrentVoltage(chipset, voltages, regE104)
    {
      if chipset < 0x50 {
        return EINVAL_U32;
      }
      var index := VidDecode(regE104);
      var i := 0;
      while i < |voltages|
        invariant 0 <= i <= |voltages|
        invariant forall j :: 0 <= j < i ==> voltages[j].index != index
      {
        if voltages[i].index == index {
          return voltages[i].voltage;
        }
        i := i + 1;
      }
      return EINVAL_U32;
    }

    /** nouveau_set_voltage: the register write of the first entry with `voltage`. */
    method SetVoltage(voltage: u8) returns (ret: u32)
      modifies this
      ensures (ret, regE104) == SetVoltageEffect(chipset, old(voltages), old(voltageMask), old(regE104), voltage)
      ensures voltages == old(voltages) && voltageMask == old(voltageMask) && temps == old(temps)
    {
      if chipset < 0x50 {
        return EINVAL_U32;
      }
      if voltage == 0 {
        return 0;
      }
      var cur := GetVoltage();
      if cur == voltage {
        return 0;
      }
      var i := 0;
      while i < |voltages|
        invariant 0 <= i <= |voltages|
        invariant forall j :: 0 <= j < i ==> voltages[j].voltage != voltage
      {
        if voltages[i].voltage == voltage {
          var k := And8(voltages[i].index, voltageMask);
          if k >= 8 {
            return EINVAL_U32;
          }
          regE104 := VidWrite(regE104, VidCode(k).value);
          return 0;
        }
        i := i + 1;
      }
      return EINVAL_U32;
    }

    /**
     * nouveau_sysfs_set_critical_temperature: a value that parses (`parsed`)
     * is clamped to [90, 120] and stored; the written byte count is returned
     * either way.
     */
    method SetCriticalTemperature(parsed: Option<nat>, count: nat) returns (r: nat)
      modifies this
      ensures r == count
      ensures parsed.None? ==> temps == old(temps)
      ensures parsed.Some? ==> temps == old(temps).(critical := Clamp(parsed.value, 90, 120))
      ensures regE104 == old(regE104) && voltages == old(voltages) && voltageMask == old(voltageMask)
    {
      if parsed.Some? {
        var value := parsed.value;
        if value < 90 {
          value := 90;
        } else if value > 120 {
          value := 120;
        }
        temps := temps.(critical := value);
      }
      return count;
    }

    /** nouveau_sysfs_set_throttling_temperature: clamped to [60, 115]. */
    method SetThrottlingTemperature(parsed: Option<nat>, count: nat) returns (r: nat)
      modifies this
      ensures r == count
      ensures parsed.None? ==> temps == old(temps)
      ensures parsed.Some? ==> temps == old(temps).(throttling := Clamp(parsed.value, 60, 115))
      ensures regE104 == old(regE104) && voltages == old(voltages) && voltageMask == old(voltageMask)
    {
      if parsed.Some? {
        var value := parsed.value;
        if value < 60 {
          value := 60;
        } else if value > 115 {
          value := 115;
        }
        temps := temps.(throttling := value);
      }
      return count;
    }

    /** nouveau_sysfs_set_fan_boost_temperature: clamped to [30, 100]. */
    method SetFanBoostTemperature(parsed: Option<nat>, count: nat) returns (r: nat)
      modifies this
      ensures r == count
      ensures parsed.None? ==> temps == old(temps)
      ensures parsed.Some? ==> temps == old(temps).(fanBoost := Clamp(parsed.value, 30, 100))
      ensures regE104 == old(regE104) && voltages == old(voltages) && voltageMask == old(voltageMask)
    {
      if parsed.Some? {
        var value := parsed.value;
        if value < 30 {
          value := 30;
        } else if value > 100 {
          value := 100;
        }
        temps := temps.(fanBoost := value);
      }
      return count;
    }
  }
}
