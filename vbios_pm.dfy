/**
 * The power-management tables of the video BIOS
 * (pscnv/vbios/vbios_pm.c): the temperature table (sensor calibration and
 * the critical / throttling / fan-boost limits), the voltage table and the
 * PM-mode table, read from the BIOS image at the offsets the BIOS
 * directory gives.
 *
 * Offsets are `uint16_t` in the driver and wrap at 2^16. A read outside the
 * image yields 0 here; the driver does not bound its reads.
 */
module VbiosPm {
  import opened Common

  const U16: nat := 0x1_0000

  /** One byte of the image, 0 outside it. */
  function Rd8(data: seq<u8>, off: int): (r: u8)
    ensures 0 <= off < |data| ==> r == data[off]
  {
    if 0 <= off < |data| then data[off] else 0
  }

  /** ROM16: the little-endian 16-bit word at `off`. */
  function Rom16(data: seq<u8>, off: int): (r: int)
    ensures 0 <= r < U16
  {
    Rd8(data, off) + 256 * Rd8(data, off + 1)
  }

  /** The word's low byte is the one at `off` and its high byte the one at `off + 1`. */
  lemma Rom16Bytes(data: seq<u8>, off: int)
    ensures Rom16(data, off) % 256 == Rd8(data, off)
    ensures Rom16(data, off) / 256 == Rd8(data, off + 1)
  {
    var lo, hi := Rd8(data, off), Rd8(data, off + 1);
    assert Rom16(data, off) == hi as int * 256 + lo as int;
  }

  lemma ModAdd(a: int, b: int)
    ensures (a % U16 + b) % U16 == (a + b) % U16
  {
    var q := a / U16;
    assert a == q * U16 + a % U16;
    assert a + b == (a % U16 + b) + q * U16;
  }

  // ---------------------------------------------------------------------
  // Temperature table

  /** The sensor calibration: temp_constant and the offset and slope fractions. */
  datatype Sensor = Sensor(tempConstant: int, offsetMult: int, offsetDiv: int, slopeMult: int, slopeDiv: int)

  /** The temperature part of bios->pm. */
  datatype Temps = Temps(sensor: Sensor, critical: int, throttling: int, fanBoost: int)

  /**
   * The calibration the driver starts from: temp_constant 0 and, from the
   * NV40 family on, the known constants of the chipset (1/1, 1/1 for an
   * unlisted one); older cards keep their previous fractions.
   */
  function SensorDefaults(s: Sensor, chipset: int, nv40: bool): (r: Sensor)
    ensures r.tempConstant == 0
    ensures !nv40 ==> r == s.(tempConstant := 0)
    ensures nv40 ==> r.offsetDiv > 0 && r.slopeDiv > 0
  {
    if !nv40 then s.(tempConstant := 0)
    else if chipset == 0x43 then Sensor(0, 32060, 1000, 792, 1000)
    else if chipset == 0x44 || chipset == 0x47 then Sensor(0, 27839, 1000, 780, 1000)
    else if chipset == 0x46 then Sensor(0, -24775, 100, 467, 10000)
    else if chipset == 0x49 then Sensor(0, -25051, 100, 458, 10000)
    else if chipset == 0x4b then Sensor(0, -24088, 100, 442, 10000)
    else if chipset == 0x50 then Sensor(0, -22749, 100, 431, 10000)
    else Sensor(0, 1, 1, 1, 1)
  }

  /** A limit field of a temperature entry: bits 4..11 of its value. */
  function LimitField(value: int): (r: int)
    requires 0 <= value < U16
    ensures 0 <= r < 256
  {
    (((value as bv16) & 0x0ff0) >> 4) as int
  }

  /** temp_constant of a 0x01 entry: bits 9..15 when bits 0..3 and 7 are clear, else 0. */
  function ConstantField(value: int): (r: int)
    requires 0 <= value < U16
    ensures 0 <= r < 128
    ensures (value as bv16) & 0x8f != 0 ==> r == 0
  {
    var v := value as bv16;
    if v & 0x8f == 0 then ((v >> 9) & 0x7f) as int else 0
  }

  /** One entry of the temperature table, by its tag. Unknown tags change nothing. */
  function ApplyTemp(t: Temps, tag: u8, value: int): (r: Temps)
    requires 0 <= value < U16
    ensures tag != 0x04 ==> r.critical == t.critical
    ensures tag != 0x07 ==> r.throttling == t.throttling
    ensures tag != 0x08 ==> r.fanBoost == t.fanBoost
    ensures tag == 0x04 ==> r.critical == LimitField(value)
  {
    match tag
    case 0x01 => t.(sensor := t.sensor.(tempConstant := ConstantField(value)))
    case 0x04 => t.(critical := LimitField(value))
    case 0x07 => t.(throttling := LimitField(value))
    case 0x08 => t.(fanBoost := LimitField(value))
    case 0x10 => t.(sensor := t.sensor.(offsetMult := value))
    case 0x11 => t.(sensor := t.sensor.(offsetDiv := value))
    case 0x12 => t.(sensor := t.sensor.(slopeMult := value))
    case 0x13 => t.(sensor := t.sensor.(slopeDiv := value))
    case _ => t
  }

  /** Where entry i of a table with 3-byte entries starts: tbl + header_length + 3i, as a uint16_t. */
  function TempEntryPtr(tbl: int, headerLength: int, i: int): int
  {
    (tbl + headerLength + i * 3) % U16
  }

  /** The temperatures after the first n entries of the table at `tbl` are applied in order. */
  function ApplyTemps(t: Temps, data: seq<u8>, tbl: int, headerLength: int, n: nat): Temps
  {
    if n == 0 then t
    else
      var dp := TempEntryPtr(tbl, headerLength, n - 1);
      ApplyTemp(ApplyTemps(t, data, tbl, headerLength, n - 1), Rd8(data, dp), Rom16(data, dp + 1))
  }

  /** The final check of the table's values: the limits are capped at 120, 110 and 100. */
  function CapTemps(t: Temps): (r: Temps)
    ensures r.sensor == t.sensor
    ensures r.critical == Min(t.critical, 120) && r.throttling == Min(t.throttling, 110) &&
            r.fanBoost == Min(t.fanBoost, 100)
  {
    t.(critical := if t.critical > 120 then 120 else t.critical,
       throttling := if t.throttling > 110 then 110 else t.throttling,
       fanBoost := if t.fanBoost > 100 then 100 else t.fanBoost)
  }

  /**
   * vbios_pmtable_parse_temperatures as a value: -EINVAL for an entry size
   * other than 3, before anything is read; otherwise the defaults 110 / 100 /
   * 90, every entry applied in order, and the caps.
   */
  function ParseTemps(old_: Temps, data: seq<u8>, tbl: int, chipset: int, nv40: bool): (r: Result<Temps>)
    ensures r.Err? <==> Rd8(data, tbl + 2) != 3
    ensures r.Err? ==> r.code == EINVAL
  {
    if Rd8(data, tbl + 2) != 3 then Err(EINVAL)
    else
      var init := Temps(SensorDefaults(old_.sensor, chipset, nv40), 110, 100, 90);
      Ok(CapTemps(ApplyTemps(init, data, tbl, Rd8(data, tbl + 1), Rd8(data, tbl + 3))))
  }

  /** Every limit stays a byte field or its default while the entries are applied. */
  lemma {:induction false} ApplyTempsRange(t: Temps, data: seq<u8>, tbl: int, hl: int, n: nat)
    requires 0 <= t.critical < 256 && 0 <= t.throttling < 256 && 0 <= t.fanBoost < 256
    ensures var r := ApplyTemps(t, data, tbl, hl, n);
      0 <= r.critical < 256 && 0 <= r.throttling < 256 && 0 <= r.fanBoost < 256
  {
    if n > 0 {
      ApplyTempsRange(t, data, tbl, hl, n - 1);
    }
  }

  /** After a successful parse the limits lie in [0, 120], [0, 110] and [0, 100]. */
  lemma ParseTempsBounds(old_: Temps, data: seq<u8>, tbl: int, chipset: int, nv40: bool)
    requires ParseTemps(old_, data, tbl, chipset, nv40).Ok?
    ensures var t := ParseTemps(old_, data, tbl, chipset, nv40).value;
      0 <= t.critical <= 120 && 0 <= t.throttling <= 110 && 0 <= t.fanBoost <= 100
  {
    var init := Temps(SensorDefaults(old_.sensor, chipset, nv40), 110, 100, 90);
    ApplyTempsRange(init, data, tbl, Rd8(data, tbl + 1), Rd8(data, tbl + 3));
  }

  /** Whether entry i of the temperature table carries the critical-limit tag 0x04. */
  predicate CriticalAt(data: seq<u8>, tbl: int, hl: int, i: int)
  {
    Rd8(data, TempEntryPtr(tbl, hl, i)) == 0x04
  }

  /** Without a 0x04 entry among the first n, the critical limit is untouched. */
  lemma {:induction false} CriticalDefault(t: Temps, data: seq<u8>, tbl: int, hl: int, n: nat)
    requires forall i :: 0 <= i < n ==> !CriticalAt(data, tbl, hl, i)
    ensures ApplyTemps(t, data, tbl, hl, n).critical == t.critical
  {
    if n > 0 {
      assert !CriticalAt(data, tbl, hl, n - 1);
      CriticalDefault(t, data, tbl, hl, n - 1);
    }
  }

  /** The last 0x04 entry among the first n decides the critical limit. */
  lemma {:induction false} CriticalLastWins(t: Temps, data: seq<u8>, tbl: int, hl: int, n: nat, j: nat)
    requires j < n && CriticalAt(data, tbl, hl, j)
    requires forall i :: j < i < n ==> !CriticalAt(data, tbl, hl, i)
    ensures ApplyTemps(t, data, tbl, hl, n).critical ==
            LimitField(Rom16(data, TempEntryPtr(tbl, hl, j) + 1))
  {
    if n - 1 > j {
      assert !CriticalAt(data, tbl, hl, n - 1);
      CriticalLastWins(t, data, tbl, hl, n - 1, j);
    }
  }

  // ---------------------------------------------------------------------
  // Voltage table

  /** One voltage entry: the voltage byte and its VID index. */
  datatype VoltageEntry = VoltageEntry(voltage: u8, index: u8)

  /** The header fields of a voltage table, by version. */
  datatype VoltHeader = VoltHeader(version: u8, headerLength: int, entrySize: int, count: int, mask: u8)

  /**
   * Version 0x10 / 0x12: header length 5, entry size at +1, count at +2,
   * mask at +4; version 0x20 / 0x30: header length at +1, count at +2,
   * entry size at +3, mask at +5; any other version is unsupported.
   */
  function VoltHeaderOf(data: seq<u8>, tbl: int): (r: Option<VoltHeader>)
    ensures var v := Rd8(data, tbl);
      r.Some? <==> v == 0x10 || v == 0x12 || v == 0x20 || v == 0x30
    ensures r.Some? ==> r.value.version == Rd8(data, tbl) && r.value.count == Rd8(data, tbl + 2)
    ensures r.Some? && (r.value.version == 0x10 || r.value.version == 0x12) ==>
      r.value.headerLength == 5 && r.value.entrySize == Rd8(data, tbl + 1) && r.value.mask == Rd8(data, tbl + 4)
    ensures r.Some? && (r.value.version == 0x20 || r.value.version == 0x30) ==>
      r.value.headerLength == Rd8(data, tbl + 1) && r.value.entrySize == Rd8(data, tbl + 3) &&
      r.value.mask == Rd8(data, tbl + 5)
  {
    var v := Rd8(data, tbl);
    if v == 0x10 || v == 0x12 then
      Some(VoltHeader(v, 5, Rd8(data, tbl + 1), Rd8(data, tbl + 2), Rd8(data, tbl + 4)))
    else if v == 0x20 || v == 0x30 then
      Some(VoltHeader(v, Rd8(data, tbl + 1), Rd8(data, tbl + 3), Rd8(data, tbl + 2), Rd8(data, tbl + 5)))
    else None
  }

  /** The voltage entry at `dp`; a version 0x30 index is shifted right by 2. */
  function VoltEntryAt(data: seq<u8>, dp: int, v30: bool): (r: VoltageEntry)
    ensures v30 ==> r.index < 64
  {
    VoltageEntry(Rd8(data, dp), if v30 then Rd8(data, dp + 1) / 4 else Rd8(data, dp + 1))
  }

  /** Entry i is read at tbl + header_length + i * entry_size, as a uint16_t. */
  function VoltEntryPtr(tbl: int, h: VoltHeader, i: int): int
  {
    (tbl + h.headerLength + i * h.entrySize) % U16
  }

  /** Advancing the entry pointer by entry_size, as a uint16_t, reaches the next entry. */
  lemma VoltEntryPtrNext(tbl: int, h: VoltHeader, i: int)
    ensures (VoltEntryPtr(tbl, h, i) + h.entrySize) % U16 == VoltEntryPtr(tbl, h, i + 1)
  {
    ModAdd(tbl + h.headerLength + i * h.entrySize, h.entrySize);
    assert (i + 1) * h.entrySize == i * h.entrySize + h.entrySize;
  }

  /** The first n entries of the voltage table, each read at its own offset. */
  function VoltTable(data: seq<u8>, tbl: int, h: VoltHeader, n: nat): seq<VoltageEntry>
  {
    if n == 0 then []
    else VoltTable(data, tbl, h, n - 1) + [VoltEntryAt(data, VoltEntryPtr(tbl, h, n - 1), h.version == 0x30)]
  }

  /** Entry i of the table read is the entry at tbl + header_length + i * entry_size. */
  lemma {:induction false} VoltTableSpec(data: seq<u8>, tbl: int, h: VoltHeader, n: nat)
    ensures |VoltTable(data, tbl, h, n)| == n
    ensures forall i :: 0 <= i < n ==>
      VoltTable(data, tbl, h, n)[i] == VoltEntryAt(data, VoltEntryPtr(tbl, h, i), h.version == 0x30)
  {
    if n > 0 {
      VoltTableSpec(data, tbl, h, n - 1);
    }
  }

  // ---------------------------------------------------------------------
  // PM-mode table

  /** One performance mode. */
  datatype PmMode = PmMode(idEnabled: u8, coreclk: int, shaderclk: int, memclk: int, fanDuty: u8, voltage: u8)

  /** The layout of a PM-mode table. */
  datatype ModeHeader = ModeHeader(version: u8, headerLength: int, stride: int, count: int)

  /**
   * BIOS major version below 0x60: table version at +1 among 0x12, 0x13,
   * 0x15, header length at +0, entry length at +3. Otherwise version at +0
   * in [0x21, 0x35], header length at +1, and entries of
   * mode_info_length + extra_data_count * extra_data_length bytes. The
   * count is at +2 in both.
   */
  function ModeHeaderOf(data: seq<u8>, tbl: int, major: int): (r: Option<ModeHeader>)
    ensures major < 0x60 ==>
      (r.Some? <==> Rd8(data, tbl + 1) in {0x12, 0x13, 0x15})
    ensures major >= 0x60 ==>
      (r.Some? <==> 0x21 <= Rd8(data, tbl) <= 0x35)
    ensures r.Some? ==> r.value.count == Rd8(data, tbl + 2) && r.value.stride >= 0
  {
    if major < 0x60 then
      var v := Rd8(data, tbl + 1);
      if v != 0x12 && v != 0x13 && v != 0x15 then None
      else Some(ModeHeader(v, Rd8(data, tbl), Rd8(data, tbl + 3), Rd8(data, tbl + 2)))
    else
      var v := Rd8(data, tbl);
      if v < 0x21 || v > 0x35 then None
      else Some(ModeHeader(v, Rd8(data, tbl + 1),
                           Rd8(data, tbl + 3) + Rd8(data, tbl + 4) * Rd8(data, tbl + 5), Rd8(data, tbl + 2)))
  }

  /**
   * The mode at `dp`. Old tables: clocks in units of 10 at +1 and +3, fan
   * duty at +55, voltage at +56. Version < 0x25: fan +4, voltage +5, core
   * +6 and memory +11 (16-bit, in units of 1000). Version 0x25: the same
   * with shader at +10 and memory at +12. Versions 0x30 and 0x35: fan +6,
   * voltage +7, core +8, shader +10, memory +12. Any other version writes
   * nothing, which is None.
   */
  function ModeAt(data: seq<u8>, dp: int, major: int, version: u8): (r: Option<PmMode>)
    ensures r.Some? ==> r.value.idEnabled == Rd8(data, dp)
    ensures major < 0x60 || version < 0x26 || version == 0x30 || version == 0x35 ==> r.Some?
  {
    var id := Rd8(data, dp);
    if major < 0x60 then
      Some(PmMode(id, Rd8(data, dp + 1) * 10, 0, Rd8(data, dp + 3) * 10, Rd8(data, dp + 55), Rd8(data, dp + 56)))
    else if version < 0x25 then
      Some(PmMode(id, Rom16(data, dp + 6) * 1000, 0, Rom16(data, dp + 11) * 1000,
                  Rd8(data, dp + 4), Rd8(data, dp + 5)))
    else if version == 0x25 then
      Some(PmMode(id, Rom16(data, dp + 6) * 1000, Rom16(data, dp + 10) * 1000,
                  Rom16(data, dp + 12) * 1000, Rd8(data, dp + 4), Rd8(data, dp + 5)))
    else if version == 0x30 || version == 0x35 then
      Some(PmMode(id, Rom16(data, dp + 8) * 1000, Rom16(data, dp + 10) * 1000,
                  Rom16(data, dp + 12) * 1000, Rd8(data, dp + 6), Rd8(data, dp + 7)))
    else None
  }

  /** Which ids mark a usable mode: 0x20, 0x60, 0x80 (old); 0x03, 0x05, 0x07, 0x0f (0x35); else 0x20..0x23. */
  predicate ValidModeId(major: int, version: u8, id: u8)
  {
    if major < 0x60 then id == 0x20 || id == 0x60 || id == 0x80
    else if version == 0x35 then id == 0x03 || id == 0x05 || id == 0x07 || id == 0x0f
    else 0x20 <= id < 0x24
  }

  /** Entry i is read at tbl + stride * i + header_length, as a uint16_t. */
  function ModePtr(tbl: int, h: ModeHeader, i: int): int
  {
    (tbl + h.stride * i + h.headerLength) % U16
  }

  /**
   * One pass of the mode loop: the decoded mode (if the version decodes
   * one) is written at the cursor e, and e advances when the id of what now
   * sits at slot e is valid.
   */
  function ModeStep(slots: seq<PmMode>, e: nat, m: Option<PmMode>, major: int, version: u8): (r: (seq<PmMode>, nat))
    requires e < |slots|
    ensures |r.0| == |slots| && (r.1 == e || r.1 == e + 1)
    ensures r.0[..e] == slots[..e]
  {
    var s := if m.Some? then slots[e := m.value] else slots;
    (s, if ValidModeId(major, version, s[e].idEnabled) then e + 1 else e)
  }

  /** The mode slots and the cursor after the first n entries of the table. */
  function ModesAfter(slots: seq<PmMode>, data: seq<u8>, tbl: int, major: int, h: ModeHeader, n: nat): (r: (seq<PmMode>, nat))
    requires n <= |slots|
    ensures |r.0| == |slots| && r.1 <= n
  {
    if n == 0 then (slots, 0)
    else
      var prev := ModesAfter(slots, data, tbl, major, h, n - 1);
      ModeStep(prev.0, prev.1, ModeAt(data, ModePtr(tbl, h, n - 1), major, h.version), major, h.version)
  }

  /** The modes of the first n entries whose id is valid, in table order. */
  function ValidModes(data: seq<u8>, tbl: int, major: int, h: ModeHeader, n: nat): (r: seq<PmMode>)
    requires major < 0x60 || h.version < 0x26 || h.version == 0x30 || h.version == 0x35
    ensures |r| <= n
    ensures forall i :: 0 <= i < |r| ==> ValidModeId(major, h.version, r[i].idEnabled)
  {
    if n == 0 then []
    else
      var m := ModeAt(data, ModePtr(tbl, h, n - 1), major, h.version).value;
      ValidModes(data, tbl, major, h, n - 1) + (if ValidModeId(major, h.version, m.idEnabled) then [m] else [])
  }

  /**
   * For every version that decodes its entries, the slots before the final
   * cursor hold exactly the valid modes, compacted in table order.
   */
  lemma {:induction false} ModesCompacted(slots: seq<PmMode>, data: seq<u8>, tbl: int, major: int, h: ModeHeader, n: nat)
    requires n <= |slots|
    requires major < 0x60 || h.version < 0x26 || h.version == 0x30 || h.version == 0x35
    ensures var r := ModesAfter(slots, data, tbl, major, h, n);
      r.1 == |ValidModes(data, tbl, major, h, n)| && r.0[..r.1] == ValidModes(data, tbl, major, h, n)
  {
    if n > 0 {
      ModesCompacted(slots, data, tbl, major, h, n - 1);
      var prev := ModesAfter(slots, data, tbl, major, h, n - 1);
      var m := ModeAt(data, ModePtr(tbl, h, n - 1), major, h.version);
      var r := ModeStep(prev.0, prev.1, m, major, h.version);
      assert r.0[..prev.1] == prev.0[..prev.1];
      if r.1 == prev.1 + 1 {
        assert r.0[..r.1] == r.0[..prev.1] + [m.value];
      }
    }
  }

  /** One more entry of the table is one more step of the mode loop. */
  lemma ModesAfterNext(slots: seq<PmMode>, data: seq<u8>, tbl: int, major: int, h: ModeHeader, i: nat)
    requires i < |slots|
    ensures var prev := ModesAfter(slots, data, tbl, major, h, i);
      ModesAfter(slots, data, tbl, major, h, i + 1) ==
      ModeStep(prev.0, prev.1, ModeAt(data, ModePtr(tbl, h, i), major, h.version), major, h.version)
  {
  }

  /**
   * The mode loop of vbios_pmtable_parse_pm_modes: each of the header's
   * entries is decoded into the slot at the write cursor `e`, which moves
   * on past valid ids only.
   */
  method DecodeModes(slots0: seq<PmMode>, data: seq<u8>, tbl: int, major: int, h: ModeHeader) returns (slots: seq<PmMode>, e: nat)
    requires 0 <= h.count <= |slots0|
    ensures (slots, e) == ModesAfter(slots0, data, tbl, major, h, h.count)
  {
    slots := slots0;
    e := 0;
    var i := 0;
    while i < h.count
      invariant 0 <= i <= h.count
      invariant (slots, e) == ModesAfter(slots0, data, tbl, major, h, i)
    {
      var dataPtr := (tbl + h.stride * i + h.headerLength) % U16;
      var m := ModeAt(data, dataPtr, major, h.version);
      ModesAfterNext(slots0, data, tbl, major, h, i);
      if m.Some? {
        slots := slots[e := m.value];
      }
      if ValidModeId(major, h.version, slots[e].idEnabled) {
        e := e + 1;
      }
      i := i + 1;
    }
  }

  // ---------------------------------------------------------------------
  // The parser state

  /**
   * The BIOS image with the PM table pointers of its BIOS directory, and
   * the bios->pm fields the parsers fill in. pm_modes is the driver's
   * fixed array of mode slots.
   */
  class Bios {
    const data: seq<u8>
    const majorVersion: u8
    const temperatureTblPtr: int
    const voltageTblPtr: int
    const pmModesTblPtr: int

    var temps: Temps
    var voltageEntryCount: int
    var voltageMask: u8
    var voltages: seq<VoltageEntry>
    var modeInfoCount: int
    var pmModes: seq<PmMode>

    constructor(data: seq<u8>, major: u8, tempPtr: int, voltPtr: int, modesPtr: int, slots: seq<PmMode>)
      ensures this.data == data && majorVersion == major && temperatureTblPtr == tempPtr &&
              voltageTblPtr == voltPtr && pmModesTblPtr == modesPtr && pmModes == slots
    {
      this.data := data;
      majorVersion := major;
      temperatureTblPtr := tempPtr;
      voltageTblPtr := voltPtr;
      pmModesTblPtr := modesPtr;
      temps := Temps(Sensor(0, 1, 1, 1, 1), 0, 0, 0);
      voltageEntryCount := 0;
      voltageMask := 0;
      voltages := [];
      modeInfoCount := 0;
      pmModes := slots;
    }

    /**
     * vbios_pmtable_parse_temperatures on a card of `chipset` (nv40: card
     * type NV40 or later).
     */
    method ParseTemperatures(chipset: int, nv40: bool) returns (ret: int)
      modifies this
      ensures var r := ParseTemps(old(temps), data, temperatureTblPtr, chipset, nv40);
        (r.Err? ==> ret == -EINVAL && temps == old(temps)) &&
        (r.Ok? ==> ret == 0 && temps == r.value)
      ensures voltages == old(voltages) && voltageEntryCount == old(voltageEntryCount) &&
              voltageMask == old(voltageMask) && pmModes == old(pmModes) && modeInfoCount == old(modeInfoCount)
    {
      var tbl := temperatureTblPtr;
      var headerLength := Rd8(data, tbl + 1);
      var entrySize := Rd8(data, tbl + 2);
      var entryCount := Rd8(data, tbl + 3);
      if entrySize != 3 {
        return -EINVAL;
      }
      temps := temps.(sensor := SensorDefaults(temps.sensor, chipset, nv40));
      temps := temps.(critical := 110, throttling := 100, fanBoost := 90);
      ghost var init := temps;
      var i := 0;
      while i < entryCount
        invariant 0 <= i <= entryCount
        invariant temps == ApplyTemps(init, data, tbl, headerLength, i)
        invariant voltages == old(voltages) && voltageEntryCount == old(voltageEntryCount) &&
                  voltageMask == old(voltageMask) && pmModes == old(pmModes) && modeInfoCount == old(modeInfoCount)
      {
        var dataPtr := (tbl + headerLength + i * entrySize) % U16;
        var value := Rom16(data, dataPtr + 1);
        temps := ApplyTemp(temps, Rd8(data, dataPtr), value);
        i := i + 1;
      }
      if temps.critical > 120 { temps := temps.(critical := 120); }
      if temps.throttling > 110 { temps := temps.(throttling := 110); }
      if temps.fanBoost > 100 { temps := temps.(fanBoost := 100); }
      return 0;
    }

    /**
     * vbios_pmtable_parse_voltages. voltage_entry_count is cleared first;
     * an unsupported version then fails, and so does an entry size below 2
     * (with the header's count and mask already stored) or a failed
     * allocation of the entries (`allocOk`).
     */
    method ParseVoltages(allocOk: bool) returns (ret: int)
      modifies this
      ensures var h := VoltHeaderOf(data, voltageTblPtr);
        (h.None? ==> ret == -EINVAL && voltageEntryCount == 0 && voltageMask == old(voltageMask) &&
                     voltages == old(voltages)) &&
        (h.Some? ==> voltageEntryCount == h.value.count && voltageMask == h.value.mask) &&
        (h.Some? && h.value.entrySize < 2 ==> ret == -EINVAL && voltages == old(voltages)) &&
        (h.Some? && h.value.entrySize >= 2 && h.value.count > 0 && !allocOk ==>
           ret == -EINVAL && voltages == old(voltages)) &&
        (h.Some? && h.value.entrySize >= 2 && h.value.count == 0 ==> ret == 0 && voltages == old(voltages))
      ensures var h := VoltHeaderOf(data, voltageTblPtr);
        h.Some? && h.value.entrySize >= 2 && h.value.count > 0 && allocOk ==>
          ret == 0 && voltages == VoltTable(data, voltageTblPtr, h.value, h.value.count)
      ensures temps == old(temps) && pmModes == old(pmModes) && modeInfoCount == old(modeInfoCount)
    {
      var tbl := voltageTblPtr;
      var version := Rd8(data, tbl);
      var headerLength, entrySize;
      voltageEntryCount := 0;
      if version == 0x10 || version == 0x12 {
        headerLength := 5;
        entrySize := Rd8(data, tbl + 1);
        voltageEntryCount := Rd8(data, tbl + 2);
        voltageMask := Rd8(data, tbl + 4);
      } else if version == 0x20 || version == 0x30 {
        headerLength := Rd8(data, tbl + 1);
        voltageEntryCount := Rd8(data, tbl + 2);
        entrySize := Rd8(data, tbl + 3);
        voltageMask := Rd8(data, tbl + 5);
      } else {
        return -EINVAL;
      }
      ghost var h := VoltHeaderOf(data, tbl).value;
      if entrySize < 2 {
        return -EINVAL;
      }
      if voltageEntryCount > 0 {
        if !allocOk {
          return -EINVAL;
        }
        var entries: seq<VoltageEntry> := [];
        var dataPtr := (tbl + headerLength) % U16;
        var i := 0;
        while i < voltageEntryCount
          invariant 0 <= i <= voltageEntryCount && voltageEntryCount == h.count
          invariant dataPtr == VoltEntryPtr(tbl, h, i)
          invariant entries == VoltTable(data, tbl, h, i)
          invariant entrySize == h.entrySize && headerLength == h.headerLength && h.version == version
          invariant voltageMask == h.mask && voltages == old(voltages)
          invariant temps == old(temps) && pmModes == old(pmModes) && modeInfoCount == old(modeInfoCount)
        {
          var index := Rd8(data, dataPtr + 1);
          if version == 0x30 {
            index := index / 4;
          }
          entries := entries + [VoltageEntry(Rd8(data, dataPtr), index)];
          VoltEntryPtrNext(tbl, h, i);
          dataPtr := (dataPtr + entrySize) % U16;
          i := i + 1;
        }
        voltages := entries;
      }
      return 0;
    }

    /**
     * vbios_pmtable_parse_pm_modes. An unsupported table version fails
     * with -EINVAL and changes nothing. Otherwise every entry is decoded
     * into the slot at the write cursor, the cursor advances past valid
     * ids only, and mode_info_count ends as the cursor. The pm_modes array
     * must have room for the header's count; the driver does not check it.
     */
    method ParsePmModes() returns (ret: int)
      requires Rd8(data, pmModesTblPtr + 2) <= |pmModes|
      modifies this
      ensures var h := ModeHeaderOf(data, pmModesTblPtr, majorVersion);
        (h.None? ==> ret == -EINVAL && pmModes == old(pmModes) && modeInfoCount == old(modeInfoCount)) &&
        (h.Some? ==>
           ret == 0 &&
           (pmModes, modeInfoCount) == ModesAfter(old(pmModes), data, pmModesTblPtr, majorVersion, h.value, h.value.count))
      ensures temps == old(temps) && voltages == old(voltages) &&
              voltageEntryCount == old(voltageEntryCount) && voltageMask == old(voltageMask)
    {
      var tbl := pmModesTblPtr;
      var hOpt := ModeHeaderOf(data, tbl, majorVersion);
      if hOpt.None? {
        return -EINVAL;
      }
      var h := hOpt.value;
      modeInfoCount := h.count;
      var slots, e := DecodeModes(pmModes, data, tbl, majorVersion, h);
      pmModes := slots;
      modeInfoCount := e;
      return 0;
    }

    /**
     * vbios_parse_pmtable: each table with a non-zero pointer is parsed,
     * its result ignored; the call always succeeds.
     */
    method ParsePmTable(chipset: int, nv40: bool, allocOk: bool) returns (ret: int)
      requires Rd8(data, pmModesTblPtr + 2) <= |pmModes|
      modifies this
      ensures ret == 0
      ensures temperatureTblPtr == 0 ==> temps == old(temps)
      ensures temperatureTblPtr != 0 && ParseTemps(old(temps), data, temperatureTblPtr, chipset, nv40).Ok? ==>
        temps == ParseTemps(old(temps), data, temperatureTblPtr, chipset, nv40).value
      ensures temperatureTblPtr != 0 && ParseTemps(old(temps), data, temperatureTblPtr, chipset, nv40).Err? ==>
        temps == old(temps)
      ensures voltageTblPtr == 0 ==>
        voltages == old(voltages) && voltageEntryCount == old(voltageEntryCount) && voltageMask == old(voltageMask)
      ensures var h := VoltHeaderOf(data, voltageTblPtr);
        voltageTblPtr != 0 ==>
          (h.None? ==> voltageEntryCount == 0 && voltageMask == old(voltageMask) && voltages == old(voltages)) &&
          (h.Some? ==>
             voltageEntryCount == h.value.count && voltageMask == h.value.mask &&
             voltages == if h.value.entrySize >= 2 && h.value.count > 0 && allocOk
                         then VoltTable(data, voltageTblPtr, h.value, h.value.count) else old(voltages))
      ensures pmModesTblPtr == 0 ==> pmModes == old(pmModes) && modeInfoCount == old(modeInfoCount)
      ensures pmModesTblPtr != 0 && ModeHeaderOf(data, pmModesTblPtr, majorVersion).None? ==>
        pmModes == old(pmModes) && modeInfoCount == old(modeInfoCount)
      ensures var h := ModeHeaderOf(data, pmModesTblPtr, majorVersion);
        pmModesTblPtr != 0 && h.Some? ==>
          (pmModes, modeInfoCount) == ModesAfter(old(pmModes), data, pmModesTblPtr, majorVersion, h.value, h.value.count)
    {
      var r;
      if temperatureTblPtr != 0 {
        r := ParseTemperatures(chipset, nv40);
      }
      if voltageTblPtr != 0 {
        r := ParseVoltages(allocOk);
      }
      if pmModesTblPtr != 0 {
        r := ParsePmModes();
      }
      return 0;
    }
  }
}
