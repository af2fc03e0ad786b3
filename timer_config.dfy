/** The `timer_cfg_t` overlay of ppm_generator.c: a 32-bit word whose
    bitfields GCC allocates from the least significant bit upwards, so a
    field of width w at bit offset k holds (word / 2^k) % 2^w.

      bits  0- 9  reserved0
      bit     10  alarm_en
      bit     11  level_int_en
      bit     12  edge_int_en
      bits 13-28  divider
      bit     29  autoreload
      bit     30  increase
      bit     31  enable
*/
module TimerConfig {
  import opened CTypes

  type bit = x: int | 0 <= x < 2
  type uint10 = x: int | 0 <= x < 0x400

  /** The bitfield view of the union. */
  datatype CfgFields = CfgFields(
    reserved0: uint10,
    alarmEn: bit,
    levelIntEn: bit,
    edgeIntEn: bit,
    divider: uint16,
    autoreload: bit,
    increase: bit,
    enable: bit)

  /** What the driver's `timer_get_config` reports (`timer_config_t`). The
      0/1-valued enums become booleans; `divider` is a `uint32_t` and
      `intrType` is the raw `timer_intr_mode_t` value. */
  datatype DriverConfig = DriverConfig(
    alarmEn: bool,
    autoReload: bool,
    divider: uint32,
    intrType: nat,
    counterEn: bool,
    counterDir: bool)

  function Bit(b: bool): bit { if b then 1 else 0 }

  /** The field of width `2^w = width` at offset `2^k = offset` of a word. */
  function Field(v: uint32, offset: nat, width: nat): nat
    requires offset > 0 && width > 0
  {
    (v / offset) % width
  }

  /** The positional sum of the fields. */
  function PackedValue(f: CfgFields): int
  {
    f.reserved0 + f.alarmEn * 0x400 + f.levelIntEn * 0x800 + f.edgeIntEn * 0x1000
    + f.divider * 0x2000 + f.autoreload * 0x2000_0000 + f.increase * 0x4000_0000
    + f.enable * 0x8000_0000
  }

  /** Reading `cfg.val` after the bitfields were written. */
  function Pack(f: CfgFields): (v: uint32)
    ensures Unpack(v) == f
  {
    PackedFields(f);
    PackedValue(f)
  }

  /** Reading the bitfields after `config.val` was written: the fields of
      any word, put back at their offsets, sum to the word. */
  function Unpack(v: uint32): (r: CfgFields)
    ensures PackedValue(r) == v
  {
    Peel(v);
    CfgFields(
      Field(v, 1, 0x400),
      Field(v, 0x400, 2),
      Field(v, 0x800, 2),
      Field(v, 0x1000, 2),
      Field(v, 0x2000, 0x1_0000),
      Field(v, 0x2000_0000, 2),
      Field(v, 0x4000_0000, 2),
      Field(v, 0x8000_0000, 2))
  }

  /** Euclidean division by one of the field offsets or widths recovers the
      quotient and remainder of a positional sum. */
  lemma DivMod(hi: int, lo: int, k: int)
    requires k in {2, 0x400, 0x800, 0x1000, 0x2000, 0x1_0000, 0x2000_0000, 0x4000_0000, 0x8000_0000}
    requires 0 <= lo < k
    ensures (hi * k + lo) / k == hi && (hi * k + lo) % k == lo
  {
  }

  lemma PackedRange(f: CfgFields)
    ensures 0 <= PackedValue(f) < UINT32_LIMIT
  {
  }

  /** Each field of a packed word reads back as written: split the sum into the
      fields below the offset, the field itself and the fields above it. */
  lemma PackedFields(f: CfgFields)
    ensures 0 <= PackedValue(f) < UINT32_LIMIT
    ensures Unpack(PackedValue(f)) == f
  {
    PackedRange(f);
    PackedLowFields(f);
    PackedDivider(f);
    PackedHighFields(f);
  }

  /** reserved0, alarm_en, level_int_en and edge_int_en. */
  lemma PackedLowFields(f: CfgFields)
    requires 0 <= PackedValue(f) < UINT32_LIMIT
    ensures var v := PackedValue(f);
      && Field(v, 1, 0x400) == f.reserved0
      && Field(v, 0x400, 2) == f.alarmEn
      && Field(v, 0x800, 2) == f.levelIntEn
      && Field(v, 0x1000, 2) == f.edgeIntEn
  {
    var r: int, a: int, l: int, e: int := f.reserved0, f.alarmEn, f.levelIntEn, f.edgeIntEn;
    var z: int := f.divider + 0x1_0000 * (f.autoreload + 2 * f.increase + 4 * f.enable);
    var x := e + 2 * z;
    var y := l + 2 * x;
    assert PackedValue(f) == (a + 2 * y) * 0x400 + r;
    DivMod(a + 2 * y, r, 0x400);
    DivMod(y, a, 2);
    DivMod(l + 2 * x, r + 0x400 * a, 0x800);
    DivMod(x, l, 2);
    DivMod(e + 2 * z, r + 0x400 * a + 0x800 * l, 0x1000);
    DivMod(z, e, 2);
  }

  lemma PackedDivider(f: CfgFields)
    requires 0 <= PackedValue(f) < UINT32_LIMIT
    ensures Field(PackedValue(f), 0x2000, 0x1_0000) == f.divider
  {
    var low13: int := f.reserved0 + 0x400 * f.alarmEn + 0x800 * f.levelIntEn + 0x1000 * f.edgeIntEn;
    var w: int := f.autoreload + 2 * f.increase + 4 * f.enable;
    var d: int := f.divider;
    assert PackedValue(f) == (d + 0x1_0000 * w) * 0x2000 + low13;
    DivMod(d + 0x1_0000 * w, low13, 0x2000);
    DivMod(w, d, 0x1_0000);
  }

  /** autoreload, increase and enable. */
  lemma PackedHighFields(f: CfgFields)
    requires 0 <= PackedValue(f) < UINT32_LIMIT
    ensures var v := PackedValue(f);
      && Field(v, 0x2000_0000, 2) == f.autoreload
      && Field(v, 0x4000_0000, 2) == f.increase
      && Field(v, 0x8000_0000, 2) == f.enable
  {
    var low29: int := f.reserved0 + 0x400 * f.alarmEn + 0x800 * f.levelIntEn + 0x1000 * f.edgeIntEn
                      + 0x2000 * f.divider;
    var ar: int, inc: int, en: int := f.autoreload, f.increase, f.enable;
    DivMod(ar + 2 * (inc + 2 * en), low29, 0x2000_0000);
    DivMod(inc + 2 * en, ar, 2);
    DivMod(inc + 2 * en, low29 + 0x2000_0000 * ar, 0x4000_0000);
    DivMod(en, inc, 2);
    DivMod(en, low29 + 0x2000_0000 * ar + 0x4000_0000 * inc, 0x8000_0000);
    DivMod(0, en, 2);
  }

  /** `timerGetConfig`: the local `timer_cfg_t cfg` is never initialised, so
      its reserved bits are whatever `junk` the stack held. Each assignment to
      a bitfield keeps the low bits of the assigned value. */
  function ConfigWord(c: DriverConfig, junk: uint10): (w: uint32)
    ensures Unpack(w).divider == ToUint16(c.divider) && Unpack(w).reserved0 == junk
  {
    Pack(CfgFields(
      junk,
      Bit(c.alarmEn),
      Bit(c.intrType == 0),
      c.intrType % 2,
      ToUint16(c.divider),
      Bit(c.autoReload),
      Bit(c.counterDir),
      Bit(c.counterEn)))
  }

  /** `timerGetDivider`: the divider field, bits 13-28, of the word. */
  function DividerOf(v: uint32): (d: uint16)
    ensures forall f: CfgFields :: v == Pack(f) ==> d == f.divider
  {
    Unpack(v).divider
  }

  /** The divider read back is the driver's divider truncated to 16 bits,
      whatever the flags and the uninitialised reserved bits are. */
  lemma DividerRoundTrip(c: DriverConfig, junk: uint10)
    ensures DividerOf(ConfigWord(c, junk)) == ToUint16(c.divider)
  {
  }

  /** Two configurations with the same divider give the same `timerGetDivider`. */
  lemma DividerIgnoresFlags(c1: DriverConfig, c2: DriverConfig, junk1: uint10, junk2: uint10)
    requires c1.divider == c2.divider
    ensures DividerOf(ConfigWord(c1, junk1)) == DividerOf(ConfigWord(c2, junk2))
  {
    DividerRoundTrip(c1, junk1);
    DividerRoundTrip(c2, junk2);
  }

  /** The flag bits of the word report the driver's flags. */
  lemma FlagsRoundTrip(c: DriverConfig, junk: uint10)
    ensures var f := Unpack(ConfigWord(c, junk));
      && (f.alarmEn == 1 <==> c.alarmEn)
      && (f.autoreload == 1 <==> c.autoReload)
      && (f.enable == 1 <==> c.counterEn)
      && (f.increase == 1 <==> c.counterDir)
      && (f.levelIntEn == 1 <==> c.intrType == 0)
      && f.edgeIntEn == c.intrType % 2
      && f.reserved0 == junk
  {
  }

  /** A word is the positional sum of its fields: peel them off from the
      least significant end, each quotient being the word divided by the next
      offset. */
  lemma Peel(v: uint32)
    ensures v == Field(v, 1, 0x400) + 0x400 * Field(v, 0x400, 2) + 0x800 * Field(v, 0x800, 2)
               + 0x1000 * Field(v, 0x1000, 2) + 0x2000 * Field(v, 0x2000, 0x1_0000)
               + 0x2000_0000 * Field(v, 0x2000_0000, 2) + 0x4000_0000 * Field(v, 0x4000_0000, 2)
               + 0x8000_0000 * Field(v, 0x8000_0000, 2)
  {
    DivDiv(v, 0x400, 2);
    DivDiv(v, 0x800, 2);
    DivDiv(v, 0x1000, 2);
    DivDiv(v, 0x2000, 0x1_0000);
    DivDiv(v, 0x2000_0000, 2);
    DivDiv(v, 0x4000_0000, 2);
    var t10, t11, t12, t13 := v / 0x400, v / 0x800, v / 0x1000, v / 0x2000;
    var t29, t30, t31 := v / 0x2000_0000, v / 0x4000_0000, v / 0x8000_0000;
    assert v == v % 0x400 + 0x400 * t10;
    assert t10 == t10 % 2 + 2 * t11;
    assert t11 == t11 % 2 + 2 * t12;
    assert t12 == t12 % 2 + 2 * t13;
    assert t13 == t13 % 0x1_0000 + 0x1_0000 * t29;
    assert t29 == t29 % 2 + 2 * t30;
    assert t30 == t30 % 2 + 2 * t31;
    assert t31 == t31 % 2;
  }

  /** Dividing by an offset and then by the next field's width is dividing by
      the next offset. */
  lemma DivDiv(v: nat, k: int, w: int)
    requires (k, w) in {(0x400, 2), (0x800, 2), (0x1000, 2), (0x2000, 0x1_0000), (0x2000_0000, 2), (0x4000_0000, 2)}
    ensures v / k / w == v / (k * w)
  {
  }

  /** Every word is the packing of its fields. */
  lemma UnpackPack(v: uint32)
    ensures Pack(Unpack(v)) == v
  {
  }
}
