/** `_on_apb_change` of ppm_generator.c: the clock-change callback that keeps
    one timer tick equal to the same wall-clock time when the APB clock
    frequency changes. */
module ApbRescale {
  import opened CTypes
  import opened TimerConfig
  import opened HwTimer

  /** `apb_change_ev_t`. */
  datatype ApbChangeEvent = BeforeChange | AfterChange

  const HZ_PER_MHZ: nat := 1000000

  /** The divider written after a change from `oldApb` to `newApb` Hz: both
      frequencies are truncated to whole MHz, the `uint32_t` product with the
      old divider is divided by the old MHz, and the quotient is truncated to
      `uint16_t`. The product cannot wrap (see `ProductFitsUint32`), so it is
      written without a reduction. A new frequency below 1 MHz truncates to
      zero MHz and so does the divider written. */
  function RescaledDivider(oldApb: uint32, newApb: uint32, divider: uint16): (d: uint16)
    requires oldApb >= HZ_PER_MHZ
    ensures newApb < HZ_PER_MHZ ==> d == 0
    ensures divider == 0 ==> d == 0
  {
    var oldMhz, newMhz := oldApb / HZ_PER_MHZ, newApb / HZ_PER_MHZ;
    ZeroProduct(newMhz, divider, oldMhz);
    ToUint16(newMhz * divider / oldMhz)
  }

  /** A product with a zero factor divides to zero. */
  lemma ZeroProduct(a: nat, b: nat, c: nat)
    requires c > 0
    ensures a == 0 || b == 0 ==> a * b / c == 0
  {
  }

  /** When the quotient fits in 16 bits, one tick still lasts the same time
      up to the truncation of the division: the new divider over the new MHz
      is at most, and less than one tick more than, the old divider over the
      old MHz. */
  lemma RescaleKeepsTickLength(oldApb: uint32, newApb: uint32, divider: uint16)
    requires oldApb >= HZ_PER_MHZ
    ensures var oldMhz, newMhz := oldApb / HZ_PER_MHZ, newApb / HZ_PER_MHZ;
      var d := RescaledDivider(oldApb, newApb, divider);
      newMhz * divider / oldMhz < UINT16_LIMIT ==>
        d * oldMhz <= newMhz * divider < d * oldMhz + oldMhz
  {
    var oldMhz, newMhz := oldApb / HZ_PER_MHZ, newApb / HZ_PER_MHZ;
    var x := newMhz * divider;
    QuotientBounds(x, oldMhz);
  }

  /** The truncated quotient brackets the dividend. */
  lemma QuotientBounds(x: nat, a: nat)
    requires a > 0
    ensures (x / a) * a <= x < (x / a) * a + a
  {
  }

  /** The `uint32_t` product of the new MHz and a 16-bit divider never wraps. */
  lemma ProductFitsUint32(newApb: uint32, divider: uint16)
    ensures 0 <= (newApb / HZ_PER_MHZ) * divider < UINT32_LIMIT
  {
    var m := newApb / HZ_PER_MHZ;
    assert m <= 4294;
    MulBound(m, 4294, divider, 0xFFFF);
  }

  lemma MulBound(a: nat, aMax: nat, b: nat, bMax: nat)
    requires a <= aMax && b <= bMax
    ensures a * b <= aMax * bMax
  {
  }

  lemma MulAtLeast(a: nat, d: int)
    requires d >= 1
    ensures a * d >= a
  {
    assert a * d == a * (d - 1) + a;
  }

  /** Euclidean division has one quotient: `x == a * q + r` with `0 <= r < a`
      makes `q` the quotient. */
  lemma DivUnique(x: int, a: int, q: int, r: int)
    requires a > 0 && 0 <= r < a && x == a * q + r
    ensures x / a == q
  {
    var q', r' := x / a, x % a;
    assert x == a * q' + r';
    if q > q' {
      assert a * (q - q') == r' - r;
      MulAtLeast(a, q - q');
    } else if q < q' {
      assert a * (q' - q) == r - r';
      MulAtLeast(a, q' - q);
    }
  }

  /** `(a * b) / a == b` for a positive `a`. */
  lemma MulDivCancel(a: nat, b: nat)
    requires a > 0
    ensures a * b / a == b
  {
    DivUnique(a * b, a, b, 0);
  }

  /** A change that keeps the MHz value keeps the divider. */
  lemma SameFrequencyKeepsDivider(oldApb: uint32, newApb: uint32, divider: uint16)
    requires oldApb >= HZ_PER_MHZ && oldApb / HZ_PER_MHZ == newApb / HZ_PER_MHZ
    ensures RescaledDivider(oldApb, newApb, divider) == divider
  {
    MulDivCancel(oldApb / HZ_PER_MHZ, divider);
  }

  /** 80 MHz to 40 MHz with divider 80 (one tick per microsecond) gives
      divider 40, still one tick per microsecond. */
  lemma HalvingTheClockHalvesTheDivider()
    ensures RescaledDivider(80000000, 40000000, 80) == 40
  {
  }

  /** Scaling the clock down by a whole factor and back restores the divider
      when the factor divides it. */
  lemma ScaleDownAndBack(lowMhz: nat, factor: nat, divider: uint16)
    requires lowMhz > 0 && factor > 0
    requires lowMhz * factor * HZ_PER_MHZ < UINT32_LIMIT
    requires divider % factor == 0
    ensures var highApb, lowApb := lowMhz * factor * HZ_PER_MHZ, lowMhz * HZ_PER_MHZ;
      RescaledDivider(lowApb, highApb, RescaledDivider(highApb, lowApb, divider)) == divider
  {
    var high := lowMhz * factor;
    var highApb, lowApb := high * HZ_PER_MHZ, lowMhz * HZ_PER_MHZ;
    MulBound(lowMhz, high, 1, factor);
    MulDivCancel(HZ_PER_MHZ, high);
    MulDivCancel(HZ_PER_MHZ, lowMhz);
    assert highApb / HZ_PER_MHZ == high && lowApb / HZ_PER_MHZ == lowMhz;
    var k := divider / factor;
    assert divider == factor * k;
    // down: lowMhz * (factor * k) / (lowMhz * factor) == k
    assert lowMhz * divider == high * k;
    MulDivCancel(high, k);
    var down := RescaledDivider(highApb, lowApb, divider);
    assert down == k;
    // back: high * k / lowMhz == factor * k == divider
    assert high * k == lowMhz * divider;
    MulDivCancel(lowMhz, divider);
  }

  /** `_on_apb_change(timer, ev_type, old_apb, new_apb)`. Before the change
      the timer only stops; after it the divider is rescaled (read back with
      `timerGetDivider`, whose reserved bits are `junk`) and the timer
      restarts. The code divides by `old_apb / 1000000` with no guard, so an
      old frequency below 1 MHz is excluded. */
  method OnApbChangeCallback(timer: Timer, ev: ApbChangeEvent, oldApb: uint32, newApb: uint32, junk: uint10)
    requires ev == AfterChange ==> oldApb >= HZ_PER_MHZ
    modifies timer
    ensures ev == BeforeChange ==> !timer.running && timer.divider == old(timer.divider)
    ensures ev == AfterChange ==>
      timer.running && timer.divider == RescaledDivider(oldApb, newApb, old(timer.divider))
    ensures timer.alarmValue == old(timer.alarmValue) && timer.autoreload == old(timer.autoreload)
    ensures timer.alarmEnabled == old(timer.alarmEnabled) && timer.countUp == old(timer.countUp)
    ensures timer.intrType == old(timer.intrType) && timer.counter == old(timer.counter)
  {
    if ev == BeforeChange {
      timer.Stop();
    } else {
      var current := timer.GetDivider(junk);
      timer.SetDivider(RescaledDivider(oldApb, newApb, current));
      timer.Start();
    }
  }
}
