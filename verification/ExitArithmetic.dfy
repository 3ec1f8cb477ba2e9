/** The integer tests of the exit watcher. Prices are ratios of two u64 amounts
    (WSOL lamports over raw token units), widened to 128 bits and compared by
    cross-multiplication. */
module ExitArithmetic {
  import opened Primitives

  datatype Price = Price(num: u64, den: u64)

  const BPS: int := 10_000
  const PANIC_PNL_FLOOR_BPS: int := -1500

  /** a < b as rationals. */
  predicate Below(a: Price, b: Price) {
    a.num * b.den < b.num * a.den
  }

  /** a < (pct / 100) * b as rationals. */
  predicate BelowPercent(a: Price, pct: nat, b: Price) {
    100 * (a.num * b.den) < pct * (b.num * a.den)
  }

  /** a > (pct / 100) * b as rationals. */
  predicate AbovePercent(a: Price, pct: nat, b: Price) {
    100 * (a.num * b.den) > pct * (b.num * a.den)
  }

  /** The entry term of the cross-multiplication, which is also the divisor of the PnL. */
  function EntryTerm(cur: Price, entry: Price): nat {
    entry.num * cur.den
  }

  // ---- The tests, with the 128-bit arithmetic written out -----------------

  /** PnL from the two cross products: l for the current price, r for the entry price. */
  function PnlOfCross(l: nat, r: nat): int {
    var lhs := CheckedI128(l);
    var rhs := CheckedI128(r);
    if lhs.Some? && rhs.Some? && r != 0 then
      WrapI64(TruncDiv(SaturateI128(SaturateI128(l - r) * BPS), r))
    else 0
  }

  function ComputePnlBps(cur: Price, entry: Price): int {
    if cur.den == 0 || entry.num == 0 || entry.den == 0 then 0
    else PnlOfCross(cur.num * entry.den, EntryTerm(cur, entry))
  }

  /** hwm < cur; an overflow reads as false. */
  predicate UpdatesHighWater(cur: Price, hwm: Price) {
    var lhs := CheckedU128(cur.num * hwm.den);
    var rhs := CheckedU128(hwm.num * cur.den);
    lhs.Some? && rhs.Some? && lhs.value > rhs.value
  }

  /** cur >= 1.30 * entry, with the right-hand side rounded down. */
  predicate ActivatesProfitLock(cur: Price, entry: Price) {
    var lhs := CheckedU128(cur.num * entry.den);
    var rhs := CheckedU128(entry.num * cur.den * 130);
    lhs.Some? && rhs.Some? && lhs.value >= rhs.value / 100
  }

  /** cur >= entry; an overflow reads as false. */
  predicate IsSnapback(cur: Price, entry: Price) {
    var lhs := CheckedU128(cur.num * entry.den);
    var rhs := CheckedU128(entry.num * cur.den);
    lhs.Some? && rhs.Some? && lhs.value >= rhs.value
  }

  /** A return on entry of at least 100%. With a zero divisor the floating-point
      quotient is infinite, or not a number when the numerator is zero too. */
  predicate AtLeastDoubled(cur: Price, entry: Price) {
    var num := cur.num * entry.den;
    var den := cur.den * entry.num;
    if den == 0 then num > 0 else num >= 2 * den
  }

  predicate BelowTrailStop(cur: Price, hwm: Price, trailBps: nat)
    requires trailBps <= BPS
  {
    var lhs := CheckedU128(cur.num * hwm.den * BPS);
    var rhs := CheckedU128(hwm.num * cur.den * (BPS - trailBps));
    lhs.Some? && rhs.Some? && lhs.value < rhs.value
  }

  predicate BelowProfitLockFloor(cur: Price, entry: Price) {
    var lhs := CheckedU128(cur.num * entry.den * 100);
    var rhs := CheckedU128(entry.num * cur.den * 110);
    lhs.Some? && rhs.Some? && lhs.value < rhs.value
  }

  /** ln(cur / prev) < -0.128. Since e^-0.128 is 0.87985..., a ratio of 0.88 or
      more never breaches and one below 0.8798 always does; `tie` stands for the
      rounded logarithm in between. Zero amounts give velocity zero. */
  predicate BreachesPanicVelocity(prev: Price, cur: Price, tie: bool) {
    && prev.num > 0 && prev.den > 0 && cur.num > 0 && cur.den > 0
    && BelowPercent(cur, 88, prev)
    && (tie || BPS * (cur.num * prev.den) < 8798 * (prev.num * cur.den))
  }

  // ---- Facts about ratios --------------------------------------------------

  lemma ProductFits(a: u64, b: u64)
    ensures 0 <= a * b < TWO_128
  {
    MulMono(0, b, a);
    MulMono(a, U64_MAX, b);
    assert U64_MAX * b < TWO_128;
  }

  /** The snapback test never overflows, so it decides exactly cur >= entry. */
  lemma SnapbackIsExact(cur: Price, entry: Price)
    ensures IsSnapback(cur, entry) <==> !Below(cur, entry)
    ensures UpdatesHighWater(cur, entry) <==> Below(entry, cur)
  {
    ProductFits(cur.num, entry.den);
    ProductFits(entry.num, cur.den);
  }

  /** A price below `c` parts of 100 of something not above entry is below `c` parts of entry. */
  lemma BelowPercentTrans(cur: Price, prev: Price, entry: Price, pct: nat)
    requires BelowPercent(cur, pct, prev) && !Below(entry, prev)
    requires prev.den > 0 && entry.den > 0
    ensures BelowPercent(cur, pct, entry)
  {
    // Scale both inequalities to the common factor prev.den * entry.den.
    var a, b := 100 * (cur.num * prev.den), pct * (prev.num * cur.den);
    MulStrict(a, b, entry.den);
    MulMono(prev.num * entry.den, entry.num * prev.den, pct * cur.den);
    assert a * entry.den == 100 * (cur.num * entry.den) * prev.den;
    assert b * entry.den == (prev.num * entry.den) * (pct * cur.den);
    assert (entry.num * prev.den) * (pct * cur.den) == pct * (entry.num * cur.den) * prev.den;
    MulCancel(100 * (cur.num * entry.den), pct * (entry.num * cur.den), prev.den);
  }

  // ---- What the computed PnL means ------------------------------------------

  /** Below entry the computed PnL is the exact truncated loss, clipped by the
      128-bit saturation and lost altogether when the entry term overflows. */
  lemma LossPnl(l: nat, r: nat)
    requires l < r
    ensures PnlOfCross(l, r) == if r >= TWO_127 then 0 else -(Min((r - l) * BPS, TWO_127) / r)
  {
    if r < TWO_127 {
      var loss := Min((r - l) * BPS, TWO_127);
      assert SaturateI128(SaturateI128(l - r) * BPS) == -loss;
      QuotientAtMost(loss, BPS, r);
      NegatedQuotient(loss, r);
    }
  }

  lemma NegatedQuotient(loss: int, r: int)
    requires loss >= 0 && r > 0 && 0 <= loss / r <= BPS
    ensures WrapI64(TruncDiv(-loss, r)) == -(loss / r)
  {
    var q := loss / r;
    assert TruncDiv(-loss, r) == -q;
    assert WrapI64(-q) == -q;
  }

  /** The guard on the panic exit, exactly. Below entry, `pnl > -1500` says the
      price is above 85% of entry, except that it also lets every price through
      once the entry term is so large that the arithmetic clips. */
  lemma PanicGateIsExact(cur: Price, entry: Price)
    requires Below(cur, entry) && entry.den > 0 && cur.den > 0
    ensures ComputePnlBps(cur, entry) > PANIC_PNL_FLOOR_BPS
            <==> AbovePercent(cur, 85, entry) || 1500 * EntryTerm(cur, entry) > TWO_127
  {
    var l, r := cur.num * entry.den, EntryTerm(cur, entry);
    EntryPositive(cur, entry);
    LossPnl(l, r);
    var loss := Min((r - l) * BPS, TWO_127);
    if loss >= 1500 * r {
      if r < TWO_127 { QuotientAtLeast(loss, 1500, r); }
    } else {
      if r < TWO_127 { QuotientBelow(loss, 1500, r); }
    }
  }

  lemma EntryPositive(cur: Price, entry: Price)
    requires Below(cur, entry)
    ensures entry.num > 0 && cur.den > 0
  {
  }

  /** Which losses are booked as losses: those of a whole basis point or more
      whose entry term fits i128. Every other loss is booked as zero, that is as a win. */
  lemma LossIsNegativeExactly(cur: Price, entry: Price)
    requires Below(cur, entry) && entry.den > 0
    ensures ComputePnlBps(cur, entry) < 0
            <==> EntryTerm(cur, entry) < TWO_127
                 && (EntryTerm(cur, entry) - cur.num * entry.den) * BPS >= EntryTerm(cur, entry)
  {
    var l, r := cur.num * entry.den, EntryTerm(cur, entry);
    EntryPositive(cur, entry);
    LossPnl(l, r);
    var loss := Min((r - l) * BPS, TWO_127);
    if r < TWO_127 {
      if loss >= r {
        QuotientAtLeast(loss, 1, r);
      } else {
        QuotientBelow(loss, 1, r);
      }
    }
  }

  /** A price below 88% and above 85% of entry is booked between -1499 and -1200. */
  lemma PanicPnlRange(cur: Price, entry: Price)
    requires BelowPercent(cur, 88, entry) && AbovePercent(cur, 85, entry)
    requires entry.den > 0 && 1500 * EntryTerm(cur, entry) <= TWO_127
    ensures -1499 <= ComputePnlBps(cur, entry) <= -1200
  {
    var l, r := cur.num * entry.den, EntryTerm(cur, entry);
    EntryPositive(cur, entry);
    LossPnl(l, r);
    QuotientAtLeast((r - l) * BPS, 1200, r);
    QuotientBelow((r - l) * BPS, 1500, r);
  }

  /** The exact gain in basis points, clipped at the i128 maximum, before the cast to i64. */
  function GainBps(cur: Price, entry: Price): int {
    if EntryTerm(cur, entry) == 0 then 0
    else Min(SaturatingSub(cur.num * entry.den, EntryTerm(cur, entry)) * BPS, TWO_127 - 1) / EntryTerm(cur, entry)
  }

  /** At or above entry the PnL is booked as non-negative exactly when the cast
      of the gain to i64 does not come out negative. */
  lemma GainIsNonNegativeExactly(cur: Price, entry: Price)
    requires !Below(cur, entry) && cur.den > 0
    ensures ComputePnlBps(cur, entry) >= 0
            <==> cur.num * entry.den >= TWO_127 || GainBps(cur, entry) % TWO_64 < TWO_63
  {
    var l, r := cur.num * entry.den, EntryTerm(cur, entry);
    if entry.num > 0 {
      MulStrict(0, entry.num, cur.den);
      assert entry.den > 0 by {
        if entry.den == 0 { assert false; }
      }
      if l < TWO_127 {
        var q := GainBps(cur, entry);
        assert SaturateI128((l - r) * BPS) == Min((l - r) * BPS, TWO_127 - 1);
        WrapIsNonNegative(q);
      }
    }
  }

  lemma WrapIsNonNegative(q: int)
    ensures WrapI64(q) >= 0 <==> q % TWO_64 < TWO_63
  {
    var m := q % TWO_64;
    assert q == (q / TWO_64) * TWO_64 + m;
    assert (q + TWO_63) % TWO_64 == (m + TWO_63) % TWO_64;
  }
}
