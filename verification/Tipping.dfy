/** The bounded tip bid: a piecewise rule over the tip-floor percentiles, capped
    by a share of the expected profit. */
module Tipping {
  import opened Primitives

  datatype TipTelemetry = TipTelemetry(p50: u64, p75: u64, p95: u64, observedAt: nat)

  datatype TipConfig = TipConfig(maxTelemetryAgeMs: nat, maxProfitShareBps: u16, minimumNetProfit: u64)

  datatype TipSkipReason = TelemetryStale | InsufficientEdge | TipCapHit

  datatype TipDecision = Bid(lamports: u64, telemetryAgeMs: u64) | Skip(reason: TipSkipReason)

  datatype TelemetryError = FetchFailed | PercentilesOutOfOrder

  predicate Ordered(t: TipTelemetry) {
    t.p50 <= t.p75 <= t.p95
  }

  /** The ordering check made when a response is parsed. */
  function AcceptTelemetry(p50: u64, p75: u64, p95: u64, observedAt: nat): (r: Result<TipTelemetry, TelemetryError>)
    ensures r.Ok? ==> Ordered(r.value)
  {
    if p50 > p75 || p75 > p95 then Err(PercentilesOutOfOrder) else Ok(TipTelemetry(p50, p75, p95, observedAt))
  }

  function Candidate(t: TipTelemetry, profit: u64): nat {
    if profit < 3 * t.p50 then t.p50
    else if profit < 10 * t.p50 then t.p75
    else Min(t.p95, profit * 2500 / 10_000)
  }

  function ShareCap(profit: u64, shareBps: u16): nat {
    profit * shareBps / 10_000
  }

  /** The tip before the narrowing cast. */
  function TipAmount(t: TipTelemetry, shareBps: u16, profit: u64): nat {
    Min(Candidate(t, profit), ShareCap(profit, shareBps))
  }

  function CalculateTip(telemetry: Option<TipTelemetry>, cfg: TipConfig, profit: u64, now: nat): TipDecision {
    if telemetry.None? then Skip(TelemetryStale)
    else
      var t := telemetry.value;
      var age := SaturatingSub(now, t.observedAt);
      if age > cfg.maxTelemetryAgeMs then Skip(TelemetryStale)
      else if profit < 2 * t.p50 then Skip(InsufficientEdge)
      else
        var lamports := WrapU64(TipAmount(t, cfg.maxProfitShareBps, profit));
        if SaturatingSub(profit, lamports) < cfg.minimumNetProfit then Skip(TipCapHit)
        else Bid(lamports, WrapU64(age))
  }

  // ---- Bounds ------------------------------------------------------------------------

  lemma TipAmountBounds(t: TipTelemetry, shareBps: u16, profit: u64)
    requires Ordered(t)
    ensures TipAmount(t, shareBps, profit) <= t.p95
    ensures profit >= 10 * t.p50 ==> 4 * TipAmount(t, shareBps, profit) <= profit
    ensures shareBps <= 10_000 ==> TipAmount(t, shareBps, profit) <= profit
  {
    if shareBps <= 10_000 {
      MulMono(shareBps, 10_000, profit);
      assert profit * shareBps <= profit * 10_000;
    }
  }

  /** Every bid, on ordered percentiles: within p95 and the profit share, within a
      quarter of the profit once that reaches ten times the median, and the cast
      loses nothing. With a share of at most 100% the profit left after the tip is
      non-negative and meets the configured minimum. */
  lemma BidBounds(telemetry: Option<TipTelemetry>, cfg: TipConfig, profit: u64, now: nat)
    requires telemetry.Some? ==> Ordered(telemetry.value)
    requires CalculateTip(telemetry, cfg, profit, now).Bid?
    ensures var bid := CalculateTip(telemetry, cfg, profit, now).lamports;
            && bid == TipAmount(telemetry.value, cfg.maxProfitShareBps, profit)
            && bid <= telemetry.value.p95
            && bid <= ShareCap(profit, cfg.maxProfitShareBps)
            && profit >= 2 * telemetry.value.p50
            && (profit >= 10 * telemetry.value.p50 ==> 4 * bid <= profit)
            && (cfg.maxProfitShareBps <= 10_000 ==> bid + cfg.minimumNetProfit <= profit)
  {
    TipAmountBounds(telemetry.value, cfg.maxProfitShareBps, profit);
  }

  /** An amount is within every cap that applies to the profit: the percentile of its
      bucket, a quarter of the profit in the highest bucket, and the profit share. */
  predicate WithinCaps(t: TipTelemetry, shareBps: u16, profit: u64, amount: nat) {
    && (profit < 3 * t.p50 ==> amount <= t.p50)
    && (3 * t.p50 <= profit < 10 * t.p50 ==> amount <= t.p75)
    && (profit >= 10 * t.p50 ==> amount <= t.p95 && 4 * amount <= profit)
    && 10_000 * amount <= profit * shareBps
  }

  lemma AtMostShare(amount: nat, product: nat)
    ensures amount <= product / 10_000 <==> 10_000 * amount <= product
  {
  }

  lemma TipAmountWithinCaps(t: TipTelemetry, shareBps: u16, profit: u64, amount: nat)
    ensures amount <= TipAmount(t, shareBps, profit) <==> WithinCaps(t, shareBps, profit, amount)
  {
    AtMostShare(amount, profit * shareBps);
    AtMostShare(amount, profit * 2500);
  }

  lemma CastLosesNothing(t: TipTelemetry, shareBps: u16, profit: u64)
    ensures WrapU64(TipAmount(t, shareBps, profit)) == TipAmount(t, shareBps, profit)
  {
    assert TipAmount(t, shareBps, profit) <= Candidate(t, profit) <= U64_MAX;
  }

  /** The bid is the greatest amount within all caps. */
  lemma BidIsGreatestWithinCaps(telemetry: Option<TipTelemetry>, cfg: TipConfig, profit: u64, now: nat, amount: nat)
    requires CalculateTip(telemetry, cfg, profit, now).Bid?
    ensures amount <= CalculateTip(telemetry, cfg, profit, now).lamports
            <==> WithinCaps(telemetry.value, cfg.maxProfitShareBps, profit, amount)
  {
    CastLosesNothing(telemetry.value, cfg.maxProfitShareBps, profit);
    TipAmountWithinCaps(telemetry.value, cfg.maxProfitShareBps, profit, amount);
  }

  /** When the rule bids, and what. `greatest` is the greatest amount within all caps.
      It bids exactly on telemetry that is not older than allowed, for a profit of at
      least two medians, when what is left of it meets the required net profit. */
  lemma BidsExactly(telemetry: Option<TipTelemetry>, cfg: TipConfig, profit: u64, now: nat, greatest: nat)
    requires telemetry.Some? ==>
               && WithinCaps(telemetry.value, cfg.maxProfitShareBps, profit, greatest)
               && !WithinCaps(telemetry.value, cfg.maxProfitShareBps, profit, greatest + 1)
    ensures var tip := CalculateTip(telemetry, cfg, profit, now);
            && (tip.Bid? <==>
                  && telemetry.Some? && now <= telemetry.value.observedAt + cfg.maxTelemetryAgeMs
                  && profit >= 2 * telemetry.value.p50
                  && (cfg.minimumNetProfit == 0 || greatest + cfg.minimumNetProfit <= profit))
            && (tip.Bid? ==> tip.lamports == greatest)
            && (tip == Skip(TelemetryStale) <==>
                  telemetry.None? || now > telemetry.value.observedAt + cfg.maxTelemetryAgeMs)
            && (tip == Skip(InsufficientEdge) ==> profit < 2 * telemetry.value.p50)
            && (tip == Skip(TipCapHit) ==> greatest + cfg.minimumNetProfit > profit)
  {
    if telemetry.Some? {
      CastLosesNothing(telemetry.value, cfg.maxProfitShareBps, profit);
      TipAmountWithinCaps(telemetry.value, cfg.maxProfitShareBps, profit, greatest);
      TipAmountWithinCaps(telemetry.value, cfg.maxProfitShareBps, profit, greatest + 1);
    }
  }

  /** The consumer estimates the profit at 1% of the trade; its bid is within that 1%. */
  lemma ConsumerBidWithinOnePercent(telemetry: Option<TipTelemetry>, cfg: TipConfig, amountIn: u64, now: nat)
    requires telemetry.Some? ==> Ordered(telemetry.value)
    requires cfg.maxProfitShareBps <= 10_000
    requires CalculateTip(telemetry, cfg, amountIn / 100, now).Bid?
    ensures 100 * CalculateTip(telemetry, cfg, amountIn / 100, now).lamports <= amountIn
  {
    BidBounds(telemetry, cfg, amountIn / 100, now);
  }

  /** An expected profit of zero bids exactly on fresh telemetry with a zero median and
      without a required net profit. */
  lemma ZeroProfitBidsExactly(telemetry: Option<TipTelemetry>, cfg: TipConfig, now: nat)
    ensures CalculateTip(telemetry, cfg, 0, now).Bid?
            <==> && telemetry.Some? && SaturatingSub(now, telemetry.value.observedAt) <= cfg.maxTelemetryAgeMs
                 && telemetry.value.p50 == 0 && cfg.minimumNetProfit == 0
  {
  }

  // ---- Monotonicity ---------------------------------------------------------------------

  /** Bids on one snapshot at one time are nondecreasing in the expected profit. */
  ghost predicate BidsMonotone(t: TipTelemetry, cfg: TipConfig, now: nat) {
    forall a: u64, b: u64 :: a <= b && Bids(t, cfg, a, now) && Bids(t, cfg, b, now)
      ==> BidAt(t, cfg, a, now) <= BidAt(t, cfg, b, now)
  }

  predicate Bids(t: TipTelemetry, cfg: TipConfig, profit: u64, now: nat) {
    CalculateTip(Some(t), cfg, profit, now).Bid?
  }

  function BidAt(t: TipTelemetry, cfg: TipConfig, profit: u64, now: nat): u64
    requires Bids(t, cfg, profit, now)
  {
    CalculateTip(Some(t), cfg, profit, now).lamports
  }

  /** No step down where the rule switches from p75 to a quarter of the profit, at
      ten times the median: p75, or the share cap just below the switch, is at most
      two and a half medians. A switch beyond u64 or at zero is never crossed. */
  predicate NoStepDown(t: TipTelemetry, shareBps: u16) {
    || t.p50 == 0
    || 10 * t.p50 > U64_MAX
    || Min(t.p75, ShareCap(10 * t.p50 - 1, shareBps)) <= 5 * t.p50 / 2
  }

  lemma ShareCapMonotone(a: u64, b: u64, shareBps: u16)
    requires a <= b
    ensures ShareCap(a, shareBps) <= ShareCap(b, shareBps)
  {
    MulMono(a, b, shareBps);
  }

  /** The amount falls only across the switch at ten medians, from the middle bucket. */
  lemma AmountFallsOnlyAtSwitch(t: TipTelemetry, shareBps: u16, a: u64, b: u64)
    requires Ordered(t) && a <= b
    ensures TipAmount(t, shareBps, a) > TipAmount(t, shareBps, b)
            ==> 3 * t.p50 <= a < 10 * t.p50 <= b && !NoStepDown(t, shareBps)
  {
    ShareCapMonotone(a, b, shareBps);
    if a < 10 * t.p50 <= b {
      var last: u64 := 10 * t.p50 - 1;
      ShareCapMonotone(a, last, shareBps);
      ShareCapMonotone(last, b, shareBps);
    }
  }

  /** What is left of the profit after the share cap does not fall as the profit grows. */
  lemma NetOfShareMonotone(a: u64, b: u64, shareBps: u16)
    requires a <= b && shareBps <= 10_000
    ensures a - ShareCap(a, shareBps) <= b - ShareCap(b, shareBps)
  {
    var more := b - a;
    MulMono(shareBps, 10_000, more);
    assert b * shareBps == a * shareBps + more * shareBps;
    assert more * shareBps <= more * 10_000;
  }

  /** A share above 100% caps no amount below the profit itself. */
  lemma WideShareCapsNothing(a: u64, shareBps: u16)
    requires shareBps >= 10_000
    ensures ShareCap(a, shareBps) >= a
  {
    MulMono(10_000, shareBps, a);
    assert a * shareBps >= a * 10_000;
  }

  /** In the middle bucket the profit left after the tip does not fall. */
  lemma NetMonotoneInMiddle(t: TipTelemetry, shareBps: u16, a: u64, b: u64)
    requires 3 * t.p50 <= a <= b < 10 * t.p50
    ensures SaturatingSub(a, TipAmount(t, shareBps, a)) <= SaturatingSub(b, TipAmount(t, shareBps, b))
  {
    if shareBps <= 10_000 {
      NetOfShareMonotone(a, b, shareBps);
    } else {
      WideShareCapsNothing(a, shareBps);
      WideShareCapsNothing(b, shareBps);
    }
  }

  /** If some profit of the middle bucket bids, so does the last one. */
  lemma LastOfMiddleBids(t: TipTelemetry, cfg: TipConfig, a: u64, now: nat)
    requires 3 * t.p50 <= a < 10 * t.p50 <= U64_MAX && Bids(t, cfg, a, now)
    ensures Bids(t, cfg, 10 * t.p50 - 1, now)
  {
    var last: u64 := 10 * t.p50 - 1;
    NetMonotoneInMiddle(t, cfg.maxProfitShareBps, a, last);
    CastLosesNothing(t, cfg.maxProfitShareBps, a);
    CastLosesNothing(t, cfg.maxProfitShareBps, last);
  }

  /** Where there is a step down and the last profit before it bids, the first one
      after it bids less. */
  lemma StepDownShows(t: TipTelemetry, cfg: TipConfig, now: nat)
    requires Ordered(t) && !NoStepDown(t, cfg.maxProfitShareBps) && Bids(t, cfg, 10 * t.p50 - 1, now)
    ensures Bids(t, cfg, 10 * t.p50, now) && BidAt(t, cfg, 10 * t.p50 - 1, now) > BidAt(t, cfg, 10 * t.p50, now)
  {
    var last: u64, first: u64 := 10 * t.p50 - 1, 10 * t.p50;
    CastLosesNothing(t, cfg.maxProfitShareBps, last);
    CastLosesNothing(t, cfg.maxProfitShareBps, first);
    assert TipAmount(t, cfg.maxProfitShareBps, last) == Min(t.p75, ShareCap(last, cfg.maxProfitShareBps));
    assert TipAmount(t, cfg.maxProfitShareBps, first) <= 5 * t.p50 / 2;
  }

  /** Bids are nondecreasing in the expected profit exactly when there is no step
      down at ten medians or the last profit before it does not bid. */
  lemma BidsMonotoneExactly(t: TipTelemetry, cfg: TipConfig, now: nat)
    requires Ordered(t)
    ensures BidsMonotone(t, cfg, now)
            <==> NoStepDown(t, cfg.maxProfitShareBps) || !Bids(t, cfg, 10 * t.p50 - 1, now)
  {
    if NoStepDown(t, cfg.maxProfitShareBps) || !Bids(t, cfg, 10 * t.p50 - 1, now) {
      forall a: u64, b: u64 | a <= b && Bids(t, cfg, a, now) && Bids(t, cfg, b, now)
        ensures BidAt(t, cfg, a, now) <= BidAt(t, cfg, b, now)
      {
        CastLosesNothing(t, cfg.maxProfitShareBps, a);
        CastLosesNothing(t, cfg.maxProfitShareBps, b);
        if BidAt(t, cfg, a, now) > BidAt(t, cfg, b, now) {
          AmountFallsOnlyAtSwitch(t, cfg.maxProfitShareBps, a, b);
          LastOfMiddleBids(t, cfg, a, now);
        }
      }
    } else {
      StepDownShows(t, cfg, now);
    }
  }

  /** In particular whenever twice p75 is at most five medians, whatever the share. */
  lemma BidsMonotoneWhenP75IsLow(t: TipTelemetry, cfg: TipConfig, now: nat)
    requires Ordered(t) && 2 * t.p75 <= 5 * t.p50
    ensures BidsMonotone(t, cfg, now)
  {
    BidsMonotoneExactly(t, cfg, now);
  }

  // ---- The engine --------------------------------------------------------------------------

  /** Holds the last accepted snapshot. */
  class TipTelemetryEngine {
    const config: TipConfig
    var telemetry: Option<TipTelemetry>

    ghost predicate Valid()
      reads this
    {
      telemetry.Some? ==> Ordered(telemetry.value)
    }

    constructor (config: TipConfig)
      ensures Valid() && telemetry.None? && this.config == config
    {
      this.config, telemetry := config, None;
    }

    /** A successful fetch overwrites the snapshot; a failed one keeps the previous one. */
    method Refresh(fetched: Result<(u64, u64, u64), TelemetryError>, now: nat)
      requires Valid()
      modifies this
      ensures Valid()
      ensures telemetry == if fetched.Ok? && fetched.value.0 <= fetched.value.1 <= fetched.value.2
                           then Some(TipTelemetry(fetched.value.0, fetched.value.1, fetched.value.2, now))
                           else old(telemetry)
    {
      if fetched.Ok? {
        var (p50, p75, p95) := fetched.value;
        var accepted := AcceptTelemetry(p50, p75, p95, now);
        if accepted.Ok? {
          telemetry := Some(accepted.value);
        }
      }
    }
  }
}
