/** A position from signal to exit, for amounts of ordinary size: what the gates let
    through, what the watcher does with it, and what its sale asks for and books. */
module Lifecycle {
  import opened Primitives
  import opened Types
  import opened ExitArithmetic
  import opened ExitWatcher
  import opened SellPipeline
  import ExecutionConsumerModule
  import CircuitBreaker
  import RaydiumSwap
  import TipRotation

  const ORDINARY := 0x100_0000_0000_0000

  /** Every price amount in the feed is below 2^56. */
  predicate OrdinaryFeed(feed: seq<FeedItem>) {
    forall i :: 0 <= i < |feed| && feed[i].Tick? ==>
      feed[i].event.baseAmount < ORDINARY && feed[i].event.quoteAmount < ORDINARY
  }

  /** The position a handed-off order becomes once its balance is read back. */
  function PositionOf(order: ExecutionConsumerModule.Order, cfg: ExecutionConsumerModule.Config,
                      s: ExecutionConsumerModule.Signal, acquired: u64): ActivePosition
    requires acquired > 0
  {
    Handoff(order.mint, order.pool, order.amountIn, acquired, cfg.tipLamports, s.timestampMs,
            order.maxSlippageBps).value
  }

  lemma OrdinaryTermsDoNotClip(cur: Price, entry: Price)
    requires cur.num < ORDINARY && cur.den < ORDINARY && entry.num < ORDINARY && entry.den < ORDINARY
    ensures 1500 * EntryTerm(cur, entry) <= TWO_127 && EntryTerm(cur, entry) < TWO_127
    ensures cur.num * entry.den < TWO_127
  {
    MulMono(cur.den, ORDINARY, entry.num);
    MulMono(entry.num, ORDINARY, ORDINARY);
    MulMono(cur.num, ORDINARY, entry.den);
    MulMono(entry.den, ORDINARY, ORDINARY);
  }

  /** The price of a sale is the price of a tick in the feed. */
  lemma SalePriceIsOrdinary(pos: ActivePosition, feed: seq<FeedItem>, sell: Sell)
    requires pos.entry.den > 0 && OrdinaryFeed(feed) && sell in RunFrom(pos, InitialState(pos), feed, []).sells
    ensures sell.price.num < ORDINARY && 0 < sell.price.den < ORDINARY
    ensures SaleJustified(pos, sell)
  {
    var _ := SaleIsOnATick(pos, feed, sell);
  }

  /** At ordinary amounts every sale is a snapback at or above entry or a panic
      strictly between 85% and 88% of entry, without exception. */
  lemma OrdinaryExits(pos: ActivePosition, feed: seq<FeedItem>, sell: Sell)
    requires 0 < pos.entry.den < ORDINARY && pos.entry.num < ORDINARY && OrdinaryFeed(feed)
    requires sell in RunFrom(pos, InitialState(pos), feed, []).sells
    ensures match sell.reason
            case VwapSnapback => !Below(sell.price, pos.entry)
            case PanicVelocity => BelowPercent(sell.price, 88, pos.entry) && AbovePercent(sell.price, 85, pos.entry)
            case _ => false
  {
    SalePriceIsOrdinary(pos, feed, sell);
    OrdinaryTermsDoNotClip(sell.price, pos.entry);
  }

  /** Every attempt of every sale of an ordinary position meets its floor. */
  lemma OrdinaryFloor(pos: ActivePosition, feed: seq<FeedItem>, sell: Sell, attempt: nat)
    requires 0 < pos.entry.den == pos.acquired < ORDINARY && pos.entry.num < ORDINARY && OrdinaryFeed(feed)
    requires sell in RunFrom(pos, InitialState(pos), feed, []).sells && attempt >= 1
    requires ExpectedWsol(pos.acquired, sell.price) < TWO_64
    ensures MeetsFloor(pos.entry.num, sell,
                       MinimumOut(sell.reason, pos.maxSlippageBps, pos.acquired, sell.price, attempt))
  {
    OrdinaryExits(pos, feed, sell);
    SalePriceIsOrdinary(pos, feed, sell);
    if sell.reason.VwapSnapback? {
      SnapbackMeetsFloor(pos, sell, attempt);
    } else {
      PanicMeetsFloor(pos, sell, attempt);
    }
  }

  /** Whatever the network does, each submission is one attempt of the schedule. */
  lemma SubmissionIsAnAttempt(sell: Sell, pos: ActivePosition, route: Route, env: seq<AttemptEnv>, i: nat)
    requires |env| == MAX_SELL_ATTEMPTS && i < |SellBundle(sell.reason, pos, sell.price, route, env).1|
    ensures var sent := SellBundle(sell.reason, pos, sell.price, route, env).1[i];
            OnSchedule(sell.reason, pos, sell.price, route, sent) && sent.tipLamports >= MINIMUM_JITO_TIP_LAMPORTS
  {
    SubmissionsOnSchedule(sell.reason, pos, sell.price, route, env, 1, []);
    TipStep(pos.tipLamports, SellBundle(sell.reason, pos, sell.price, route, env).1[i].attempt);
  }

  /** A position bought on Raydium is sold through the keys of its pool, any other
      through PumpPortal. */
  predicate RouteFits(order: ExecutionConsumerModule.Order, route: Route) {
    if order.pool == PumpPool then route == PumpPortal
    else route.Raydium? && order.pool == RaydiumPool(route.keys.ammId)
  }

  /** A sent bundle offers the whole bag and asks for its floor, in its own bytes. */
  predicate AsksForFloor(sent: Submission, amountIn: u64, acquired: u64, sell: Sell) {
    && sent.instruction.Some?
    && RaydiumSwap.AmountInOf(sent.instruction.value) == acquired
    && MeetsFloor(amountIn, sell, RaydiumSwap.MinimumOutOf(sent.instruction.value))
    && sent.tipLamports >= MINIMUM_JITO_TIP_LAMPORTS
  }

  /** From signal to submission. An order bought outside Raydium is never sold. On
      Raydium, whatever the feed and the network do, the bytes of each submission of
      each sale offer the bag and ask for at least the floor of what the signal paid,
      and it tips at least the minimum, as long as the proceeds fit u64. */
  lemma SignalToExit(v: ExecutionConsumerModule.View, s: ExecutionConsumerModule.Signal,
                     cfg: ExecutionConsumerModule.Config, e: ExecutionConsumerModule.Env,
                     order: ExecutionConsumerModule.Order, acquired: u64,
                     feed: seq<FeedItem>, sell: Sell, route: Route, env: seq<AttemptEnv>, i: nat)
    requires TipRotation.WellFormed(v.rotation) && |env| == MAX_SELL_ATTEMPTS && RouteFits(order, route)
    requires 0 < acquired < ORDINARY && s.amountIn < ORDINARY && OrdinaryFeed(feed)
    ensures var pos := PositionOf(order, cfg, s, acquired);
            var sent := SellBundle(sell.reason, pos, sell.price, route, env).1;
            && ExecutionConsumerModule.IsVerdict(ExecutionConsumerModule.HandedOff(order), v, s, cfg, e)
            && sell in RunFrom(pos, InitialState(pos), feed, []).sells
            ==> e.raydium.Some? && route.Raydium? && route.keys.ammId == e.raydium.value.pool
                && (i < |sent| && ExpectedWsol(acquired, sell.price) < TWO_64
                    ==> AsksForFloor(sent[i], s.amountIn, acquired, sell))
  {
    var pos := PositionOf(order, cfg, s, acquired);
    if ExecutionConsumerModule.IsVerdict(ExecutionConsumerModule.HandedOff(order), v, s, cfg, e)
       && sell in RunFrom(pos, InitialState(pos), feed, []).sells
    {
      OrderIsOfSignal(v, s, cfg, e, order);
      if pos.sourcePool == PumpPool {
        PumpPositionNeverSells(pos, InitialState(pos), feed, []);
      }
      var sent := SellBundle(sell.reason, pos, sell.price, route, env).1;
      if i < |sent| && ExpectedWsol(acquired, sell.price) < TWO_64 {
        SubmissionIsAnAttempt(sell, pos, route, env, i);
        OrdinaryFloor(pos, feed, sell, sent[i].attempt);
      }
    }
  }

  lemma OrderIsOfSignal(v: ExecutionConsumerModule.View, s: ExecutionConsumerModule.Signal,
                        cfg: ExecutionConsumerModule.Config, e: ExecutionConsumerModule.Env,
                        order: ExecutionConsumerModule.Order)
    requires TipRotation.WellFormed(v.rotation)
    requires ExecutionConsumerModule.IsVerdict(ExecutionConsumerModule.HandedOff(order), v, s, cfg, e)
    ensures s.mint == Some(order.mint) && order.amountIn == s.amountIn
    ensures order.pool == if e.raydium.Some? then RaydiumPool(e.raydium.value.pool) else PumpPool
    ensures s.lane.Sniper? ==> order.maxSlippageBps == 250
    ensures s.lane.Degen? ==> order.maxSlippageBps == 200
    ensures s.lane.Swing? ==> order.maxSlippageBps == 150
    ensures s.lane.Conservative? ==> order.maxSlippageBps == 100
    ensures s.lane.Unknown? ==> order.maxSlippageBps == cfg.maxSlippageBps
    ensures s.timestampMs > 0 && e.freshNow <= s.timestampMs + cfg.maxSignalAgeMs
  {
    ExecutionConsumerModule.VerdictMeans(v, s, cfg, e, ExecutionConsumerModule.HandedOff(order));
  }

  /** A gain below 2^63 basis points survives the cast to i64. */
  lemma SmallGainSurvives(cur: Price, entry: Price)
    requires GainBps(cur, entry) < TWO_63
    ensures GainBps(cur, entry) % TWO_64 < TWO_63
  {
    if EntryTerm(cur, entry) > 0 {
      var gain := Min(SaturatingSub(cur.num * entry.den, EntryTerm(cur, entry)) * BPS, TWO_127 - 1);
      QuotientAtLeast(gain, 0, EntryTerm(cur, entry));
    }
  }

  /** A confirmed ordinary panic is booked as a loss of 12 to 15 percent; a confirmed
      snapback wipes the streak exactly when its gain survives the cast to i64, and so
      whenever it is below 2^63 basis points. */
  lemma OrdinaryBooking(pos: ActivePosition, feed: seq<FeedItem>, sell: Sell, b: CircuitBreaker.Breaker)
    requires 0 < pos.entry.den < ORDINARY && pos.entry.num < ORDINARY && OrdinaryFeed(feed)
    requires sell in RunFrom(pos, InitialState(pos), feed, []).sells
    ensures var pnl := ComputePnlBps(sell.price, pos.entry);
            && (sell.reason.PanicVelocity?
                ==> -1499 <= pnl <= -1200 && CircuitBreaker.Close(b, pnl).losses == b.losses + 1)
            && (sell.reason.VwapSnapback? ==>
                  (CircuitBreaker.Close(b, pnl).losses == 0 <==> GainBps(sell.price, pos.entry) % TWO_64 < TWO_63))
            && (sell.reason.VwapSnapback? && GainBps(sell.price, pos.entry) < TWO_63
                ==> CircuitBreaker.Close(b, pnl).losses == 0)
  {
    SalePriceIsOrdinary(pos, feed, sell);
    OrdinaryTermsDoNotClip(sell.price, pos.entry);
    ReasonFixesBooking(pos, feed, sell, b);
    if sell.reason.VwapSnapback? && GainBps(sell.price, pos.entry) < TWO_63 {
      SmallGainSurvives(sell.price, pos.entry);
    }
  }

  // ---- Where ordinary amounts are not enough ------------------------------------------------

  /** A feed of one tick at a price at or above entry sells the bag there. */
  lemma OneTickSnapback(pos: ActivePosition, item: FeedItem, price: Price)
    requires pos.entry.den > 0 && Classify(pos, item) == Live(price) && !Below(price, pos.entry)
    ensures RunFrom(pos, InitialState(pos), [item], []).sells == [Sell(VwapSnapback, price, pos.acquired, true)]
  {
    RunIsReference(pos, pos.entry, 0, [item]);
    assert [item][0] == item;
  }

  /** An ordinary position on an ordinary feed whose proceeds exceed u64: they are cast
      to zero and the snapback asks for nothing. */
  lemma OrdinaryFloorCanFail() returns (pos: ActivePosition, feed: seq<FeedItem>)
    ensures 0 < pos.entry.den == pos.acquired < ORDINARY && pos.entry.num < ORDINARY && OrdinaryFeed(feed)
    ensures var sells := RunFrom(pos, InitialState(pos), feed, []).sells;
            && |sells| == 1 && ExpectedWsol(pos.acquired, sells[0].price) >= TWO_64
            && !MeetsFloor(pos.entry.num, sells[0],
                           MinimumOut(sells[0].reason, pos.maxSlippageBps, pos.acquired, sells[0].price, 1))
  {
    var key, bag := Pubkey(9), 0x40_0000_0000_0000;
    pos := ActivePosition(key, RaydiumPool(key), Price(1000, bag), bag, 1000, 1, 100);
    feed := [Tick(SwapEvent(key, key, 1, bag, 1, 0, 0, 0, None), 1, false, 300, false)];
    var price := Price(bag, 1);
    OneTickSnapback(pos, feed[0], price);
    assert ExpectedWsol(bag, price) == bag * bag == 0x1000_0000_0000 * TWO_64;
    assert WrapU64(ExpectedWsol(bag, price)) == 0;
  }

  /** An ordinary position sold at a 10^15-fold gain: the gain does not fit i64 and the
      snapback is booked as a loss. */
  lemma SnapbackBookedAsLoss(b: CircuitBreaker.Breaker) returns (pos: ActivePosition, feed: seq<FeedItem>)
    ensures 0 < pos.entry.den < ORDINARY && pos.entry.num < ORDINARY && OrdinaryFeed(feed)
    ensures var sells := RunFrom(pos, InitialState(pos), feed, []).sells;
            && |sells| == 1 && sells[0].reason == VwapSnapback
            && CircuitBreaker.Close(b, ComputePnlBps(sells[0].price, pos.entry)).losses == b.losses + 1
  {
    var key := Pubkey(9);
    pos := ActivePosition(key, RaydiumPool(key), Price(1, 1), 1, 1000, 1, 100);
    feed := [Tick(SwapEvent(key, key, 1, 1_000_000_000_000_000, 1, 0, 0, 0, None), 1, false, 300, false)];
    var price := Price(1_000_000_000_000_000, 1);
    OneTickSnapback(pos, feed[0], price);
    assert ComputePnlBps(price, pos.entry) == WrapI64(9_999_999_999_999_990_000) < 0;
  }
}
