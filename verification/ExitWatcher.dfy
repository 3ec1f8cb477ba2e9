/** The position watcher: a loop over price ticks with a high-water mark, a
    profit lock, a partial-sale flag, a stale counter and the size of the bag.

    `RunWatcher` follows the loop with all its exit tests. `Reference` is a
    machine with two exit rules and no such state. `RunIsReference` shows that
    they are the same machine on every position the buy path can hand over. */
module ExitWatcher {
  import opened Primitives
  import opened Types
  import opened ExitArithmetic

  const MAX_TICK_STALENESS_MS := 30_000
  const MAX_CONSECUTIVE_STALE_TICKS := 20
  const SCALE_OUT_WINDOW_SECS := 60

  /** The trail distance in basis points, clamped to [3%, 20%]. */
  type TrailBps = x: int | 300 <= x <= 2000 witness 300

  const HARD_STOP_TRAIL_BPS := 1990

  datatype ActivePosition = ActivePosition(
    mint: Pubkey,
    sourcePool: SourcePool,
    entry: Price,
    acquired: u64,
    tipLamports: u64,
    entryTimestampMs: u64,
    maxSlippageBps: u16)

  datatype HandoffError = ZeroBalanceAfterBuy

  /** The position built from a confirmed buy: the entry price is the WSOL spent
      over the tokens acquired, kept as a ratio. */
  function Handoff(mint: Pubkey, pool: SourcePool, amountIn: u64, acquired: u64,
                   tipLamports: u64, timestampMs: u64, maxSlippageBps: u16): Result<ActivePosition, HandoffError>
  {
    if acquired == 0 then Err(ZeroBalanceAfterBuy)
    else Ok(ActivePosition(mint, pool, Price(amountIn, acquired), acquired, tipLamports, timestampMs, maxSlippageBps))
  }

  /** What the watcher's channel yields next. A tick carries the clock reading, the
      rounding of the logarithm at the panic threshold, the current trail distance
      and whether a scale-out sale attempted on this tick would land. */
  datatype FeedItem =
    | FeedTimeout
    | FeedClosed
    | Tick(event: SwapEvent, nowMs: u64, velocityTie: bool, trailBps: TrailBps, scaleOutLands: bool)

  datatype SellReason =
    | PanicVelocity
    | VwapSnapback
    | AdaptiveScaleOut
    | ProfitLockFloor
    | HardStop20Pct
    | AdaptiveTrail

  datatype Sell = Sell(reason: SellReason, price: Price, amount: u64, isFinal: bool)

  datatype WatcherState = WatcherState(
    hwm: Price,
    prev: Price,
    profitLock: bool,
    partialSold: bool,
    stale: nat,
    acquired: u64)

  datatype StopCause = ChannelClosed | FeedStale | Sold(sell: Sell)

  datatype WatcherEnd = Running(state: WatcherState) | Stopped(cause: StopCause)

  datatype WatcherRun = WatcherRun(end: WatcherEnd, sells: seq<Sell>)

  // ---- Tick validation -------------------------------------------------------

  datatype Arrival = Ended | Missed | Ignored | Live(price: Price)

  function Classify(pos: ActivePosition, item: FeedItem): Arrival {
    match item
    case FeedTimeout => Missed
    case FeedClosed => Ended
    case Tick(e, nowMs, _, _, _) =>
      if !EventMatchesPool(e, pos.sourcePool) then Ignored
      else if e.baseAmount == 0 || e.quoteAmount == 0 then Ignored
      else if nowMs > 0 && SaturatingSub(nowMs, e.timestampMs) > MAX_TICK_STALENESS_MS then Missed
      else Live(Price(e.quoteAmount, e.baseAmount))
  }

  // ---- The full machine ------------------------------------------------------

  datatype StepResult = Continue(state: WatcherState, scaleOut: Option<Sell>) | Stop(cause: StopCause)

  function InitialState(pos: ActivePosition): WatcherState {
    WatcherState(pos.entry, pos.entry, false, false, 0, pos.acquired)
  }

  function TrailReason(cur: Price, entry: Price, trailBps: TrailBps): SellReason {
    if BelowProfitLockFloor(cur, entry) then ProfitLockFloor
    else if trailBps >= HARD_STOP_TRAIL_BPS then HardStop20Pct
    else AdaptiveTrail
  }

  /** One live tick, with the exit tests in the order of the loop body. */
  function LiveTick(pos: ActivePosition, st: WatcherState, item: FeedItem, cur: Price): StepResult
    requires item.Tick?
  {
    var hwm := if UpdatesHighWater(cur, st.hwm) then cur else st.hwm;
    var lock := st.profitLock || ActivatesProfitLock(cur, pos.entry);
    var st1 := st.(hwm := hwm, profitLock := lock, stale := 0);
    if BreachesPanicVelocity(st.prev, cur, item.velocityTie) && ComputePnlBps(cur, pos.entry) > PANIC_PNL_FLOOR_BPS then
      Stop(Sold(Sell(PanicVelocity, cur, st.acquired, true)))
    else if IsSnapback(cur, pos.entry) then
      Stop(Sold(Sell(VwapSnapback, cur, st.acquired, true)))
    else if !st.partialSold && AtLeastDoubled(cur, pos.entry)
            && SaturatingSub(item.nowMs, pos.entryTimestampMs) / 1000 <= SCALE_OUT_WINDOW_SECS then
      var half := st.acquired / 2;
      var st2 := if item.scaleOutLands then st1.(acquired := st.acquired - half, partialSold := true) else st1;
      Continue(st2, Some(Sell(AdaptiveScaleOut, cur, half, false)))
    else if lock && (BelowTrailStop(cur, hwm, item.trailBps) || BelowProfitLockFloor(cur, pos.entry)) then
      Stop(Sold(Sell(TrailReason(cur, pos.entry, item.trailBps), cur, st.acquired, true)))
    else
      Continue(st1.(prev := cur), None)
  }

  function Step(pos: ActivePosition, st: WatcherState, item: FeedItem): StepResult {
    match Classify(pos, item)
    case Ended => Stop(ChannelClosed)
    case Missed =>
      if st.stale + 1 >= MAX_CONSECUTIVE_STALE_TICKS then Stop(FeedStale)
      else Continue(st.(stale := st.stale + 1), None)
    case Ignored => Continue(st, None)
    case Live(cur) => LiveTick(pos, st, item, cur)
  }

  /** The whole run from a state: every sale attempted, in order, after those in
      `sold`, and how the run ends. */
  function RunFrom(pos: ActivePosition, st: WatcherState, feed: seq<FeedItem>, sold: seq<Sell>): WatcherRun
    decreases |feed|
  {
    if feed == [] then WatcherRun(Running(st), sold)
    else
      match Step(pos, st, feed[0])
      case Stop(Sold(sell)) => WatcherRun(Stopped(Sold(sell)), sold + [sell])
      case Stop(cause) => WatcherRun(Stopped(cause), sold)
      case Continue(st', None) => RunFrom(pos, st', feed[1..], sold)
      case Continue(st', Some(sell)) => RunFrom(pos, st', feed[1..], sold + [sell])
  }

  /** The watcher loop. The channel is the sequence `feed`; a run cut short by the
      four-hour deadline is a run on a prefix of it. */
  method RunWatcher(pos: ActivePosition, feed: seq<FeedItem>) returns (sells: seq<Sell>, end: WatcherEnd)
    ensures WatcherRun(end, sells) == RunFrom(pos, InitialState(pos), feed, [])
  {
    var profitLock, partialSold := false, false;
    var stale: nat := 0;
    var hwm, prev := pos.entry, pos.entry;
    var acquired := pos.acquired;
    sells := [];
    var i := 0;
    while i < |feed|
      invariant 0 <= i <= |feed|
      invariant RunFrom(pos, WatcherState(hwm, prev, profitLock, partialSold, stale, acquired), feed[i..], sells)
             == RunFrom(pos, InitialState(pos), feed, [])
    {
      var item := feed[i];
      ghost var before := WatcherState(hwm, prev, profitLock, partialSold, stale, acquired);
      assert feed[i..][0] == item && feed[i..][1..] == feed[i + 1..];
      i := i + 1;
      var arrival := Classify(pos, item);
      if arrival.Ended? {
        return sells, Stopped(ChannelClosed);
      }
      if arrival.Missed? {
        stale := stale + 1;
        if stale >= MAX_CONSECUTIVE_STALE_TICKS {
          return sells, Stopped(FeedStale);
        }
        continue;
      }
      if arrival.Ignored? {
        continue;
      }
      stale := 0;
      var cur := arrival.price;
      assert Step(pos, before, item) == LiveTick(pos, before, item, cur);
      if UpdatesHighWater(cur, hwm) {
        hwm := cur;
      }
      if !profitLock && ActivatesProfitLock(cur, pos.entry) {
        profitLock := true;
      }
      var pnl := ComputePnlBps(cur, pos.entry);
      if BreachesPanicVelocity(prev, cur, item.velocityTie) && pnl > PANIC_PNL_FLOOR_BPS {
        var sell := Sell(PanicVelocity, cur, acquired, true);
        return sells + [sell], Stopped(Sold(sell));
      }
      if IsSnapback(cur, pos.entry) {
        var sell := Sell(VwapSnapback, cur, acquired, true);
        return sells + [sell], Stopped(Sold(sell));
      }
      var elapsedSecs := SaturatingSub(item.nowMs, pos.entryTimestampMs) / 1000;
      if !partialSold && AtLeastDoubled(cur, pos.entry) && elapsedSecs <= SCALE_OUT_WINDOW_SECS {
        var half := acquired / 2;
        sells := sells + [Sell(AdaptiveScaleOut, cur, half, false)];
        if item.scaleOutLands {
          acquired := acquired - half;
          partialSold := true;
        }
        continue;
      }
      if profitLock {
        var belowTrailStop := BelowTrailStop(cur, hwm, item.trailBps);
        var belowFloor := BelowProfitLockFloor(cur, pos.entry);
        if belowTrailStop || belowFloor {
          var sell := Sell(TrailReason(cur, pos.entry, item.trailBps), cur, acquired, true);
          return sells + [sell], Stopped(Sold(sell));
        }
      }
      prev := cur;
    }
    end := Running(WatcherState(hwm, prev, profitLock, partialSold, stale, acquired));
  }

  // ---- The reference machine --------------------------------------------------

  /** A watcher that remembers only the previous price and the stale count, and
      sells the whole bag on the first live tick that recovers to entry or that
      panics with the PnL guard open. */
  function Reference(pos: ActivePosition, prev: Price, stale: nat, feed: seq<FeedItem>): WatcherEnd
    decreases |feed|
  {
    if feed == [] then Running(QuietState(pos, prev, stale))
    else
      match Classify(pos, feed[0])
      case Ended => Stopped(ChannelClosed)
      case Missed =>
        if stale + 1 >= MAX_CONSECUTIVE_STALE_TICKS then Stopped(FeedStale)
        else Reference(pos, prev, stale + 1, feed[1..])
      case Ignored => Reference(pos, prev, stale, feed[1..])
      case Live(cur) =>
        if !Below(cur, pos.entry) then Stopped(Sold(Sell(VwapSnapback, cur, pos.acquired, true)))
        else if PanicFires(pos, prev, cur, feed[0].velocityTie) then
          Stopped(Sold(Sell(PanicVelocity, cur, pos.acquired, true)))
        else Reference(pos, cur, 0, feed[1..])
  }

  /** The panic rule in terms of prices: a one-tick fall through the velocity
      threshold, and a price above 85% of entry unless the entry term clips. */
  predicate PanicFires(pos: ActivePosition, prev: Price, cur: Price, tie: bool) {
    && BreachesPanicVelocity(prev, cur, tie)
    && (AbovePercent(cur, 85, pos.entry) || 1500 * EntryTerm(cur, pos.entry) > TWO_127)
  }

  /** High-water mark at entry, no lock, nothing sold, the bag whole. */
  function QuietState(pos: ActivePosition, prev: Price, stale: nat): WatcherState {
    WatcherState(pos.entry, prev, false, false, stale, pos.acquired)
  }

  function SellsOf(end: WatcherEnd): seq<Sell> {
    if end.Stopped? && end.cause.Sold? then [end.cause.sell] else []
  }

  lemma BelowEntryIsQuiet(pos: ActivePosition, cur: Price)
    requires Below(cur, pos.entry)
    ensures !UpdatesHighWater(cur, pos.entry) && !IsSnapback(cur, pos.entry)
    ensures !ActivatesProfitLock(cur, pos.entry) && !AtLeastDoubled(cur, pos.entry)
  {
    SnapbackIsExact(cur, pos.entry);
    assert cur.den * pos.entry.num == EntryTerm(cur, pos.entry);
  }

  /** A live tick at or above entry never panics first: the fall would be from above entry. */
  lemma NoPanicAtEntry(prev: Price, cur: Price, entry: Price, tie: bool)
    requires !Below(cur, entry) && !Below(entry, prev) && prev.den > 0 && entry.den > 0
    ensures !BreachesPanicVelocity(prev, cur, tie)
  {
    if BreachesPanicVelocity(prev, cur, tie) {
      BelowPercentTrans(cur, prev, entry, 88);
    }
  }

  /** The watcher and the two-rule machine agree on every feed: same end, same
      final state, same sales. In particular the high-water mark stays at entry
      and the profit lock, scale-out and trailing rules never act. */
  lemma {:induction false} RunIsReference(pos: ActivePosition, prev: Price, stale: nat, feed: seq<FeedItem>)
    requires pos.entry.den > 0 && prev.den > 0 && !Below(pos.entry, prev)
    ensures var end := Reference(pos, prev, stale, feed);
            RunFrom(pos, QuietState(pos, prev, stale), feed, []) == WatcherRun(end, SellsOf(end))
    decreases |feed|
  {
    if feed != [] {
      var st := QuietState(pos, prev, stale);
      match Classify(pos, feed[0])
      case Ended =>
      case Missed =>
        if stale + 1 < MAX_CONSECUTIVE_STALE_TICKS {
          RunIsReference(pos, prev, stale + 1, feed[1..]);
          assert Step(pos, st, feed[0]) == Continue(QuietState(pos, prev, stale + 1), None);
        }
      case Ignored => RunIsReference(pos, prev, stale, feed[1..]);
      case Live(cur) =>
        if Below(cur, pos.entry) {
          BelowEntryIsQuiet(pos, cur);
          PanicGateIsExact(cur, pos.entry);
          RunIsReference(pos, cur, 0, feed[1..]);
        } else {
          NoPanicAtEntry(prev, cur, pos.entry, feed[0].velocityTie);
          SnapbackIsExact(cur, pos.entry);
        }
    }
  }

  // ---- The ticks of a feed, told without the loop ----------------------------------

  /** A tick of the position's own pool with both amounts. */
  predicate Quoted(pos: ActivePosition, item: FeedItem) {
    && item.Tick? && pos.sourcePool == RaydiumPool(item.event.poolId)
    && item.event.baseAmount != 0 && item.event.quoteAmount != 0
  }

  /** A quoted tick that is at most thirty seconds old. */
  predicate Usable(pos: ActivePosition, item: FeedItem) {
    Quoted(pos, item) && item.nowMs <= item.event.timestampMs + 30_000
  }

  /** A timeout, or a quoted tick that is older. */
  predicate Miss(pos: ActivePosition, item: FeedItem) {
    item.FeedTimeout? || (Quoted(pos, item) && item.nowMs > item.event.timestampMs + 30_000)
  }

  /** WSOL lamports over raw token units. */
  function TickPrice(item: FeedItem): Price
    requires item.Tick?
  {
    Price(item.event.quoteAmount, item.event.baseAmount)
  }

  /** The price of the last usable tick before n, or `start` when there is none. */
  function LastPrice(pos: ActivePosition, start: Price, feed: seq<FeedItem>, n: nat): Price
    requires n <= |feed|
  {
    if n == 0 then start
    else if Usable(pos, feed[n - 1]) then TickPrice(feed[n - 1])
    else LastPrice(pos, start, feed, n - 1)
  }

  /** The misses since the last usable tick before n, after `stale` at the start. */
  function MissesBefore(pos: ActivePosition, stale: nat, feed: seq<FeedItem>, n: nat): nat
    requires n <= |feed|
  {
    if n == 0 then stale
    else if Usable(pos, feed[n - 1]) then 0
    else MissesBefore(pos, stale, feed, n - 1) + if Miss(pos, feed[n - 1]) then 1 else 0
  }

  // ---- What a run can do --------------------------------------------------------

  /** Why the watcher may sell: the whole bag, at or above entry, or on a panic
      strictly below 88% of entry and, unless the entry term clips, above 85%. */
  predicate SaleJustified(pos: ActivePosition, sell: Sell) {
    && sell.isFinal
    && sell.amount == pos.acquired
    && match sell.reason
       case VwapSnapback => !Below(sell.price, pos.entry)
       case PanicVelocity =>
         && BelowPercent(sell.price, 88, pos.entry)
         && (AbovePercent(sell.price, 85, pos.entry) || 1500 * EntryTerm(sell.price, pos.entry) > TWO_127)
       case _ => false
  }

  /** A fall below 87.98% of the price before, to above 85% of entry. */
  predicate FallsHard(pos: ActivePosition, last: Price, event: SwapEvent) {
    && 10_000 * (event.quoteAmount * last.den) < 8798 * (last.num * event.baseAmount)
    && 100 * (event.quoteAmount * pos.entry.den) > 85 * (pos.entry.num * event.baseAmount)
  }

  /** The item at n leaves the watcher waiting: it does not close the channel, is not
      the twentieth miss, and if it is a usable tick its price is below entry and
      has not fallen hard. */
  predicate HeldAt(pos: ActivePosition, start: Price, stale: nat, feed: seq<FeedItem>, n: nat)
    requires n < |feed|
  {
    && !feed[n].FeedClosed?
    && (Miss(pos, feed[n]) ==> MissesBefore(pos, stale, feed, n) < 19)
    && (Usable(pos, feed[n]) ==>
          && feed[n].event.quoteAmount * pos.entry.den < pos.entry.num * feed[n].event.baseAmount
          && !FallsHard(pos, LastPrice(pos, start, feed, n), feed[n].event))
  }

  /** The item at n is why the watcher stopped. A sale is made at the amounts of a usable
      tick, a panic after a fall below 88% of the price before. */
  predicate StopsAt(pos: ActivePosition, start: Price, stale: nat, feed: seq<FeedItem>, n: nat, cause: StopCause)
    requires n < |feed|
  {
    match cause
    case ChannelClosed => feed[n].FeedClosed?
    case FeedStale => Miss(pos, feed[n]) && MissesBefore(pos, stale, feed, n) == 19
    case Sold(sell) =>
      && Usable(pos, feed[n]) && SaleJustified(pos, sell)
      && sell.price.num == feed[n].event.quoteAmount && sell.price.den == feed[n].event.baseAmount
      && (sell.reason.PanicVelocity? ==> BelowPercent(sell.price, 88, LastPrice(pos, start, feed, n)))
  }

  /** Every item from `from` up to the stop was held, and the end is explained by the item there.
      While the watcher runs its state is the quiet one of the feed so far. */
  ghost predicate EndExplained(pos: ActivePosition, start: Price, stale: nat, feed: seq<FeedItem>, from: nat,
                               stop: nat, end: WatcherEnd)
  {
    && from <= stop <= |feed|
    && (forall n :: from <= n < stop ==> HeldAt(pos, start, stale, feed, n))
    && match end
       case Running(st) =>
         && stop == |feed|
         && st == QuietState(pos, LastPrice(pos, start, feed, stop), MissesBefore(pos, stale, feed, stop))
       case Stopped(cause) => stop < |feed| && StopsAt(pos, start, stale, feed, stop, cause)
  }

  /** The reference machine from position n of the feed on. */
  lemma {:induction false} ReferenceExplainedFrom(pos: ActivePosition, start: Price, stale: nat, feed: seq<FeedItem>,
                                                  n: nat) returns (stop: nat)
    requires n <= |feed| && pos.entry.den > 0
    requires var last := LastPrice(pos, start, feed, n); last.den > 0 && !Below(pos.entry, last)
    requires MissesBefore(pos, stale, feed, n) < 20
    ensures EndExplained(pos, start, stale, feed, n, stop,
                         Reference(pos, LastPrice(pos, start, feed, n), MissesBefore(pos, stale, feed, n), feed[n..]))
    decreases |feed| - n
  {
    stop := n;
    if n < |feed| {
      var last, item := LastPrice(pos, start, feed, n), feed[n];
      assert feed[n..][0] == item && feed[n..][1..] == feed[n + 1..];
      if HeldAt(pos, start, stale, feed, n)
         && !(Usable(pos, item) && PanicFires(pos, last, TickPrice(item), item.velocityTie))
      {
        stop := ReferenceExplainedFrom(pos, start, stale, feed, n + 1);
      } else if Usable(pos, item) {
        StopsOnTick(pos, last, item);
      }
    }
  }

  /** A usable tick on which the reference machine sells. */
  lemma StopsOnTick(pos: ActivePosition, last: Price, item: FeedItem)
    requires Usable(pos, item) && pos.entry.den > 0 && last.den > 0 && !Below(pos.entry, last)
    ensures var cur := TickPrice(item);
            && (FallsHard(pos, last, item.event) ==> PanicFires(pos, last, cur, item.velocityTie))
            && (Below(cur, pos.entry) && PanicFires(pos, last, cur, item.velocityTie) ==>
                  SaleJustified(pos, Sell(PanicVelocity, cur, pos.acquired, true)))
  {
    var cur := TickPrice(item);
    if PanicFires(pos, last, cur, item.velocityTie) {
      BelowPercentTrans(cur, last, pos.entry, 88);
    }
  }

  /** From any earlier price at or below entry and any number of misses so far. */
  lemma ReferenceExplained(pos: ActivePosition, prev: Price, stale: nat, feed: seq<FeedItem>) returns (stop: nat)
    requires pos.entry.den > 0 && prev.den > 0 && !Below(pos.entry, prev) && stale < 20
    ensures EndExplained(pos, prev, stale, feed, 0, stop, Reference(pos, prev, stale, feed))
  {
    stop := ReferenceExplainedFrom(pos, prev, stale, feed, 0);
    assert feed[0..] == feed;
  }

  /** Every run of the watcher on a handed-over position, told by the ticks alone. It
      sells at most once, the whole bag, as a justified snapback or panic at the
      amounts of a usable tick. Until then every usable tick was below entry and had
      not fallen hard, fewer than twenty misses came in a row, and the channel was
      open. It gives up on a stale feed exactly on the twentieth miss and on a closed
      channel only there. A feed prefix is a feed, so this covers every reachable state. */
  lemma WatcherRuns(pos: ActivePosition, feed: seq<FeedItem>) returns (stop: nat)
    requires pos.entry.den > 0
    ensures var run := RunFrom(pos, InitialState(pos), feed, []);
            run.sells == SellsOf(run.end) && EndExplained(pos, pos.entry, 0, feed, 0, stop, run.end)
  {
    RunIsReference(pos, pos.entry, 0, feed);
    stop := ReferenceExplained(pos, pos.entry, 0, feed);
  }

  /** A sale is made on a tick of the position's pool that is at most thirty seconds
      old, at that tick's own amounts, and every earlier such tick was below entry. */
  lemma SaleIsOnATick(pos: ActivePosition, feed: seq<FeedItem>, sell: Sell) returns (k: nat)
    requires pos.entry.den > 0 && sell in RunFrom(pos, InitialState(pos), feed, []).sells
    ensures k < |feed| && feed[k].Tick? && pos.sourcePool == RaydiumPool(feed[k].event.poolId)
    ensures feed[k].nowMs <= feed[k].event.timestampMs + 30_000
    ensures sell.price.num == feed[k].event.quoteAmount > 0 && sell.price.den == feed[k].event.baseAmount > 0
    ensures forall j :: 0 <= j < k && Usable(pos, feed[j]) ==>
              feed[j].event.quoteAmount * pos.entry.den < pos.entry.num * feed[j].event.baseAmount
    ensures SaleJustified(pos, sell)
  {
    k := WatcherRuns(pos, feed);
    forall j | 0 <= j < k && Usable(pos, feed[j])
      ensures feed[j].event.quoteAmount * pos.entry.den < pos.entry.num * feed[j].event.baseAmount
    {
      assert HeldAt(pos, pos.entry, 0, feed, j);
    }
  }

  /** The 85% floor is lost for extreme amounts: a run that panic-sells at a price of
      one lamport per 2^64 - 1 units against an entry of 2^62 lamports per unit. Such
      an amount still fits a reservation. */
  lemma PanicFloorCanFail() returns (pos: ActivePosition, feed: seq<FeedItem>)
    ensures pos.entry.den > 0
    ensures var sells := RunFrom(pos, InitialState(pos), feed, []).sells;
            |sells| == 1 && sells[0].reason == PanicVelocity && BelowPercent(sells[0].price, 1, pos.entry)
    ensures pos.entry.num < TWO_63
  {
    var key := Pubkey(9);
    pos := ActivePosition(key, RaydiumPool(key), Price(0x4000_0000_0000_0000, 1), 1, 1000, 1, 100);
    var e := SwapEvent(key, key, U64_MAX, 1, 1, 0, 0, 0, None);
    feed := [Tick(e, 1, true, 300, false)];
    var cur := Price(1, U64_MAX);
    assert Classify(pos, feed[0]) == Live(cur);
    PanicGateIsExact(cur, pos.entry);
    assert feed[1..] == [];
    RunIsReference(pos, pos.entry, 0, feed);
  }

  /** A position bought outside Raydium carries the pool text `pump`, which no
      decoded swap can match, so its watcher never sees a price and never sells. */
  lemma {:induction false} PumpPositionNeverSells(pos: ActivePosition, st: WatcherState, feed: seq<FeedItem>,
                                                  sold: seq<Sell>)
    requires pos.sourcePool == PumpPool
    ensures RunFrom(pos, st, feed, sold).sells == sold
    decreases |feed|
  {
    if feed != [] {
      match Classify(pos, feed[0])
      case Missed => PumpPositionNeverSells(pos, st.(stale := st.stale + 1), feed[1..], sold);
      case Ignored => PumpPositionNeverSells(pos, st, feed[1..], sold);
      case Ended =>
    }
  }
}
