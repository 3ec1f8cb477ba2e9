/** The sell pipeline: slippage, minimum-out and tip per attempt, the retry loop,
    the confirmation poll and the booking of the exit. */
module SellPipeline {
  import opened Primitives
  import opened Types
  import opened ExitArithmetic
  import opened ExitWatcher
  import opened BotStateModule
  import CircuitBreaker
  import PermitPool
  import RaydiumSwap

  const MAX_SELL_ATTEMPTS := 5
  const MINIMUM_JITO_TIP_LAMPORTS: u64 := 1_000
  const CONFIRMATION_POLLS := 15

  // ---- One attempt's numbers ------------------------------------------------------

  predicate IsEmergency(reason: SellReason) {
    reason.PanicVelocity? || reason.HardStop20Pct?
  }

  function EffectiveSlippageBps(reason: SellReason, maxSlippageBps: u16, attempt: nat): u16 {
    if IsEmergency(reason) then
      if attempt == 1 then 3000 else if attempt == 2 then 4000 else 5000
    else Min(Min(maxSlippageBps * attempt, 65535), 1000)
  }

  datatype QuoteError = QuoteArithmeticOverflow

  /** The minimum output under a slippage allowance, rounded down. */
  function LocalMinimumAmountOut(quoted: u64, slippageBps: u16): Result<u64, QuoteError> {
    if slippageBps > 10_000 then Err(QuoteArithmeticOverflow)
    else
      var product := CheckedU128(quoted * (10_000 - slippageBps));
      if product.None? then Err(QuoteArithmeticOverflow)
      else
        var minimum := CheckedU64(product.value / 10_000);
        if minimum.None? then Err(QuoteArithmeticOverflow) else Ok(minimum.value)
  }

  /** What the bag is worth at the tick price, in whole lamports. */
  function ExpectedWsol(acquired: u64, price: Price): nat {
    var product := CheckedU128(acquired * price.num);
    var units: nat := if price.den == 0 then 1 else price.den;
    if product.None? then 0 else product.value / units
  }

  /** The minimum-out of an attempt. The expected proceeds are cast to u64 first. */
  function MinimumOut(reason: SellReason, maxSlippageBps: u16, acquired: u64, price: Price, attempt: nat): u64 {
    match LocalMinimumAmountOut(WrapU64(ExpectedWsol(acquired, price)),
                                EffectiveSlippageBps(reason, maxSlippageBps, attempt))
    case Ok(minimum) => minimum
    case Err(_) => 1
  }

  function Pow(base: nat, n: nat): (p: nat)
    ensures base > 0 ==> p > 0
  {
    if n == 0 then 1 else base * Pow(base, n - 1)
  }

  /** The tip grows by half with every retry, rounded down, and is never below the minimum. */
  function AttemptTip(tipLamports: u64, attempt: nat): u64
    requires attempt >= 1
  {
    var num, den := tipLamports * Pow(3, attempt - 1), Pow(2, attempt - 1);
    if num >= MINIMUM_JITO_TIP_LAMPORTS * den then Min(num / den, U64_MAX) else MINIMUM_JITO_TIP_LAMPORTS
  }

  // ---- The schedule over the attempts ----------------------------------------------

  lemma SlippageSchedule(reason: SellReason, maxSlippageBps: u16, attempt: nat)
    requires 1 <= attempt
    ensures EffectiveSlippageBps(reason, maxSlippageBps, attempt) <= if IsEmergency(reason) then 5000 else 1000
    ensures EffectiveSlippageBps(reason, maxSlippageBps, attempt)
            <= EffectiveSlippageBps(reason, maxSlippageBps, attempt + 1)
  {
    MulMono(attempt, attempt + 1, maxSlippageBps);
  }

  /** The allowance of each attempt: 30%, 40% and then 50% for the two emergencies; for
      any other reason as many times the configured slippage, up to 10%. */
  lemma SlippageOfAttempt(reason: SellReason, maxSlippageBps: u16, attempt: nat)
    requires 1 <= attempt
    ensures var slippage := EffectiveSlippageBps(reason, maxSlippageBps, attempt);
            if reason == PanicVelocity || reason == HardStop20Pct then
              slippage == if attempt == 1 then 3000 else if attempt == 2 then 4000 else 5000
            else
              && slippage <= 1000 && slippage <= attempt * maxSlippageBps
              && (slippage == 1000 || slippage == attempt * maxSlippageBps)
  {
    assert maxSlippageBps * attempt == attempt * maxSlippageBps;
  }

  /** The proceeds expected for the bag are its exact worth at the price, rounded down. */
  lemma ProceedsRoundDown(acquired: u64, price: Price)
    requires price.den > 0
    ensures var lamports := ExpectedWsol(acquired, price);
            lamports * price.den <= acquired * price.num < (lamports + 1) * price.den
  {
    ProductFits(acquired, price.num);
    var product := acquired * price.num;
    assert product == (product / price.den) * price.den + product % price.den;
  }

  /** The five tips of a sale: the position's own, then half as much again each time,
      rounded down, never below a thousand lamports. */
  lemma TipsOfAttempts(tip: u64)
    ensures AttemptTip(tip, 1) == if tip >= 1000 then tip else 1000
    ensures forall k :: 1 <= k <= 5 ==> 1000 <= AttemptTip(tip, k) <= U64_MAX
    ensures AttemptTip(tip, 2) == TipOr1000(3 * tip / 2)
    ensures AttemptTip(tip, 3) == TipOr1000(9 * tip / 4)
    ensures AttemptTip(tip, 4) == TipOr1000(27 * tip / 8)
    ensures AttemptTip(tip, 5) == TipOr1000(81 * tip / 16)
  {
    assert Pow(3, 1) == 3 && Pow(3, 2) == 9 && Pow(3, 3) == 27 && Pow(3, 4) == 81;
    assert Pow(2, 1) == 2 && Pow(2, 2) == 4 && Pow(2, 3) == 8 && Pow(2, 4) == 16;
  }

  /** An amount within [1000, 2^64 - 1]. */
  function TipOr1000(lamports: nat): nat {
    if lamports < 1000 then 1000 else if lamports < TWO_64 then lamports else TWO_64 - 1
  }

  /** At an allowed slippage the computation never errs, and its result is the
      exact share rounded down: within one unit of it and never above. */
  lemma MinimumOutIsFloor(quoted: u64, slippageBps: u16)
    requires slippageBps <= 10_000
    ensures var r := LocalMinimumAmountOut(quoted, slippageBps);
            && r.Ok?
            && r.value * 10_000 <= quoted * (10_000 - slippageBps) < (r.value + 1) * 10_000
            && r.value <= quoted
  {
    var product := quoted * (10_000 - slippageBps);
    MulMono(10_000 - slippageBps, 10_000, quoted);
    assert product <= quoted * 10_000;
  }

  lemma MinimumOutMonotone(quoted: u64, better: u64, slippageBps: u16, wider: u16)
    requires quoted <= better && slippageBps <= wider <= 10_000
    ensures LocalMinimumAmountOut(quoted, wider).Ok? && LocalMinimumAmountOut(better, slippageBps).Ok?
    ensures LocalMinimumAmountOut(quoted, wider).value <= LocalMinimumAmountOut(better, slippageBps).value
  {
    MinimumOutIsFloor(quoted, wider);
    MinimumOutIsFloor(better, slippageBps);
    MulMono(quoted, better, 10_000 - wider);
    MulMono(10_000 - wider, 10_000 - slippageBps, better);
  }

  lemma TipStep(tipLamports: u64, attempt: nat)
    requires 1 <= attempt
    ensures MINIMUM_JITO_TIP_LAMPORTS <= AttemptTip(tipLamports, attempt) <= AttemptTip(tipLamports, attempt + 1)
  {
    var num, den := tipLamports * Pow(3, attempt - 1), Pow(2, attempt - 1);
    assert Pow(2, attempt) == 2 * den;
    assert tipLamports * Pow(3, attempt) == 3 * num;
    assert num >= MINIMUM_JITO_TIP_LAMPORTS * den ==> 3 * num >= MINIMUM_JITO_TIP_LAMPORTS * (2 * den);
    if num >= MINIMUM_JITO_TIP_LAMPORTS * den {
      QuotientAtLeast(num, MINIMUM_JITO_TIP_LAMPORTS, den);
      var q := num / den;
      assert num == q * den + num % den;
      assert 3 * num >= q * (2 * den) by {
        assert q * (2 * den) == 2 * (q * den);
      }
      QuotientAtLeast(3 * num, q, 2 * den);
    } else if 3 * num >= MINIMUM_JITO_TIP_LAMPORTS * (2 * den) {
      QuotientAtLeast(3 * num, MINIMUM_JITO_TIP_LAMPORTS, 2 * den);
    }
  }

  /** Between attempts the tip grows by half, up to rounding, until it saturates. */
  lemma TipGrowsByHalf(tipLamports: u64, attempt: nat)
    requires 1 <= attempt && tipLamports >= MINIMUM_JITO_TIP_LAMPORTS && AttemptTip(tipLamports, attempt + 1) < U64_MAX
    ensures var tip, next := AttemptTip(tipLamports, attempt), AttemptTip(tipLamports, attempt + 1);
            3 * tip - 2 < 2 * next < 3 * tip + 3
  {
    var num, den := tipLamports * Pow(3, attempt - 1), Pow(2, attempt - 1);
    Pow3Dominates(attempt - 1);
    MulMono(MINIMUM_JITO_TIP_LAMPORTS, tipLamports, Pow(3, attempt - 1));
    MulMono(den, Pow(3, attempt - 1), MINIMUM_JITO_TIP_LAMPORTS);
    assert Pow(2, attempt) == 2 * den && tipLamports * Pow(3, attempt) == 3 * num;
    HalfAgain(num, den);
    TipStep(tipLamports, attempt);
  }

  lemma {:induction false} Pow3Dominates(n: nat)
    ensures Pow(2, n) <= Pow(3, n)
  {
    if n > 0 {
      Pow3Dominates(n - 1);
    }
  }

  lemma HalfAgain(num: nat, den: nat)
    requires den > 0
    ensures var q, r := num / den, 3 * num / (2 * den);
            3 * q - 2 < 2 * r < 3 * q + 3
  {
    var q, r := num / den, 3 * num / (2 * den);
    assert num == q * den + num % den;
    assert 3 * num == r * (2 * den) + 3 * num % (2 * den);
    assert 3 * q * den <= 3 * num < 2 * r * den + 2 * den;
    assert 2 * r * den <= 3 * num < 3 * q * den + 3 * den;
    MulCancel(3 * q, 2 * r + 2, den);
    MulCancel(2 * r, 3 * q + 3, den);
  }

  /** From attempt to attempt the tip does not fall and the minimum-out does not rise. */
  lemma {:induction false} ScheduleMonotone(reason: SellReason, maxSlippageBps: u16, acquired: u64, price: Price,
                                            tip: u64, i: nat, j: nat)
    requires 1 <= i <= j
    ensures MINIMUM_JITO_TIP_LAMPORTS <= AttemptTip(tip, i) <= AttemptTip(tip, j)
    ensures MinimumOut(reason, maxSlippageBps, acquired, price, j)
            <= MinimumOut(reason, maxSlippageBps, acquired, price, i)
    decreases j
  {
    TipStep(tip, i);
    if i < j {
      ScheduleMonotone(reason, maxSlippageBps, acquired, price, tip, i, j - 1);
      TipStep(tip, j - 1);
      SlippageSchedule(reason, maxSlippageBps, j - 1);
      SlippageSchedule(reason, maxSlippageBps, j);
      var quoted := WrapU64(ExpectedWsol(acquired, price));
      MinimumOutMonotone(quoted, quoted, EffectiveSlippageBps(reason, maxSlippageBps, j - 1),
                         EffectiveSlippageBps(reason, maxSlippageBps, j));
    }
  }

  // ---- The retry loop -----------------------------------------------------------------

  /** How the bag is sold: a swap on known pool keys, or a transaction fetched from PumpPortal. */
  datatype Route =
    | Raydium(keys: RaydiumSwap.PoolKeys, owner: Pubkey, source: Pubkey, destination: Pubkey,
              sentinel: Pubkey, sentinelHasPrefix: bool)
    | PumpPortal

  datatype SendOutcome = Answered(bundleId: string) | Refused | SendTimedOut

  /** What the outside world answers during one attempt: the tip accounts of a fresh
      connection (None when connecting fails), the blockhash fetch, the PumpPortal
      fetch, compiling, signing and packing, and the submission. */
  datatype AttemptEnv = AttemptEnv(tipAccounts: Option<seq<Pubkey>>, blockhashOk: bool, pumpOk: bool, buildOk: bool,
                                   send: SendOutcome)

  /** A submitted bundle. The swap instruction is the program's own; a PumpPortal
      transaction is foreign and carries no minimum-out. */
  datatype Submission = Submission(attempt: nat, tipLamports: u64, tipAccount: Pubkey,
                                   instruction: Option<RaydiumSwap.Instruction>)

  datatype SellError = ZeroAcquired | ConnectFailed | BuildRejected(error: RaydiumSwap.SwapError) | AttemptsExhausted

  /** A connection without tip accounts is an error. */
  function Connect(tipAccounts: Option<seq<Pubkey>>): Option<seq<Pubkey>> {
    if tipAccounts.Some? && tipAccounts.value == [] then None else tipAccounts
  }

  function Shield(ins: RaydiumSwap.Instruction, route: Route): RaydiumSwap.Instruction
    requires route.Raydium?
  {
    match RaydiumSwap.Protect(ins, route.sentinel, route.sentinelHasPrefix)
    case Ok(shielded) => shielded
    case Err(_) => ins
  }

  datatype AttemptResult = Retry | Abort(error: SellError) | Sent(submission: Submission)

  function SellInstruction(reason: SellReason, pos: ActivePosition, price: Price, route: Route, attempt: nat)
    : Result<RaydiumSwap.Instruction, RaydiumSwap.SwapError>
    requires route.Raydium?
  {
    RaydiumSwap.ConstructSwap(route.keys, route.owner, route.source, route.destination, pos.acquired,
                              MinimumOut(reason, pos.maxSlippageBps, pos.acquired, price, attempt))
  }

  /** One attempt on its own, paying the first tip account of its own connection. */
  function Attempt(reason: SellReason, pos: ActivePosition, price: Price, route: Route, e: AttemptEnv, attempt: nat)
    : AttemptResult
    requires attempt >= 1
  {
    var accounts := Connect(e.tipAccounts);
    if accounts.None? || !e.blockhashOk then Retry
    else
      var tip := AttemptTip(pos.tipLamports, attempt);
      if route.Raydium? then
        match SellInstruction(reason, pos, price, route, attempt)
        case Err(error) => Abort(BuildRejected(error))
        case Ok(ins) =>
          if e.buildOk then Sent(Submission(attempt, tip, accounts.value[0], Some(Shield(ins, route)))) else Retry
      else if e.pumpOk && e.buildOk then Sent(Submission(attempt, tip, accounts.value[0], None))
      else Retry
  }

  predicate Accepts(e: AttemptEnv) {
    e.send.Answered? && e.send.bundleId != ""
  }

  /** The attempts from number `attempt` on: the outcome and everything submitted after `sent`. */
  function AttemptsFrom(reason: SellReason, pos: ActivePosition, price: Price, route: Route, env: seq<AttemptEnv>,
                        attempt: nat, sent: seq<Submission>): (Result<string, SellError>, seq<Submission>)
    requires 1 <= attempt <= |env| + 1
    decreases |env| + 1 - attempt
  {
    if attempt > |env| then (Err(AttemptsExhausted), sent)
    else
      var e := env[attempt - 1];
      match Attempt(reason, pos, price, route, e, attempt)
      case Retry => AttemptsFrom(reason, pos, price, route, env, attempt + 1, sent)
      case Abort(error) => (Err(error), sent)
      case Sent(submission) =>
        if Accepts(e) then (Ok(e.send.bundleId), sent + [submission])
        else AttemptsFrom(reason, pos, price, route, env, attempt + 1, sent + [submission])
  }

  function SellBundle(reason: SellReason, pos: ActivePosition, price: Price, route: Route, env: seq<AttemptEnv>)
    : (Result<string, SellError>, seq<Submission>)
    requires |env| == MAX_SELL_ATTEMPTS
  {
    if pos.acquired == 0 then (Err(ZeroAcquired), [])
    else if Connect(env[0].tipAccounts).None? then (Err(ConnectFailed), [])
    else AttemptsFrom(reason, pos, price, route, env, 1, [])
  }

  lemma AttemptsUnfold(reason: SellReason, pos: ActivePosition, price: Price, route: Route, env: seq<AttemptEnv>,
                       attempt: nat, sent: seq<Submission>)
    requires 1 <= attempt <= |env|
    ensures AttemptsFrom(reason, pos, price, route, env, attempt, sent)
            == match Attempt(reason, pos, price, route, env[attempt - 1], attempt)
               case Retry => AttemptsFrom(reason, pos, price, route, env, attempt + 1, sent)
               case Abort(error) => (Err(error), sent)
               case Sent(s) => if Accepts(env[attempt - 1]) then (Ok(env[attempt - 1].send.bundleId), sent + [s])
                               else AttemptsFrom(reason, pos, price, route, env, attempt + 1, sent + [s])
  {
  }

  /** One pass of the loop body over a live connection: numbers, instruction or fetched
      transaction, tip account, signing. On a fresh connection it is the attempt by itself. */
  method MakeAttempt(reason: SellReason, pos: ActivePosition, price: Price, route: Route, e: AttemptEnv, attempt: nat,
                     tipAccounts: seq<Pubkey>, tipIndex: nat)
    returns (result: AttemptResult, nextTipIndex: nat)
    requires attempt >= 1 && tipIndex < |tipAccounts| && Connect(e.tipAccounts) == Some(tipAccounts)
    ensures tipIndex == 0 ==> result == Attempt(reason, pos, price, route, e, attempt)
    ensures nextTipIndex < |tipAccounts|
  {
    nextTipIndex := tipIndex;
    var tip := AttemptTip(pos.tipLamports, attempt);
    if !e.blockhashOk {
      return Retry, nextTipIndex;
    }
    var instruction := None;
    if route.Raydium? {
      var built := SellInstruction(reason, pos, price, route, attempt);
      if built.Err? {
        return Abort(BuildRejected(built.error)), nextTipIndex;
      }
      instruction := Some(Shield(built.value, route));
    } else if !e.pumpOk {
      return Retry, nextTipIndex;
    }
    var tipAccount := tipAccounts[nextTipIndex];
    nextTipIndex := (nextTipIndex + 1) % |tipAccounts|;
    if !e.buildOk {
      return Retry, nextTipIndex;
    }
    result := Sent(Submission(attempt, tip, tipAccount, instruction));
  }

  /** The retry loop. The client's tip index rotates, but every retry opens a new
      client, so the postcondition can name the first account of each connection. */
  method AttemptSellBundle(reason: SellReason, pos: ActivePosition, price: Price, route: Route, env: seq<AttemptEnv>)
    returns (r: Result<string, SellError>, sent: seq<Submission>)
    requires |env| == MAX_SELL_ATTEMPTS
    ensures (r, sent) == SellBundle(reason, pos, price, route, env)
  {
    sent := [];
    if pos.acquired == 0 {
      return Err(ZeroAcquired), sent;
    }
    var connection := Connect(env[0].tipAccounts);
    if connection.None? {
      return Err(ConnectFailed), sent;
    }
    var tipAccounts := connection.value;
    var nextTipIndex: nat := 0;
    var attempt: nat := 0;
    while attempt < MAX_SELL_ATTEMPTS
      invariant attempt <= MAX_SELL_ATTEMPTS
      invariant nextTipIndex < |tipAccounts|
      invariant attempt == 0 ==> nextTipIndex == 0 && Connect(env[0].tipAccounts) == Some(tipAccounts)
      invariant AttemptsFrom(reason, pos, price, route, env, attempt + 1, sent)
             == SellBundle(reason, pos, price, route, env)
    {
      attempt := attempt + 1;
      var e := env[attempt - 1];
      AttemptsUnfold(reason, pos, price, route, env, attempt, sent);
      if attempt > 1 {
        connection := Connect(e.tipAccounts);
        if connection.None? {
          continue;
        }
        tipAccounts, nextTipIndex := connection.value, 0;
      }
      var result;
      result, nextTipIndex := MakeAttempt(reason, pos, price, route, e, attempt, tipAccounts, nextTipIndex);
      if result.Abort? {
        return Err(result.error), sent;
      }
      if result.Retry? {
        continue;
      }
      sent := sent + [result.submission];
      if e.send.Answered? && e.send.bundleId != "" {
        return Ok(e.send.bundleId), sent;
      }
    }
    r := Err(AttemptsExhausted);
  }

  /** The submission is the numbered attempt of the schedule. On the Raydium route the
      bytes of its instruction offer the bag and ask for the minimum-out, its accounts
      stand in order, and the sentinel is among them when its prefix is right. */
  ghost predicate OnSchedule(reason: SellReason, pos: ActivePosition, price: Price, route: Route, s: Submission) {
    && s.attempt >= 1
    && s.tipLamports == AttemptTip(pos.tipLamports, s.attempt)
    && (s.instruction.Some? <==> route.Raydium?)
    && (s.instruction.Some? ==>
          && RaydiumSwap.AmountInOf(s.instruction.value) == pos.acquired
          && RaydiumSwap.MinimumOutOf(s.instruction.value)
             == MinimumOut(reason, pos.maxSlippageBps, pos.acquired, price, s.attempt) > 0
          && IsShieldedSwap(s.instruction.value, route))
  }

  /** A swap on the pool of the route, from its source to its destination, signed by its
      owner, with the sentinel whenever that has the right prefix. */
  ghost predicate IsShieldedSwap(ins: RaydiumSwap.Instruction, route: Route) {
    && route.Raydium?
    && ins.programId == RAYDIUM_V4_PROGRAM_ID
    && RaydiumSwap.StandsInOrder(ins.accounts, route.keys, route.owner, route.source, route.destination)
    && (route.sentinelHasPrefix ==> exists i :: 0 <= i < |ins.accounts| && ins.accounts[i].pubkey == route.sentinel)
    && (!route.sentinelHasPrefix ==> |ins.accounts| == 17)
  }

  lemma ShieldedStandsInOrder(ins: RaydiumSwap.Instruction, route: Route)
    requires route.Raydium? && ins.programId == RAYDIUM_V4_PROGRAM_ID && |ins.accounts| == 17
    requires RaydiumSwap.StandsInOrder(ins.accounts, route.keys, route.owner, route.source, route.destination)
    ensures IsShieldedSwap(Shield(ins, route), route)
  {
    if route.sentinelHasPrefix {
      RaydiumSwap.ProtectIsIdempotent(ins, route.sentinel);
    }
  }

  ghost predicate InOrder(sent: seq<Submission>, before: nat) {
    && (forall i :: 0 <= i < |sent| ==> sent[i].attempt < before)
    && (forall i, j :: 0 <= i < j < |sent| ==> sent[i].attempt < sent[j].attempt)
  }

  /** A built sell instruction, shielded or not, reads back what it was built for. */
  lemma SellInstructionReadsBack(reason: SellReason, pos: ActivePosition, price: Price, route: Route, attempt: nat)
    requires route.Raydium?
    ensures var built := SellInstruction(reason, pos, price, route, attempt);
            built.Ok? ==>
              && RaydiumSwap.AmountInOf(Shield(built.value, route)) == pos.acquired
              && RaydiumSwap.MinimumOutOf(Shield(built.value, route))
                 == MinimumOut(reason, pos.maxSlippageBps, pos.acquired, price, attempt) > 0
              && IsShieldedSwap(Shield(built.value, route), route)
  {
    var minimum := MinimumOut(reason, pos.maxSlippageBps, pos.acquired, price, attempt);
    if SellInstruction(reason, pos, price, route, attempt).Ok? {
      RaydiumSwap.BuiltStandsInOrder(route.keys, route.owner, route.source, route.destination, pos.acquired, minimum);
      ShieldedStandsInOrder(SellInstruction(reason, pos, price, route, attempt).value, route);
      RaydiumSwap.AmountsRoundTrip(route.keys, route.owner, route.source, route.destination, pos.acquired, minimum);
    }
  }

  lemma SentIsOnSchedule(reason: SellReason, pos: ActivePosition, price: Price, route: Route, e: AttemptEnv,
                         attempt: nat)
    requires attempt >= 1
    ensures var result := Attempt(reason, pos, price, route, e, attempt);
            result.Sent? ==>
              result.submission.attempt == attempt && OnSchedule(reason, pos, price, route, result.submission)
  {
    if route.Raydium? {
      SellInstructionReadsBack(reason, pos, price, route, attempt);
    }
  }

  ghost predicate AllOnSchedule(reason: SellReason, pos: ActivePosition, price: Price, route: Route,
                                sent: seq<Submission>)
  {
    forall i :: 0 <= i < |sent| ==> OnSchedule(reason, pos, price, route, sent[i])
  }

  /** What has been submitted after an attempt. */
  function WithSubmission(sent: seq<Submission>, result: AttemptResult): seq<Submission> {
    if result.Sent? then sent + [result.submission] else sent
  }

  lemma OnScheduleSnoc(reason: SellReason, pos: ActivePosition, price: Price, route: Route, sent: seq<Submission>,
                       s: Submission)
    requires AllOnSchedule(reason, pos, price, route, sent) && OnSchedule(reason, pos, price, route, s)
    ensures AllOnSchedule(reason, pos, price, route, sent + [s])
  {
  }

  lemma StaysOnSchedule(reason: SellReason, pos: ActivePosition, price: Price, route: Route, sent: seq<Submission>,
                        result: AttemptResult, attempt: nat)
    requires InOrder(sent, attempt) && AllOnSchedule(reason, pos, price, route, sent)
    requires result.Sent? ==>
               result.submission.attempt == attempt && OnSchedule(reason, pos, price, route, result.submission)
    ensures InOrder(WithSubmission(sent, result), attempt + 1)
    ensures AllOnSchedule(reason, pos, price, route, WithSubmission(sent, result))
  {
    if result.Sent? {
      OnScheduleSnoc(reason, pos, price, route, sent, result.submission);
    }
  }

  lemma InOrderLater(sent: seq<Submission>, before: nat, later: nat)
    requires InOrder(sent, before) && before <= later
    ensures InOrder(sent, later)
  {
  }

  lemma {:induction false} SubmissionsOnSchedule(reason: SellReason, pos: ActivePosition, price: Price, route: Route,
                                                 env: seq<AttemptEnv>, attempt: nat, sent: seq<Submission>)
    requires 1 <= attempt <= |env| + 1
    requires InOrder(sent, attempt) && AllOnSchedule(reason, pos, price, route, sent)
    ensures var all := AttemptsFrom(reason, pos, price, route, env, attempt, sent).1;
            InOrder(all, |env| + 1) && AllOnSchedule(reason, pos, price, route, all)
    decreases |env| + 1 - attempt
  {
    if attempt <= |env| {
      AttemptsUnfold(reason, pos, price, route, env, attempt, sent);
      var result := Attempt(reason, pos, price, route, env[attempt - 1], attempt);
      SentIsOnSchedule(reason, pos, price, route, env[attempt - 1], attempt);
      StaysOnSchedule(reason, pos, price, route, sent, result, attempt);
      if result.Retry? || (result.Sent? && !Accepts(env[attempt - 1])) {
        SubmissionsOnSchedule(reason, pos, price, route, env, attempt + 1, WithSubmission(sent, result));
      } else {
        InOrderLater(WithSubmission(sent, result), attempt + 1, |env| + 1);
      }
    } else {
      InOrderLater(sent, attempt, |env| + 1);
    }
  }

  // ---- When a sale goes through ---------------------------------------------------------

  /** A connection with tip accounts and a blockhash. */
  predicate IsReady(e: AttemptEnv) {
    e.tipAccounts.Some? && e.tipAccounts.value != [] && e.blockhashOk
  }

  /** The attempt reaches the building of a swap that cannot be built. */
  predicate FailsToBuild(reason: SellReason, pos: ActivePosition, price: Price, route: Route, e: AttemptEnv, k: nat) {
    route.Raydium? && IsReady(e) && SellInstruction(reason, pos, price, route, k).Err?
  }

  /** The attempt has everything a submission needs. */
  predicate CanSubmit(reason: SellReason, pos: ActivePosition, price: Price, route: Route, e: AttemptEnv, k: nat) {
    && IsReady(e) && e.buildOk
    && (if route.Raydium? then SellInstruction(reason, pos, price, route, k).Ok? else e.pumpOk)
  }

  /** The attempt is submitted and answered with a bundle id that is not empty. */
  predicate IsAccepted(reason: SellReason, pos: ActivePosition, price: Price, route: Route, e: AttemptEnv, k: nat) {
    CanSubmit(reason, pos, price, route, e, k) && e.send.Answered? && e.send.bundleId != ""
  }

  /** The attempt ends the sale, one way or the other. */
  predicate EndsSale(reason: SellReason, pos: ActivePosition, price: Price, route: Route, env: seq<AttemptEnv>, k: nat)
    requires 1 <= k <= |env|
  {
    || IsAccepted(reason, pos, price, route, env[k - 1], k)
    || FailsToBuild(reason, pos, price, route, env[k - 1], k)
  }

  /** The numbers, among the first n attempts, of those with everything a submission needs. */
  function Submitting(reason: SellReason, pos: ActivePosition, price: Price, route: Route, env: seq<AttemptEnv>, n: nat)
    : seq<nat>
    requires n <= |env|
  {
    if n == 0 then []
    else
      Submitting(reason, pos, price, route, env, n - 1)
      + if CanSubmit(reason, pos, price, route, env[n - 1], n) then [n] else []
  }

  function Numbers(sent: seq<Submission>): seq<nat> {
    seq(|sent|, i requires 0 <= i < |sent| => sent[i].attempt)
  }

  /** Each submission pays the first tip account of its own connection. */
  ghost predicate PaysFirstAccounts(sent: seq<Submission>, env: seq<AttemptEnv>) {
    forall i :: 0 <= i < |sent| ==>
      && 1 <= sent[i].attempt <= |env|
      && env[sent[i].attempt - 1].tipAccounts.Some? && env[sent[i].attempt - 1].tipAccounts.value != []
      && sent[i].tipAccount == env[sent[i].attempt - 1].tipAccounts.value[0]
  }

  /** The sale was decided on attempt `last`: no earlier one was accepted or failed to
      build, the outcome is that of `last`, and up to it exactly the attempts that could
      be submitted were, each once. `last` is past the end when none decided. */
  ghost predicate DecidedAt(reason: SellReason, pos: ActivePosition, price: Price, route: Route, env: seq<AttemptEnv>,
                            last: nat, sale: (Result<string, SellError>, seq<Submission>))
  {
    && 1 <= last <= |env| + 1
    && (forall k :: 1 <= k < last ==> !EndsSale(reason, pos, price, route, env, k))
    && SentUpTo(reason, pos, price, route, env, if last <= |env| then last else |env|, sale.1)
    && match sale.0
       case Ok(id) =>
         && last <= |env| && IsAccepted(reason, pos, price, route, env[last - 1], last)
         && id == env[last - 1].send.bundleId
         && sale.1 != [] && sale.1[|sale.1| - 1].attempt == last
       case Err(error) =>
         if last <= |env| then FailsToBuild(reason, pos, price, route, env[last - 1], last) && error.BuildRejected?
         else error.AttemptsExhausted?
  }

  lemma NumbersSnoc(sent: seq<Submission>, s: Submission)
    ensures Numbers(sent + [s]) == Numbers(sent) + [s.attempt]
  {
  }

  lemma PaysSnoc(sent: seq<Submission>, s: Submission, env: seq<AttemptEnv>)
    requires PaysFirstAccounts(sent, env) && 1 <= s.attempt <= |env|
    requires var accounts := env[s.attempt - 1].tipAccounts;
             accounts.Some? && accounts.value != [] && s.tipAccount == accounts.value[0]
    ensures PaysFirstAccounts(sent + [s], env)
  {
  }

  /** What one attempt does, by the answers it gets. */
  ghost predicate ResultMeans(reason: SellReason, pos: ActivePosition, price: Price, route: Route, e: AttemptEnv,
                              k: nat, result: AttemptResult)
  {
    && (result.Sent? <==> CanSubmit(reason, pos, price, route, e, k))
    && (result.Sent? ==> result.submission.attempt == k && result.submission.tipAccount == e.tipAccounts.value[0])
    && (result.Abort? <==> FailsToBuild(reason, pos, price, route, e, k))
    && (result.Abort? ==> result.error.BuildRejected?)
  }

  lemma AttemptMeaning(reason: SellReason, pos: ActivePosition, price: Price, route: Route, e: AttemptEnv, k: nat)
    requires k >= 1
    ensures ResultMeans(reason, pos, price, route, e, k, Attempt(reason, pos, price, route, e, k))
  {
  }

  /** One attempt of the loop, by the answers it gets. */
  lemma AttemptsGoOn(reason: SellReason, pos: ActivePosition, price: Price, route: Route, env: seq<AttemptEnv>,
                     k: nat, sent: seq<Submission>) returns (result: AttemptResult)
    requires 1 <= k <= |env|
    ensures ResultMeans(reason, pos, price, route, env[k - 1], k, result)
    ensures EndsSale(reason, pos, price, route, env, k) ==> result.Sent? || result.Abort?
    ensures AttemptsFrom(reason, pos, price, route, env, k, sent)
            == if EndsSale(reason, pos, price, route, env, k) then
                 (if result.Sent? then Ok(env[k - 1].send.bundleId) else Err(result.error),
                  WithSubmission(sent, result))
               else AttemptsFrom(reason, pos, price, route, env, k + 1, WithSubmission(sent, result))
  {
    AttemptsUnfold(reason, pos, price, route, env, k, sent);
    AttemptMeaning(reason, pos, price, route, env[k - 1], k);
    result := Attempt(reason, pos, price, route, env[k - 1], k);
  }

  /** Up to attempt k exactly the attempts that could be submitted were. */
  ghost predicate SentUpTo(reason: SellReason, pos: ActivePosition, price: Price, route: Route, env: seq<AttemptEnv>,
                           k: nat, sent: seq<Submission>)
    requires k <= |env|
  {
    Numbers(sent) == Submitting(reason, pos, price, route, env, k) && PaysFirstAccounts(sent, env)
  }

  lemma OneMoreAttempt(reason: SellReason, pos: ActivePosition, price: Price, route: Route, env: seq<AttemptEnv>,
                       k: nat, sent: seq<Submission>, result: AttemptResult)
    requires 1 <= k <= |env| && SentUpTo(reason, pos, price, route, env, k - 1, sent)
    requires ResultMeans(reason, pos, price, route, env[k - 1], k, result)
    ensures SentUpTo(reason, pos, price, route, env, k, WithSubmission(sent, result))
  {
    var before := Submitting(reason, pos, price, route, env, k - 1);
    if result.Sent? {
      assert Submitting(reason, pos, price, route, env, k) == before + [k];
      NumbersSnoc(sent, result.submission);
      PaysSnoc(sent, result.submission, env);
    } else {
      assert Submitting(reason, pos, price, route, env, k) == before + [] == before;
    }
  }

  lemma {:induction false} AttemptsDecide(reason: SellReason, pos: ActivePosition, price: Price, route: Route,
                                          env: seq<AttemptEnv>, attempt: nat, sent: seq<Submission>)
    returns (last: nat)
    requires 1 <= attempt <= |env| + 1 && SentUpTo(reason, pos, price, route, env, attempt - 1, sent)
    requires forall k :: 1 <= k < attempt ==> !EndsSale(reason, pos, price, route, env, k)
    ensures DecidedAt(reason, pos, price, route, env, last,
                      AttemptsFrom(reason, pos, price, route, env, attempt, sent))
    decreases |env| + 1 - attempt
  {
    last := attempt;
    if attempt <= |env| {
      var result := AttemptsGoOn(reason, pos, price, route, env, attempt, sent);
      OneMoreAttempt(reason, pos, price, route, env, attempt, sent, result);
      if EndsSale(reason, pos, price, route, env, attempt) {
        DecidedHere(reason, pos, price, route, env, attempt, sent, result);
      } else {
        last := AttemptsDecide(reason, pos, price, route, env, attempt + 1, WithSubmission(sent, result));
      }
    }
  }

  /** An attempt that ends the sale decides it. */
  lemma DecidedHere(reason: SellReason, pos: ActivePosition, price: Price, route: Route, env: seq<AttemptEnv>,
                    k: nat, sent: seq<Submission>, result: AttemptResult)
    requires 1 <= k <= |env| && EndsSale(reason, pos, price, route, env, k)
    requires ResultMeans(reason, pos, price, route, env[k - 1], k, result)
    requires SentUpTo(reason, pos, price, route, env, k, WithSubmission(sent, result))
    requires forall j :: 1 <= j < k ==> !EndsSale(reason, pos, price, route, env, j)
    ensures result.Sent? || result.Abort?
    ensures var outcome := if result.Sent? then Ok(env[k - 1].send.bundleId) else Err(result.error);
            DecidedAt(reason, pos, price, route, env, k, (outcome, WithSubmission(sent, result)))
  {
  }

  /** A sale goes through, with a given bundle id, exactly when the bag is not empty, the
      first connection has tip accounts, and some attempt is answered with that id before
      any other was accepted or failed to build. */
  ghost predicate GoesThrough(reason: SellReason, pos: ActivePosition, price: Price, route: Route,
                              env: seq<AttemptEnv>, id: string)
  {
    && pos.acquired != 0
    && |env| > 0 && env[0].tipAccounts.Some? && env[0].tipAccounts.value != []
    && exists k: nat :: FirstAccepted(reason, pos, price, route, env, k) && env[k - 1].send.bundleId == id
  }

  ghost predicate FirstAccepted(reason: SellReason, pos: ActivePosition, price: Price, route: Route,
                                env: seq<AttemptEnv>, k: nat)
  {
    && 1 <= k <= |env| && IsAccepted(reason, pos, price, route, env[k - 1], k)
    && forall j :: 1 <= j < k ==> !EndsSale(reason, pos, price, route, env, j)
  }

  /** The outcome and the submissions of a sale, by the answers of the network alone. */
  lemma SaleIsDecided(reason: SellReason, pos: ActivePosition, price: Price, route: Route, env: seq<AttemptEnv>)
    returns (last: nat)
    requires |env| == MAX_SELL_ATTEMPTS
    ensures var (outcome, sent) := SellBundle(reason, pos, price, route, env);
            if pos.acquired == 0 then outcome == Err(ZeroAcquired) && sent == []
            else if env[0].tipAccounts.None? || env[0].tipAccounts.value == [] then
              outcome == Err(ConnectFailed) && sent == []
            else DecidedAt(reason, pos, price, route, env, last, (outcome, sent))
  {
    last := 0;
    if pos.acquired != 0 && Connect(env[0].tipAccounts).Some? {
      last := AttemptsDecide(reason, pos, price, route, env, 1, []);
    }
  }

  /** The first accepted attempt is the one that decides. */
  lemma OneDecides(reason: SellReason, pos: ActivePosition, price: Price, route: Route, env: seq<AttemptEnv>,
                   last: nat, sale: (Result<string, SellError>, seq<Submission>), k: nat)
    ensures DecidedAt(reason, pos, price, route, env, last, sale) && FirstAccepted(reason, pos, price, route, env, k)
            ==> sale.0 == Ok(env[k - 1].send.bundleId)
  {
    if DecidedAt(reason, pos, price, route, env, last, sale) && FirstAccepted(reason, pos, price, route, env, k) {
      assert EndsSale(reason, pos, price, route, env, k);
      assert last <= |env| ==> EndsSale(reason, pos, price, route, env, last);
    }
  }

  lemma SaleGoesThroughExactly(reason: SellReason, pos: ActivePosition, price: Price, route: Route,
                               env: seq<AttemptEnv>, id: string)
    requires |env| == 5
    ensures SellBundle(reason, pos, price, route, env).0 == Ok(id) <==> GoesThrough(reason, pos, price, route, env, id)
  {
    var last := SaleIsDecided(reason, pos, price, route, env);
    var (outcome, sent) := SellBundle(reason, pos, price, route, env);
    if GoesThrough(reason, pos, price, route, env, id) {
      var k: nat :| FirstAccepted(reason, pos, price, route, env, k) && env[k - 1].send.bundleId == id;
      OneDecides(reason, pos, price, route, env, last, (outcome, sent), k);
    } else if outcome == Ok(id) {
      assert FirstAccepted(reason, pos, price, route, env, last);
    }
  }

  /** Over a whole sell, whatever the network does: at most five submissions, each
      later one tips no less than each earlier one, and on the Raydium route its
      instruction offers the same bag and asks for no more. */
  lemma RetriesEscalate(reason: SellReason, pos: ActivePosition, price: Price, route: Route, env: seq<AttemptEnv>,
                        i: nat, j: nat)
    requires |env| == MAX_SELL_ATTEMPTS
    requires i < j < |SellBundle(reason, pos, price, route, env).1|
    ensures var sent := SellBundle(reason, pos, price, route, env).1;
            && sent[i].attempt < sent[j].attempt <= MAX_SELL_ATTEMPTS
            && MINIMUM_JITO_TIP_LAMPORTS <= sent[i].tipLamports <= sent[j].tipLamports
            && (route.Raydium? ==>
                  && sent[i].instruction.Some? && sent[j].instruction.Some?
                  && RaydiumSwap.AmountInOf(sent[j].instruction.value)
                     == RaydiumSwap.AmountInOf(sent[i].instruction.value)
                  && RaydiumSwap.MinimumOutOf(sent[j].instruction.value)
                     <= RaydiumSwap.MinimumOutOf(sent[i].instruction.value))
  {
    SubmissionsOnSchedule(reason, pos, price, route, env, 1, []);
    var sent := SellBundle(reason, pos, price, route, env).1;
    ScheduleMonotone(reason, pos.maxSlippageBps, pos.acquired, price, pos.tipLamports, sent[i].attempt,
                     sent[j].attempt);
  }

  // ---- From the entry price to the minimum-out ------------------------------------------

  /** The 90% and 85%/2 floors of one sale against what was paid. */
  predicate MeetsFloor(amountIn: u64, sell: Sell, minimumOut: nat) {
    match sell.reason
    case VwapSnapback => minimumOut >= amountIn * 9000 / 10_000
    case PanicVelocity => minimumOut >= (amountIn * 85 / 100) / 2
    case _ => false
  }

  lemma ExpectedAtLeast(acquired: u64, price: Price, worth: nat)
    requires price.den > 0 && acquired * price.num >= worth * price.den
    ensures ExpectedWsol(acquired, price) >= worth
  {
    ProductFits(acquired, price.num);
    QuotientAtLeast(acquired * price.num, worth, price.den);
  }

  lemma FloorFromExpected(quoted: u64, worth: nat, slippageBps: u16, atMostBps: u16)
    requires quoted >= worth && slippageBps <= atMostBps <= 10_000
    ensures LocalMinimumAmountOut(quoted, slippageBps).Ok?
    ensures LocalMinimumAmountOut(quoted, slippageBps).value >= worth * (10_000 - atMostBps) / 10_000
  {
    MinimumOutMonotone(worth, quoted, slippageBps, atMostBps);
  }

  lemma SnapbackMeetsFloor(pos: ActivePosition, sell: Sell, attempt: nat)
    requires attempt >= 1 && sell.reason.VwapSnapback? && sell.price.den > 0
    requires !Below(sell.price, pos.entry) && pos.entry.den == pos.acquired
    requires ExpectedWsol(pos.acquired, sell.price) < TWO_64
    ensures MeetsFloor(pos.entry.num, sell,
                       MinimumOut(sell.reason, pos.maxSlippageBps, pos.acquired, sell.price, attempt))
  {
    var expected := ExpectedWsol(pos.acquired, sell.price);
    SlippageSchedule(sell.reason, pos.maxSlippageBps, attempt);
    assert WrapU64(expected) == expected;
    ExpectedAtLeast(pos.acquired, sell.price, pos.entry.num);
    FloorFromExpected(expected, pos.entry.num, EffectiveSlippageBps(sell.reason, pos.maxSlippageBps, attempt), 1000);
  }

  /** Above 85% of entry the bag is worth at least the rounded-down 85% of the spend. */
  lemma WorthAbove85(pos: ActivePosition, price: Price)
    requires AbovePercent(price, 85, pos.entry) && price.den > 0 && pos.entry.den == pos.acquired
    ensures ExpectedWsol(pos.acquired, price) >= pos.entry.num * 85 / 100
  {
    var amountIn := pos.entry.num;
    var worth := amountIn * 85 / 100;
    MulMono(100 * worth, 85 * amountIn, price.den);
    assert 100 * worth * price.den == 100 * (worth * price.den);
    assert 85 * amountIn * price.den == 85 * (amountIn * price.den);
    ExpectedAtLeast(pos.acquired, price, worth);
  }

  lemma PanicMeetsFloor(pos: ActivePosition, sell: Sell, attempt: nat)
    requires attempt >= 1 && sell.reason.PanicVelocity? && sell.price.den > 0
    requires AbovePercent(sell.price, 85, pos.entry) && pos.entry.den == pos.acquired
    requires ExpectedWsol(pos.acquired, sell.price) < TWO_64
    ensures MeetsFloor(pos.entry.num, sell,
                       MinimumOut(sell.reason, pos.maxSlippageBps, pos.acquired, sell.price, attempt))
  {
    var expected := ExpectedWsol(pos.acquired, sell.price);
    SlippageSchedule(sell.reason, pos.maxSlippageBps, attempt);
    assert WrapU64(expected) == expected;
    WorthAbove85(pos, sell.price);
    FloorFromExpected(expected, pos.entry.num * 85 / 100,
                      EffectiveSlippageBps(sell.reason, pos.maxSlippageBps, attempt), 5000);
  }

  /** From buy to sell. For a position built from `amountIn` lamports, on every feed
      and at every attempt, the sale the watcher makes asks for at least 90% of
      what was paid (snapback) or half of 85% of it (panic), as long as the
      expected proceeds fit u64 and, for a panic, the entry term does not clip. */
  lemma ExitFloor(mint: Pubkey, pool: SourcePool, amountIn: u64, acquired: u64, tip: u64, timestampMs: u64,
                  maxSlippageBps: u16, feed: seq<FeedItem>, attempt: nat)
    requires acquired > 0 && attempt >= 1
    requires var pos := Handoff(mint, pool, amountIn, acquired, tip, timestampMs, maxSlippageBps).value;
             forall sell :: sell in RunFrom(pos, InitialState(pos), feed, []).sells
               ==> ExpectedWsol(acquired, sell.price) < TWO_64
                   && (sell.reason.PanicVelocity? ==> 1500 * EntryTerm(sell.price, pos.entry) <= TWO_127)
    ensures var pos := Handoff(mint, pool, amountIn, acquired, tip, timestampMs, maxSlippageBps).value;
            forall sell :: sell in RunFrom(pos, InitialState(pos), feed, []).sells
              ==> MeetsFloor(amountIn, sell, MinimumOut(sell.reason, maxSlippageBps, acquired, sell.price, attempt))
  {
    var pos := Handoff(mint, pool, amountIn, acquired, tip, timestampMs, maxSlippageBps).value;
    forall sell | sell in RunFrom(pos, InitialState(pos), feed, []).sells
      ensures MeetsFloor(amountIn, sell, MinimumOut(sell.reason, maxSlippageBps, acquired, sell.price, attempt))
    {
      var _ := SaleIsOnATick(pos, feed, sell);
      if sell.reason.VwapSnapback? {
        SnapbackMeetsFloor(pos, sell, attempt);
      } else {
        PanicMeetsFloor(pos, sell, attempt);
      }
    }
  }

  /** A Raydium sell can be built exactly when the accounts are in order, the bag is
      not empty and the cast proceeds leave at least one lamport after slippage. */
  lemma SellBuildsExactly(reason: SellReason, pos: ActivePosition, price: Price, route: Route, attempt: nat)
    requires route.Raydium? && attempt >= 1
    ensures SellInstruction(reason, pos, price, route, attempt).Ok?
            <==> && route.keys.Valid()
                 && RaydiumSwap.UserAccountsError(route.keys, route.owner, route.source, route.destination).None?
                 && pos.acquired > 0
                 && WrapU64(ExpectedWsol(pos.acquired, price))
                    * (10_000 - EffectiveSlippageBps(reason, pos.maxSlippageBps, attempt)) >= 10_000
  {
    SlippageSchedule(reason, pos.maxSlippageBps, attempt);
    MinimumOutIsFloor(WrapU64(ExpectedWsol(pos.acquired, price)),
                      EffectiveSlippageBps(reason, pos.maxSlippageBps, attempt));
  }

  lemma ShareGrows(quoted: nat, expected: nat, keep: nat)
    requires expected >= quoted + TWO_64 && 5000 <= keep
    ensures quoted * keep / 10_000 < expected * keep / 10_000
  {
    MulMono(quoted + TWO_64, expected, keep);
    MulMono(5000, keep, TWO_64);
    assert (quoted + TWO_64) * keep == quoted * keep + TWO_64 * keep;
    assert TWO_64 * keep == keep * TWO_64;
  }

  lemma WrapLosesAWholeTurn(x: nat)
    requires x >= TWO_64
    ensures WrapU64(x) + TWO_64 <= x
  {
    assert x == (x / TWO_64) * TWO_64 + x % TWO_64;
    assert x / TWO_64 >= 1;
  }

  /** The minimum-out of an attempt is the allowed share of the true proceeds exactly
      when these fit u64. Beyond, the cast makes it smaller. */
  lemma MinimumOutIsTrueShareExactly(reason: SellReason, maxSlippageBps: u16, acquired: u64, price: Price, attempt: nat)
    requires attempt >= 1
    ensures MinimumOut(reason, maxSlippageBps, acquired, price, attempt)
            == ExpectedWsol(acquired, price) * (10_000 - EffectiveSlippageBps(reason, maxSlippageBps, attempt)) / 10_000
            <==> ExpectedWsol(acquired, price) < TWO_64
  {
    var slippage := EffectiveSlippageBps(reason, maxSlippageBps, attempt);
    SlippageSchedule(reason, maxSlippageBps, attempt);
    MinimumOutOfQuote(WrapU64(ExpectedWsol(acquired, price)), slippage);
    CastShareExactly(ExpectedWsol(acquired, price), 10_000 - slippage);
  }

  /** A share of at least half survives the cast of the whole exactly when the whole does. */
  lemma CastShareExactly(expected: nat, keep: nat)
    requires 5000 <= keep
    ensures WrapU64(expected) * keep / 10_000 == expected * keep / 10_000 <==> expected < TWO_64
  {
    if expected >= TWO_64 {
      WrapLosesAWholeTurn(expected);
      ShareGrows(WrapU64(expected), expected, keep);
    } else {
      assert WrapU64(expected) == expected;
    }
  }

  lemma MinimumOutOfQuote(quoted: u64, slippageBps: u16)
    requires slippageBps <= 10_000
    ensures LocalMinimumAmountOut(quoted, slippageBps) == Ok(quoted * (10_000 - slippageBps) / 10_000)
  {
    MinimumOutIsFloor(quoted, slippageBps);
  }

  /** Proceeds of exactly 2^64 lamports are cast to zero, and the sell is refused. */
  lemma FloorCanBeLost(route: Route) returns (pos: ActivePosition, price: Price)
    requires route.Raydium? && route.keys.Valid()
    ensures pos.entry.den == pos.acquired && !Below(price, pos.entry)
    ensures SellInstruction(VwapSnapback, pos, price, route, 1) == Err(RaydiumSwap.ZeroMinimumOut)
  {
    pos := ActivePosition(Pubkey(9), RaydiumPool(Pubkey(9)), Price(1, TWO_63), TWO_63, 1000, 1, 100);
    price := Price(2, 1);
    assert ExpectedWsol(pos.acquired, price) == TWO_64;
  }

  // ---- Confirmation and booking -----------------------------------------------------------

  datatype Poll = NoAnswer | NotYetConfirmed | ConfirmedOk | ConfirmedWithError

  predicate Decisive(p: Poll) {
    p.ConfirmedOk? || p.ConfirmedWithError?
  }

  /** The first decisive answer is a success. */
  predicate ConfirmedBy(polls: seq<Poll>) {
    exists k :: 0 <= k < |polls| && polls[k].ConfirmedOk? && forall i :: 0 <= i < k ==> !Decisive(polls[i])
  }

  method PollConfirmation(polls: seq<Poll>) returns (confirmed: bool)
    ensures confirmed <==> ConfirmedBy(polls)
  {
    confirmed := false;
    for k := 0 to |polls|
      invariant !confirmed && forall i :: 0 <= i < k ==> !Decisive(polls[i])
    {
      if Decisive(polls[k]) {
        confirmed := polls[k].ConfirmedOk?;
        break;
      }
    }
  }

  /** A sale and its bookkeeping. Nothing is booked unless the transaction is
      confirmed; a final sale then releases the shadow position and moves the streak. */
  method ExecuteSellWithRetry(sell: Sell, pos: ActivePosition, route: Route, env: seq<AttemptEnv>, polls: seq<Poll>,
                              bot: BotState, dryRun: bool) returns (success: bool)
    requires bot.Valid() && |env| == MAX_SELL_ATTEMPTS && |polls| == CONFIRMATION_POLLS
    modifies bot
    ensures bot.Valid()
    ensures success <==> dryRun || (SellBundle(sell.reason, pos.(acquired := sell.amount), sell.price, route, env).0.Ok?
                                    && ConfirmedBy(polls))
    ensures bot.Breaker() == if success && !dryRun && sell.isFinal
                             then CircuitBreaker.Close(old(bot.Breaker()), ComputePnlBps(sell.price, pos.entry))
                             else old(bot.Breaker())
    ensures bot.Pool() == if success && sell.isFinal
                          then PermitPool.Step(old(bot.Pool()), PermitPool.Release(pos.mint))
                          else old(bot.Pool())
    ensures bot.tradedMints == old(bot.tradedMints)
  {
    if dryRun {
      if sell.isFinal {
        var _ := bot.ReleaseShadowPosition(pos.mint);
      }
      return true;
    }
    var result, sent := AttemptSellBundle(sell.reason, pos.(acquired := sell.amount), sell.price, route, env);
    if result.Err? {
      return false;
    }
    var confirmed := PollConfirmation(polls);
    if !confirmed {
      return false;
    }
    if sell.isFinal {
      var _ := bot.ReleaseShadowPosition(pos.mint);
      bot.BookClose(ComputePnlBps(sell.price, pos.entry));
    }
    success := true;
  }

  /** The bundle is accepted and its transaction confirmed. */
  predicate SellLands(sell: Sell, pos: ActivePosition, route: Route, env: seq<AttemptEnv>, polls: seq<Poll>)
    requires |env| == MAX_SELL_ATTEMPTS
  {
    SellBundle(sell.reason, pos.(acquired := sell.amount), sell.price, route, env).0.Ok? && ConfirmedBy(polls)
  }

  /** The watcher decided to sell and the sale went through, or was only pretended. */
  predicate Completes(end: WatcherEnd, pos: ActivePosition, route: Route, env: seq<AttemptEnv>, polls: seq<Poll>,
                      dryRun: bool)
    requires |env| == MAX_SELL_ATTEMPTS
  {
    end.Stopped? && end.cause.Sold? && (dryRun || SellLands(end.cause.sell, pos, route, env, polls))
  }

  /** A watcher's sale is the last one. */
  lemma SaleIsFinal(pos: ActivePosition, feed: seq<FeedItem>)
    requires pos.entry.den > 0
    ensures var run := RunFrom(pos, InitialState(pos), feed, []);
            && run.sells == SellsOf(run.end)
            && (run.end.Stopped? && run.end.cause.Sold? ==>
                  run.end.cause.sell.isFinal && run.end.cause.sell.amount == pos.acquired)
  {
    var _ := WatcherRuns(pos, feed);
  }

  /** The whole watcher task on a handed-over position: the watcher, its final sale if
      it decides on one, and the end of the task, which always gives the slot back.
      A feed that ends with the watcher running is one cut by the deadline. The slot is
      given back with the bag unsold exactly when the run is dry, the watcher ended
      without a sale, or its sale did not land. */
  method RunWatcherTask(pos: ActivePosition, feed: seq<FeedItem>, route: Route, env: seq<AttemptEnv>, polls: seq<Poll>,
                        bot: BotState, permit: PermitPool.Permit, dryRun: bool)
    returns (end: WatcherEnd, unsold: bool)
    requires bot.Valid() && permit in bot.heldPermits && pos.entry.den > 0
    requires |env| == MAX_SELL_ATTEMPTS && |polls| == CONFIRMATION_POLLS
    modifies bot
    ensures bot.Valid() && end == RunFrom(pos, InitialState(pos), feed, []).end
    ensures unsold
            <==> dryRun || !end.Stopped? || !end.cause.Sold? || !SellLands(end.cause.sell, pos, route, env, polls)
    ensures bot.Pool() == PermitPool.Step(if Completes(end, pos, route, env, polls, dryRun)
                                          then PermitPool.Step(old(bot.Pool()), PermitPool.Release(pos.mint))
                                          else old(bot.Pool()),
                                          PermitPool.Drop(permit))
    ensures bot.Breaker() == if unsold then old(bot.Breaker())
                             else CircuitBreaker.Close(old(bot.Breaker()),
                                                       ComputePnlBps(end.cause.sell.price, pos.entry))
    ensures bot.tradedMints == old(bot.tradedMints)
  {
    var sells;
    sells, end := RunWatcher(pos, feed);
    SaleIsFinal(pos, feed);
    unsold := true;
    if end.Stopped? && end.cause.Sold? {
      var success := ExecuteSellWithRetry(end.cause.sell, pos, route, env, polls, bot, dryRun);
      unsold := dryRun || !success;
    }
    bot.DropPermit(permit);
  }

  /** The exit reason fixes the booking. Over every run of a handed-over position, a
      confirmed panic adds one to the streak exactly while the entry term fits
      i128, with a PnL in [-1499, -1200] bps when it does not clip; a confirmed
      snapback wipes the streak exactly when the gain survives the cast to i64. */
  lemma ReasonFixesBooking(pos: ActivePosition, feed: seq<FeedItem>, sell: Sell, b: CircuitBreaker.Breaker)
    requires pos.entry.den > 0 && sell in RunFrom(pos, InitialState(pos), feed, []).sells
    ensures var booked := CircuitBreaker.Close(b, ComputePnlBps(sell.price, pos.entry)).losses;
            match sell.reason
            case PanicVelocity =>
              && (booked == b.losses + 1 <==> EntryTerm(sell.price, pos.entry) < TWO_127)
              && (booked == 0 <==> EntryTerm(sell.price, pos.entry) >= TWO_127)
              && (1500 * EntryTerm(sell.price, pos.entry) <= TWO_127
                  ==> -1499 <= ComputePnlBps(sell.price, pos.entry) <= -1200)
            case VwapSnapback =>
              booked == 0 <==> || sell.price.num * pos.entry.den >= TWO_127
                               || GainBps(sell.price, pos.entry) % TWO_64 < TWO_63
            case _ => false
  {
    var _ := SaleIsOnATick(pos, feed, sell);
    if sell.reason.PanicVelocity? {
      LossIsNegativeExactly(sell.price, pos.entry);
      if 1500 * EntryTerm(sell.price, pos.entry) <= TWO_127 {
        PanicPnlRange(sell.price, pos.entry);
      }
    } else {
      GainIsNonNegativeExactly(sell.price, pos.entry);
    }
  }
}
