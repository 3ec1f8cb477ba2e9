/** The execution consumer: each whale signal passes a row of gates, is reserved in
    the journal, and only then submitted. The class ties together the journal, the
    shared bot state, the dispatcher's rotation and the deduplicator.

    `Shut` says of each gate, on its own, when it refuses a signal. `ProcessSignal`
    follows the body of the consumer loop; its contract says that a refusal names
    the first shut gate, what each outcome does to every piece of state, and which
    steps of the crash model the call amounts to. */
module ExecutionConsumerModule {
  import opened Primitives
  import opened Types
  import opened JournalReplay
  import opened ExecutionJournalModule
  import opened BotStateModule
  import opened DispatcherModule
  import MintLock
  import CircuitBreaker
  import PermitPool
  import TipRotation
  import Tipping
  import CrashRecovery

  const DEFAULT_RENT_LAMPORTS: u64 := 2_039_280
  const PUMP_FEE_LAMPORTS: u64 := 100_000

  /** The configuration refuses a smaller tip. */
  const MINIMUM_TIP_LAMPORTS: u64 := 1_000

  datatype Lane = Conservative | Swing | Degen | Sniper | Unknown

  /** A signal with its mint text parsed and its trade size in lamports. */
  datatype Signal = Signal(mint: Option<Pubkey>, isPump: bool, wallet: Pubkey, lane: Lane, timestampMs: u64,
                           amountIn: u64)

  datatype Config = Config(maxSignalAgeMs: nat, tipLamports: u64, maxSlippageBps: u16, tip: Tipping.TipConfig)

  datatype Quote = Quote(pool: Pubkey, rentLamports: u64)

  datatype Bundle = Bundle(signature: string, blockhash: string)

  /** What the world answers while one signal is handled: clock readings, the tip
      telemetry, the remote calls, the disk and the block engines. */
  datatype Env = Env(
    breakerNow: nat, lockNow: nat, tipNow: nat, freshNow: nat,
    telemetry: Option<Tipping.TipTelemetry>,
    raydium: Option<Quote>, blockhashOk: bool, pumpOk: bool, bundle: Option<Bundle>,
    recordBytes: nat, lockIo: LockIo, reserveIo: AppendIo,
    ack: Option<string>, networkFee: nat, acceptanceBytes: nat, acceptanceIo: AppendIo)

  datatype Gate =
    | BreakerOpen
    | BadMint
    | AlreadyReserved
    | NoSlot
    | MintLocked
    | TipSkipped
    | NoRoute
    | PumpUnavailable
    | NoTipAccount
    | NoBlockhash
    | BuildFailed
    | Expired
    | DuplicateOpportunity
    | NotReserved
  {
    /** Where the gate stands in the loop body. */
    function Place(): nat {
      match this
      case BreakerOpen => 0
      case BadMint => 1
      case AlreadyReserved => 2
      case NoSlot => 3
      case MintLocked => 4
      case TipSkipped => 5
      case NoRoute => 6
      case PumpUnavailable => 7
      case NoTipAccount => 8
      case NoBlockhash => 9
      case BuildFailed => 10
      case Expired => 11
      case DuplicateOpportunity => 12
      case NotReserved => 13
    }
  }

  datatype Order = Order(mint: Pubkey, pool: SourcePool, amountIn: u64, maxSlippageBps: u16)

  datatype Outcome =
    | Refused(gate: Gate)
    | SubmissionFailed
    | AcceptanceUnrecorded
    | HandedOff(order: Order)

  /** The state a signal is judged by. */
  datatype JournalView = JournalView(index: Index, ceiling: u64, lockHeld: bool, lockFile: bool)

  datatype View = View(
    journal: JournalView,
    breaker: CircuitBreaker.Breaker, pool: PermitPool.Pool, locks: MintLock.Table,
    seen: set<OpportunityKey>, rotation: TipRotation.Rotation)

  // ---- Gates ------------------------------------------------------------------------

  function LaneSlippageBps(lane: Lane, cfg: Config): u16 {
    match lane
    case Sniper => 250
    case Degen => 200
    case Swing => 150
    case Conservative => 100
    case Unknown => cfg.maxSlippageBps
  }

  predicate IsFresh(s: Signal, cfg: Config, now: nat) {
    s.timestampMs != 0 && SaturatingSub(now, s.timestampMs) <= cfg.maxSignalAgeMs
  }

  function KeyOf(s: Signal, mint: Pubkey): OpportunityKey {
    OpportunityKey(mint, s.wallet, s.timestampMs / 1000)
  }

  /** The fee a reservation counts: none on the Raydium path. */
  function ReservedFee(e: Env): u64 {
    if e.raydium.Some? then 0 else PUMP_FEE_LAMPORTS
  }

  /** The reservation asked for: the configured tip, not the bid, and no fee on the Raydium path. */
  function RequestOf(s: Signal, cfg: Config, e: Env, mint: Pubkey, bundle: Bundle): Request {
    Request(mint, s.amountIn, cfg.tipLamports,
            ReservedFee(e),
            if e.raydium.Some? then e.raydium.value.rentLamports else DEFAULT_RENT_LAMPORTS,
            s.timestampMs, bundle.signature, bundle.blockhash, e.recordBytes)
  }

  /** The tip the signed bundle pays. The consumer estimates the profit at 1% of the trade. */
  function BidOf(s: Signal, cfg: Config, e: Env): u64 {
    var tip := Tipping.CalculateTip(e.telemetry, cfg.tip, s.amountIn / 100, e.tipNow);
    if tip.Bid? then tip.lamports else 0
  }

  predicate LockObtained(j: JournalView, e: Env) {
    j.lockHeld || (!j.lockFile && e.lockIo == LockCreated)
  }

  /** The reservation passes its checks and reaches the file, or tries to. */
  predicate AttemptsAppend(j: JournalView, q: Request, e: Env) {
    ReserveCheck(j.index, j.ceiling, q).Ok? && LockObtained(j, e)
  }

  predicate Reservable(j: JournalView, q: Request, e: Env) {
    AttemptsAppend(j, q, e) && e.reserveIo == Durable
  }

  /** Whether the gate refuses the signal, taken by itself. */
  predicate Shut(gate: Gate, v: View, s: Signal, cfg: Config, e: Env)
    requires TipRotation.WellFormed(v.rotation)
  {
    match gate
    case BreakerOpen => CircuitBreaker.Query(v.breaker, e.breakerNow).0
    case BadMint => s.mint.None?
    case AlreadyReserved => s.mint.Some? && s.mint.value in v.journal.index.mints
    case NoSlot => v.pool.available == 0
    case MintLocked => s.mint.Some? && !MintLock.TryLock(v.locks, s.mint.value, e.lockNow).0
    case TipSkipped => Tipping.CalculateTip(e.telemetry, cfg.tip, s.amountIn / 100, e.tipNow).Skip?
    case NoRoute => e.raydium.None? && !s.isPump
    case PumpUnavailable => e.raydium.None? && s.isPump && !e.pumpOk
    case NoTipAccount => TipRotation.Choose(v.rotation).None?
    case NoBlockhash => e.raydium.Some? && !e.blockhashOk
    case BuildFailed => e.bundle.None?
    case Expired => !IsFresh(s, cfg, e.freshNow)
    case DuplicateOpportunity => s.mint.Some? && KeyOf(s, s.mint.value) in v.seen
    case NotReserved =>
      && s.mint.Some? && e.bundle.Some?
      && !Reservable(v.journal, RequestOf(s, cfg, e, s.mint.value, e.bundle.value), e)
  }

  /** The refusal of the first five gates, in the order of the loop body. */
  function Admission(mints: set<Pubkey>, breaker: CircuitBreaker.Breaker, available: nat, locks: MintLock.Table,
                     s: Signal, e: Env): (refusal: Option<Gate>)
    ensures refusal.Some? ==> refusal.value.Place() <= MintLocked.Place()
    ensures refusal.None? ==> s.mint.Some?
  {
    if CircuitBreaker.Query(breaker, e.breakerNow).0 then Some(BreakerOpen)
    else if s.mint.None? then Some(BadMint)
    else if s.mint.value in mints then Some(AlreadyReserved)
    else if available == 0 then Some(NoSlot)
    else if !MintLock.TryLock(locks, s.mint.value, e.lockNow).0 then Some(MintLocked)
    else None
  }

  /** The refusal of the gates up to the signed bundle. */
  function Preparation(noTipAccount: bool, s: Signal, cfg: Config, e: Env): (refusal: Option<Gate>)
    ensures refusal.Some? ==> MintLocked.Place() < refusal.value.Place() < Expired.Place()
    ensures refusal.None? ==> e.bundle.Some? && !noTipAccount
  {
    if Tipping.CalculateTip(e.telemetry, cfg.tip, s.amountIn / 100, e.tipNow).Skip? then Some(TipSkipped)
    else if e.raydium.None? && !s.isPump then Some(NoRoute)
    else if e.raydium.None? && !e.pumpOk then Some(PumpUnavailable)
    else if noTipAccount then Some(NoTipAccount)
    else if e.raydium.Some? && !e.blockhashOk then Some(NoBlockhash)
    else if e.bundle.None? then Some(BuildFailed)
    else None
  }

  /** The refusal of the remaining gates: freshness, deduplication, reservation. */
  function Commitment(j: JournalView, seen: set<OpportunityKey>, s: Signal, cfg: Config, e: Env, mint: Pubkey,
                      bundle: Bundle)
    : (refusal: Option<Gate>)
    ensures refusal.Some? ==> refusal.value.Place() >= Expired.Place()
  {
    if !IsFresh(s, cfg, e.freshNow) then Some(Expired)
    else if KeyOf(s, mint) in seen then Some(DuplicateOpportunity)
    else if !Reservable(j, RequestOf(s, cfg, e, mint, bundle), e) then Some(NotReserved)
    else None
  }

  /** A signal is refused exactly when some gate is shut, and by the first one. */
  function Refusal(v: View, s: Signal, cfg: Config, e: Env): (refusal: Option<Gate>)
    requires TipRotation.WellFormed(v.rotation)
    ensures refusal.Some? ==> Shut(refusal.value, v, s, cfg, e)
    ensures forall g: Gate :: Shut(g, v, s, cfg, e) ==> refusal.Some? && refusal.value.Place() <= g.Place()
  {
    var admission := Admission(v.journal.index.mints, v.breaker, v.pool.available, v.locks, s, e);
    var preparation := Preparation(TipRotation.Choose(v.rotation).None?, s, cfg, e);
    if admission.Some? then admission
    else if preparation.Some? then preparation
    else Commitment(v.journal, v.seen, s, cfg, e, s.mint.value, e.bundle.value)
  }

  function OrderOf(s: Signal, cfg: Config, e: Env, mint: Pubkey): Order {
    Order(mint, if e.raydium.Some? then RaydiumPool(e.raydium.value.pool) else PumpPool,
          s.amountIn, LaneSlippageBps(s.lane, cfg))
  }

  /** The outcome of a signal: refused, or submitted and then acknowledged or not. */
  function OutcomeOf(refusal: Option<Gate>, order: Order, e: Env): Outcome {
    if refusal.Some? then Refused(refusal.value)
    else if e.ack.None? then SubmissionFailed
    else if e.acceptanceIo != Durable then AcceptanceUnrecorded
    else HandedOff(order)
  }

  predicate IsVerdict(outcome: Outcome, v: View, s: Signal, cfg: Config, e: Env)
    requires TipRotation.WellFormed(v.rotation)
  {
    var refusal := Refusal(v, s, cfg, e);
    if refusal.Some? then outcome == Refused(refusal.value)
    else outcome == OutcomeOf(None, OrderOf(s, cfg, e, s.mint.value), e)
  }

  // ---- What a verdict means ------------------------------------------------------------

  /** The signal carries a time and is not older than allowed. */
  predicate IsYoung(s: Signal, cfg: Config, e: Env) {
    s.timestampMs > 0 && e.freshNow <= s.timestampMs + cfg.maxSignalAgeMs
  }

  /** No signal of this wallet for this mint and second was committed before. */
  predicate IsNewOpportunity(v: View, s: Signal)
    requires s.mint.Some?
  {
    OpportunityKey(s.mint.value, s.wallet, s.timestampMs / 1000) !in v.seen
  }

  /** Trade, configured tip, fee and rent fit under the ceiling with what is reserved, the
      file can be locked, and the record is written. */
  predicate FitsAndIsWritten(j: JournalView, s: Signal, cfg: Config, e: Env) {
    && j.index.capital + s.amountIn + cfg.tipLamports
       + (if e.raydium.Some? then e.raydium.value.rentLamports else 100_000 + 2_039_280) <= j.ceiling
    && (j.lockHeld || (!j.lockFile && e.lockIo == LockCreated))
    && e.reserveIo == Durable
  }

  /** Trading is not blocked, a slot is free, and the mint is new and not locked. */
  predicate IsAdmissible(v: View, s: Signal, e: Env) {
    && (v.breaker.losses < 3 || (v.breaker.trippedAt.Some? && e.breakerNow >= v.breaker.trippedAt.value + 1_800_000))
    && s.mint.Some? && s.mint.value !in v.journal.index.mints
    && v.pool.available > 0
    && (s.mint.value in v.locks ==> e.lockNow >= v.locks[s.mint.value] + 14_400_000)
  }

  /** The tip rule bids, some region has a tip account, and the route yields a signed bundle. */
  ghost predicate IsPrepared(v: View, s: Signal, cfg: Config, e: Env) {
    && Tipping.CalculateTip(e.telemetry, cfg.tip, s.amountIn / 100, e.tipNow).Bid?
    && (exists i: nat :: TipRotation.Usable(v.rotation, i))
    && (if e.raydium.Some? then e.blockhashOk else s.isPump && e.pumpOk)
    && e.bundle.Some?
  }

  lemma AdmissionExactly(v: View, s: Signal, e: Env)
    ensures Admission(v.journal.index.mints, v.breaker, v.pool.available, v.locks, s, e).None?
            <==> IsAdmissible(v, s, e)
  {
  }

  lemma PreparationExactly(v: View, s: Signal, cfg: Config, e: Env)
    requires TipRotation.WellFormed(v.rotation)
    ensures Preparation(TipRotation.Choose(v.rotation).None?, s, cfg, e).None? <==> IsPrepared(v, s, cfg, e)
  {
    TipRotation.ChoiceMeaning(v.rotation);
  }

  lemma CommitmentExactly(v: View, s: Signal, cfg: Config, e: Env)
    requires s.mint.Some? && e.bundle.Some?
    ensures match Commitment(v.journal, v.seen, s, cfg, e, s.mint.value, e.bundle.value)
            case None =>
              && IsYoung(s, cfg, e) && IsNewOpportunity(v, s) && s.mint.value !in v.journal.index.mints
              && FitsAndIsWritten(v.journal, s, cfg, e)
            case Some(Expired) => !IsYoung(s, cfg, e)
            case Some(DuplicateOpportunity) => IsYoung(s, cfg, e) && !IsNewOpportunity(v, s)
            case Some(NotReserved) =>
              && IsYoung(s, cfg, e) && IsNewOpportunity(v, s)
              && (s.mint.value in v.journal.index.mints || !FitsAndIsWritten(v.journal, s, cfg, e))
            case Some(_) => false
  {
    ReserveChecksExactly(v.journal.index, v.journal.ceiling, RequestOf(s, cfg, e, s.mint.value, e.bundle.value));
  }

  /** A signal is submitted exactly when it is admissible, can be prepared, is young and
      new, and its reservation fits and is written. The last three refusals say which of
      these failed. A submitted signal is handed off exactly when it is acknowledged and
      that is recorded; the order carries the signal's own mint and amount, the pool of
      the quote, and the slippage of its lane. */
  lemma VerdictMeans(v: View, s: Signal, cfg: Config, e: Env, outcome: Outcome)
    requires TipRotation.WellFormed(v.rotation)
    ensures IsVerdict(outcome, v, s, cfg, e) ==>
              && (!outcome.Refused? <==>
                    && IsAdmissible(v, s, e) && IsPrepared(v, s, cfg, e) && IsYoung(s, cfg, e)
                    && IsNewOpportunity(v, s) && FitsAndIsWritten(v.journal, s, cfg, e))
              && (outcome == Refused(Expired) ==> !IsYoung(s, cfg, e))
              && (outcome == Refused(DuplicateOpportunity) ==>
                    IsYoung(s, cfg, e) && s.mint.Some? && !IsNewOpportunity(v, s))
              && (outcome == Refused(NotReserved) ==>
                    IsYoung(s, cfg, e) && !FitsAndIsWritten(v.journal, s, cfg, e))
              && (!outcome.Refused? ==>
                    && (outcome.SubmissionFailed? <==> e.ack.None?)
                    && (outcome.HandedOff? <==> e.ack.Some? && e.acceptanceIo == Durable))
              && (outcome.HandedOff? ==> IsOrderOf(outcome.order, s, cfg, e))
  {
    AdmissionExactly(v, s, e);
    PreparationExactly(v, s, cfg, e);
    if IsAdmissible(v, s, e) && IsPrepared(v, s, cfg, e) {
      CommitmentExactly(v, s, cfg, e);
    }
  }

  predicate IsOrderOf(order: Order, s: Signal, cfg: Config, e: Env) {
    && s.mint == Some(order.mint) && order.amountIn == s.amountIn
    && (match e.raydium
        case Some(quote) => order.pool == RaydiumPool(quote.pool)
        case None => order.pool == PumpPool)
    && order.maxSlippageBps == match s.lane
                               case Sniper => 250
                               case Degen => 200
                               case Swing => 150
                               case Conservative => 100
                               case Unknown => cfg.maxSlippageBps
  }

  // ---- Effects -----------------------------------------------------------------------

  predicate Reaches(outcome: Outcome, gate: Gate) {
    outcome.Refused? ==> outcome.gate.Place() >= gate.Place()
  }

  /** The pump path unwraps a missing tip account and dies with the task. */
  predicate EndsTask(outcome: Outcome, e: Env) {
    outcome.AcceptanceUnrecorded? || (outcome == Refused(NoTipAccount) && e.raydium.None?)
  }

  /** The refusals after which the mint lock is given back. An expired signal keeps it,
      and so does a task that dies. */
  predicate UnlocksMint(outcome: Outcome, e: Env) {
    && outcome.Refused?
    && outcome.gate.Place() > MintLocked.Place()
    && !outcome.gate.Expired?
    && !EndsTask(outcome, e)
  }

  function LocksAfter(locks: MintLock.Table, s: Signal, e: Env, outcome: Outcome): MintLock.Table {
    if !Reaches(outcome, MintLocked) || s.mint.None? then locks
    else
      var attempted := MintLock.TryLock(locks, s.mint.value, e.lockNow).1;
      if UnlocksMint(outcome, e) then MintLock.Unlock(attempted, s.mint.value) else attempted
  }

  /** Only a handoff keeps the permit. A refusal by the mint lock or later took one
      and dropped it, which leaves its number used up. */
  function PoolAfter(pool: PermitPool.Pool, outcome: Outcome): PermitPool.Pool {
    if outcome.HandedOff? then PermitPool.Step(pool, PermitPool.Acquire)
    else if Reaches(outcome, MintLocked) then pool.(next := pool.next + 1)
    else pool
  }

  function JournalAfter(j: JournalView, s: Signal, cfg: Config, e: Env, outcome: Outcome): JournalView {
    if Reaches(outcome, NotReserved) && s.mint.Some? && e.bundle.Some? then
      AfterReservation(j, RequestOf(s, cfg, e, s.mint.value, e.bundle.value), e)
    else j
  }

  function AfterReservation(j: JournalView, q: Request, e: Env): JournalView {
    var check := ReserveCheck(j.index, j.ceiling, q);
    if check.Err? then j
    else JournalView(if Reservable(j, q, e) then AfterReserve(j.index, q) else j.index, j.ceiling,
                     LockObtained(j, e), j.lockFile || (!j.lockHeld && e.lockIo != LockCreateFails))
  }

  /** Everything a signal changes in memory and in the lock file. */
  function AfterSignal(v: View, s: Signal, cfg: Config, e: Env, outcome: Outcome): View
    requires TipRotation.WellFormed(v.rotation)
  {
    View(JournalAfter(v.journal, s, cfg, e, outcome),
         CircuitBreaker.Query(v.breaker, e.breakerNow).1,
         PoolAfter(v.pool, outcome),
         LocksAfter(v.locks, s, e, outcome),
         SeenAfter(v.seen, s, outcome),
         if Reaches(outcome, NoTipAccount) then TipRotation.Advance(v.rotation) else v.rotation)
  }

  function SeenAfter(seen: set<OpportunityKey>, s: Signal, outcome: Outcome): set<OpportunityKey> {
    if Reaches(outcome, DuplicateOpportunity) && s.mint.Some? then seen + {KeyOf(s, s.mint.value)} else seen
  }

  function PoolAtAdmission(pool: PermitPool.Pool, refusal: Option<Gate>): PermitPool.Pool {
    if refusal.None? then PermitPool.Step(pool, PermitPool.Acquire)
    else if refusal.value.MintLocked? then pool.(next := pool.next + 1)
    else pool
  }

  /** What a reservation and its submission amount to in the crash model. */
  function CommitSteps(j: JournalView, q: Request, bid: u64, e: Env): seq<CrashRecovery.Step> {
    if !AttemptsAppend(j, q, e) then []
    else if e.reserveIo != Durable then [CrashRecovery.AppendReservation(q, e.reserveIo)]
    else [CrashRecovery.AppendReservation(q, Durable), CrashRecovery.Commit, CrashRecovery.Submit(bid, e.networkFee),
          LastStep(e)]
  }

  function LastStep(e: Env): CrashRecovery.Step {
    if e.ack.None? then CrashRecovery.GiveUp
    else CrashRecovery.RecordAcceptance(e.ack.value, e.acceptanceBytes, e.acceptanceIo)
  }

  /** What the whole call amounts to. */
  function StepsOf(j: JournalView, s: Signal, cfg: Config, e: Env, outcome: Outcome): seq<CrashRecovery.Step> {
    if outcome == Refused(NoTipAccount) && EndsTask(outcome, e) then [CrashRecovery.Crash]
    else if Reaches(outcome, NotReserved) && s.mint.Some? && e.bundle.Some? then
      CommitSteps(j, RequestOf(s, cfg, e, s.mint.value, e.bundle.value), BidOf(s, cfg, e), e)
    else []
  }

  lemma RunOne(w: CrashRecovery.World, a: CrashRecovery.Step)
    ensures CrashRecovery.Run(w, [a]) == CrashRecovery.Next(w, a)
  {
    CrashRecovery.RunSnoc(w, [], a);
    assert [] + [a] == [a];
  }

  lemma RunFour(w: CrashRecovery.World, a: CrashRecovery.Step, b: CrashRecovery.Step, c: CrashRecovery.Step,
                d: CrashRecovery.Step)
    ensures CrashRecovery.Run(w, [a, b, c, d])
            == CrashRecovery.Next(CrashRecovery.Next(CrashRecovery.Next(CrashRecovery.Next(w, a), b), c), d)
  {
    RunOne(w, a);
    CrashRecovery.RunSnoc(w, [a], b);
    CrashRecovery.RunSnoc(w, [a, b], c);
    CrashRecovery.RunSnoc(w, [a, b, c], d);
    assert [a] + [b] == [a, b] && [a, b] + [c] == [a, b, c] && [a, b, c] + [d] == [a, b, c, d];
  }

  /** A refusal before the signal is committed changes neither journal nor deduplicator. */
  lemma EarlyRefusal(j: JournalView, seen: set<OpportunityKey>, s: Signal, cfg: Config, e: Env, outcome: Outcome)
    requires outcome.Refused? && outcome.gate.Place() < Expired.Place()
    ensures StepsOf(j, s, cfg, e, outcome) == if EndsTask(outcome, e) then [CrashRecovery.Crash] else []
    ensures JournalAfter(j, s, cfg, e, outcome) == j && SeenAfter(seen, s, outcome) == seen
  {
  }

  /** What admission leaves behind. */
  ghost predicate AdmittedFrom(v: View, w: View, refusal: Option<Gate>, s: Signal, e: Env) {
    && refusal == Admission(v.journal.index.mints, v.breaker, v.pool.available, v.locks, s, e)
    && w == v.(breaker := CircuitBreaker.Query(v.breaker, e.breakerNow).1,
               pool := PoolAtAdmission(v.pool, refusal),
               locks := if s.mint.Some? && (refusal == None || refusal == Some(MintLocked))
                        then MintLock.TryLock(v.locks, s.mint.value, e.lockNow).1 else v.locks)
  }

  lemma AdmissionRefuses(v: View, w: View, refusal: Option<Gate>, s: Signal, cfg: Config, e: Env)
    requires TipRotation.WellFormed(v.rotation) && AdmittedFrom(v, w, refusal, s, e) && refusal.Some?
    ensures var outcome := Refused(refusal.value);
            && IsVerdict(outcome, v, s, cfg, e) && w == AfterSignal(v, s, cfg, e, outcome)
            && StepsOf(v.journal, s, cfg, e, outcome) == [] && !EndsTask(outcome, e)
  {
  }

  function RotationAfter(rotation: TipRotation.Rotation, preparation: Option<Gate>): TipRotation.Rotation
    requires TipRotation.WellFormed(rotation)
  {
    if preparation.None? || preparation.value.Place() >= NoTipAccount.Place() then TipRotation.Advance(rotation)
    else rotation
  }

  /** What preparation, commitment and settling make of an admitted signal that holds a permit. */
  ghost predicate SettledFrom(w: View, z: View, preparation: Option<Gate>, permit: PermitPool.Permit,
                              s: Signal, cfg: Config, e: Env, outcome: Outcome)
    requires TipRotation.WellFormed(w.rotation) && s.mint.Some?
  {
    && preparation == Preparation(TipRotation.Choose(w.rotation).None?, s, cfg, e)
    && outcome == (if preparation.Some? then Refused(preparation.value)
                   else OutcomeOf(Commitment(w.journal, w.seen, s, cfg, e, s.mint.value, e.bundle.value),
                                  OrderOf(s, cfg, e, s.mint.value), e))
    && z.journal == JournalAfter(w.journal, s, cfg, e, outcome) && z.breaker == w.breaker
    && z.seen == SeenAfter(w.seen, s, outcome) && z.rotation == RotationAfter(w.rotation, preparation)
    && z.locks == (if UnlocksMint(outcome, e) then MintLock.Unlock(w.locks, s.mint.value) else w.locks)
    && z.pool == (if outcome.HandedOff? then w.pool else PermitPool.Step(w.pool, PermitPool.Drop(permit)))
  }

  lemma SettledAfterSignal(v: View, w: View, z: View, preparation: Option<Gate>, s: Signal, cfg: Config, e: Env,
                           outcome: Outcome)
    requires TipRotation.WellFormed(v.rotation) && AdmittedFrom(v, w, None, s, e) && v.pool.next !in v.pool.held
    requires SettledFrom(w, z, preparation, v.pool.next, s, cfg, e, outcome)
    ensures z == AfterSignal(v, s, cfg, e, outcome) && IsVerdict(outcome, v, s, cfg, e)
  {
    assert v.pool.held + {v.pool.next} - {v.pool.next} == v.pool.held;
  }

  class ExecutionConsumer {
    const cfg: Config
    const journal: ExecutionJournal
    const bot: BotState
    const dispatcher: BundleDispatcher
    const dedupe: OpportunityDeduplicator
    var running: bool
    ghost var submissions: seq<CrashRecovery.Submission>

    ghost function Snapshot(): View
      reads this, journal, journal.disk, bot, dedupe, dispatcher, dispatcher.regions
    {
      View(JournalSnapshot(),
           bot.Breaker(), bot.Pool(), bot.tradedMints, dedupe.seen, dispatcher.rotation)
    }

    ghost function JournalSnapshot(): JournalView
      reads this, journal, journal.disk
    {
      JournalView(journal.Index(), journal.ceiling, journal.writerLockAcquired, journal.disk.lockFile)
    }

    ghost function World(): CrashRecovery.World
      reads this, journal, journal.disk
    {
      CrashRecovery.World(journal.disk.log,
                          if running then CrashRecovery.Up(journal.Index(), journal.ceiling, CrashRecovery.Idle)
                          else CrashRecovery.Down,
                          submissions)
    }

    ghost predicate Valid()
      reads this, bot, dispatcher, dispatcher.regions
    {
      bot.Valid() && dispatcher.Valid()
    }

    constructor (cfg: Config, journal: ExecutionJournal, bot: BotState, dispatcher: BundleDispatcher,
                 dedupe: OpportunityDeduplicator, ghost before: seq<CrashRecovery.Submission>)
      requires bot.Valid() && dispatcher.Valid()
      ensures Valid() && running && submissions == before
      ensures this.cfg == cfg && this.journal == journal && this.bot == bot
      ensures this.dispatcher == dispatcher && this.dedupe == dedupe
    {
      this.cfg, this.journal, this.bot, this.dispatcher, this.dedupe := cfg, journal, bot, dispatcher, dedupe;
      running, submissions := true, before;
    }

    /** A capacity permit and the duplicate-mint lock; the permit is dropped again
        when the lock refuses. */
    method ClaimSlot(mint: Pubkey, now: nat) returns (refusal: Option<Gate>, permit: PermitPool.Permit)
      requires Valid()
      modifies bot`tradedMints, bot`availablePermits, bot`nextPermit, bot`heldPermits
      ensures Valid()
      ensures refusal == if old(bot.availablePermits) == 0 then Some(NoSlot)
                         else if !MintLock.TryLock(old(bot.tradedMints), mint, now).0 then Some(MintLocked)
                         else None
      ensures bot.Pool() == PoolAtAdmission(old(bot.Pool()), refusal)
      ensures permit == old(bot.nextPermit) && permit !in old(bot.heldPermits)
      ensures bot.tradedMints == if refusal == Some(NoSlot) then old(bot.tradedMints)
                                 else MintLock.TryLock(old(bot.tradedMints), mint, now).1
    {
      permit := bot.nextPermit;
      var acquired := bot.TryAcquirePosition();
      if acquired.None? {
        return Some(NoSlot), permit;
      }
      permit := acquired.value;
      var locked := bot.TryLockMint(mint, now);
      if !locked {
        bot.DropPermit(permit);
        return Some(MintLocked), permit;
      }
      refusal := None;
    }

    /** Breaker, mint, journal, capacity and duplicate-mint gates. */
    method Admit(s: Signal, e: Env) returns (refusal: Option<Gate>, permit: PermitPool.Permit)
      requires Valid()
      modifies bot
      ensures Valid()
      ensures refusal == Admission(journal.reservedMints, old(bot.Breaker()), old(bot.availablePermits),
                                   old(bot.tradedMints), s, e)
      ensures bot.Breaker() == CircuitBreaker.Query(old(bot.Breaker()), e.breakerNow).1
      ensures refusal.None? ==> s.mint.Some? && permit !in old(bot.heldPermits) && permit in bot.heldPermits
      ensures permit == old(bot.nextPermit)
      ensures bot.Pool() == PoolAtAdmission(old(bot.Pool()), refusal)
      ensures bot.tradedMints == if s.mint.Some? && (refusal == None || refusal == Some(MintLocked))
                                 then MintLock.TryLock(old(bot.tradedMints), s.mint.value, e.lockNow).1
                                 else old(bot.tradedMints)
    {
      permit := bot.nextPermit;
      var active := bot.IsCircuitBreakerActive(e.breakerNow);
      if active {
        return Some(BreakerOpen), permit;
      }
      if s.mint.None? {
        return Some(BadMint), permit;
      }
      if s.mint.value in journal.reservedMints {
        return Some(AlreadyReserved), permit;
      }
      refusal, permit := ClaimSlot(s.mint.value, e.lockNow);
    }

    /** Tip bid, swap or pump resolution, tip account, blockhash and signing. */
    method Prepare(s: Signal, e: Env) returns (refusal: Option<Gate>, bid: u64)
      requires dispatcher.Valid()
      modifies dispatcher, dispatcher.regions
      ensures dispatcher.Valid()
      ensures refusal == Preparation(TipRotation.Choose(old(dispatcher.rotation)).None?, s, cfg, e)
      ensures bid == BidOf(s, cfg, e)
      ensures dispatcher.rotation == if refusal.None? || refusal.value.Place() >= NoTipAccount.Place()
                                   then TipRotation.Advance(old(dispatcher.rotation))
                                   else old(dispatcher.rotation)
    {
      var tip := Tipping.CalculateTip(e.telemetry, cfg.tip, s.amountIn / 100, e.tipNow);
      if tip.Skip? {
        return Some(TipSkipped), 0;
      }
      bid := tip.lamports;
      if e.raydium.Some? {
        var account := dispatcher.TakeTipAccount();
        if account.None? {
          return Some(NoTipAccount), bid;
        }
        if !e.blockhashOk {
          return Some(NoBlockhash), bid;
        }
      } else if s.isPump {
        if !e.pumpOk {
          return Some(PumpUnavailable), bid;
        }
        var account := dispatcher.TakeTipAccount();
        if account.None? {
          return Some(NoTipAccount), bid;
        }
      } else {
        return Some(NoRoute), bid;
      }
      refusal := if e.bundle.None? then Some(BuildFailed) else None;
    }

    /** Reserves, and submits only what was reserved. The acceptance of a submitted
        bundle is recorded; failing to record it ends the task. */
    method ReserveAndSubmit(q: Request, bid: u64, e: Env) returns (reserved: bool, accepted: bool)
      requires running
      modifies this, journal, journal.disk
      ensures reserved <==> Reservable(old(JournalSnapshot()), q, e)
      ensures accepted <==> reserved && e.ack.Some? && e.acceptanceIo == Durable
      ensures running <==> !reserved || e.ack.None? || e.acceptanceIo == Durable
      ensures World() == CrashRecovery.Run(old(World()), CommitSteps(old(JournalSnapshot()), q, bid, e))
      ensures JournalSnapshot() == AfterReservation(old(JournalSnapshot()), q, e)
    {
      ghost var w, steps := World(), CommitSteps(JournalSnapshot(), q, bid, e);
      var r := journal.Reserve(q, e.lockIo, e.reserveIo);
      reserved, accepted := r.Ok?, false;
      if !reserved {
        if steps != [] {
          RunOne(w, steps[0]);
        }
        return;
      }
      submissions := submissions + [CrashRecovery.Submission(q, bid, e.networkFee, |journal.disk.log|)];
      RunFour(w, CrashRecovery.AppendReservation(q, Durable), CrashRecovery.Commit,
              CrashRecovery.Submit(bid, e.networkFee), LastStep(e));
      if e.ack.Some? {
        accepted := journal.RecordAcceptance(q.mint, e.ack.value, q.signature, e.acceptanceBytes, e.acceptanceIo);
        running := accepted;
      }
    }

    /** Freshness, deduplication, reservation, submission. */
    method CommitSignal(s: Signal, mint: Pubkey, bundle: Bundle, bid: u64, e: Env) returns (outcome: Outcome)
      requires running && s.mint == Some(mint) && e.bundle == Some(bundle) && bid == BidOf(s, cfg, e)
      modifies this, journal, journal.disk, dedupe
      ensures outcome == OutcomeOf(Commitment(old(JournalSnapshot()), old(dedupe.seen), s, cfg, e, mint, bundle),
                                   OrderOf(s, cfg, e, mint), e)
      ensures outcome.Refused? ==> outcome.gate.Place() >= Expired.Place()
      ensures running <==> !outcome.AcceptanceUnrecorded?
      ensures World() == CrashRecovery.Run(old(World()), StepsOf(old(JournalSnapshot()), s, cfg, e, outcome))
      ensures JournalSnapshot() == JournalAfter(old(JournalSnapshot()), s, cfg, e, outcome)
      ensures dedupe.seen == SeenAfter(old(dedupe.seen), s, outcome)
    {
      if !IsFresh(s, cfg, e.freshNow) {
        return Refused(Expired);
      }
      var acquired := dedupe.TryAcquire(KeyOf(s, mint));
      if !acquired {
        return Refused(DuplicateOpportunity);
      }
      var reserved, accepted := ReserveAndSubmit(RequestOf(s, cfg, e, mint, bundle), bid, e);
      if !reserved {
        return Refused(NotReserved);
      }
      if e.ack.None? {
        return SubmissionFailed;
      }
      if !accepted {
        return AcceptanceUnrecorded;
      }
      outcome := HandedOff(OrderOf(s, cfg, e, mint));
    }

    /** A refusal before anything is committed; the pump path without a tip account panics. */
    method RefuseEarly(s: Signal, outcome: Outcome, e: Env)
      requires running && outcome.Refused? && outcome.gate.Place() < Expired.Place()
      modifies this`running
      ensures running <==> !EndsTask(outcome, e)
      ensures World() == CrashRecovery.Run(old(World()), StepsOf(JournalSnapshot(), s, cfg, e, outcome))
      ensures JournalSnapshot() == JournalAfter(JournalSnapshot(), s, cfg, e, outcome)
      ensures dedupe.seen == SeenAfter(dedupe.seen, s, outcome)
    {
      EarlyRefusal(JournalSnapshot(), dedupe.seen, s, cfg, e, outcome);
      if EndsTask(outcome, e) {
        RunOne(World(), CrashRecovery.Crash);
        running := false;
      }
    }

    /** Commits a prepared signal, or ends the refusal of one. */
    method Proceed(preparation: Option<Gate>, bid: u64, s: Signal, mint: Pubkey, e: Env) returns (outcome: Outcome)
      requires running && s.mint == Some(mint) && bid == BidOf(s, cfg, e)
      requires if preparation.Some? then MintLocked.Place() < preparation.value.Place() < Expired.Place()
               else e.bundle.Some?
      modifies this, journal, journal.disk, dedupe
      ensures outcome == if preparation.Some? then Refused(preparation.value)
                         else OutcomeOf(Commitment(old(JournalSnapshot()), old(dedupe.seen), s, cfg, e, mint,
                                                   e.bundle.value),
                                        OrderOf(s, cfg, e, mint), e)
      ensures outcome.Refused? ==> outcome.gate.Place() > MintLocked.Place()
      ensures preparation.None? ==> Reaches(outcome, Expired)
      ensures running <==> !EndsTask(outcome, e)
      ensures World() == CrashRecovery.Run(old(World()), StepsOf(old(JournalSnapshot()), s, cfg, e, outcome))
      ensures JournalSnapshot() == JournalAfter(old(JournalSnapshot()), s, cfg, e, outcome)
      ensures dedupe.seen == SeenAfter(old(dedupe.seen), s, outcome)
    {
      if preparation.None? {
        outcome := CommitSignal(s, mint, e.bundle.value, bid, e);
      } else {
        outcome := Refused(preparation.value);
        RefuseEarly(s, outcome, e);
      }
    }

    /** Everything after admission, except giving back what admission took. */
    method PrepareAndSubmit(s: Signal, mint: Pubkey, e: Env) returns (preparation: Option<Gate>, outcome: Outcome)
      requires Valid() && running && s.mint == Some(mint)
      modifies this, journal, journal.disk, dedupe, dispatcher, dispatcher.regions
      ensures Valid()
      ensures preparation == Preparation(TipRotation.Choose(old(dispatcher.rotation)).None?, s, cfg, e)
      ensures dispatcher.rotation == RotationAfter(old(dispatcher.rotation), preparation)
      ensures outcome == if preparation.Some? then Refused(preparation.value)
                         else OutcomeOf(Commitment(old(JournalSnapshot()), old(dedupe.seen), s, cfg, e, mint,
                                                   e.bundle.value),
                                        OrderOf(s, cfg, e, mint), e)
      ensures running <==> !EndsTask(outcome, e)
      ensures World() == CrashRecovery.Run(old(World()), StepsOf(old(JournalSnapshot()), s, cfg, e, outcome))
      ensures JournalSnapshot() == JournalAfter(old(JournalSnapshot()), s, cfg, e, outcome)
      ensures dedupe.seen == SeenAfter(old(dedupe.seen), s, outcome)
    {
      var bid;
      preparation, bid := Prepare(s, e);
      outcome := Proceed(preparation, bid, s, mint, e);
    }

    /** The mint lock is given back on most refusals; the permit in every case but a handoff. */
    method Settle(mint: Pubkey, permit: PermitPool.Permit, outcome: Outcome, e: Env)
      requires Valid() && permit in bot.heldPermits
      modifies bot`tradedMints, bot`availablePermits, bot`heldPermits
      ensures Valid()
      ensures bot.tradedMints == if UnlocksMint(outcome, e) then MintLock.Unlock(old(bot.tradedMints), mint)
                                 else old(bot.tradedMints)
      ensures bot.Pool() == if outcome.HandedOff? then old(bot.Pool())
                            else PermitPool.Step(old(bot.Pool()), PermitPool.Drop(permit))
    {
      if UnlocksMint(outcome, e) {
        bot.UnlockMint(mint);
      }
      if !outcome.HandedOff? {
        bot.DropPermit(permit);
      }
    }

    /** A signal that was admitted with a permit. */
    method ProcessAdmitted(s: Signal, e: Env, permit: PermitPool.Permit)
      returns (preparation: Option<Gate>, outcome: Outcome)
      requires Valid() && running && permit in bot.heldPermits && s.mint.Some?
      modifies this, bot`tradedMints, bot`availablePermits, bot`heldPermits, journal, journal.disk
      modifies dedupe, dispatcher, dispatcher.regions
      ensures Valid()
      ensures SettledFrom(old(Snapshot()), Snapshot(), preparation, permit, s, cfg, e, outcome)
      ensures running <==> !EndsTask(outcome, e)
      ensures World() == CrashRecovery.Run(old(World()), StepsOf(old(JournalSnapshot()), s, cfg, e, outcome))
    {
      preparation, outcome := PrepareAndSubmit(s, s.mint.value, e);
      Settle(s.mint.value, permit, outcome, e);
    }

    /** One signal: the first shut gate refuses it, every piece of state follows the
        outcome, and file, index and submissions take steps of the crash model. */
    method ProcessSignal(s: Signal, e: Env) returns (outcome: Outcome, permit: PermitPool.Permit)
      requires Valid() && running
      modifies this, bot, journal, journal.disk, dedupe, dispatcher, dispatcher.regions
      ensures Valid()
      ensures IsVerdict(outcome, old(Snapshot()), s, cfg, e)
      ensures Snapshot() == AfterSignal(old(Snapshot()), s, cfg, e, outcome)
      ensures running <==> !EndsTask(outcome, e)
      ensures World() == CrashRecovery.Run(old(World()), StepsOf(old(JournalSnapshot()), s, cfg, e, outcome))
      ensures permit == old(bot.nextPermit)
    {
      ghost var v := Snapshot();
      var refusal;
      refusal, permit := Admit(s, e);
      if refusal.Some? {
        outcome := Refused(refusal.value);
        AdmissionRefuses(v, Snapshot(), refusal, s, cfg, e);
      } else {
        ghost var admitted := Snapshot();
        var preparation;
        preparation, outcome := ProcessAdmitted(s, e, permit);
        SettledAfterSignal(v, admitted, Snapshot(), preparation, s, cfg, e, outcome);
      }
    }
  }

  // ---- What one signal amounts to -------------------------------------------------------

  /** What a signal submits. */
  function SubmissionOf(s: Signal, cfg: Config, e: Env, mint: Pubkey, bundle: Bundle, logLength: nat)
    : CrashRecovery.Submission
  {
    CrashRecovery.Submission(RequestOf(s, cfg, e, mint, bundle), BidOf(s, cfg, e), e.networkFee, logLength)
  }

  /** What the steps of a signal do to submissions and file. */
  lemma StepsEffect(v: View, s: Signal, cfg: Config, e: Env, outcome: Outcome, w: CrashRecovery.World)
    requires TipRotation.WellFormed(v.rotation) && IsVerdict(outcome, v, s, cfg, e)
    requires w.process == CrashRecovery.Up(v.journal.index, v.journal.ceiling, CrashRecovery.Idle)
    ensures var after := CrashRecovery.Run(w, StepsOf(v.journal, s, cfg, e, outcome));
            && after.submissions
               == (if outcome.Refused? then w.submissions
                   else w.submissions + [SubmissionOf(s, cfg, e, s.mint.value, e.bundle.value, |w.log| + 1)])
            && (after.log != w.log <==> (Reaches(outcome, NotReserved) && e.reserveIo != NotWritten
                     && AttemptsAppend(v.journal, RequestOf(s, cfg, e, s.mint.value, e.bundle.value), e)))
  {
    if outcome == Refused(NoTipAccount) {
      RunOne(w, CrashRecovery.Crash);
    } else if Reaches(outcome, NotReserved) {
      CommitEffect(v.journal, RequestOf(s, cfg, e, s.mint.value, e.bundle.value), BidOf(s, cfg, e), e, w);
    }
  }

  lemma CommitEffect(j: JournalView, q: Request, bid: u64, e: Env, w: CrashRecovery.World)
    requires w.process == CrashRecovery.Up(j.index, j.ceiling, CrashRecovery.Idle)
    ensures var after := CrashRecovery.Run(w, CommitSteps(j, q, bid, e));
            && after.submissions
               == (if Reservable(j, q, e)
                   then w.submissions + [CrashRecovery.Submission(q, bid, e.networkFee, |w.log| + 1)]
                   else w.submissions)
            && (after.log != w.log <==> AttemptsAppend(j, q, e) && e.reserveIo != NotWritten)
  {
    if !AttemptsAppend(j, q, e) {
    } else if e.reserveIo != Durable {
      RunOne(w, CrashRecovery.AppendReservation(q, e.reserveIo));
    } else {
      var appended := CrashRecovery.Next(w, CrashRecovery.AppendReservation(q, Durable));
      var submitted := CrashRecovery.Next(CrashRecovery.Next(appended, CrashRecovery.Commit),
                                          CrashRecovery.Submit(bid, e.networkFee));
      assert |appended.log| == |w.log| + 1 && submitted.log == appended.log;
      assert submitted.submissions
          == w.submissions + [CrashRecovery.Submission(q, bid, e.networkFee, |w.log| + 1)];
      assert |CrashRecovery.Next(submitted, LastStep(e)).log| >= |submitted.log|;
      RunFour(w, CrashRecovery.AppendReservation(q, Durable), CrashRecovery.Commit,
              CrashRecovery.Submit(bid, e.networkFee), LastStep(e));
    }
  }

  /** A submitted signal leaves its mint locked and indexed. A signal whose mint is
      unlocked has left no reservation in the file, with exactly one exception: the
      append reached the file and then reported a failure. */
  lemma UnlockedMeansUnreserved(v: View, s: Signal, cfg: Config, e: Env, outcome: Outcome, w: CrashRecovery.World)
    requires TipRotation.WellFormed(v.rotation) && IsVerdict(outcome, v, s, cfg, e)
    requires w.process == CrashRecovery.Up(v.journal.index, v.journal.ceiling, CrashRecovery.Idle)
    ensures var after := CrashRecovery.Run(w, StepsOf(v.journal, s, cfg, e, outcome));
            && (after.submissions != w.submissions ==>
                  && s.mint.Some? && s.mint.value in LocksAfter(v.locks, s, e, outcome)
                  && s.mint.value in JournalAfter(v.journal, s, cfg, e, outcome).index.mints)
            && (UnlocksMint(outcome, e) && after.log != w.log
                <==> outcome == Refused(NotReserved) && e.reserveIo == Unacknowledged
                     && AttemptsAppend(v.journal, RequestOf(s, cfg, e, s.mint.value, e.bundle.value), e))
  {
    StepsEffect(v, s, cfg, e, outcome, w);
  }

  /** A refusal after the lock was taken leaves the mint locked, from now on, exactly
      when the signal expired after signing or the pump path found no tip account.
      Neither has written or submitted anything. */
  lemma LockKeptExactly(v: View, s: Signal, cfg: Config, e: Env, outcome: Outcome, w: CrashRecovery.World)
    requires TipRotation.WellFormed(v.rotation) && IsVerdict(outcome, v, s, cfg, e)
    requires outcome.Refused? && outcome.gate.Place() > MintLocked.Place()
    requires w.process == CrashRecovery.Up(v.journal.index, v.journal.ceiling, CrashRecovery.Idle)
    ensures s.mint.Some?
    ensures s.mint.value in LocksAfter(v.locks, s, e, outcome)
            <==> outcome == Refused(Expired) || (outcome == Refused(NoTipAccount) && e.raydium.None?)
    ensures s.mint.value in LocksAfter(v.locks, s, e, outcome) ==>
              var after := CrashRecovery.Run(w, StepsOf(v.journal, s, cfg, e, outcome));
              && LocksAfter(v.locks, s, e, outcome)[s.mint.value] == e.lockNow
              && after.log == w.log && after.submissions == w.submissions
  {
    assert !Shut(BadMint, v, s, cfg, e) && !Shut(MintLocked, v, s, cfg, e);
    StepsEffect(v, s, cfg, e, outcome, w);
  }

  // ---- What a signal pays ------------------------------------------------------------------

  /** The reservation of a submitted signal covers amount, bid, network fee and rent
      exactly when bid and network fee together are within the configured tip and
      the fee that was counted. */
  lemma SpendCoveredExactly(v: View, s: Signal, cfg: Config, e: Env, outcome: Outcome, w: CrashRecovery.World)
    requires TipRotation.WellFormed(v.rotation) && IsVerdict(outcome, v, s, cfg, e) && !outcome.Refused?
    requires w.process == CrashRecovery.Up(v.journal.index, v.journal.ceiling, CrashRecovery.Idle)
    ensures var after := CrashRecovery.Run(w, StepsOf(v.journal, s, cfg, e, outcome));
            && |after.submissions| == |w.submissions| + 1
            && var submission := after.submissions[|w.submissions|];
               && submission.request
                  == Request(s.mint.value, s.amountIn, cfg.tipLamports, if e.raydium.Some? then 0 else 100_000,
                             if e.raydium.Some? then e.raydium.value.rentLamports else 2_039_280, s.timestampMs,
                             e.bundle.value.signature, e.bundle.value.blockhash, e.recordBytes)
               && submission.bid == BidOf(s, cfg, e)
               && (submission.Spend() <= submission.Capital()
                   <==> BidOf(s, cfg, e) + e.networkFee <= cfg.tipLamports + ReservedFee(e))
  {
    StepsEffect(v, s, cfg, e, outcome, w);
  }

  /** For any bid up to a million lamports and any network fee there is a Raydium
      signal of one SOL, with the least tip the configuration accepts, that passes
      every gate. What it pays exceeds what was reserved when the bid exceeds the
      tip, and also when the bid equals the tip and the network charges anything. */
  lemma ReservationCanFallShort(bid: u64, networkFee: nat) returns (v: View, s: Signal, cfg: Config, e: Env)
    requires 0 < bid <= 1_000_000
    ensures TipRotation.WellFormed(v.rotation) && Refusal(v, s, cfg, e).None? && e.raydium.Some?
    ensures cfg.tipLamports == MINIMUM_TIP_LAMPORTS && e.networkFee == networkFee && BidOf(s, cfg, e) == bid
    ensures var submission := SubmissionOf(s, cfg, e, s.mint.value, e.bundle.value, 1);
            submission.Spend() > submission.Capital() <==> bid + networkFee > MINIMUM_TIP_LAMPORTS
  {
    var mint, account := Pubkey(9), Pubkey(11);
    v := View(JournalView(EMPTY_INDEX, 2_000_000_000, true, true), CircuitBreaker.NEW_BREAKER, PermitPool.NEW_POOL,
              map[], {}, TipRotation.Rotation([TipRotation.Region([account], 0)], 0));
    s := Signal(Some(mint), false, Pubkey(10), Sniper, 1, 1_000_000_000);
    cfg := Config(60_000, MINIMUM_TIP_LAMPORTS, 100, Tipping.TipConfig(1000, 5000, 0));
    e := Env(0, 0, 0, 1, Some(Tipping.TipTelemetry(bid, bid, bid, 0)),
             Some(Quote(Pubkey(12), DEFAULT_RENT_LAMPORTS)), true, false, Some(Bundle("s", "b")),
             0, LockCreated, Durable, None, networkFee, 0, Durable);
    TipRotation.ChoiceMeaning(v.rotation);
    assert TipRotation.Usable(v.rotation, 0);
    assert Tipping.CalculateTip(e.telemetry, cfg.tip, 10_000_000, 0) == Tipping.Bid(bid, 0);
    assert mint !in MintLock.Prune(v.locks, 0);
  }

  /** On ordered percentiles and a profit share within 100% a bid is at most 1% of the amount. */
  lemma BidWithinOnePercent(s: Signal, cfg: Config, e: Env)
    requires e.telemetry.Some? ==> Tipping.Ordered(e.telemetry.value)
    requires cfg.tip.maxProfitShareBps <= 10_000
    ensures 100 * BidOf(s, cfg, e) <= s.amountIn
  {
    if Tipping.CalculateTip(e.telemetry, cfg.tip, s.amountIn / 100, e.tipNow).Bid? {
      Tipping.ConsumerBidWithinOnePercent(e.telemetry, cfg.tip, s.amountIn, e.tipNow);
    }
  }

  // ---- What can be read back ---------------------------------------------------------------

  /** What makes the records of a signal readable. Its time is non-zero because the
      signal was fresh. */
  predicate ReadableSignal(s: Signal, e: Env) {
    s.amountIn != 0 && e.bundle.Some? && e.bundle.value.signature != "" && e.bundle.value.blockhash != ""
  }

  lemma RequestIsReloadableExactly(v: View, s: Signal, cfg: Config, e: Env, outcome: Outcome)
    requires TipRotation.WellFormed(v.rotation)
    ensures IsVerdict(outcome, v, s, cfg, e) && Reaches(outcome, NotReserved)
            ==> (ReloadableRequest(RequestOf(s, cfg, e, s.mint.value, e.bundle.value)) <==> ReadableSignal(s, e))
  {
    if IsVerdict(outcome, v, s, cfg, e) && Reaches(outcome, NotReserved) {
      assert !Shut(Expired, v, s, cfg, e);
    }
  }

  /** The acceptance line is written for an acknowledged submission. */
  predicate WritesAcceptance(outcome: Outcome, e: Env) {
    !outcome.Refused? && e.ack.Some? && e.acceptanceIo != NotWritten
  }

  /** The reservation line reaches the file. */
  predicate AppendsReservation(j: JournalView, s: Signal, cfg: Config, e: Env, outcome: Outcome) {
    && Reaches(outcome, NotReserved) && e.reserveIo != NotWritten && s.mint.Some? && e.bundle.Some?
    && AttemptsAppend(j, RequestOf(s, cfg, e, s.mint.value, e.bundle.value), e)
  }

  lemma StepsReadable(v: View, s: Signal, cfg: Config, e: Env, outcome: Outcome, w: CrashRecovery.World)
    requires TipRotation.WellFormed(v.rotation) && IsVerdict(outcome, v, s, cfg, e)
    requires w.process == CrashRecovery.Up(v.journal.index, v.journal.ceiling, CrashRecovery.Idle)
    ensures var after := CrashRecovery.Run(w, StepsOf(v.journal, s, cfg, e, outcome));
            AllReadable(after.log)
            <==> && AllReadable(w.log)
                 && (AppendsReservation(v.journal, s, cfg, e, outcome)
                     ==> ReloadableRequest(RequestOf(s, cfg, e, s.mint.value, e.bundle.value)))
                 && (WritesAcceptance(outcome, e) ==> e.ack.value != "")
  {
    if outcome == Refused(NoTipAccount) {
      RunOne(w, CrashRecovery.Crash);
    } else if Reaches(outcome, NotReserved) {
      CommitReadable(v.journal, RequestOf(s, cfg, e, s.mint.value, e.bundle.value), BidOf(s, cfg, e), e, w);
    }
  }

  /** What a signal writes can be read back exactly when its amount is non-zero, its
      signature and blockhash are not empty and the bundle id is not. An amount of
      zero passes the tip gate only under a zero median (`Tipping.ZeroProfitBidsExactly`). */
  lemma WrittenIsReadableExactly(v: View, s: Signal, cfg: Config, e: Env, outcome: Outcome, w: CrashRecovery.World)
    requires TipRotation.WellFormed(v.rotation) && IsVerdict(outcome, v, s, cfg, e)
    requires w.process == CrashRecovery.Up(v.journal.index, v.journal.ceiling, CrashRecovery.Idle)
    ensures var after := CrashRecovery.Run(w, StepsOf(v.journal, s, cfg, e, outcome));
            AllReadable(after.log)
            <==> && AllReadable(w.log)
                 && (after.log != w.log ==> ReadableSignal(s, e))
                 && (WritesAcceptance(outcome, e) ==> e.ack.value != "")
  {
    StepsEffect(v, s, cfg, e, outcome, w);
    StepsReadable(v, s, cfg, e, outcome, w);
    RequestIsReloadableExactly(v, s, cfg, e, outcome);
  }

  lemma ReservationReadableExactly(q: Request, capital: u64)
    requires capital == TotalOf(q)
    ensures Readable(ReservationLine(q, capital)) <==> ReloadableRequest(q)
  {
  }

  lemma CommitReadable(j: JournalView, q: Request, bid: u64, e: Env, w: CrashRecovery.World)
    requires w.process == CrashRecovery.Up(j.index, j.ceiling, CrashRecovery.Idle)
    ensures var after := CrashRecovery.Run(w, CommitSteps(j, q, bid, e));
            AllReadable(after.log)
            <==> && AllReadable(w.log)
                 && (AttemptsAppend(j, q, e) && e.reserveIo != NotWritten ==> ReloadableRequest(q))
                 && (Reservable(j, q, e) && e.ack.Some? && e.acceptanceIo != NotWritten ==> e.ack.value != "")
  {
    if AttemptsAppend(j, q, e) {
      var capital := ReserveCheck(j.index, j.ceiling, q).value;
      var reservation := ReservationLine(q, capital);
      ReservationReadableExactly(q, capital);
      ReadableSnoc(w.log, reservation);
      if e.reserveIo != Durable {
        RunOne(w, CrashRecovery.AppendReservation(q, e.reserveIo));
      } else {
        RunFour(w, CrashRecovery.AppendReservation(q, Durable), CrashRecovery.Commit,
                CrashRecovery.Submit(bid, e.networkFee), LastStep(e));
        if e.ack.Some? {
          var acceptance := AcceptanceLine(q.mint, e.ack.value, q.signature, e.acceptanceBytes);
          ReadableSnoc(w.log + [reservation], acceptance);
        }
      }
    }
  }

  /** All-or-nothing appends, a non-zero amount and non-empty texts. */
  predicate WellBehaved(s: Signal, e: Env) {
    && e.reserveIo != Unacknowledged && e.acceptanceIo != Unacknowledged
    && s.amountIn != 0
    && (e.bundle.Some? ==> e.bundle.value.signature != "" && e.bundle.value.blockhash != "")
    && (e.ack.Some? ==> e.ack.value != "")
  }

  /** A well-behaved signal takes only clean steps of the crash model. */
  lemma StepsAreClean(v: View, s: Signal, cfg: Config, e: Env, outcome: Outcome, i: nat)
    requires TipRotation.WellFormed(v.rotation) && IsVerdict(outcome, v, s, cfg, e) && WellBehaved(s, e)
    requires i < |StepsOf(v.journal, s, cfg, e, outcome)|
    ensures CrashRecovery.Clean(StepsOf(v.journal, s, cfg, e, outcome)[i], v.journal.ceiling)
  {
    if Reaches(outcome, NotReserved) {
      RequestIsReloadableExactly(v, s, cfg, e, outcome);
    }
  }
}
