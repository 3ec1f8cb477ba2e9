/** One lifetime of the execution task: load the journal, then take signals until
    the channel closes or the task dies, while handoffs and watchers started for
    earlier signals end in between. */
module ConsumerLoop {
  import opened Primitives
  import opened Types
  import opened JournalReplay
  import opened ExecutionJournalModule
  import opened BotStateModule
  import opened DispatcherModule
  import opened ExecutionConsumerModule
  import CircuitBreaker
  import CrashRecovery
  import PermitPool
  import TipRotation
  import Tipping

  /** A final sale: the shadow position of its mint is released, and its PnL booked
      unless the run is dry. */
  datatype FinalSale = FinalSale(mint: Pubkey, pnlBps: Option<int>)

  /** A handoff or watcher task ends: its final sale, if it completed one, and then
      its permit is dropped. */
  datatype TaskEnd = TaskEnd(permit: PermitPool.Permit, sale: Option<FinalSale>)

  datatype Input = Input(signal: Signal, env: Env, ended: seq<TaskEnd>)

  datatype LoopEnd = LoadFailed(error: JournalError) | NoRegions | TaskDied | ChannelClosed

  predicate AllWellBehaved(inputs: seq<Input>) {
    forall i :: 0 <= i < |inputs| ==> WellBehaved(inputs[i].signal, inputs[i].env)
  }

  predicate AllClean(steps: seq<CrashRecovery.Step>, ceiling: u64) {
    forall i :: 0 <= i < |steps| ==> CrashRecovery.Clean(steps[i], ceiling)
  }

  /** The file replays without error and its reservations stay under the ceiling. */
  predicate ReplaysUnder(log: seq<Line>, ceiling: u64) {
    Replay(log).Ok? && Replay(log).value.capital <= ceiling
  }

  /** The tip telemetry is as the telemetry engine keeps it, and the profit share is at most all of it. */
  predicate TrustedTip(e: Env, cfg: Config) {
    cfg.tip.maxProfitShareBps <= 10_000 && (e.telemetry.Some? ==> Tipping.Ordered(e.telemetry.value))
  }

  predicate TrustedTips(inputs: seq<Input>, cfg: Config) {
    forall i :: 0 <= i < |inputs| ==> TrustedTip(inputs[i].env, cfg)
  }

  /** Permits, shadow positions and breaker after tasks end one after another. */
  function AfterEnds(p: PermitPool.Pool, b: CircuitBreaker.Breaker, ended: seq<TaskEnd>)
    : (PermitPool.Pool, CircuitBreaker.Breaker)
  {
    if ended == [] then (p, b)
    else
      var before := AfterEnds(p, b, ended[..|ended| - 1]);
      AfterEnd(before.0, before.1, ended[|ended| - 1])
  }

  function AfterEnd(p: PermitPool.Pool, b: CircuitBreaker.Breaker, t: TaskEnd)
    : (PermitPool.Pool, CircuitBreaker.Breaker)
  {
    if t.permit !in p.held then (p, b)
    else
      var released := if t.sale.Some? then PermitPool.Step(p, PermitPool.Release(t.sale.value.mint)) else p;
      (PermitPool.Step(released, PermitPool.Drop(t.permit)),
       if t.sale.Some? && t.sale.value.pnlBps.Some? then CircuitBreaker.Close(b, t.sale.value.pnlBps.value) else b)
  }

  /** A final sale is booked: its shadow position is released and its PnL moves the streak. */
  method BookSale(bot: BotState, sale: FinalSale)
    requires bot.Valid()
    modifies bot
    ensures bot.Valid() && bot.heldPermits == old(bot.heldPermits)
    ensures bot.Pool() == PermitPool.Step(old(bot.Pool()), PermitPool.Release(sale.mint))
    ensures bot.Breaker() == if sale.pnlBps.Some? then CircuitBreaker.Close(old(bot.Breaker()), sale.pnlBps.value)
                             else old(bot.Breaker())
    ensures bot.tradedMints == old(bot.tradedMints)
  {
    var _ := bot.ReleaseShadowPosition(sale.mint);
    if sale.pnlBps.Some? {
      bot.BookClose(sale.pnlBps.value);
    }
  }

  method EndTask(bot: BotState, t: TaskEnd)
    requires bot.Valid() && t.permit in bot.heldPermits
    modifies bot
    ensures bot.Valid()
    ensures (bot.Pool(), bot.Breaker()) == AfterEnd(old(bot.Pool()), old(bot.Breaker()), t)
    ensures bot.tradedMints == old(bot.tradedMints)
  {
    if t.sale.Some? {
      BookSale(bot, t.sale.value);
    }
    bot.DropPermit(t.permit);
  }

  lemma AfterEndHeld(p: PermitPool.Pool, b: CircuitBreaker.Breaker, t: TaskEnd)
    ensures AfterEnd(p, b, t).0.held == p.held - {t.permit}
  {
  }

  /** Tasks that still run may end; each gives back its own permit, and its sale
      frees the shadow position of its mint. */
  method EndTasks(bot: BotState, tasks: set<PermitPool.Permit>, ended: seq<TaskEnd>)
    returns (left: set<PermitPool.Permit>)
    requires bot.Valid() && bot.heldPermits == tasks
    modifies bot
    ensures bot.Valid() && bot.heldPermits == left <= tasks
    ensures (bot.Pool(), bot.Breaker()) == AfterEnds(old(bot.Pool()), old(bot.Breaker()), ended)
    ensures bot.tradedMints == old(bot.tradedMints)
  {
    left := tasks;
    for i := 0 to |ended|
      invariant bot.Valid() && bot.heldPermits == left <= tasks
      invariant (bot.Pool(), bot.Breaker()) == AfterEnds(old(bot.Pool()), old(bot.Breaker()), ended[..i])
      invariant bot.tradedMints == old(bot.tradedMints)
    {
      assert ended[..i + 1][..i] == ended[..i];
      AfterEndHeld(bot.Pool(), bot.Breaker(), ended[i]);
      if ended[i].permit in left {
        EndTask(bot, ended[i]);
        left := left - {ended[i].permit};
      }
    }
    assert ended[..|ended|] == ended;
  }

  lemma SignalStepsAreClean(v: View, s: Signal, cfg: Config, e: Env, outcome: Outcome)
    requires TipRotation.WellFormed(v.rotation) && IsVerdict(outcome, v, s, cfg, e) && WellBehaved(s, e)
    ensures AllClean(StepsOf(v.journal, s, cfg, e, outcome), v.journal.ceiling)
  {
    var steps := StepsOf(v.journal, s, cfg, e, outcome);
    forall i | 0 <= i < |steps|
      ensures CrashRecovery.Clean(steps[i], v.journal.ceiling)
    {
      StepsAreClean(v, s, cfg, e, outcome, i);
    }
  }

  lemma StepsDoNotBoot(j: JournalView, s: Signal, cfg: Config, e: Env, outcome: Outcome)
    ensures forall i :: 0 <= i < |StepsOf(j, s, cfg, e, outcome)| ==> !StepsOf(j, s, cfg, e, outcome)[i].Boot?
  {
  }

  lemma SignalKeepsBids(v: View, s: Signal, cfg: Config, e: Env, outcome: Outcome, w: CrashRecovery.World)
    requires TipRotation.WellFormed(v.rotation) && IsVerdict(outcome, v, s, cfg, e)
    requires w.process == CrashRecovery.Up(v.journal.index, v.journal.ceiling, CrashRecovery.Idle)
    ensures TrustedTip(e, cfg) && CrashRecovery.OnePercentBids(w.submissions)
            ==> CrashRecovery.OnePercentBids(CrashRecovery.Run(w, StepsOf(v.journal, s, cfg, e, outcome)).submissions)
  {
    StepsEffect(v, s, cfg, e, outcome, w);
    if TrustedTip(e, cfg) {
      BidWithinOnePercent(s, cfg, e);
    }
  }

  /** One signal; a handoff starts a new task that holds the permit. */
  method HandleSignal(consumer: ExecutionConsumer, tasks: set<PermitPool.Permit>, s: Signal, e: Env)
    returns (now: set<PermitPool.Permit>, ghost steps: seq<CrashRecovery.Step>)
    requires consumer.Valid() && consumer.running && consumer.bot.heldPermits == tasks
    modifies consumer, consumer.bot, consumer.journal, consumer.journal.disk, consumer.dedupe
    modifies consumer.dispatcher, consumer.dispatcher.regions
    ensures consumer.Valid() && consumer.bot.heldPermits == now
    ensures consumer.bot.shadowPositions == old(consumer.bot.shadowPositions)
    ensures consumer.World() == CrashRecovery.Run(old(consumer.World()), steps)
    ensures WellBehaved(s, e) ==> AllClean(steps, consumer.journal.ceiling)
    ensures forall i :: 0 <= i < |steps| ==> !steps[i].Boot?
    ensures TrustedTip(e, consumer.cfg) && CrashRecovery.OnePercentBids(old(consumer.submissions))
            ==> CrashRecovery.OnePercentBids(consumer.submissions)
  {
    ghost var v, w := consumer.Snapshot(), consumer.World();
    var outcome, permit := consumer.ProcessSignal(s, e);
    now := if outcome.HandedOff? then tasks + {permit} else tasks;
    assert consumer.Snapshot().pool == PoolAfter(v.pool, outcome);
    steps := StepsOf(v.journal, s, consumer.cfg, e, outcome);
    if WellBehaved(s, e) {
      SignalStepsAreClean(v, s, consumer.cfg, e, outcome);
    }
    StepsDoNotBoot(v.journal, s, consumer.cfg, e, outcome);
    SignalKeepsBids(v, s, consumer.cfg, e, outcome, w);
  }

  lemma CleanConcat(a: seq<CrashRecovery.Step>, b: seq<CrashRecovery.Step>, ceiling: u64)
    requires AllClean(a, ceiling) && AllClean(b, ceiling)
    ensures AllClean(a + b, ceiling)
  {
  }

  /** What the loop keeps about the capital of all submissions so far. */
  ghost predicate CapitalKept(w: CrashRecovery.World, ceiling: u64) {
    CrashRecovery.Safe(w) && CrashRecovery.UnderCeiling(w, ceiling)
  }

  /** The loop: signals until the channel closes or the task dies. Between signals
      other tasks end. It extends the crash-model run `before` that led to its start. */
  method Serve(consumer: ExecutionConsumer, inputs: seq<Input>, ghost start: CrashRecovery.World,
               ghost before: seq<CrashRecovery.Step>)
    returns (tasks: set<PermitPool.Permit>, ghost run: seq<CrashRecovery.Step>)
    requires consumer.Valid() && consumer.running && consumer.bot.heldPermits == {}
    requires consumer.World() == CrashRecovery.Run(start, before)
    requires CapitalKept(consumer.World(), consumer.journal.ceiling)
    modifies consumer, consumer.bot, consumer.journal, consumer.journal.disk, consumer.dedupe
    modifies consumer.dispatcher, consumer.dispatcher.regions
    ensures consumer.Valid() && consumer.bot.heldPermits == tasks
    ensures consumer.bot.availablePermits + |tasks| + |consumer.bot.shadowPositions|
            == PermitPool.MAX_CONCURRENT_POSITIONS
    ensures consumer.World() == CrashRecovery.Run(start, run) && before <= run
    ensures AllWellBehaved(inputs) && AllClean(before, consumer.journal.ceiling)
            ==> AllClean(run, consumer.journal.ceiling)
    ensures CapitalKept(consumer.World(), consumer.journal.ceiling)
    ensures TrustedTips(inputs, consumer.cfg) && CrashRecovery.OnePercentBids(old(consumer.submissions))
            ==> CrashRecovery.OnePercentBids(consumer.submissions)
  {
    tasks, run := {}, before;
    var i := 0;
    while i < |inputs| && consumer.running
      invariant 0 <= i <= |inputs|
      invariant consumer.Valid() && consumer.bot.heldPermits == tasks
      invariant consumer.World() == CrashRecovery.Run(start, run) && before <= run
      invariant AllWellBehaved(inputs) && AllClean(before, consumer.journal.ceiling)
                ==> AllClean(run, consumer.journal.ceiling)
      invariant CapitalKept(consumer.World(), consumer.journal.ceiling)
      invariant TrustedTips(inputs, consumer.cfg) && CrashRecovery.OnePercentBids(old(consumer.submissions))
                ==> CrashRecovery.OnePercentBids(consumer.submissions)
    {
      ghost var more;
      tasks := EndTasks(consumer.bot, tasks, inputs[i].ended);
      ghost var w := consumer.World();
      tasks, more := HandleSignal(consumer, tasks, inputs[i].signal, inputs[i].env);
      CrashRecovery.StepsStayUnder(w, more, consumer.journal.ceiling);
      CrashRecovery.RunConcat(start, run, more);
      if AllWellBehaved(inputs) && AllClean(before, consumer.journal.ceiling) {
        CleanConcat(run, more, consumer.journal.ceiling);
      }
      run := run + more;
      i := i + 1;
    }
  }

  /** The end of a lifetime, seen from the crash model. */
  lemma LifetimeEnds(boot: seq<Line>, run: seq<CrashRecovery.Step>, ceiling: u64)
    ensures var w := CrashRecovery.Run(CrashRecovery.Start(boot), run + [CrashRecovery.Crash]);
            && w == CrashRecovery.Run(CrashRecovery.Start(boot), run).(process := CrashRecovery.Down)
            && CrashRecovery.NoMintTwice(w.submissions) && CrashRecovery.PrecededByReservation(w)
            && (AllClean(run, ceiling) ==> AllClean(run + [CrashRecovery.Crash], ceiling))
            && (AllClean(run, ceiling) && ReplaysUnder(boot, ceiling) ==> ReplaysUnder(w.log, ceiling))
  {
    CrashRecovery.RunSnoc(CrashRecovery.Start(boot), run, CrashRecovery.Crash);
    CrashRecovery.AtMostOnce(boot, run + [CrashRecovery.Crash]);
    if AllClean(run, ceiling) && ReplaysUnder(boot, ceiling) {
      CrashRecovery.IndexRefinesReplay(boot, run, ceiling);
    }
  }

  /** A load that succeeds finds the capital of all earlier submissions within its ceiling. */
  lemma LoadCovers(boot: seq<Line>, history: seq<CrashRecovery.Step>, ceiling: u64)
    requires LoadIndex(CrashRecovery.Run(CrashRecovery.Start(boot), history).log, ceiling).Ok?
    requires CrashRecovery.Run(CrashRecovery.Start(boot), history).process.Down?
    ensures CrashRecovery.TotalCapital(CrashRecovery.Run(CrashRecovery.Start(boot), history).submissions) <= ceiling
  {
    CrashRecovery.AtMostOnce(boot, history);
    LoadsExactly(CrashRecovery.Run(CrashRecovery.Start(boot), history).log, ceiling);
  }

  lemma BootCovers(boot: seq<Line>, history: seq<CrashRecovery.Step>, ceiling: u64)
    requires LoadIndex(CrashRecovery.Run(CrashRecovery.Start(boot), history).log, ceiling).Ok?
    requires CrashRecovery.Run(CrashRecovery.Start(boot), history).process.Down?
    ensures CapitalKept(CrashRecovery.Run(CrashRecovery.Start(boot), history + [CrashRecovery.Boot(ceiling)]), ceiling)
  {
    LoadCovers(boot, history, ceiling);
    CrashRecovery.AtMostOnce(boot, history + [CrashRecovery.Boot(ceiling)]);
    CrashRecovery.RunSnoc(CrashRecovery.Start(boot), history, CrashRecovery.Boot(ceiling));
  }

  /** Bids of one percent keep what all lifetimes spend within ceiling, one percent and
      the unreserved fees. */
  lemma SpendUnderCeiling(submissions: seq<CrashRecovery.Submission>, ceiling: u64)
    requires CrashRecovery.TotalCapital(submissions) <= ceiling
    ensures CrashRecovery.OnePercentBids(submissions) ==> SpentWithin(submissions, ceiling)
  {
    if CrashRecovery.OnePercentBids(submissions) {
      CrashRecovery.SpendWithinOnePercent(submissions);
    }
  }

  /** Everything paid, tips and network fees included, is within the ceiling, one
      percent of the amounts and the fees for which nothing was reserved. */
  predicate SpentWithin(submissions: seq<CrashRecovery.Submission>, ceiling: u64) {
    100 * CrashRecovery.TotalSpend(submissions)
    <= 100 * ceiling + CrashRecovery.TotalAmount(submissions) + 100 * CrashRecovery.TotalUnreservedFee(submissions)
  }

  /** One lifetime, after any number of earlier ones on the same file: `history` is
      what those did to the file `boot`, `before` their submissions, and `run` what all
      of them did together. No mint is submitted twice over all lifetimes, every
      submission follows its reservation in the file, and the permits held at the end
      are exactly those of the tasks still running. Once the file loads under a ceiling,
      the capital of all submissions of all lifetimes is within it, and with trusted
      tips so is what they spend, up to one percent of the amounts and the network
      fees for which nothing was reserved. When everything written is readable and
      appends are all or nothing, the file replays again. */
  method RunExecutionConsumer(disk: Disk, ceiling: u64, lockRemovable: bool, cfg: Config, bot: BotState,
                              dispatcher: BundleDispatcher, dedupe: OpportunityDeduplicator, inputs: seq<Input>,
                              ghost boot: seq<Line>, ghost history: seq<CrashRecovery.Step>,
                              ghost before: seq<CrashRecovery.Submission>)
    returns (end: LoopEnd, tasks: set<PermitPool.Permit>, ghost run: seq<CrashRecovery.Step>,
             ghost submissions: seq<CrashRecovery.Submission>)
    requires bot.Valid() && bot.heldPermits == {} && dispatcher.Valid()
    requires CrashRecovery.World(disk.log, CrashRecovery.Down, before)
             == CrashRecovery.Run(CrashRecovery.Start(boot), history)
    modifies disk, bot, dedupe, dispatcher, dispatcher.regions
    ensures history <= run
    ensures CrashRecovery.World(disk.log, CrashRecovery.Down, submissions)
            == CrashRecovery.Run(CrashRecovery.Start(boot), run)
    ensures CrashRecovery.NoMintTwice(submissions)
    ensures CrashRecovery.PrecededByReservation(CrashRecovery.World(disk.log, CrashRecovery.Down, submissions))
    ensures bot.Valid() && bot.heldPermits == tasks
    ensures bot.availablePermits + |tasks| + |bot.shadowPositions| == PermitPool.MAX_CONCURRENT_POSITIONS
    ensures AllWellBehaved(inputs) && AllClean(history, ceiling)
            ==> AllClean(run, ceiling) && (ReplaysUnder(boot, ceiling) ==> ReplaysUnder(disk.log, ceiling))
    ensures end.LoadFailed? ==> LoadIndex(old(disk.log), ceiling) == Result.Err(end.error) && disk.log == old(disk.log)
    ensures !end.LoadFailed? ==> CrashRecovery.TotalCapital(submissions) <= ceiling
    ensures TrustedTips(inputs, cfg) && CrashRecovery.OnePercentBids(before)
            ==> CrashRecovery.OnePercentBids(submissions) && (!end.LoadFailed? ==> SpentWithin(submissions, ceiling))
  {
    run, tasks, submissions := history, {}, before;
    var loaded := ExecutionJournal.Load(disk, ceiling, lockRemovable);
    if loaded.Err? {
      end := LoadFailed(loaded.error);
    } else {
      LoadCovers(boot, history, ceiling);
      if dispatcher.regions == [] {
        end := NoRegions;
      } else {
        tasks, run, submissions, end :=
          ServeLoaded(loaded.value, cfg, bot, dispatcher, dedupe, inputs, boot, history, before);
      }
      SpendUnderCeiling(submissions, ceiling);
    }
    LifetimeEnds(boot, run, ceiling);
    run := run + [CrashRecovery.Crash];
  }

  /** The loop over a journal just loaded. */
  method ServeLoaded(journal: ExecutionJournal, cfg: Config, bot: BotState, dispatcher: BundleDispatcher,
                     dedupe: OpportunityDeduplicator, inputs: seq<Input>, ghost boot: seq<Line>,
                     ghost history: seq<CrashRecovery.Step>, ghost before: seq<CrashRecovery.Submission>)
    returns (tasks: set<PermitPool.Permit>, ghost run: seq<CrashRecovery.Step>,
             ghost submissions: seq<CrashRecovery.Submission>, end: LoopEnd)
    requires bot.Valid() && bot.heldPermits == {} && dispatcher.Valid()
    requires CrashRecovery.World(journal.disk.log, CrashRecovery.Down, before)
             == CrashRecovery.Run(CrashRecovery.Start(boot), history)
    requires LoadIndex(journal.disk.log, journal.ceiling) == Result.Ok(journal.Index())
    modifies journal, journal.disk, bot, dedupe, dispatcher, dispatcher.regions
    ensures history <= run && bot.Valid() && bot.heldPermits == tasks
    ensures CrashRecovery.Run(CrashRecovery.Start(boot), run).log == journal.disk.log
    ensures CrashRecovery.Run(CrashRecovery.Start(boot), run).submissions == submissions
    ensures AllWellBehaved(inputs) && AllClean(history, journal.ceiling) ==> AllClean(run, journal.ceiling)
    ensures CrashRecovery.TotalCapital(submissions) <= journal.ceiling
    ensures TrustedTips(inputs, cfg) && CrashRecovery.OnePercentBids(before)
            ==> CrashRecovery.OnePercentBids(submissions)
    ensures end.ChannelClosed? || end.TaskDied?
  {
    ghost var start := CrashRecovery.Start(boot);
    var consumer := new ExecutionConsumer(cfg, journal, bot, dispatcher, dedupe, before);
    CrashRecovery.RunSnoc(start, history, CrashRecovery.Boot(journal.ceiling));
    BootCovers(boot, history, journal.ceiling);
    run := history + [CrashRecovery.Boot(journal.ceiling)];
    assert consumer.World() == CrashRecovery.Run(start, run);
    assert AllClean(history, journal.ceiling) ==> AllClean(run, journal.ceiling);
    tasks, run := Serve(consumer, inputs, start, run);
    submissions := consumer.submissions;
    end := if consumer.running then ChannelClosed else TaskDied;
  }
}
