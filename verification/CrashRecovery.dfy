/** Crashes and restarts of the execution task over one journal file. The steps
    are those of the journal: a reservation is appended, then entered in memory,
    then submitted, then its acceptance is recorded; a crash may fall between any
    two. Everything that gates a reservation is left out, which only adds runs. */
module CrashRecovery {
  import opened Primitives
  import opened Types
  import opened JournalReplay
  import opened ExecutionJournalModule

  /** Where the task stands with its current signal. */
  datatype Phase =
    | Idle
    | Appended(request: Request)
    | Committed(request: Request)
    | Submitted(request: Request)

  datatype Process = Down | Up(index: Index, ceiling: u64, phase: Phase)

  /** A fan-out to the block engines: what was reserved for it, the tip bid it
      carries, the fee the network charges for it, whatever the reservation assumed,
      and the length of the journal at that moment. */
  datatype Submission = Submission(request: Request, bid: u64, networkFee: nat, logLength: nat)
  {
    /** What the reservation sets aside. */
    function Capital(): nat {
      TotalOf(request)
    }

    /** What the bundle pays when it lands: amount, bid, network fee and rent. */
    function Spend(): nat {
      request.amountIn + bid + networkFee + request.rentLamports
    }

    /** The part of the network fee for which nothing was reserved. */
    function UnreservedFee(): nat {
      SaturatingSub(networkFee, request.feeLamports)
    }
  }

  datatype World = World(log: seq<Line>, process: Process, submissions: seq<Submission>)

  datatype Step =
    | Boot(ceiling: u64)
    | AppendReservation(request: Request, io: AppendIo)
    | Commit
    | Submit(bid: u64, networkFee: nat)
    | RecordAcceptance(bundleId: string, recordBytes: nat, io: AppendIo)
    | GiveUp
    | Crash

  function Start(log: seq<Line>): World {
    World(log, Down, [])
  }

  /** One atomic step; a step that is not enabled changes nothing. */
  function Next(w: World, step: Step): World {
    match step
    case Boot(ceiling) =>
      if w.process.Down? then
        var ix := LoadIndex(w.log, ceiling);
        if ix.Ok? then w.(process := Up(ix.value, ceiling, Idle)) else w
      else w
    case AppendReservation(q, io) =>
      if w.process.Up? && w.process.phase.Idle? then
        var check := ReserveCheck(w.process.index, w.process.ceiling, q);
        if check.Err? then w
        else
          var log := AppendEffect(w.log, ReservationLine(q, check.value), io);
          if io == Durable then w.(log := log, process := w.process.(phase := Appended(q)))
          else w.(log := log)
      else w
    case Commit =>
      if w.process.Up? && w.process.phase.Appended? then
        var q := w.process.phase.request;
        w.(process := w.process.(index := AfterReserve(w.process.index, q), phase := Committed(q)))
      else w
    case Submit(bid, networkFee) =>
      if w.process.Up? && w.process.phase.Committed? then
        var q := w.process.phase.request;
        w.(submissions := w.submissions + [Submission(q, bid, networkFee, |w.log|)],
           process := w.process.(phase := Submitted(q)))
      else w
    case RecordAcceptance(bundleId, recordBytes, io) =>
      if w.process.Up? && w.process.phase.Submitted? then
        var q := w.process.phase.request;
        var log := AppendEffect(w.log, AcceptanceLine(q.mint, bundleId, q.signature, recordBytes), io);
        // A failed acceptance record ends the execution task.
        w.(log := log, process := if io == Durable then w.process.(phase := Idle) else Down)
      else w
    case GiveUp =>
      if w.process.Up? && w.process.phase.Submitted? then w.(process := w.process.(phase := Idle)) else w
    case Crash => w.(process := Down)
  }

  function Run(w: World, steps: seq<Step>): World {
    if steps == [] then w else Next(Run(w, steps[..|steps| - 1]), steps[|steps| - 1])
  }

  lemma RunSnoc(w: World, steps: seq<Step>, step: Step)
    ensures Run(w, steps + [step]) == Next(Run(w, steps), step)
  {
    assert (steps + [step])[..|steps|] == steps;
  }

  lemma {:induction false} RunConcat(w: World, first: seq<Step>, rest: seq<Step>)
    ensures Run(w, first + rest) == Run(Run(w, first), rest)
  {
    if rest == [] {
      assert first + rest == first;
    } else {
      var n := |rest| - 1;
      RunConcat(w, first, rest[..n]);
      RunSnoc(w, first + rest[..n], rest[n]);
      assert first + rest == (first + rest[..n]) + [rest[n]];
    }
  }

  // ---- At most one submission per mint, under the ceiling ------------------------------

  ghost predicate IsSubmitted(w: World, mint: Pubkey) {
    exists i :: 0 <= i < |w.submissions| && w.submissions[i].request.mint == mint
  }

  ghost predicate NoMintTwice(submissions: seq<Submission>) {
    forall i, j :: 0 <= i < j < |submissions| ==> submissions[i].request.mint != submissions[j].request.mint
  }

  /** Each submission came after a reservation of its mint was in the file. */
  ghost predicate PrecededByReservation(w: World) {
    forall i :: 0 <= i < |w.submissions| ==>
      && w.submissions[i].logLength <= |w.log|
      && HasReservation(w.log[..w.submissions[i].logLength], w.submissions[i].request.mint)
  }

  /** What the running task knows: submitted mints are indexed, and a mint on its
      way to submission is in the file and not yet submitted. */
  ghost predicate PhaseSafe(w: World) {
    w.process.Up? ==>
      && (forall i :: 0 <= i < |w.submissions| ==> w.submissions[i].request.mint in w.process.index.mints)
      && match w.process.phase
         case Appended(q) => q.mint !in w.process.index.mints && HasReservation(w.log, q.mint)
         case Committed(q) =>
           q.mint in w.process.index.mints && !IsSubmitted(w, q.mint) && HasReservation(w.log, q.mint)
         case _ => true
  }

  /** The capital reserved for all submissions of all lifetimes. */
  function TotalCapital(submissions: seq<Submission>): nat {
    if submissions == [] then 0
    else TotalCapital(submissions[..|submissions| - 1]) + submissions[|submissions| - 1].Capital()
  }

  lemma TotalCapitalSnoc(submissions: seq<Submission>, s: Submission)
    ensures TotalCapital(submissions + [s]) == TotalCapital(submissions) + s.Capital()
  {
    assert (submissions + [s])[..|submissions|] == submissions;
  }

  /** Capital written and not yet submitted. */
  function Unsubmitted(p: Process): nat {
    if p.Up? && (p.phase.Appended? || p.phase.Committed?) then TotalOf(p.phase.request) else 0
  }

  /** Everything submitted is covered by the file; while a task runs it is covered by
      its index, and the index stays under the ceiling. */
  ghost predicate CapitalSafe(w: World) {
    && TotalCapital(w.submissions) + Unsubmitted(w.process) <= CapitalOf(w.log)
    && (w.process.Up? ==>
          && w.process.index.capital <= w.process.ceiling
          && TotalCapital(w.submissions) <= w.process.index.capital
          && (w.process.phase.Committed? ==>
                TotalCapital(w.submissions) + TotalOf(w.process.phase.request) <= w.process.index.capital)
          && (w.process.phase.Appended? ==>
                w.process.index.capital + TotalOf(w.process.phase.request) <= w.process.ceiling))
  }

  ghost predicate Safe(w: World) {
    NoMintTwice(w.submissions) && PrecededByReservation(w) && PhaseSafe(w) && CapitalSafe(w)
  }

  /** Growing the file keeps every earlier reservation where it was. */
  lemma LogGrows(w: World, log: seq<Line>)
    requires PrecededByReservation(w) && w.log <= log
    ensures PrecededByReservation(w.(log := log))
    ensures forall mint :: HasReservation(w.log, mint) ==> HasReservation(log, mint)
  {
    forall i | 0 <= i < |w.submissions|
      ensures HasReservation(log[..w.submissions[i].logLength], w.submissions[i].request.mint)
    {
      assert log[..w.submissions[i].logLength] == w.log[..w.submissions[i].logLength];
    }
    forall mint | HasReservation(w.log, mint)
      ensures HasReservation(log, mint)
    {
      var k :| 0 <= k < |w.log| && Reserves(w.log[k], mint);
      assert Reserves(log[k], mint);
    }
  }

  lemma BootIsSafe(w: World, ceiling: u64)
    requires Safe(w) && w.process.Down?
    ensures Safe(Next(w, Boot(ceiling)))
  {
    var ix := LoadIndex(w.log, ceiling);
    if ix.Ok? {
      LoadsExactly(w.log, ceiling);
      forall i | 0 <= i < |w.submissions|
        ensures w.submissions[i].request.mint in ix.value.mints
      {
        var s := w.submissions[i];
        var k :| 0 <= k < |w.log[..s.logLength]| && Reserves(w.log[..s.logLength][k], s.request.mint);
        assert Reserves(w.log[k], s.request.mint);
      }
    }
  }

  lemma AppendKeepsCapital(w: World, q: Request, io: AppendIo)
    requires CapitalSafe(w) && w.process.Up? && w.process.phase.Idle?
    ensures CapitalSafe(Next(w, AppendReservation(q, io)))
  {
    var check := ReserveCheck(w.process.index, w.process.ceiling, q);
    if check.Ok? {
      CapitalSnoc(w.log, ReservationLine(q, check.value));
    }
  }

  lemma AppendKeepsOrder(w: World, q: Request, io: AppendIo)
    requires PrecededByReservation(w) && PhaseSafe(w) && w.process.Up? && w.process.phase.Idle?
    ensures PrecededByReservation(Next(w, AppendReservation(q, io))) && PhaseSafe(Next(w, AppendReservation(q, io)))
  {
    var check := ReserveCheck(w.process.index, w.process.ceiling, q);
    if check.Ok? {
      var line := ReservationLine(q, check.value);
      LogGrows(w, AppendEffect(w.log, line, io));
      HasReservationSnoc(w.log, line, q.mint);
    }
  }

  lemma AppendIsSafe(w: World, q: Request, io: AppendIo)
    requires Safe(w) && w.process.Up? && w.process.phase.Idle?
    ensures Safe(Next(w, AppendReservation(q, io)))
  {
    AppendKeepsOrder(w, q, io);
    AppendKeepsCapital(w, q, io);
  }

  lemma SubmitIsSafe(w: World, bid: u64, networkFee: nat)
    requires Safe(w) && w.process.Up? && w.process.phase.Committed?
    ensures Safe(Next(w, Submit(bid, networkFee)))
  {
    assert w.log[..|w.log|] == w.log;
    TotalCapitalSnoc(w.submissions, Submission(w.process.phase.request, bid, networkFee, |w.log|));
  }

  lemma AcceptIsSafe(w: World, bundleId: string, recordBytes: nat, io: AppendIo)
    requires Safe(w) && w.process.Up? && w.process.phase.Submitted?
    ensures Safe(Next(w, RecordAcceptance(bundleId, recordBytes, io)))
  {
    var q := w.process.phase.request;
    LogGrows(w, Next(w, RecordAcceptance(bundleId, recordBytes, io)).log);
    CapitalSnoc(w.log, AcceptanceLine(q.mint, bundleId, q.signature, recordBytes));
  }

  lemma NextIsSafe(w: World, step: Step)
    requires Safe(w)
    ensures Safe(Next(w, step))
  {
    match step
    case Boot(ceiling) => if w.process.Down? { BootIsSafe(w, ceiling); }
    case AppendReservation(q, io) => if w.process.Up? && w.process.phase.Idle? { AppendIsSafe(w, q, io); }
    case Commit =>
    case Submit(bid, networkFee) =>
      if w.process.Up? && w.process.phase.Committed? { SubmitIsSafe(w, bid, networkFee); }
    case RecordAcceptance(bundleId, recordBytes, io) =>
      if w.process.Up? && w.process.phase.Submitted? { AcceptIsSafe(w, bundleId, recordBytes, io); }
    case GiveUp =>
    case Crash =>
  }

  /** Over every sequence of signals, crashes and restarts, with any ceilings, on any
      starting file, and even with appends that reach the disk while reporting an
      error: no mint is submitted twice, every submission follows a reservation of
      its mint already in the file, and while a task runs, the capital of all
      submissions of all lifetimes is within its index and so within its ceiling. */
  lemma {:induction false} AtMostOnce(log: seq<Line>, steps: seq<Step>)
    ensures var w := Run(Start(log), steps);
            && NoMintTwice(w.submissions) && PrecededByReservation(w) && Safe(w)
            && (w.process.Up? ==> TotalCapital(w.submissions) <= w.process.index.capital <= w.process.ceiling)
  {
    if steps != [] {
      AtMostOnce(log, steps[..|steps| - 1]);
      NextIsSafe(Run(Start(log), steps[..|steps| - 1]), steps[|steps| - 1]);
    }
  }

  /** The ceiling of the last start holds for the submissions, whether or not the task still runs. */
  ghost predicate UnderCeiling(w: World, ceiling: u64) {
    && TotalCapital(w.submissions) <= ceiling
    && (w.process.Up? ==> w.process.ceiling == ceiling)
  }

  lemma NextStaysUnder(w: World, step: Step, ceiling: u64)
    requires Safe(w) && UnderCeiling(w, ceiling) && !step.Boot?
    ensures UnderCeiling(Next(w, step), ceiling)
  {
    if step.Submit? && w.process.Up? && w.process.phase.Committed? {
      TotalCapitalSnoc(w.submissions, Submission(w.process.phase.request, step.bid, step.networkFee, |w.log|));
    }
  }

  /** Steps without a new start stay under the ceiling. */
  lemma {:induction false} StepsStayUnder(w: World, steps: seq<Step>, ceiling: u64)
    requires Safe(w) && UnderCeiling(w, ceiling)
    requires forall i :: 0 <= i < |steps| ==> !steps[i].Boot?
    ensures Safe(Run(w, steps)) && UnderCeiling(Run(w, steps), ceiling)
  {
    if steps != [] {
      var n := |steps| - 1;
      StepsStayUnder(w, steps[..n], ceiling);
      NextIsSafe(Run(w, steps[..n]), steps[n]);
      NextStaysUnder(Run(w, steps[..n]), steps[n], ceiling);
    }
  }

  // ---- What is spent -----------------------------------------------------------------

  function TotalSpend(submissions: seq<Submission>): nat {
    if submissions == [] then 0
    else TotalSpend(submissions[..|submissions| - 1]) + submissions[|submissions| - 1].Spend()
  }

  function TotalAmount(submissions: seq<Submission>): nat {
    if submissions == [] then 0
    else TotalAmount(submissions[..|submissions| - 1]) + submissions[|submissions| - 1].request.amountIn
  }

  /** Every bid is at most one percent of the amount. */
  predicate OnePercentBids(submissions: seq<Submission>) {
    forall i :: 0 <= i < |submissions| ==> 100 * submissions[i].bid <= submissions[i].request.amountIn
  }

  function TotalUnreservedFee(submissions: seq<Submission>): nat {
    if submissions == [] then 0
    else TotalUnreservedFee(submissions[..|submissions| - 1]) + submissions[|submissions| - 1].UnreservedFee()
  }

  /** Whatever the configured tip, bids of at most one percent keep the total spend
      within the reserved capital, one percent of the amounts and the unreserved fees. */
  lemma {:induction false} SpendWithinOnePercent(submissions: seq<Submission>)
    requires OnePercentBids(submissions)
    ensures 100 * TotalSpend(submissions)
            <= 100 * TotalCapital(submissions) + TotalAmount(submissions) + 100 * TotalUnreservedFee(submissions)
  {
    if submissions != [] {
      SpendWithinOnePercent(submissions[..|submissions| - 1]);
    }
  }

  // ---- When a restart succeeds --------------------------------------------------------

  /** The inputs carry the fields the reload insists on. Faults are not restricted. */
  predicate ReadableStep(step: Step) {
    match step
    case AppendReservation(q, _) => ReloadableRequest(q)
    case RecordAcceptance(bundleId, _, _) => bundleId != ""
    case _ => true
  }

  /** Every line can be read back, and so can the acceptance of the signal under way. */
  ghost predicate WritesReadable(w: World) {
    && AllReadable(w.log)
    && (w.process.Up? && !w.process.phase.Idle? ==> ReloadableRequest(w.process.phase.request))
  }

  lemma NextWritesReadable(w: World, step: Step)
    requires WritesReadable(w) && ReadableStep(step)
    ensures WritesReadable(Next(w, step))
  {
    match step
    case AppendReservation(q, io) =>
      if w.process.Up? && w.process.phase.Idle? {
        var check := ReserveCheck(w.process.index, w.process.ceiling, q);
        if check.Ok? { ReadableSnoc(w.log, ReservationLine(q, check.value)); }
      }
    case RecordAcceptance(bundleId, recordBytes, io) =>
      if w.process.Up? && w.process.phase.Submitted? {
        var q := w.process.phase.request;
        ReadableSnoc(w.log, AcceptanceLine(q.mint, bundleId, q.signature, recordBytes));
      }
    case _ =>
  }

  lemma {:induction false} RunWritesReadable(log: seq<Line>, steps: seq<Step>)
    requires AllReadable(log) && forall i :: 0 <= i < |steps| ==> ReadableStep(steps[i])
    ensures WritesReadable(Run(Start(log), steps))
  {
    if steps != [] {
      RunWritesReadable(log, steps[..|steps| - 1]);
      NextWritesReadable(Run(Start(log), steps[..|steps| - 1]), steps[|steps| - 1]);
    }
  }

  /** A crash anywhere in any run, with any inputs and any append faults, then a
      start. It succeeds exactly when the file fits its size limit, every line can be
      read back, no mint was appended twice and the appended capital is within the
      ceiling; it then holds exactly what was appended, submitted or not. Every line
      can be read back when the first file could and the inputs carry their fields. */
  lemma RestartsExactly(log: seq<Line>, steps: seq<Step>, ceiling: u64)
    ensures var file := Run(Start(log), steps).log;
            var after := Run(Start(log), steps + [Crash] + [Boot(ceiling)]);
            && (after.process.Up? <==> && Bytes(file) <= MAX_EXECUTION_JOURNAL_BYTES && AllReadable(file)
                                       && NoMintReservedTwice(file) && CapitalOf(file) <= ceiling)
            && (after.process.Up? ==>
                  && after.process.index.capital == CapitalOf(file)
                  && forall mint :: mint in after.process.index.mints <==> HasReservation(file, mint))
            && (AllReadable(log) && (forall i :: 0 <= i < |steps| ==> ReadableStep(steps[i])) ==> AllReadable(file))
  {
    if AllReadable(log) && forall i :: 0 <= i < |steps| ==> ReadableStep(steps[i]) {
      RunWritesReadable(log, steps);
    }
    RunSnoc(Start(log), steps, Crash);
    RunSnoc(Start(log), steps + [Crash], Boot(ceiling));
    LoadsExactly(Run(Start(log), steps).log, ceiling);
  }

  // ---- The index refines the replay -------------------------------------------------

  /** The faults and inputs under which the index is exact: appends are all or
      nothing, requests carry the fields the reload insists on, and the ceiling
      is the same at every start. */
  predicate Clean(step: Step, ceiling: u64) {
    && ReadableStep(step)
    && match step
       case Boot(c) => c == ceiling
       case AppendReservation(_, io) => io != Unacknowledged
       case RecordAcceptance(_, _, io) => io != Unacknowledged
       case _ => true
  }

  /** The index equals the replay of the file, or lags it by exactly the one
      reservation that is written and not yet committed. */
  ghost predicate Refines(w: World, ceiling: u64) {
    && Replay(w.log).Ok? && Replay(w.log).value.capital <= ceiling
    && (w.process.Up? ==>
          && w.process.ceiling == ceiling
          && Replay(w.log).value == Caught(w.process)
          && (!w.process.phase.Idle? ==> w.process.phase.request.signature != ""))
  }

  /** The index once it has caught up with the file. */
  function Caught(p: Process): Index
    requires p.Up?
  {
    if p.phase.Appended? then AfterReserve(p.index, p.phase.request) else p.index
  }

  lemma AppendRefines(w: World, q: Request, io: AppendIo, ceiling: u64)
    requires Refines(w, ceiling) && w.process.Up? && w.process.phase.Idle?
    requires io != Unacknowledged && ReloadableRequest(q)
    ensures Refines(Next(w, AppendReservation(q, io)), ceiling)
  {
    if ReserveCheck(w.process.index, ceiling, q).Ok? {
      ReservationRefines(w.log, w.process.index, ceiling, q);
    }
  }

  lemma AcceptRefines(w: World, bundleId: string, recordBytes: nat, io: AppendIo, ceiling: u64)
    requires Refines(w, ceiling) && w.process.Up? && w.process.phase.Submitted?
    requires io != Unacknowledged && bundleId != ""
    ensures Refines(Next(w, RecordAcceptance(bundleId, recordBytes, io)), ceiling)
  {
    var q := w.process.phase.request;
    AcceptanceApplies(Replay(w.log).value, q.mint, bundleId, q.signature, recordBytes);
    ReplaySnoc(w.log, AcceptanceLine(q.mint, bundleId, q.signature, recordBytes));
  }

  lemma AcceptanceApplies(ix: Index, mint: Pubkey, bundleId: string, signature: string, recordBytes: nat)
    requires bundleId != "" && signature != ""
    ensures ApplyLine(ix, AcceptanceLine(mint, bundleId, signature, recordBytes)) == Ok(ix)
  {
  }

  lemma NextRefines(w: World, step: Step, ceiling: u64)
    requires Refines(w, ceiling) && Clean(step, ceiling)
    ensures Refines(Next(w, step), ceiling)
  {
    match step
    case AppendReservation(q, io) =>
      if w.process.Up? && w.process.phase.Idle? { AppendRefines(w, q, io, ceiling); }
    case RecordAcceptance(bundleId, recordBytes, io) =>
      if w.process.Up? && w.process.phase.Submitted? { AcceptRefines(w, bundleId, recordBytes, io, ceiling); }
    case _ =>
  }

  /** In every clean run the index refines the replay, at every step. */
  lemma {:induction false} IndexRefinesReplay(log: seq<Line>, steps: seq<Step>, ceiling: u64)
    requires Replay(log).Ok? && Replay(log).value.capital <= ceiling
    requires forall i :: 0 <= i < |steps| ==> Clean(steps[i], ceiling)
    ensures Refines(Run(Start(log), steps), ceiling)
  {
    if steps != [] {
      IndexRefinesReplay(log, steps[..|steps| - 1], ceiling);
      NextRefines(Run(Start(log), steps[..|steps| - 1]), steps[|steps| - 1], ceiling);
    }
  }

  /** A crash anywhere in a clean run, then a restart. The restart succeeds exactly
      when the file is within its size limit, and then holds the index the task
      had, plus the one reservation that was written but not committed. */
  lemma CrashAndRestart(log: seq<Line>, steps: seq<Step>, ceiling: u64)
    requires Replay(log).Ok? && Replay(log).value.capital <= ceiling
    requires forall i :: 0 <= i < |steps| ==> Clean(steps[i], ceiling)
    ensures var before := Run(Start(log), steps);
            var after := Run(Start(log), steps + [Crash] + [Boot(ceiling)]);
            && (after.process.Up? <==> Bytes(before.log) <= MAX_EXECUTION_JOURNAL_BYTES)
            && (after.process.Up? && before.process.Up? ==> after.process.index == Caught(before.process))
  {
    IndexRefinesReplay(log, steps, ceiling);
    RunSnoc(Start(log), steps, Crash);
    RunSnoc(Start(log), steps + [Crash], Boot(ceiling));
  }

  // ---- Two ways to a file that does not load ---------------------------------------------

  /** One request whose append reaches the disk and reports an error, then another
      that goes through. The task goes on as if nothing were wrong. */
  lemma OrphanThenSubmission(a: Request, b: Request, ceiling: u64, bid: u64, networkFee: nat)
    returns (steps: seq<Step>)
    requires ReserveCheck(EMPTY_INDEX, ceiling, a).Ok? && ReserveCheck(EMPTY_INDEX, ceiling, b).Ok?
    requires ReloadableRequest(a) && ReloadableRequest(b)
    ensures var w := Run(Start([]), steps);
            && w.process == Up(AfterReserve(EMPTY_INDEX, b), ceiling, Submitted(b)) && |w.submissions| == 1
            && w.log == [ReservationLine(a, TotalOf(a)), ReservationLine(b, TotalOf(b))]
    ensures forall i :: 0 <= i < |steps| ==> ReadableStep(steps[i])
  {
    var start := Start([]);
    RunSnoc(start, [], Boot(ceiling));
    RunSnoc(start, [] + [Boot(ceiling)], AppendReservation(a, Unacknowledged));
    var s2 := [] + [Boot(ceiling)] + [AppendReservation(a, Unacknowledged)];
    RunSnoc(start, s2, AppendReservation(b, Durable));
    var s3 := s2 + [AppendReservation(b, Durable)];
    RunSnoc(start, s3, Commit);
    RunSnoc(start, s3 + [Commit], Submit(bid, networkFee));
    steps := s3 + [Commit] + [Submit(bid, networkFee)];
  }

  lemma TwoReservations(a: Request, b: Request)
    requires TotalOf(a) < TWO_64 && TotalOf(b) < TWO_64
    ensures var file := [ReservationLine(a, TotalOf(a)), ReservationLine(b, TotalOf(b))];
            && CapitalOf(file) == TotalOf(a) + TotalOf(b)
            && (NoMintReservedTwice(file) <==> a.mint != b.mint)
  {
    var first, second := ReservationLine(a, TotalOf(a)), ReservationLine(b, TotalOf(b));
    CapitalSnoc([], first);
    CapitalSnoc([first], second);
    assert [] + [first] == [first] && [first] + [second] == [first, second];
    assert [first, second][0] == first && [first, second][1] == second;
  }

  /** The next start then fails exactly when both requests name one mint, or their
      capital together exceeds the ceiling, or the two records do not fit: in the
      first case no ceiling helps, in the second the orphaned capital counts although
      it was never submitted. */
  lemma OrphanBlocksRestartExactly(a: Request, b: Request, ceiling: u64, bid: u64, networkFee: nat, later: u64)
    returns (steps: seq<Step>)
    requires ReserveCheck(EMPTY_INDEX, ceiling, a).Ok? && ReserveCheck(EMPTY_INDEX, ceiling, b).Ok?
    requires ReloadableRequest(a) && ReloadableRequest(b)
    ensures Run(Start([]), steps).process.Up? && |Run(Start([]), steps).submissions| == 1
    ensures Run(Start([]), steps + [Crash] + [Boot(later)]).process.Down?
            <==> || a.mint == b.mint || TotalOf(a) + TotalOf(b) > later
                 || a.recordBytes + b.recordBytes > MAX_EXECUTION_JOURNAL_BYTES
  {
    steps := OrphanThenSubmission(a, b, ceiling, bid, networkFee);
    RestartsExactly([], steps, later);
    TwoReservations(a, b);
    var first, second := ReservationLine(a, TotalOf(a)), ReservationLine(b, TotalOf(b));
    ReplaySnoc([], first);
    ReplaySnoc([first], second);
    assert [] + [first] == [first] && [first] + [second] == [first, second];
  }
}
