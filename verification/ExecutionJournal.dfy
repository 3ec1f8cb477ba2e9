/** What a journal file means: the records, their replay into an index of
    reserved mints and reserved capital, and the checks made before a reservation. */
module JournalReplay {
  import opened Primitives
  import opened Types

  const EXECUTION_JOURNAL_VERSION: nat := 1
  const MAX_EXECUTION_JOURNAL_BYTES := 1024 * 1024

  /** A mint read from a record is None when its text is not a public key. */
  datatype Record =
    | Reserved(version: nat, mint: Option<Pubkey>, amountIn: u64, capital: u64, timestampMs: u64,
               signature: string, blockhash: string)
    | Accepted(version: nat, mint: Option<Pubkey>, bundleId: string, signature: string)

  datatype Content = Blank | Unparsable | Parsed(record: Record)

  datatype Line = Line(content: Content, bytes: nat)

  datatype JournalError =
    | JournalTooLarge
    | InvalidRecord
    | InvalidReservation
    | InvalidMint
    | DuplicateReservation
    | InvalidAcceptance
    | CapitalArithmeticOverflow
    | PendingCapitalLimit
    | DuplicateExecutionAttempt
    | LockUnavailable
    | AppendFailed

  datatype Index = Index(mints: set<Pubkey>, capital: nat)

  const EMPTY_INDEX := Index({}, 0)

  predicate ReservationFieldsOk(r: Record)
    requires r.Reserved?
  {
    && r.version == EXECUTION_JOURNAL_VERSION
    && r.amountIn != 0
    && r.capital != 0
    && r.timestampMs != 0
    && r.signature != ""
    && r.blockhash != ""
  }

  predicate AcceptanceOk(r: Record)
    requires r.Accepted?
  {
    r.version == EXECUTION_JOURNAL_VERSION && r.mint.Some? && r.bundleId != "" && r.signature != ""
  }

  function ApplyRecord(ix: Index, r: Record): Result<Index, JournalError> {
    match r
    case Reserved(_, mint, _, capital, _, _, _) =>
      if !ReservationFieldsOk(r) then Err(InvalidReservation)
      else if mint.None? then Err(InvalidMint)
      else if mint.value in ix.mints then Err(DuplicateReservation)
      else if ix.capital + capital >= TWO_64 then Err(CapitalArithmeticOverflow)
      else Ok(Index(ix.mints + {mint.value}, ix.capital + capital))
    case Accepted(_, _, _, _) =>
      if AcceptanceOk(r) then Ok(ix) else Err(InvalidAcceptance)
  }

  function ApplyLine(ix: Index, line: Line): Result<Index, JournalError> {
    match line.content
    case Blank => Ok(ix)
    case Unparsable => Err(InvalidRecord)
    case Parsed(r) => ApplyRecord(ix, r)
  }

  /** Replays the lines in order; the first bad line decides. */
  function Replay(log: seq<Line>): Result<Index, JournalError> {
    if log == [] then Ok(EMPTY_INDEX)
    else
      var before := Replay(log[..|log| - 1]);
      if before.Err? then before else ApplyLine(before.value, log[|log| - 1])
  }

  function Bytes(log: seq<Line>): nat {
    if log == [] then 0 else Bytes(log[..|log| - 1]) + log[|log| - 1].bytes
  }

  function LoadIndex(log: seq<Line>, ceiling: u64): Result<Index, JournalError> {
    if Bytes(log) > MAX_EXECUTION_JOURNAL_BYTES then Err(JournalTooLarge)
    else
      var ix := Replay(log);
      if ix.Ok? && ix.value.capital > ceiling then Err(PendingCapitalLimit) else ix
  }

  lemma ReplaySnoc(log: seq<Line>, line: Line)
    ensures Replay(log + [line]) == if Replay(log).Err? then Replay(log) else ApplyLine(Replay(log).value, line)
    ensures Bytes(log + [line]) == Bytes(log) + line.bytes
  {
    assert (log + [line])[..|log|] == log;
  }

  lemma {:induction false} ErrorSticks(log: seq<Line>, n: nat)
    requires n <= |log| && Replay(log[..n]).Err?
    ensures Replay(log) == Replay(log[..n])
  {
    if n == |log| {
      assert log[..n] == log;
    } else {
      assert log[..|log| - 1][..n] == log[..n];
      ErrorSticks(log[..|log| - 1], n);
    }
  }

  /** Replaying one more line; a failure there is the failure of the whole file. */
  lemma ReplayLine(log: seq<Line>, i: nat)
    requires i < |log| && Replay(log[..i]).Ok?
    ensures Replay(log[..i + 1]) == ApplyLine(Replay(log[..i]).value, log[i])
    ensures Replay(log[..i + 1]).Err? ==> Replay(log) == Replay(log[..i + 1])
  {
    ReplaySnoc(log[..i], log[i]);
    assert log[..i] + [log[i]] == log[..i + 1];
    if Replay(log[..i + 1]).Err? {
      ErrorSticks(log, i + 1);
    }
  }

  predicate Reserves(line: Line, mint: Pubkey) {
    line.content.Parsed? && line.content.record.Reserved? && line.content.record.mint == Some(mint)
  }

  ghost predicate HasReservation(log: seq<Line>, mint: Pubkey) {
    exists i :: 0 <= i < |log| && Reserves(log[i], mint)
  }

  lemma HasReservationSnoc(log: seq<Line>, line: Line, mint: Pubkey)
    ensures HasReservation(log + [line], mint) <==> HasReservation(log, mint) || Reserves(line, mint)
  {
    var longer := log + [line];
    if HasReservation(log, mint) {
      var i :| 0 <= i < |log| && Reserves(log[i], mint);
      assert Reserves(longer[i], mint);
    }
    if Reserves(line, mint) {
      assert Reserves(longer[|log|], mint);
    }
  }

  /** A successful replay indexes exactly the mints that have a reservation line. */
  lemma {:induction false} ReplayIndexesReservations(log: seq<Line>)
    requires Replay(log).Ok?
    ensures forall mint :: mint in Replay(log).value.mints <==> HasReservation(log, mint)
  {
    if log != [] {
      var before, line := log[..|log| - 1], log[|log| - 1];
      ReplayIndexesReservations(before);
      assert before + [line] == log;
      forall mint
        ensures mint in Replay(log).value.mints <==> HasReservation(log, mint)
      {
        HasReservationSnoc(before, line, mint);
      }
    }
  }

  // ---- When a file loads --------------------------------------------------------------

  predicate Readable(line: Line) {
    match line.content
    case Blank => true
    case Unparsable => false
    case Parsed(r) => if r.Reserved? then ReservationFieldsOk(r) && r.mint.Some? else AcceptanceOk(r)
  }

  /** A line can be read back exactly when it is blank, or a reservation or acceptance of
      version 1 with a mint, no zero amount, capital or time, and no empty text. */
  lemma ReadableExactly(line: Line)
    ensures Readable(line)
            <==> match line.content
                 case Blank => true
                 case Unparsable => false
                 case Parsed(Reserved(version, mint, amountIn, capital, timestampMs, signature, blockhash)) =>
                   && version == 1 && mint.Some? && amountIn > 0 && capital > 0 && timestampMs > 0
                   && signature != "" && blockhash != ""
                 case Parsed(Accepted(version, mint, bundleId, signature)) =>
                   version == 1 && mint.Some? && bundleId != "" && signature != ""
  {
  }

  predicate AllReadable(log: seq<Line>) {
    forall i :: 0 <= i < |log| ==> Readable(log[i])
  }

  function ReservedMint(line: Line): Option<Pubkey> {
    if line.content.Parsed? && line.content.record.Reserved? then line.content.record.mint else None
  }

  /** No two lines reserve the same mint. */
  predicate NoMintReservedTwice(log: seq<Line>) {
    forall i, j :: 0 <= i < j < |log| && ReservedMint(log[i]).Some? ==> ReservedMint(log[i]) != ReservedMint(log[j])
  }

  function LineCapital(line: Line): nat {
    if line.content.Parsed? && line.content.record.Reserved? then line.content.record.capital else 0
  }

  /** The capital of all reservation lines together. */
  function CapitalOf(log: seq<Line>): nat {
    if log == [] then 0 else CapitalOf(log[..|log| - 1]) + LineCapital(log[|log| - 1])
  }

  lemma CapitalSnoc(log: seq<Line>, line: Line)
    ensures CapitalOf(log + [line]) == CapitalOf(log) + LineCapital(line)
  {
    assert (log + [line])[..|log|] == log;
  }

  lemma ReadableSnoc(log: seq<Line>, line: Line)
    ensures AllReadable(log + [line]) <==> AllReadable(log) && Readable(line)
  {
    var longer := log + [line];
    if AllReadable(longer) {
      assert Readable(longer[|log|]);
      forall i | 0 <= i < |log|
        ensures Readable(log[i])
      {
        assert Readable(longer[i]);
      }
    }
  }

  lemma NoMintTwiceSnoc(log: seq<Line>, line: Line)
    ensures NoMintReservedTwice(log + [line])
            <==> && NoMintReservedTwice(log)
                 && (ReservedMint(line).Some? ==> !HasReservation(log, ReservedMint(line).value))
  {
    var longer := log + [line];
    if NoMintReservedTwice(longer) {
      forall i, j | 0 <= i < j < |log| && ReservedMint(log[i]).Some?
        ensures ReservedMint(log[i]) != ReservedMint(log[j])
      {
        assert longer[i] == log[i] && longer[j] == log[j];
      }
      if ReservedMint(line).Some? {
        forall i | 0 <= i < |log|
          ensures !Reserves(log[i], ReservedMint(line).value)
        {
          assert ReservedMint(longer[i]).Some? ==> ReservedMint(longer[i]) != ReservedMint(longer[|log|]);
        }
      }
    } else {
      var i, j :| && 0 <= i < j < |longer| && ReservedMint(longer[i]).Some?
                  && ReservedMint(longer[i]) == ReservedMint(longer[j]);
      if j == |log| {
        assert Reserves(log[i], ReservedMint(line).value);
      }
    }
  }

  /** A file replays exactly when every line is readable, no mint is reserved twice
      and the capital fits u64; the index then holds all of that capital. */
  lemma {:induction false} ReplayIsOkExactly(log: seq<Line>)
    ensures Replay(log).Ok? <==> AllReadable(log) && NoMintReservedTwice(log) && CapitalOf(log) < TWO_64
    ensures Replay(log).Ok? ==> Replay(log).value.capital == CapitalOf(log)
  {
    if log != [] {
      var before, line := log[..|log| - 1], log[|log| - 1];
      assert before + [line] == log;
      ReplayIsOkExactly(before);
      ReadableSnoc(before, line);
      NoMintTwiceSnoc(before, line);
      if Replay(before).Ok? {
        ReplayIndexesReservations(before);
        LineAppliesExactly(Replay(before).value, line);
      }
    }
  }

  lemma LineAppliesExactly(ix: Index, line: Line)
    requires ix.capital < TWO_64
    ensures ApplyLine(ix, line).Ok?
            <==> && Readable(line) && ix.capital + LineCapital(line) < TWO_64
                 && (ReservedMint(line).Some? ==> ReservedMint(line).value !in ix.mints)
    ensures ApplyLine(ix, line).Ok? ==> ApplyLine(ix, line).value.capital == ix.capital + LineCapital(line)
  {
  }

  /** When a start succeeds, and what it then holds. */
  lemma LoadsExactly(log: seq<Line>, ceiling: u64)
    ensures LoadIndex(log, ceiling).Ok?
            <==> && Bytes(log) <= 1_048_576
                 && AllReadable(log) && NoMintReservedTwice(log) && CapitalOf(log) <= ceiling
    ensures LoadIndex(log, ceiling).Ok? ==>
              && LoadIndex(log, ceiling).value.capital == CapitalOf(log)
              && forall mint :: mint in LoadIndex(log, ceiling).value.mints <==> HasReservation(log, mint)
  {
    ReplayIsOkExactly(log);
    if Replay(log).Ok? {
      ReplayIndexesReservations(log);
    }
  }

  // ---- Reserving ------------------------------------------------------------------

  datatype Request = Request(mint: Pubkey, amountIn: u64, tipLamports: u64, feeLamports: u64, rentLamports: u64,
                             timestampMs: u64, signature: string, blockhash: string, recordBytes: nat)

  /** The capital a request puts at risk, without overflow. */
  function TotalOf(q: Request): nat {
    q.amountIn + q.tipLamports + q.feeLamports + q.rentLamports
  }

  function CapitalAtRisk(q: Request): Result<u64, JournalError> {
    if TotalOf(q) >= TWO_64 then Err(CapitalArithmeticOverflow) else Ok(TotalOf(q))
  }

  /** The checks made before anything is written; the result is the capital to reserve. */
  function ReserveCheck(ix: Index, ceiling: u64, q: Request): Result<u64, JournalError> {
    if q.mint in ix.mints then Err(DuplicateExecutionAttempt)
    else
      var capital := CapitalAtRisk(q);
      if capital.Err? then capital
      else if ix.capital + capital.value >= TWO_64 then Err(CapitalArithmeticOverflow)
      else if ix.capital + capital.value > ceiling then Err(PendingCapitalLimit)
      else capital
  }

  /** A reservation is admitted exactly when its mint is new and its four parts fit under
      the ceiling together with what is reserved already; each refusal names its cause. */
  lemma ReserveChecksExactly(ix: Index, ceiling: u64, q: Request)
    ensures var check := ReserveCheck(ix, ceiling, q);
            var total := ix.capital + q.amountIn + q.tipLamports + q.feeLamports + q.rentLamports;
            && (check.Ok? <==> q.mint !in ix.mints && total <= ceiling)
            && (check.Ok? ==> ix.capital + check.value == total)
            && (check == Err(DuplicateExecutionAttempt) <==> q.mint in ix.mints)
            && (check == Err(CapitalArithmeticOverflow)
                <==> q.mint !in ix.mints && total >= 0x1_0000_0000_0000_0000)
            && (check == Err(PendingCapitalLimit)
                <==> q.mint !in ix.mints && ceiling < total < 0x1_0000_0000_0000_0000)
  {
  }

  function ReservationLine(q: Request, capital: u64): Line {
    Line(Parsed(Reserved(EXECUTION_JOURNAL_VERSION, Some(q.mint), q.amountIn, capital, q.timestampMs,
                         q.signature, q.blockhash)), q.recordBytes)
  }

  function AfterReserve(ix: Index, q: Request): Index {
    Index(ix.mints + {q.mint}, ix.capital + TotalOf(q))
  }

  /** The fields the reload insists on; `reserve` itself checks none of them. */
  predicate ReloadableRequest(q: Request) {
    q.amountIn != 0 && q.timestampMs != 0 && q.signature != "" && q.blockhash != ""
  }

  /** A reservation that passed the checks replays exactly when its fields are
      reloadable, and then to exactly the index kept in memory. */
  lemma ReservationRefines(log: seq<Line>, ix: Index, ceiling: u64, q: Request)
    requires Replay(log) == Ok(ix) && ReserveCheck(ix, ceiling, q).Ok?
    ensures var capital := ReserveCheck(ix, ceiling, q).value;
            && capital == TotalOf(q) && ix.capital + capital <= ceiling
            && (Replay(log + [ReservationLine(q, capital)]).Ok? <==> ReloadableRequest(q))
            && (ReloadableRequest(q)
                ==> Replay(log + [ReservationLine(q, capital)]) == Ok(AfterReserve(ix, q)))
  {
    ReplaySnoc(log, ReservationLine(q, ReserveCheck(ix, ceiling, q).value));
  }
}

/** The journal as the execution task holds it: an index in memory over a file on disk. */
module ExecutionJournalModule {
  import opened Primitives
  import opened Types
  import opened JournalReplay

  /** How an append ends. The whole record is written and synced; nothing is
      written; or the record is written and a later flush or sync reports an error. */
  datatype AppendIo = Durable | NotWritten | Unacknowledged

  datatype LockIo = LockCreated | LockCreateFails | LockSyncFails

  function AppendEffect(log: seq<Line>, line: Line, io: AppendIo): seq<Line> {
    if io == NotWritten then log else log + [line]
  }

  class Disk {
    var log: seq<Line>
    var lockFile: bool

    constructor (log: seq<Line>, lockFile: bool)
      ensures this.log == log && this.lockFile == lockFile
    {
      this.log, this.lockFile := log, lockFile;
    }
  }

  class ExecutionJournal {
    const disk: Disk
    const ceiling: u64
    var writerLockAcquired: bool
    var reservedMints: set<Pubkey>
    var reservedCapital: u64

    function Index(): JournalReplay.Index
      reads this
    {
      JournalReplay.Index(reservedMints, reservedCapital)
    }

    constructor (disk: Disk, ceiling: u64, mints: set<Pubkey>, capital: u64)
      ensures this.disk == disk && this.ceiling == ceiling && !writerLockAcquired
      ensures Index() == JournalReplay.Index(mints, capital)
    {
      this.disk, this.ceiling, writerLockAcquired := disk, ceiling, false;
      reservedMints, reservedCapital := mints, capital;
    }

    /** Startup: a lock file left behind is removed when possible, then the file is
        replayed line by line. It never writes to the log. */
    static method Load(disk: Disk, ceiling: u64, lockRemovable: bool)
      returns (r: Result<ExecutionJournal, JournalError>)
      modifies disk
      ensures disk.log == old(disk.log) && disk.lockFile == (old(disk.lockFile) && !lockRemovable)
      ensures match r
              case Ok(journal) =>
                && fresh(journal) && journal.disk == disk && journal.ceiling == ceiling
                && !journal.writerLockAcquired
                && LoadIndex(disk.log, ceiling) == Result.Ok(journal.Index())
              case Err(e) => LoadIndex(disk.log, ceiling) == Result.Err(e)
    {
      if lockRemovable {
        disk.lockFile := false;
      }
      var log := disk.log;
      if Bytes(log) > MAX_EXECUTION_JOURNAL_BYTES {
        return Err(JournalTooLarge);
      }
      var mints: set<Pubkey>, capital: u64 := {}, 0;
      for i := 0 to |log|
        invariant disk.log == old(disk.log) && disk.lockFile == (old(disk.lockFile) && !lockRemovable)
        invariant Replay(log[..i]) == Result.Ok(JournalReplay.Index(mints, capital))
      {
        ghost var expected := ApplyLine(JournalReplay.Index(mints, capital), log[i]);
        ReplayLine(log, i);
        match log[i].content {
          case Blank =>
          case Unparsable =>
            assert expected == Result.Err(InvalidRecord);
            return Err(InvalidRecord);
          case Parsed(record) =>
            match record {
              case Reserved(version, mint, amountIn, capitalAtRisk, timestampMs, signature, blockhash) =>
                if version != EXECUTION_JOURNAL_VERSION || amountIn == 0 || capitalAtRisk == 0
                   || timestampMs == 0 || signature == "" || blockhash == ""
                {
                  assert expected == Result.Err(InvalidReservation);
                  return Err(InvalidReservation);
                }
                if mint.None? {
                  assert expected == Result.Err(InvalidMint);
                  return Err(InvalidMint);
                }
                if mint.value in mints {
                  assert expected == Result.Err(DuplicateReservation);
                  return Err(DuplicateReservation);
                }
                mints := mints + {mint.value};
                if capital + capitalAtRisk >= TWO_64 {
                  assert expected == Result.Err(CapitalArithmeticOverflow);
                  return Err(CapitalArithmeticOverflow);
                }
                capital := capital + capitalAtRisk;
              case Accepted(version, mint, bundleId, signature) =>
                if version != EXECUTION_JOURNAL_VERSION || mint.None? || bundleId == "" || signature == "" {
                  assert expected == Result.Err(InvalidAcceptance);
                  return Err(InvalidAcceptance);
                }
            }
        }
      }
      assert log[..|log|] == log;
      if capital > ceiling {
        return Err(PendingCapitalLimit);
      }
      var journal := new ExecutionJournal(disk, ceiling, mints, capital);
      r := Ok(journal);
    }

    method Append(line: Line, io: AppendIo) returns (ok: bool)
      modifies disk`log
      ensures disk.log == AppendEffect(old(disk.log), line, io)
      ensures ok <==> io == Durable
    {
      if io != NotWritten {
        disk.log := disk.log + [line];
      }
      ok := io == Durable;
    }

    /** The lock file is created once per process; an existing file refuses it. */
    method AcquireWriterLock(io: LockIo) returns (ok: bool)
      modifies this`writerLockAcquired, disk`lockFile
      ensures ok <==> old(writerLockAcquired) || (!old(disk.lockFile) && io == LockCreated)
      ensures writerLockAcquired <==> ok
      ensures disk.lockFile <==> old(disk.lockFile) || (!old(writerLockAcquired) && io != LockCreateFails)
    {
      if writerLockAcquired {
        return true;
      }
      if disk.lockFile || io == LockCreateFails {
        return false;
      }
      disk.lockFile := true;
      if io == LockSyncFails {
        return false;
      }
      writerLockAcquired := true;
      ok := true;
    }

    /** Writes the reservation before the index is touched. The index changes
        exactly when the call succeeds; the file may also gain the record on a
        reported failure. The call succeeds exactly when the mint is new, its four
        parts fit under the ceiling together with what is reserved, the lock is held
        or can be created, and the append is durable. */
    method Reserve(q: Request, lockIo: LockIo, io: AppendIo) returns (r: Result<(), JournalError>)
      modifies this`writerLockAcquired, this`reservedMints, this`reservedCapital, disk
      ensures var check := ReserveCheck(old(Index()), ceiling, q);
              var locked := old(writerLockAcquired) || (!old(disk.lockFile) && lockIo == LockCreated);
              && (r.Ok? <==> check.Ok? && locked && io == Durable)
              && disk.log == (if check.Ok? && locked
                              then AppendEffect(old(disk.log), ReservationLine(q, check.value), io)
                              else old(disk.log))
              && Index() == (if r.Ok? then AfterReserve(old(Index()), q) else old(Index()))
              && (check.Err? ==> r == Err(check.error))
              && (r == Err(LockUnavailable) <==> check.Ok? && !locked)
              && (r == Err(AppendFailed) <==> check.Ok? && locked && io != Durable)
              && writerLockAcquired == (old(writerLockAcquired) || (check.Ok? && locked))
              && disk.lockFile == (old(disk.lockFile)
                                   || (check.Ok? && !old(writerLockAcquired) && lockIo != LockCreateFails))
      ensures r.Ok?
              <==> && q.mint !in old(reservedMints)
                   && old(reservedCapital) + q.amountIn + q.tipLamports + q.feeLamports + q.rentLamports <= ceiling
                   && (old(writerLockAcquired) || (!old(disk.lockFile) && lockIo == LockCreated))
                   && io == Durable
    {
      ReserveChecksExactly(Index(), ceiling, q);
      if q.mint in reservedMints {
        return Err(DuplicateExecutionAttempt);
      }
      var capital := CapitalAtRisk(q);
      if capital.Err? {
        return Err(capital.error);
      }
      var nextTotal := CheckedU64(reservedCapital + capital.value);
      if nextTotal.None? {
        return Err(CapitalArithmeticOverflow);
      }
      if nextTotal.value > ceiling {
        return Err(PendingCapitalLimit);
      }
      var locked := AcquireWriterLock(lockIo);
      if !locked {
        return Err(LockUnavailable);
      }
      var written := Append(ReservationLine(q, capital.value), io);
      if !written {
        return Err(AppendFailed);
      }
      reservedMints := reservedMints + {q.mint};
      reservedCapital := nextTotal.value;
      r := Ok(());
    }

    method RecordAcceptance(mint: Pubkey, bundleId: string, signature: string, recordBytes: nat, io: AppendIo)
      returns (ok: bool)
      modifies disk`log
      ensures disk.log == AppendEffect(old(disk.log), AcceptanceLine(mint, bundleId, signature, recordBytes), io)
      ensures ok <==> io == Durable
    {
      ok := Append(AcceptanceLine(mint, bundleId, signature, recordBytes), io);
    }
  }

  /** Two executors started on one file. The first creates the lock file; the second
      holds the writer lock as well exactly when its load could remove that file. */
  method TwoWriters(disk: Disk, ceiling: u64, lockRemovable: bool)
    returns (first: ExecutionJournal, second: ExecutionJournal)
    requires LoadIndex(disk.log, ceiling).Ok? && !disk.lockFile
    modifies disk
    ensures first != second && first.disk == second.disk == disk && disk.log == old(disk.log)
    ensures first.writerLockAcquired
    ensures second.writerLockAcquired <==> lockRemovable
  {
    var loaded := ExecutionJournal.Load(disk, ceiling, lockRemovable);
    first := loaded.value;
    var _ := first.AcquireWriterLock(LockCreated);
    loaded := ExecutionJournal.Load(disk, ceiling, lockRemovable);
    second := loaded.value;
    var _ := second.AcquireWriterLock(LockCreated);
  }

  function AcceptanceLine(mint: Pubkey, bundleId: string, signature: string, recordBytes: nat): Line {
    Line(Parsed(Accepted(EXECUTION_JOURNAL_VERSION, Some(mint), bundleId, signature)), recordBytes)
  }
}
