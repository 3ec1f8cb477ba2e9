/** The timed duplicate-mint lock. The code keeps one table and prunes it on
    every attempt; `LockedSince` is a per-mint register with no table at all. */
module MintLock {
  import opened Primitives
  import opened Types

  const MINT_TTL_MS := 4 * 3600 * 1000

  type Table = map<Pubkey, nat>

  function Prune(table: Table, now: nat): Table {
    map mint | mint in table && SaturatingSub(now, table[mint]) < MINT_TTL_MS :: table[mint]
  }

  function TryLock(table: Table, mint: Pubkey, now: nat): (bool, Table) {
    var pruned := Prune(table, now);
    if mint in pruned then (false, pruned) else (true, pruned[mint := now])
  }

  function Unlock(table: Table, mint: Pubkey): Table {
    table - {mint}
  }

  datatype Event = TryLockMint(mint: Pubkey, now: nat) | UnlockMint(mint: Pubkey)

  function Run(history: seq<Event>): Table {
    if history == [] then map[]
    else
      var before := Run(history[..|history| - 1]);
      match history[|history| - 1]
      case TryLockMint(mint, now) => TryLock(before, mint, now).1
      case UnlockMint(mint) => Unlock(before, mint)
  }

  /** Whether the attempt at position i succeeded. */
  predicate Succeeds(history: seq<Event>, i: nat)
    requires i < |history| && history[i].TryLockMint?
  {
    TryLock(Run(history[..i]), history[i].mint, history[i].now).0
  }

  predicate Monotone(history: seq<Event>) {
    forall i, j :: 0 <= i <= j < |history| && history[i].TryLockMint? && history[j].TryLockMint?
                   ==> history[i].now <= history[j].now
  }

  /** When the mint was last locked and not unlocked since; a lock is replaced
      only by an attempt made a full window after it. */
  function LockedSince(history: seq<Event>, mint: Pubkey): Option<nat> {
    if history == [] then None
    else
      var before := LockedSince(history[..|history| - 1], mint);
      match history[|history| - 1]
      case TryLockMint(m, now) => if m == mint && IsFree(before, now) then Some(now) else before
      case UnlockMint(m) => if m == mint then None else before
  }

  predicate IsFree(since: Option<nat>, now: nat) {
    since.None? || now >= since.value + 14_400_000
  }

  /** The table agrees with the register, up to entries pruned because they expired by `last`. */
  ghost predicate Agrees(history: seq<Event>, last: nat) {
    forall mint :: match LockedSince(history, mint)
                   case None => mint !in Run(history)
                   case Some(t) => if mint in Run(history) then Run(history)[mint] == t
                                   else SaturatingSub(last, t) >= MINT_TTL_MS
  }

  lemma {:induction false} TableAgrees(history: seq<Event>, last: nat)
    requires Monotone(history)
    requires forall i :: 0 <= i < |history| && history[i].TryLockMint? ==> history[i].now <= last
    ensures Agrees(history, last)
  {
    if history != [] {
      var before := history[..|history| - 1];
      var event := history[|history| - 1];
      match event
      case TryLockMint(_, now) => TableAgrees(before, now);
      case UnlockMint(_) => TableAgrees(before, last);
    }
  }

  /** An attempt succeeds exactly when the register says the mint is free. */
  lemma LockIsExact(history: seq<Event>, mint: Pubkey, now: nat)
    requires Monotone(history + [TryLockMint(mint, now)])
    ensures TryLock(Run(history), mint, now).0 <==> IsFree(LockedSince(history, mint), now)
  {
    var h := history + [TryLockMint(mint, now)];
    forall i, j | 0 <= i <= j < |history| && history[i].TryLockMint? && history[j].TryLockMint?
      ensures history[i].now <= history[j].now
    {
      assert h[i] == history[i] && h[j] == history[j];
    }
    forall i | 0 <= i < |history| && history[i].TryLockMint?
      ensures history[i].now <= now
    {
      assert h[i] == history[i] && h[|history|] == TryLockMint(mint, now);
    }
    TableAgrees(history, now);
    assert match LockedSince(history, mint)
           case None => mint !in Run(history)
           case Some(t) => if mint in Run(history) then Run(history)[mint] == t
                           else SaturatingSub(now, t) >= MINT_TTL_MS;
  }

  lemma MonotonePrefix(history: seq<Event>, n: nat)
    requires Monotone(history) && n <= |history|
    ensures Monotone(history[..n])
  {
  }

  /** Success at position i, read through the register. */
  lemma SucceedsIsExact(history: seq<Event>, i: nat)
    requires Monotone(history) && i < |history| && history[i].TryLockMint?
    ensures Succeeds(history, i) <==> IsFree(LockedSince(history[..i], history[i].mint), history[i].now)
  {
    MonotonePrefix(history, i + 1);
    assert history[..i] + [history[i]] == history[..i + 1];
    LockIsExact(history[..i], history[i].mint, history[i].now);
  }

  /** After a success at i the register never goes back before that time, while
      the mint is not unlocked. */
  lemma {:induction false} RegisterHolds(history: seq<Event>, i: nat, j: nat)
    requires Monotone(history) && i < j <= |history| && history[i].TryLockMint? && Succeeds(history, i)
    requires forall k :: i < k < j ==> history[k] != UnlockMint(history[i].mint)
    ensures var since := LockedSince(history[..j], history[i].mint);
            since.Some? && since.value >= history[i].now
  {
    assert history[..j][..j - 1] == history[..j - 1];
    if j == i + 1 {
      SucceedsIsExact(history, i);
    } else {
      RegisterHolds(history, i, j - 1);
      if history[j - 1].TryLockMint? {
        assert history[i].now <= history[j - 1].now;
      }
    }
  }

  /** Two successful locks of one mint with no unlock between them are at least four hours apart. */
  lemma LockWindow(history: seq<Event>, i: nat, j: nat)
    requires Monotone(history) && i < j < |history|
    requires history[i].TryLockMint? && history[j].TryLockMint? && history[i].mint == history[j].mint
    requires Succeeds(history, i) && Succeeds(history, j)
    requires forall k :: i < k < j ==> history[k] != UnlockMint(history[i].mint)
    ensures history[j].now - history[i].now >= 14_400_000
  {
    RegisterHolds(history, i, j);
    SucceedsIsExact(history, j);
  }
}

/** The loss-streak circuit breaker. */
module CircuitBreaker {
  import opened Primitives

  const THRESHOLD := 3
  const COOLDOWN_MS := 30 * 60 * 1000

  datatype Breaker = Breaker(losses: nat, trippedAt: Option<nat>)

  /** One atomic query: whether trading is blocked, and the state afterwards. */
  function Query(b: Breaker, now: nat): (bool, Breaker) {
    if b.losses < THRESHOLD then (false, b.(trippedAt := None))
    else
      match b.trippedAt
      case None => (true, b.(trippedAt := Some(now)))
      case Some(t) =>
        if SaturatingSub(now, t) >= COOLDOWN_MS then (false, Breaker(0, None))
        else (true, b)
  }

  /** A final exit is booked by the sign of its PnL. The trip timestamp is not touched. */
  function Close(b: Breaker, pnlBps: int): Breaker {
    if pnlBps >= 0 then b.(losses := 0) else b.(losses := b.losses + 1)
  }

  datatype Event = Loss | Win | Ask(now: nat)

  function Step(b: Breaker, e: Event): Breaker {
    match e
    case Loss => Close(b, -1)
    case Win => Close(b, 0)
    case Ask(now) => Query(b, now).1
  }

  function Run(b: Breaker, history: seq<Event>): Breaker {
    if history == [] then b else Step(Run(b, history[..|history| - 1]), history[|history| - 1])
  }

  const NEW_BREAKER := Breaker(0, None)

  /** The event wipes the streak: a winning close or an expired cooldown. */
  predicate Wipes(history: seq<Event>, i: nat)
    requires i < |history|
  {
    || history[i].Win?
    || (history[i].Ask? && Run(NEW_BREAKER, history[..i]).losses >= THRESHOLD
        && !Query(Run(NEW_BREAKER, history[..i]), history[i].now).0)
  }

  function CountLosses(history: seq<Event>, from: nat): nat
    requires from <= |history|
  {
    if from == |history| then 0
    else CountLosses(history[..|history| - 1], from) + if history[|history| - 1].Loss? then 1 else 0
  }

  /** The streak counts the losing closes since the last win or expired cooldown. */
  lemma {:induction false} StreakMeaning(history: seq<Event>) returns (from: nat)
    ensures from <= |history|
    ensures from > 0 ==> Wipes(history, from - 1)
    ensures forall i :: from <= i < |history| ==> !Wipes(history, i)
    ensures Run(NEW_BREAKER, history).losses == CountLosses(history, from)
  {
    if history == [] {
      from := 0;
    } else {
      var n := |history| - 1;
      var before := history[..n];
      from := StreakMeaning(before);
      forall i | 0 <= i < n
        ensures Wipes(history, i) <==> Wipes(before, i)
      {
        assert before[..i] == history[..i];
      }
      if Wipes(history, n) {
        from := n + 1;
      }
    }
  }

  /** Trading is blocked only after three losing closes since the last win or expired cooldown. */
  lemma BlockedNeedsThreeLosses(history: seq<Event>, now: nat) returns (from: nat)
    requires Query(Run(NEW_BREAKER, history), now).0
    ensures from <= |history| && CountLosses(history, from) >= 3
    ensures forall i :: from <= i < |history| ==> !Wipes(history, i)
  {
    from := StreakMeaning(history);
  }

  predicate Tripped(b: Breaker, t: nat) {
    b.losses >= THRESHOLD && b.trippedAt == Some(t)
  }

  /** After a trip at t and until a win, every query inside the cooldown blocks. */
  lemma {:induction false} CooldownBlocks(b: Breaker, t: nat, history: seq<Event>, i: nat)
    requires Tripped(b, t) && i <= |history|
    requires forall k :: 0 <= k < i ==> !history[k].Win?
    requires forall k :: 0 <= k < i && history[k].Ask? ==> history[k].now < t + COOLDOWN_MS
    ensures Tripped(Run(b, history[..i]), t)
    ensures i < |history| && history[i].Ask?
            ==> (Query(Run(b, history[..i]), history[i].now).0 <==> history[i].now < t + 1_800_000)
  {
    if i > 0 {
      CooldownBlocks(b, t, history, i - 1);
      assert history[..i][..i - 1] == history[..i - 1];
    }
  }

  /** The first query at or after the end of the cooldown reopens trading with an empty streak. */
  lemma CooldownReopens(b: Breaker, t: nat, history: seq<Event>, i: nat)
    requires Tripped(b, t) && i < |history| && history[i].Ask? && history[i].now >= t + COOLDOWN_MS
    requires forall k :: 0 <= k < i ==> !history[k].Win?
    requires forall k :: 0 <= k < i && history[k].Ask? ==> history[k].now < t + COOLDOWN_MS
    ensures !Query(Run(b, history[..i]), history[i].now).0
    ensures Run(b, history[..i + 1]) == NEW_BREAKER
  {
    CooldownBlocks(b, t, history, i);
    assert history[..i + 1][..i] == history[..i];
  }

  lemma {:induction false} LossesOnly(b: Breaker, history: seq<Event>)
    requires forall k :: 0 <= k < |history| ==> history[k].Loss?
    ensures Run(b, history) == b.(losses := b.losses + |history|)
  {
    if history != [] {
      LossesOnly(b, history[..|history| - 1]);
    }
  }

  /** A win followed by a fresh streak with no query in between: the first query
      blocks exactly when the trip timestamp left from before the win is absent
      or still inside its own cooldown. An old timestamp lets trading through. */
  lemma StaleTripIsExact(b: Breaker, streak: seq<Event>, now: nat)
    requires |streak| >= 3 && forall k :: 0 <= k < |streak| ==> streak[k].Loss?
    ensures Query(Run(Step(b, Win), streak), now).0
            <==> b.trippedAt.None? || now < b.trippedAt.value + 1_800_000
  {
    LossesOnly(Step(b, Win), streak);
  }

  /** A query before the third loss clears the old timestamp, so the fresh streak blocks. */
  lemma QueryClearsStaleTrip(b: Breaker, early: seq<Event>, asked: nat, late: seq<Event>, now: nat)
    requires |early| < 3 && |early| + |late| >= 3
    requires forall k :: 0 <= k < |early| ==> early[k].Loss?
    requires forall k :: 0 <= k < |late| ==> late[k].Loss?
    ensures Query(Run(Step(Run(Step(b, Win), early), Ask(asked)), late), now).0
  {
    LossesOnly(Step(b, Win), early);
    LossesOnly(Step(Run(Step(b, Win), early), Ask(asked)), late);
  }
}

/** The capacity permits: three, each either free, held by a task (a signal in
    progress, a handoff or a watcher) or retained with a shadow position. */
module PermitPool {
  import opened Primitives
  import opened Types

  const MAX_CONCURRENT_POSITIONS: nat := 3
  const SHADOW_POSITION_TTL_MS := 4 * 60 * 60 * 1000

  type Permit = nat

  datatype Shadow = Shadow(openedAtMs: nat, permit: Permit)

  datatype Pool = Pool(available: nat, held: set<Permit>, shadow: map<Pubkey, Shadow>, next: Permit)

  const NEW_POOL := Pool(MAX_CONCURRENT_POSITIONS, {}, map[], 0)

  datatype Op =
    | Acquire
    | Drop(permit: Permit)
    | Retain(mint: Pubkey, openedAtMs: nat, permit: Permit)
    | Release(mint: Pubkey)
    | PruneExpired(nowMs: nat)

  function Expired(shadow: map<Pubkey, Shadow>, nowMs: nat): set<Pubkey> {
    set mint | mint in shadow && SaturatingSub(nowMs, shadow[mint].openedAtMs) >= SHADOW_POSITION_TTL_MS
  }

  function Step(p: Pool, op: Op): Pool {
    match op
    case Acquire =>
      if p.available == 0 then p
      else p.(available := p.available - 1, held := p.held + {p.next}, next := p.next + 1)
    case Drop(permit) => p.(available := p.available + 1, held := p.held - {permit})
    case Retain(mint, openedAtMs, permit) =>
      if mint in p.shadow then p.(available := p.available + 1, held := p.held - {permit})
      else p.(held := p.held - {permit}, shadow := p.shadow[mint := Shadow(openedAtMs, permit)])
    case Release(mint) =>
      if mint in p.shadow then p.(available := p.available + 1, shadow := p.shadow - {mint}) else p
    case PruneExpired(nowMs) =>
      var gone := Expired(p.shadow, nowMs);
      p.(available := p.available + |gone|, shadow := p.shadow - gone)
  }

  /** A task gives up or hands over only a permit it holds. */
  predicate Owned(p: Pool, op: Op) {
    match op
    case Drop(permit) => permit in p.held
    case Retain(_, _, permit) => permit in p.held
    case _ => true
  }

  /** No permit is in two places. */
  ghost predicate Separate(p: Pool) {
    && (forall q :: q in p.held ==> q < p.next)
    && (forall m :: m in p.shadow ==> p.shadow[m].permit < p.next && p.shadow[m].permit !in p.held)
    && (forall m, n :: m in p.shadow && n in p.shadow && m != n ==> p.shadow[m].permit != p.shadow[n].permit)
  }

  /** Every permit is in exactly one place and there are three of them. */
  ghost predicate Conserved(p: Pool) {
    && p.available + |p.held| + |p.shadow| == MAX_CONCURRENT_POSITIONS
    && Separate(p)
  }

  lemma RemoveKeysSize(m: map<Pubkey, Shadow>, gone: set<Pubkey>)
    requires gone <= m.Keys
    ensures |m - gone| + |gone| == |m|
  {
    assert (m - gone).Keys == m.Keys - gone;
    assert |m.Keys - gone| + |gone| == |m.Keys|;
    assert |m - gone| == |(m - gone).Keys|;
  }

  lemma KeptAreUnexpired(m: map<Pubkey, Shadow>, kept: map<Pubkey, Shadow>, nowMs: nat)
    requires kept == map k | k in m && SaturatingSub(nowMs, m[k].openedAtMs) < SHADOW_POSITION_TTL_MS :: m[k]
    ensures kept == m - Expired(m, nowMs) && |m| - |kept| == |Expired(m, nowMs)|
  {
    RemoveKeysSize(m, Expired(m, nowMs));
  }

  /** Keeping the unexpired positions is the pruning step. */
  lemma PruneByKeeping(p: Pool, kept: map<Pubkey, Shadow>, nowMs: nat)
    requires Conserved(p)
    requires kept == map k | k in p.shadow && SaturatingSub(nowMs, p.shadow[k].openedAtMs) < SHADOW_POSITION_TTL_MS
                       :: p.shadow[k]
    ensures |kept| <= |p.shadow|
    ensures p.(available := p.available + (|p.shadow| - |kept|), shadow := kept) == Step(p, PruneExpired(nowMs))
    ensures Conserved(Step(p, PruneExpired(nowMs)))
  {
    KeptAreUnexpired(p.shadow, kept, nowMs);
    PruneConserves(p, nowMs);
  }

  lemma AcquireConserves(p: Pool)
    requires Conserved(p)
    ensures Conserved(Step(p, Acquire))
  {
    assert p.next !in p.held;
    assert |p.held + {p.next}| == |p.held| + 1;
  }

  lemma DropConserves(p: Pool, permit: Permit)
    requires Conserved(p) && permit in p.held
    ensures Conserved(p.(available := p.available + 1, held := p.held - {permit}))
  {
    assert |p.held - {permit}| + 1 == |p.held|;
  }

  lemma RetainConserves(p: Pool, mint: Pubkey, shadow: Shadow)
    requires Conserved(p) && shadow.permit in p.held && mint !in p.shadow
    ensures Conserved(p.(held := p.held - {shadow.permit}, shadow := p.shadow[mint := shadow]))
  {
    assert |p.held - {shadow.permit}| + 1 == |p.held|;
    var after := p.shadow[mint := shadow];
    assert after.Keys == p.shadow.Keys + {mint};
    assert |after| == |after.Keys| == |p.shadow| + 1;
  }

  lemma RemoveConserves(p: Pool, gone: set<Pubkey>)
    requires Conserved(p) && gone <= p.shadow.Keys
    ensures Conserved(p.(available := p.available + |gone|, shadow := p.shadow - gone))
  {
    RemoveKeysSize(p.shadow, gone);
  }

  lemma ReleaseConserves(p: Pool, mint: Pubkey)
    requires Conserved(p)
    ensures Conserved(Step(p, Release(mint)))
  {
    if mint in p.shadow {
      RemoveConserves(p, {mint});
      assert |{mint}| == 1;
    }
  }

  lemma PruneConserves(p: Pool, nowMs: nat)
    requires Conserved(p)
    ensures Conserved(Step(p, PruneExpired(nowMs)))
  {
    RemoveConserves(p, Expired(p.shadow, nowMs));
  }

  lemma StepConserves(p: Pool, op: Op)
    requires Conserved(p) && Owned(p, op)
    ensures Conserved(Step(p, op))
  {
    match op
    case Acquire => AcquireConserves(p);
    case Drop(permit) => DropConserves(p, permit);
    case Retain(mint, openedAtMs, permit) =>
      if mint in p.shadow {
        DropConserves(p, permit);
      } else {
        RetainConserves(p, mint, Shadow(openedAtMs, permit));
      }
    case Release(mint) => ReleaseConserves(p, mint);
    case PruneExpired(nowMs) => PruneConserves(p, nowMs);
  }

  function Run(p: Pool, ops: seq<Op>): Pool {
    if ops == [] then p else Step(Run(p, ops[..|ops| - 1]), ops[|ops| - 1])
  }

  /** Conservation over every run in which tasks pass on only permits they hold. */
  lemma {:induction false} RunConserves(ops: seq<Op>)
    requires forall i :: 0 <= i < |ops| ==> Owned(Run(NEW_POOL, ops[..i]), ops[i])
    ensures Conserved(Run(NEW_POOL, ops))
  {
    if ops != [] {
      var n := |ops| - 1;
      forall i | 0 <= i < n
        ensures Owned(Run(NEW_POOL, ops[..n][..i]), ops[..n][i])
      {
        assert ops[..n][..i] == ops[..i];
      }
      RunConserves(ops[..n]);
      StepConserves(Run(NEW_POOL, ops[..n]), ops[n]);
    }
  }

  /** Pruning frees one permit for each expired shadow position, keeps the others
      as they were, and touches no permit a task holds. */
  lemma PruneFreesExactly(p: Pool, nowMs: nat)
    ensures var q := Step(p, PruneExpired(nowMs));
            && q.held == p.held
            && q.available - p.available == |p.shadow| - |q.shadow|
            && forall m :: m in p.shadow ==>
                 (m in q.shadow <==> nowMs < p.shadow[m].openedAtMs + 14_400_000)
                 && (m in q.shadow ==> q.shadow[m] == p.shadow[m])
  {
    RemoveKeysSize(p.shadow, Expired(p.shadow, nowMs));
  }
}

/** The shared state of the execution and exit tasks. */
module BotStateModule {
  import opened Primitives
  import opened Types
  import MintLock
  import CircuitBreaker
  import PermitPool

  class BotState {
    var tradedMints: map<Pubkey, nat>
    var consecutiveLosses: nat
    var trippedAt: Option<nat>
    var availablePermits: nat
    var shadowPositions: map<Pubkey, PermitPool.Shadow>
    var nextPermit: PermitPool.Permit
    ghost var heldPermits: set<PermitPool.Permit>

    ghost function Pool(): PermitPool.Pool
      reads this
    {
      PermitPool.Pool(availablePermits, heldPermits, shadowPositions, nextPermit)
    }

    function Breaker(): CircuitBreaker.Breaker
      reads this
    {
      CircuitBreaker.Breaker(consecutiveLosses, trippedAt)
    }

    ghost predicate Valid()
      reads this
    {
      PermitPool.Conserved(Pool())
    }

    constructor ()
      ensures Valid() && Pool() == PermitPool.NEW_POOL
      ensures Breaker() == CircuitBreaker.NEW_BREAKER && tradedMints == map[]
    {
      tradedMints := map[];
      consecutiveLosses, trippedAt := 0, None;
      availablePermits, shadowPositions, nextPermit := PermitPool.MAX_CONCURRENT_POSITIONS, map[], 0;
      heldPermits := {};
    }

    method TryLockMint(mint: Pubkey, now: nat) returns (locked: bool)
      modifies this`tradedMints
      ensures (locked, tradedMints) == MintLock.TryLock(old(tradedMints), mint, now)
    {
      tradedMints := map m | m in tradedMints && SaturatingSub(now, tradedMints[m]) < MintLock.MINT_TTL_MS
                       :: tradedMints[m];
      if mint in tradedMints {
        return false;
      }
      tradedMints := tradedMints[mint := now];
      locked := true;
    }

    method UnlockMint(mint: Pubkey)
      modifies this`tradedMints
      ensures tradedMints == MintLock.Unlock(old(tradedMints), mint)
    {
      tradedMints := tradedMints - {mint};
    }

    method TryAcquirePosition() returns (permit: Option<PermitPool.Permit>)
      requires Valid()
      modifies this`availablePermits, this`nextPermit, this`heldPermits
      ensures Valid() && Pool() == PermitPool.Step(old(Pool()), PermitPool.Acquire)
      ensures permit.None? <==> old(availablePermits) == 0
      ensures permit.Some? ==> permit.value !in old(heldPermits) && heldPermits == old(heldPermits) + {permit.value}
    {
      PermitPool.AcquireConserves(Pool());
      if availablePermits == 0 {
        return None;
      }
      permit := Some(nextPermit);
      availablePermits := availablePermits - 1;
      heldPermits := heldPermits + {nextPermit};
      nextPermit := nextPermit + 1;
      assert Pool() == PermitPool.Step(old(Pool()), PermitPool.Acquire);
    }

    /** The permit's holder ends: the slot is free again. */
    method DropPermit(permit: PermitPool.Permit)
      requires Valid() && permit in heldPermits
      modifies this`availablePermits, this`heldPermits
      ensures Valid() && Pool() == PermitPool.Step(old(Pool()), PermitPool.Drop(permit))
    {
      PermitPool.DropConserves(Pool(), permit);
      availablePermits := availablePermits + 1;
      heldPermits := heldPermits - {permit};
    }

    /** The subtraction cannot underflow; the count is the permits held and retained. */
    method OpenPositionCount() returns (count: nat)
      requires Valid()
      ensures count == |heldPermits| + |shadowPositions|
    {
      count := PermitPool.MAX_CONCURRENT_POSITIONS - availablePermits;
    }

    method RetainShadowPosition(mint: Pubkey, openedAtMs: nat, permit: PermitPool.Permit) returns (retained: bool)
      requires Valid() && permit in heldPermits
      modifies this`availablePermits, this`heldPermits, this`shadowPositions
      ensures Valid() && Pool() == PermitPool.Step(old(Pool()), PermitPool.Retain(mint, openedAtMs, permit))
      ensures retained <==> mint !in old(shadowPositions)
    {
      PermitPool.StepConserves(Pool(), PermitPool.Retain(mint, openedAtMs, permit));
      if mint in shadowPositions {
        DropPermit(permit);
        return false;
      }
      shadowPositions := shadowPositions[mint := PermitPool.Shadow(openedAtMs, permit)];
      heldPermits := heldPermits - {permit};
      retained := true;
    }

    method ReleaseShadowPosition(mint: Pubkey) returns (released: bool)
      requires Valid()
      modifies this`availablePermits, this`shadowPositions
      ensures Valid() && Pool() == PermitPool.Step(old(Pool()), PermitPool.Release(mint))
      ensures released <==> mint in old(shadowPositions)
    {
      PermitPool.ReleaseConserves(Pool(), mint);
      released := mint in shadowPositions;
      if released {
        shadowPositions := shadowPositions - {mint};
        availablePermits := availablePermits + 1;
      }
    }

    method PruneExpiredShadowPositions(nowMs: nat)
      requires Valid()
      modifies this`availablePermits, this`shadowPositions
      ensures Valid() && Pool() == PermitPool.Step(old(Pool()), PermitPool.PruneExpired(nowMs))
    {
      var kept := map m | m in shadowPositions
                          && SaturatingSub(nowMs, shadowPositions[m].openedAtMs) < PermitPool.SHADOW_POSITION_TTL_MS
                        :: shadowPositions[m];
      PermitPool.PruneByKeeping(Pool(), kept, nowMs);
      availablePermits := availablePermits + (|shadowPositions| - |kept|);
      shadowPositions := kept;
      assert Pool() == PermitPool.Step(old(Pool()), PermitPool.PruneExpired(nowMs));
    }

    method IsCircuitBreakerActive(now: nat) returns (active: bool)
      modifies this`consecutiveLosses, this`trippedAt
      ensures (active, Breaker()) == CircuitBreaker.Query(old(Breaker()), now)
    {
      if consecutiveLosses < CircuitBreaker.THRESHOLD {
        trippedAt := None;
        return false;
      }
      match trippedAt {
        case None =>
          trippedAt := Some(now);
          active := true;
        case Some(t) =>
          if SaturatingSub(now, t) >= CircuitBreaker.COOLDOWN_MS {
            consecutiveLosses := 0;
            trippedAt := None;
            active := false;
          } else {
            active := true;
          }
      }
    }

    /** Books a closed position by the sign of its PnL. */
    method BookClose(pnlBps: int)
      modifies this`consecutiveLosses
      ensures Breaker() == CircuitBreaker.Close(old(Breaker()), pnlBps)
    {
      if pnlBps >= 0 {
        consecutiveLosses := 0;
      } else {
        consecutiveLosses := consecutiveLosses + 1;
      }
    }
  }
}
