/** The nested round robin over regions and their tip accounts, as a function of
    the two kinds of cursor, with its fairness over any number of calls. */
module TipRotation {
  import opened Primitives
  import opened Types

  datatype Region = Region(accounts: seq<Pubkey>, next: nat)

  datatype Rotation = Rotation(regions: seq<Region>, next: nat)

  predicate RegionWellFormed(r: Region) {
    if r.accounts == [] then r.next == 0 else r.next < |r.accounts|
  }

  predicate WellFormed(d: Rotation) {
    && (if d.regions == [] then d.next == 0 else d.next < |d.regions|)
    && forall i :: 0 <= i < |d.regions| ==> RegionWellFormed(d.regions[i])
  }

  /** All cursors at zero, as after connecting. */
  predicate Fresh(d: Rotation) {
    d.next == 0 && forall i :: 0 <= i < |d.regions| ==> d.regions[i].next == 0
  }

  /** The successor of an index on a ring of n. */
  function Following(i: nat, n: nat): nat {
    if i + 1 < n then i + 1 else 0
  }

  /** The index `offset` places after `start` on a ring of n. */
  function Around(start: nat, offset: nat, n: nat): int {
    if start + offset < n then start + offset else start + offset - n
  }

  lemma AroundIsModulo(start: nat, offset: nat, n: nat)
    requires start < n && offset < n
    ensures (start + offset) % n == Around(start, offset, n)
    ensures (start + 1) % n == Following(start, n)
  {
    SmallModulo(Around(start, offset, n), n, if start + offset < n then 0 else 1);
    SmallModulo(Following(start, n), n, if start + 1 < n then 0 else 1);
  }

  lemma SmallModulo(i: nat, n: nat, turns: nat)
    requires i < n && turns <= 1
    ensures (i + turns * n) % n == i
  {
    var x := i + turns * n;
    assert x == (x / n) * n + x % n;
    if x / n != turns {
      if x / n > turns { MulMono(turns + 1, x / n, n); } else { MulMono(x / n + 1, turns, n); }
    }
  }

  predicate Usable(d: Rotation, i: nat) {
    i < |d.regions| && d.regions[i].accounts != []
  }

  /** The first usable region at `offset` places or more after the cursor. */
  function Search(d: Rotation, offset: nat): (found: Option<nat>)
    requires WellFormed(d) && offset <= |d.regions|
    ensures found.Some? ==> Usable(d, found.value)
    decreases |d.regions| - offset
  {
    if offset == |d.regions| then None
    else
      var i := Around(d.next, offset, |d.regions|);
      if Usable(d, i) then Some(i) else Search(d, offset + 1)
  }

  datatype Pick = Pick(region: nat, account: nat)

  function Choose(d: Rotation): (pick: Option<Pick>)
    requires WellFormed(d)
    ensures pick.Some? ==> Usable(d, pick.value.region) && pick.value.account < |d.regions[pick.value.region].accounts|
  {
    var i := Search(d, 0);
    if i.None? then None else Some(Pick(i.value, d.regions[i.value].next))
  }

  function Advance(d: Rotation): Rotation
    requires WellFormed(d)
  {
    var pick := Choose(d);
    if pick.None? then d
    else
      var i := pick.value.region;
      var region := d.regions[i];
      Rotation(d.regions[i := region.(next := Following(region.next, |region.accounts|))], Following(i, |d.regions|))
  }

  /** What a search finds: nothing exactly when every remaining region is empty,
      otherwise a usable region with only empty ones before it. */
  lemma {:induction false} SearchMeaning(d: Rotation, offset: nat)
    requires WellFormed(d) && offset <= |d.regions|
    ensures match Search(d, offset)
            case None => forall o :: offset <= o < |d.regions| ==> !Usable(d, Around(d.next, o, |d.regions|))
            case Some(i) =>
              && Usable(d, i)
              && exists o :: && offset <= o < |d.regions| && i == Around(d.next, o, |d.regions|)
                             && forall p :: offset <= p < o ==> !Usable(d, Around(d.next, p, |d.regions|))
    decreases |d.regions| - offset
  {
    if offset < |d.regions| {
      var i := Around(d.next, offset, |d.regions|);
      if !Usable(d, i) {
        SearchMeaning(d, offset + 1);
      }
    }
  }

  /** In index order: the chosen region is the first usable one from the cursor on,
      or, when there is none, the first usable one from the start. */
  lemma ChoiceMeaning(d: Rotation)
    requires WellFormed(d)
    ensures match Choose(d)
            case None => forall i: nat :: !Usable(d, i)
            case Some(Pick(i, a)) =>
              && Usable(d, i) && a == d.regions[i].next
              && (forall j: nat :: d.next <= j < i ==> !Usable(d, j))
              && (i < d.next ==> forall j: nat :: (j < i || d.next <= j) ==> !Usable(d, j))
  {
    SearchMeaning(d, 0);
    var n := |d.regions|;
    match Search(d, 0)
    case None =>
      forall i: nat
        ensures !Usable(d, i)
      {
        if i < n { assert Around(d.next, if i >= d.next then i - d.next else i + n - d.next, n) == i; }
      }
    case Some(i) =>
      var o :| && 0 <= o < n && i == Around(d.next, o, n)
               && forall p :: 0 <= p < o ==> !Usable(d, Around(d.next, p, n));
      forall j: nat | d.next <= j < i || (i < d.next && (j < i || d.next <= j))
        ensures !Usable(d, j)
      {
        if j < n { assert Around(d.next, if j >= d.next then j - d.next else j + n - d.next, n) == j; }
      }
  }

  /** The same regions with the same accounts; only cursors may differ. */
  predicate SameAccounts(d: Rotation, e: Rotation) {
    |e.regions| == |d.regions| && forall i :: 0 <= i < |d.regions| ==> e.regions[i].accounts == d.regions[i].accounts
  }

  lemma AdvanceOk(d: Rotation)
    requires WellFormed(d)
    ensures WellFormed(Advance(d)) && SameAccounts(d, Advance(d))
  {
  }

  // ---- Runs ------------------------------------------------------------------------------

  /** The rotation after n calls. */
  function After(d: Rotation, n: nat): (r: Rotation)
    requires WellFormed(d)
    ensures WellFormed(r) && SameAccounts(d, r)
  {
    if n == 0 then d
    else
      AdvanceOk(After(d, n - 1));
      Advance(After(d, n - 1))
  }

  /** How many of the first n calls used region i, and how many used its account a. */
  function RegionUses(d: Rotation, n: nat, i: nat): nat
    requires WellFormed(d)
  {
    if n == 0 then 0
    else
      var pick := Choose(After(d, n - 1));
      RegionUses(d, n - 1, i) + if pick.Some? && pick.value.region == i then 1 else 0
  }

  function AccountUses(d: Rotation, n: nat, i: nat, a: nat): nat
    requires WellFormed(d)
  {
    if n == 0 then 0
    else
      AccountUses(d, n - 1, i, a) + if Choose(After(d, n - 1)) == Some(Pick(i, a)) then 1 else 0
  }

  /** Regions before the cursor have been used once more this round. */
  ghost predicate RegionLevel(d: Rotation, n: nat, level: nat)
    requires WellFormed(d)
  {
    forall i: nat :: Usable(d, i) ==> RegionUses(d, n, i) == level + if i < After(d, n).next then 1 else 0
  }

  /** Whether the n-th call closes a round: it wraps past the last usable region. */
  function NewLevel(before: Rotation, level: nat): nat
    requires WellFormed(before)
  {
    var pick := Choose(before);
    if pick.None? then level
    else
      var wrapped := pick.value.region < before.next;
      var last := pick.value.region + 1 == |before.regions|;
      if wrapped || last then level + 1 else level
  }

  /** One call, seen by one usable region. */
  lemma RegionStep(before: Rotation, i: nat, level: nat)
    requires WellFormed(before) && Usable(before, i)
    ensures var pick := Choose(before);
            && pick.Some?
            && level + (if i < before.next then 1 else 0) + (if pick.value.region == i then 1 else 0)
               == NewLevel(before, level) + if i < Advance(before).next then 1 else 0
  {
    ChoiceMeaning(before);
  }

  lemma RegionLevelStep(d: Rotation, n: nat, level: nat) returns (next: nat)
    requires WellFormed(d) && RegionLevel(d, n, level)
    ensures RegionLevel(d, n + 1, next)
  {
    next := NewLevel(After(d, n), level);
    forall i: nat | Usable(d, i)
      ensures RegionUses(d, n + 1, i) == NewLevel(After(d, n), level) + if i < After(d, n + 1).next then 1 else 0
    {
      RegionStep(After(d, n), i, level);
      assert RegionUses(d, n, i) == level + if i < After(d, n).next then 1 else 0;
    }
  }

  lemma RegionLevelAtStart(d: Rotation)
    requires WellFormed(d) && Fresh(d)
    ensures RegionLevel(d, 0, 0)
  {
  }

  lemma RegionLevels(d: Rotation, n: nat) returns (level: nat)
    requires WellFormed(d) && Fresh(d)
    ensures RegionLevel(d, n, level)
  {
    RegionLevelAtStart(d);
    level := 0;
    for k := 0 to n
      invariant RegionLevel(d, k, level)
    {
      level := RegionLevelStep(d, k, level);
    }
  }

  ghost predicate AccountLevel(d: Rotation, n: nat, i: nat, level: nat)
    requires WellFormed(d) && Usable(d, i)
  {
    forall a: nat :: a < |d.regions[i].accounts|
      ==> AccountUses(d, n, i, a) == level + if a < After(d, n).regions[i].next then 1 else 0
  }

  /** One call, seen by one account of a usable region. */
  lemma AccountStep(before: Rotation, i: nat, a: nat, level: nat)
    requires WellFormed(before) && Usable(before, i) && a < |before.regions[i].accounts|
    ensures level + (if a < before.regions[i].next then 1 else 0)
            + (if Choose(before) == Some(Pick(i, a)) then 1 else 0)
            == NewAccountLevel(before, i, level) + if a < Advance(before).regions[i].next then 1 else 0
  {
    ChoiceMeaning(before);
  }

  function NewAccountLevel(before: Rotation, i: nat, level: nat): nat
    requires WellFormed(before) && Usable(before, i)
  {
    var pick := Choose(before);
    if pick.Some? && pick.value.region == i && pick.value.account + 1 == |before.regions[i].accounts| then level + 1
    else level
  }

  lemma AccountLevelStep(d: Rotation, n: nat, i: nat, level: nat) returns (next: nat)
    requires WellFormed(d) && Usable(d, i) && AccountLevel(d, n, i, level)
    ensures AccountLevel(d, n + 1, i, next)
  {
    next := NewAccountLevel(After(d, n), i, level);
    forall a: nat {:trigger AccountUses(d, n + 1, i, a)} | a < |d.regions[i].accounts|
      ensures AccountUses(d, n + 1, i, a)
              == NewAccountLevel(After(d, n), i, level) + if a < After(d, n + 1).regions[i].next then 1 else 0
    {
      AccountStep(After(d, n), i, a, level);
      assert AccountUses(d, n, i, a) == level + if a < After(d, n).regions[i].next then 1 else 0;
    }
  }

  lemma AccountLevels(d: Rotation, n: nat, i: nat) returns (level: nat)
    requires WellFormed(d) && Fresh(d) && Usable(d, i)
    ensures AccountLevel(d, n, i, level)
  {
    level := 0;
    for k := 0 to n
      invariant AccountLevel(d, k, i, level)
    {
      level := AccountLevelStep(d, k, i, level);
    }
  }

  predicate AtMostOneApart(a: nat, b: nat) {
    a <= b + 1 && b <= a + 1
  }

  /** Over any number of calls from a fresh start: any two regions with tip accounts,
      and any two accounts of one region, are used equally often up to one. */
  lemma RoundRobinIsFair(d: Rotation, n: nat, i: nat, j: nat, a: nat, b: nat)
    requires WellFormed(d) && Fresh(d) && Usable(d, i) && Usable(d, j)
    requires a < |d.regions[i].accounts| && b < |d.regions[i].accounts|
    ensures AtMostOneApart(RegionUses(d, n, i), RegionUses(d, n, j))
    ensures AtMostOneApart(AccountUses(d, n, i, a), AccountUses(d, n, i, b))
  {
    var level := RegionLevels(d, n);
    var accountLevel := AccountLevels(d, n, i);
  }
}

/** The region clients, the dispatcher over them and the opportunity deduplicator. */
module DispatcherModule {
  import opened Primitives
  import opened Types
  import opened TipRotation

  class RegionClient {
    const tipAccounts: seq<Pubkey>
    var nextTipAccount: nat

    function View(): Region
      reads this
    {
      Region(tipAccounts, nextTipAccount)
    }

    constructor (tipAccounts: seq<Pubkey>)
      ensures View() == Region(tipAccounts, 0) && RegionWellFormed(View())
    {
      this.tipAccounts, nextTipAccount := tipAccounts, 0;
    }

    method TakeTipAccount() returns (account: Option<Pubkey>)
      requires RegionWellFormed(View())
      modifies this
      ensures RegionWellFormed(View())
      ensures account == if tipAccounts == [] then None else Some(tipAccounts[old(nextTipAccount)])
      ensures View() == if tipAccounts == [] then old(View())
                        else Region(tipAccounts, Following(old(nextTipAccount), |tipAccounts|))
    {
      if nextTipAccount >= |tipAccounts| {
        return None;
      }
      account := Some(tipAccounts[nextTipAccount]);
      AroundIsModulo(nextTipAccount, 0, |tipAccounts|);
      nextTipAccount := (nextTipAccount + 1) % |tipAccounts|;
    }
  }

  /** A key stays seen until a prune drops it for its age. */
  class OpportunityDeduplicator {
    const ttlSecs: nat
    var seen: set<OpportunityKey>

    constructor (ttlSecs: nat)
      ensures seen == {} && this.ttlSecs == ttlSecs
    {
      this.ttlSecs, seen := ttlSecs, {};
    }

    method TryAcquire(key: OpportunityKey) returns (acquired: bool)
      modifies this
      ensures acquired <==> key !in old(seen)
      ensures seen == old(seen) + {key}
    {
      if key in seen {
        assert seen == seen + {key};
        return false;
      }
      seen := seen + {key};
      acquired := true;
    }

    method Prune(nowSecs: nat)
      modifies this
      ensures forall key :: key in seen <==> key in old(seen) && key.epochSecs + ttlSecs >= nowSecs
    {
      var cutoff := SaturatingSub(nowSecs, ttlSecs);
      seen := set key | key in seen && key.epochSecs >= cutoff;
    }
  }

  datatype OpportunityKey = OpportunityKey(mint: Pubkey, wallet: Pubkey, epochSecs: nat)

  /** `rotation` is the state of the round robin as one value: the cursor here and
      those inside the region clients. */
  class BundleDispatcher {
    const regions: seq<RegionClient>
    var nextRegionForTip: nat
    ghost var rotation: Rotation

    ghost predicate Valid()
      reads this, regions
    {
      && WellFormed(rotation)
      && |rotation.regions| == |regions| && rotation.next == nextRegionForTip
      && (forall i :: 0 <= i < |regions| ==> rotation.regions[i] == regions[i].View())
      && forall i, j :: 0 <= i < j < |regions| ==> regions[i] != regions[j]
    }

    constructor (regions: seq<RegionClient>)
      requires forall i, j :: 0 <= i < j < |regions| ==> regions[i] != regions[j]
      requires forall i :: 0 <= i < |regions| ==> regions[i].nextTipAccount == 0
      ensures Valid() && Fresh(rotation) && this.regions == regions
    {
      this.regions, nextRegionForTip := regions, 0;
      rotation := Rotation(seq(|regions|, i requires 0 <= i < |regions| => Region(regions[i].tipAccounts, 0)), 0);
    }

    /** One turn of the nested round robin; None exactly when no region has an account. */
    method TakeTipAccount() returns (account: Option<Pubkey>)
      requires Valid()
      modifies this, regions
      ensures Valid() && rotation == Advance(old(rotation))
      ensures var pick := Choose(old(rotation));
              account == if pick.None? then None
                         else Some(regions[pick.value.region].tipAccounts[pick.value.account])
      ensures account.None? <==> forall i :: 0 <= i < |regions| ==> regions[i].tipAccounts == []
    {
      ghost var before := rotation;
      ChoiceMeaning(before);
      assert forall i: nat :: Usable(before, i) <==> i < |regions| && regions[i].tipAccounts != [];
      AdvanceOk(before);
      if regions == [] {
        return None;
      }
      var start := nextRegionForTip;
      for offset := 0 to |regions|
        invariant rotation == before && Valid()
        invariant Search(before, 0) == Search(before, offset)
      {
        AroundIsModulo(start, offset, |regions|);
        var idx := (start + offset) % |regions|;
        account := regions[idx].TakeTipAccount();
        if account.Some? {
          AroundIsModulo(idx, 0, |regions|);
          nextRegionForTip := (idx + 1) % |regions|;
          assert Choose(before) == Some(Pick(idx, before.regions[idx].next));
          rotation := Advance(before);
          return;
        }
      }
      account := None;
    }
  }
}
