/** Properties of decoding as a whole: determinism, order and one-to-one
    correspondence with the swap instructions, separation of the vaults behind
    different events, indifference to the order of balance entries and to which
    vault is called base, and the reading of instructions this program builds. */
module DecoderInvariance {
  import opened Primitives
  import opened Types
  import opened SwapDecoder
  import RaydiumSwap

  // ---- Which instructions are swaps ---------------------------------------------------

  /** The reference names the key, in its own text or by a place in the account list. */
  predicate Names(keys: seq<KeyText>, reference: AccountRef, key: Pubkey) {
    || reference == Address(ValidKey(key))
    || (reference.AccountIndex? && reference.index < |keys| && keys[reference.index] == ValidKey(key))
  }

  /** The instruction calls the program: named by its text alone or by its place alone. */
  predicate Calls(keys: seq<KeyText>, ins: RawInstruction, program: Pubkey) {
    || (ins.programId == Some(ValidKey(program)) && ins.programIdIndex.None?)
    || (ins.programId.None? && ins.programIdIndex.Some? && Names(keys, AccountIndex(ins.programIdIndex.value), program))
  }

  predicate CallsRaydium(keys: seq<KeyText>, ins: RawInstruction) {
    Calls(keys, ins, RAYDIUM_V4_PROGRAM_ID)
  }

  /** Swap base in (9) or swap base out (11), in at most 64 bytes. */
  predicate HasSwapByte(data: DataText) {
    data.Data? && 0 < |data.bytes| <= 64 && (data.bytes[0] == 9 || data.bytes[0] == 11)
  }

  /** A Raydium swap of seventeen accounts, or of eighteen with the vaults one place on. */
  predicate ReadsAs(keys: seq<KeyText>, ins: RawInstruction, outer: nat, inner: Option<nat>, swap: SwapInstruction) {
    && CallsRaydium(keys, ins) && HasSwapByte(ins.data)
    && (|ins.accounts| == 17 || |ins.accounts| == 18)
    && Names(keys, ins.accounts[0], TOKEN_PROGRAM_ID)
    && Names(keys, ins.accounts[1], swap.poolId)
    && Names(keys, ins.accounts[if |ins.accounts| == 17 then 4 else 5], swap.baseVault)
    && Names(keys, ins.accounts[if |ins.accounts| == 17 then 5 else 6], swap.quoteVault)
    && swap.poolId != DEFAULT_PUBKEY && swap.baseVault != DEFAULT_PUBKEY && swap.quoteVault != DEFAULT_PUBKEY
    && swap.poolId != swap.baseVault && swap.poolId != swap.quoteVault && swap.baseVault != swap.quoteVault
    && outer < 256 && swap.outerIndex == outer && swap.innerIndex == inner
  }

  /** No program, another valid program, or Raydium with data that does not start as a swap. */
  ghost predicate IsNoSwap(keys: seq<KeyText>, ins: RawInstruction) {
    || (ins.programId.None? && ins.programIdIndex.None?)
    || (exists program :: program != RAYDIUM_V4_PROGRAM_ID && Calls(keys, ins, program))
    || (CallsRaydium(keys, ins) && ins.data.Data? && |ins.data.bytes| <= 64 && !HasSwapByte(ins.data))
  }

  lemma NamesIsResolved(keys: seq<KeyText>, reference: AccountRef, key: Pubkey)
    ensures ResolveKey(keys, reference) == Ok(key) <==> Names(keys, reference, key)
  {
  }

  lemma CallsIsResolved(keys: seq<KeyText>, ins: RawInstruction, program: Pubkey)
    ensures ResolveProgram(keys, ins) == Ok(Some(program)) <==> Calls(keys, ins, program)
    ensures ResolveProgram(keys, ins) == Ok(None) <==> ins.programId.None? && ins.programIdIndex.None?
  {
  }

  lemma AccountsReadExactly(keys: seq<KeyText>, accounts: seq<AccountRef>, base: nat, outer: nat, inner: Option<nat>,
                            swap: SwapInstruction)
    requires 2 <= base && base + 1 < |accounts|
    ensures DecodeSwapAccounts(keys, accounts, base, outer, inner) == Ok(Some(swap))
            <==> && Names(keys, accounts[0], TOKEN_PROGRAM_ID) && Names(keys, accounts[1], swap.poolId)
                 && Names(keys, accounts[base], swap.baseVault) && Names(keys, accounts[base + 1], swap.quoteVault)
                 && swap.poolId != DEFAULT_PUBKEY && swap.baseVault != DEFAULT_PUBKEY
                 && swap.quoteVault != DEFAULT_PUBKEY && swap.poolId != swap.baseVault
                 && swap.poolId != swap.quoteVault && swap.baseVault != swap.quoteVault
                 && outer < 256 && swap.outerIndex == outer && swap.innerIndex == inner
    ensures DecodeSwapAccounts(keys, accounts, base, outer, inner) != Ok(None)
  {
    NamesIsResolved(keys, accounts[0], TOKEN_PROGRAM_ID);
    NamesIsResolved(keys, accounts[1], swap.poolId);
    NamesIsResolved(keys, accounts[base], swap.baseVault);
    NamesIsResolved(keys, accounts[base + 1], swap.quoteVault);
  }

  /** An instruction is read as a given swap exactly when it is one, and as none of our
      concern exactly when it calls no program, another one, or Raydium for something
      else. Everything in between is an error. */
  lemma ReadsExactly(keys: seq<KeyText>, ins: RawInstruction, outer: nat, inner: Option<nat>, swap: SwapInstruction)
    ensures DecodeSwapInstruction(keys, ins, outer, inner) == Ok(Some(swap)) <==> ReadsAs(keys, ins, outer, inner, swap)
    ensures DecodeSwapInstruction(keys, ins, outer, inner) == Ok(None) <==> IsNoSwap(keys, ins)
  {
    CallsIsResolved(keys, ins, RAYDIUM_V4_PROGRAM_ID);
    var program := ResolveProgram(keys, ins);
    if program.Ok? && program.value.Some? {
      CallsIsResolved(keys, ins, program.value.value);
    }
    if |ins.accounts| == 17 {
      AccountsReadExactly(keys, ins.accounts, 4, outer, inner, swap);
    } else if |ins.accounts| == 18 {
      AccountsReadExactly(keys, ins.accounts, 5, outer, inner, swap);
    }
  }

  // ---- Determinism ------------------------------------------------------------------

  lemma EventIsUnique(n: Notification, swap: SwapInstruction, observedAt: u64, d: SwapEvent, e: SwapEvent)
    requires n.preBalances.Some? && n.postBalances.Some?
    requires EventFor(n, swap, observedAt, d) && EventFor(n, swap, observedAt, e)
    ensures d == e
  {
    var b1, q1 :| EventExplained(n, swap, b1, q1, observedAt, d);
    var b2, q2 :| EventExplained(n, swap, b2, q2, observedAt, e);
    VaultReadIsUnique(n, swap.baseVault, b1, b2);
    VaultReadIsUnique(n, swap.quoteVault, q1, q2);
  }

  lemma DecodingIsUnique(n: Notification, observedAt: u64, ds: seq<SwapEvent>, es: seq<SwapEvent>)
    requires DecodesTo(n, observedAt, ds) && DecodesTo(n, observedAt, es)
    ensures ds == es
  {
    var swaps := Swaps(n.accountKeys, Sites(n));
    forall i | 0 <= i < |swaps|
      ensures ds[i] == es[i]
    {
      EventIsUnique(n, swaps[i], observedAt, ds[i], es[i]);
    }
  }

  // ---- One event per swap instruction, in order ------------------------------------------

  /** `places` lists, in increasing order, the positions of all present items, whose values are `values`. */
  ghost predicate Selects<T>(items: seq<Option<T>>, values: seq<T>, places: seq<nat>) {
    && |places| == |values|
    && (forall k :: 0 <= k < |places| ==> places[k] < |items| && items[places[k]] == Some(values[k]))
    && (forall j, k :: 0 <= j < k < |places| ==> places[j] < places[k])
    && (forall p: nat :: p < |items| && items[p].Some? ==> p in places)
  }

  /** What each site holds: a swap or something else. */
  function Decoded(keys: seq<KeyText>, sites: seq<Site>): seq<Option<SwapInstruction>>
    requires AllDecode(keys, sites)
  {
    seq(|sites|, i requires 0 <= i < |sites| => DecodeSite(keys, sites[i]).value)
  }

  lemma SelectsSnoc<T>(items: seq<Option<T>>, values: seq<T>, places: seq<nat>, item: Option<T>)
    requires Selects(items, values, places)
    ensures Selects(items + [item], if item.Some? then values + [item.value] else values,
                    if item.Some? then places + [|items|] else places)
  {
    if item.Some? {
      var wider := places + [|items|];
      forall p: nat | p < |items + [item]| && (items + [item])[p].Some?
        ensures p in wider
      {
        if p < |items| {
          assert p in places;
        } else {
          assert wider[|places|] == p;
        }
      }
    }
  }

  lemma DecodedSnoc(keys: seq<KeyText>, sites: seq<Site>) returns (last: Option<SwapInstruction>)
    requires AllDecode(keys, sites) && sites != []
    ensures var n := |sites| - 1;
            && Decoded(keys, sites) == Decoded(keys, sites[..n]) + [last]
            && Swaps(keys, sites)
               == if last.Some? then Swaps(keys, sites[..n]) + [last.value] else Swaps(keys, sites[..n])
  {
    var n := |sites| - 1;
    assert DecodeSite(keys, sites[n]).Ok?;
    last := DecodeSite(keys, sites[n]).value;
  }

  lemma {:induction false} SwapsAreSelected(keys: seq<KeyText>, sites: seq<Site>) returns (places: seq<nat>)
    requires AllDecode(keys, sites)
    ensures Selects(Decoded(keys, sites), Swaps(keys, sites), places)
  {
    if sites == [] {
      places := [];
    } else {
      var n := |sites| - 1;
      var before := SwapsAreSelected(keys, sites[..n]);
      var last := DecodedSnoc(keys, sites);
      SelectsSnoc(Decoded(keys, sites[..n]), Swaps(keys, sites[..n]), before, last);
      places := if last.Some? then before + [n] else before;
    }
  }

  /** A decoded swap carries the position of its site. */
  lemma SwapStandsAtItsSite(keys: seq<KeyText>, s: Site, swap: SwapInstruction)
    requires DecodeSite(keys, s) == Ok(Some(swap))
    ensures s.Site? && s.outer == swap.outerIndex && s.inner == swap.innerIndex
  {
    assert DecodeSwapInstruction(keys, s.ins, s.outer, s.inner)
        == DecodeSwapAccounts(keys, s.ins.accounts, BaseVaultIndex(|s.ins.accounts|).value, s.outer, s.inner);
  }

  lemma EventNamesItsSwap(n: Notification, swap: SwapInstruction, observedAt: u64, e: SwapEvent)
    requires n.preBalances.Some? && n.postBalances.Some? && EventFor(n, swap, observedAt, e)
    ensures e.poolId == swap.poolId && e.outerIndex == swap.outerIndex && e.innerIndex == swap.innerIndex
  {
    var b, q :| EventExplained(n, swap, b, q, observedAt, e);
  }

  /** The instruction at place p of the notification is the given swap. */
  predicate SwapAt(n: Notification, p: nat, swap: SwapInstruction) {
    && p < |Sites(n)| && Sites(n)[p].Site?
    && ReadsAs(n.accountKeys, Sites(n)[p].ins, Sites(n)[p].outer, Sites(n)[p].inner, swap)
  }

  ghost predicate NoSwapAt(n: Notification, p: nat) {
    p < |Sites(n)| && Sites(n)[p].Site? && IsNoSwap(n.accountKeys, Sites(n)[p].ins)
  }

  lemma SiteReadsExactly(n: Notification, p: nat, swap: SwapInstruction)
    requires p < |Sites(n)|
    ensures DecodeSite(n.accountKeys, Sites(n)[p]) == Ok(Some(swap)) <==> SwapAt(n, p, swap)
    ensures DecodeSite(n.accountKeys, Sites(n)[p]) == Ok(None) <==> NoSwapAt(n, p)
  {
    var site := Sites(n)[p];
    if site.Site? {
      ReadsExactly(n.accountKeys, site.ins, site.outer, site.inner, swap);
    }
  }

  /** The events of a decoded notification stand one to one, in order, for the
      Raydium swaps among its instructions, outer ones before inner groups, and
      each is explained by its own swap and names its place; no swap is left out. */
  lemma EventsFollowInstructions(n: Notification, observedAt: u64, events: seq<SwapEvent>)
    returns (swaps: seq<SwapInstruction>, places: seq<nat>)
    requires DecodesTo(n, observedAt, events)
    ensures Selects(Decoded(n.accountKeys, Sites(n)), swaps, places) && |swaps| == |events|
    ensures forall k :: 0 <= k < |events| ==> SwapAt(n, places[k], swaps[k])
    ensures forall p: nat :: p < |Sites(n)| && p !in places ==> NoSwapAt(n, p)
    ensures forall k :: 0 <= k < |events| ==>
              && EventFor(n, swaps[k], observedAt, events[k])
              && Sites(n)[places[k]].Site?
              && Sites(n)[places[k]].outer == events[k].outerIndex
              && Sites(n)[places[k]].inner == events[k].innerIndex
  {
    places := SwapsAreSelected(n.accountKeys, Sites(n));
    swaps := Swaps(n.accountKeys, Sites(n));
    forall k | 0 <= k < |events|
      ensures EventFor(n, swaps[k], observedAt, events[k])
              && Sites(n)[places[k]].Site?
              && Sites(n)[places[k]].outer == events[k].outerIndex
              && Sites(n)[places[k]].inner == events[k].innerIndex
    {
      assert EventFor(n, swaps[k], observedAt, events[k]);
      EventNamesItsSwap(n, swaps[k], observedAt, events[k]);
      assert Decoded(n.accountKeys, Sites(n))[places[k]] == Some(swaps[k]);
      assert DecodeSite(n.accountKeys, Sites(n)[places[k]]).Ok?;
      SwapStandsAtItsSite(n.accountKeys, Sites(n)[places[k]], swaps[k]);
    }
    SelectedAreSwaps(n, swaps, places);
  }

  lemma SelectedAreSwaps(n: Notification, swaps: seq<SwapInstruction>, places: seq<nat>)
    requires AllDecode(n.accountKeys, Sites(n)) && Selects(Decoded(n.accountKeys, Sites(n)), swaps, places)
    ensures forall k :: 0 <= k < |places| ==> SwapAt(n, places[k], swaps[k])
    ensures forall p: nat :: p < |Sites(n)| && p !in places ==> NoSwapAt(n, p)
  {
    var keys, sites := n.accountKeys, Sites(n);
    forall k | 0 <= k < |places|
      ensures SwapAt(n, places[k], swaps[k])
    {
      assert Decoded(keys, sites)[places[k]] == Some(swaps[k]) && DecodeSite(keys, sites[places[k]]).Ok?;
      SiteReadsExactly(n, places[k], swaps[k]);
    }
    forall p: nat | p < |sites| && p !in places
      ensures NoSwapAt(n, p)
    {
      assert DecodeSite(keys, sites[p]).Ok? && Decoded(keys, sites)[p].None?;
      SiteReadsExactly(n, p, SwapInstruction(DEFAULT_PUBKEY, DEFAULT_PUBKEY, DEFAULT_PUBKEY, 0, None));
    }
  }

  /** Every swap among the instructions is one of those selected. */
  lemma SwapIsSelected(n: Notification, swaps: seq<SwapInstruction>, places: seq<nat>, p: nat, swap: SwapInstruction)
    returns (k: nat)
    requires AllDecode(n.accountKeys, Sites(n)) && Selects(Decoded(n.accountKeys, Sites(n)), swaps, places)
    requires SwapAt(n, p, swap)
    ensures k < |places| == |swaps| && places[k] == p && swaps[k] == swap
  {
    SiteReadsExactly(n, p, swap);
    assert Decoded(n.accountKeys, Sites(n))[p] == Some(swap);
    k :| 0 <= k < |places| && places[k] == p;
    assert Decoded(n.accountKeys, Sites(n))[places[k]] == Some(swaps[k]);
  }

  lemma OrderOfPlaces(places: seq<nat>, i: nat, j: nat)
    requires forall a, b :: 0 <= a < b < |places| ==> places[a] < places[b]
    requires i < |places| && j < |places| && places[i] < places[j]
    ensures i < j
  {
  }

  /** Where an instruction stands: at its own index among the outer ones, or at its index in
      an inner group of an outer instruction that exists. */
  ghost predicate StandsIn(n: Notification, s: Site) {
    match s
    case Site(ins, outer, inner) =>
      && outer < |n.instructions|
      && (inner.None? ==> ins == n.instructions[outer])
      && (inner.Some? ==> exists g :: 0 <= g < |n.innerGroups| && InGroup(n.innerGroups[g], outer, inner.value, ins))
    case AbsentOuter => exists g :: 0 <= g < |n.innerGroups| && n.innerGroups[g].outerIndex >= |n.instructions|
  }

  predicate InGroup(group: InnerGroup, outer: nat, i: nat, ins: RawInstruction) {
    group.outerIndex == outer && i < |group.instructions| && group.instructions[i] == ins
  }

  ghost predicate GroupHolds(group: InnerGroup, outerCount: nat, s: Site) {
    match s
    case Site(ins, outer, inner) => inner.Some? && outer < outerCount && InGroup(group, outer, inner.value, ins)
    case AbsentOuter => group.outerIndex >= outerCount
  }

  lemma GroupSitesExactly(group: InnerGroup, outerCount: nat, s: Site)
    ensures s in GroupSites(group, outerCount) <==> GroupHolds(group, outerCount, s)
  {
    var sites := GroupSites(group, outerCount);
    if GroupHolds(group, outerCount, s) {
      if s.Site? {
        assert sites[s.inner.value] == s;
      } else {
        assert sites[0] == s;
      }
    }
  }

  lemma {:induction false} GroupsSitesExactly(groups: seq<InnerGroup>, outerCount: nat, s: Site)
    ensures s in GroupsSites(groups, outerCount)
            <==> exists g :: 0 <= g < |groups| && GroupHolds(groups[g], outerCount, s)
  {
    if groups != [] {
      var n := |groups| - 1;
      GroupsSitesExactly(groups[..n], outerCount, s);
      GroupSitesExactly(groups[n], outerCount, s);
      if g :| 0 <= g < n && GroupHolds(groups[..n][g], outerCount, s) {
        assert GroupHolds(groups[g], outerCount, s);
      }
      if g :| 0 <= g < |groups| && GroupHolds(groups[g], outerCount, s) {
        assert g < n ==> GroupHolds(groups[..n][g], outerCount, s);
      }
    }
  }

  /** The places of a notification are exactly its instructions, the outer ones first, each
      at its own index, and an error for every group of an absent outer instruction. */
  lemma SitesExactly(n: Notification, s: Site)
    ensures s in Sites(n) <==> StandsIn(n, s)
    ensures forall i :: 0 <= i < |n.instructions| ==>
              i < |Sites(n)| && Sites(n)[i] == Site(n.instructions[i], i, None)
  {
    GroupsSitesExactly(n.innerGroups, |n.instructions|, s);
    var outer := OuterSites(n.instructions);
    if s.Site? && s.inner.None? && s.outer < |n.instructions| && s.ins == n.instructions[s.outer] {
      assert outer[s.outer] == s;
    }
  }

  // ---- When a notification decodes -----------------------------------------------------------

  /** Two swaps share neither pool nor vault. */
  predicate Apart(a: SwapInstruction, b: SwapInstruction) {
    && a.poolId != b.poolId
    && a.baseVault != b.baseVault && a.baseVault != b.quoteVault
    && a.quoteVault != b.baseVault && a.quoteVault != b.quoteVault
  }

  /** The transaction succeeded, its first listed signature is valid and is the named
      one if one is named, and both balance lists are there. */
  predicate IsSigned(n: Notification) {
    && !n.failed
    && n.signatures != [] && n.signatures[0].ValidSignature?
    && (n.signature == None || n.signature == Some(n.signatures[0]))
    && n.preBalances.Some? && n.postBalances.Some?
  }

  ghost predicate AllReadable(n: Notification) {
    forall p: nat :: p < |Sites(n)| ==> NoSwapAt(n, p) || exists swap :: SwapAt(n, p, swap)
  }

  ghost predicate AllApart(n: Notification) {
    forall p: nat, q: nat, a, b :: p < q && SwapAt(n, p, a) && SwapAt(n, q, b) ==> Apart(a, b)
  }

  ghost predicate HasEvent(n: Notification, swap: SwapInstruction, observedAt: u64)
    requires n.preBalances.Some? && n.postBalances.Some?
  {
    exists e :: EventFor(n, swap, observedAt, e)
  }

  ghost predicate AllExplained(n: Notification, observedAt: u64)
    requires n.preBalances.Some? && n.postBalances.Some?
  {
    forall p: nat, swap :: SwapAt(n, p, swap) ==> HasEvent(n, swap, observedAt)
  }

  lemma AllReadableExactly(n: Notification)
    ensures AllDecode(n.accountKeys, Sites(n)) <==> AllReadable(n)
  {
    forall p: nat | p < |Sites(n)|
      ensures DecodeSite(n.accountKeys, Sites(n)[p]).Ok? <==> NoSwapAt(n, p) || exists swap :: SwapAt(n, p, swap)
    {
      forall swap
        ensures DecodeSite(n.accountKeys, Sites(n)[p]) == Ok(Some(swap)) <==> SwapAt(n, p, swap)
        ensures DecodeSite(n.accountKeys, Sites(n)[p]) == Ok(None) <==> NoSwapAt(n, p)
      {
        SiteReadsExactly(n, p, swap);
      }
      var decoded := DecodeSite(n.accountKeys, Sites(n)[p]);
      if decoded.Ok? && decoded.value.Some? {
        assert SwapAt(n, p, decoded.value.value);
      } else if decoded.Ok? {
        assert decoded == Ok(None);
        SiteReadsExactly(n, p, SwapInstruction(DEFAULT_PUBKEY, DEFAULT_PUBKEY, DEFAULT_PUBKEY, 0, None));
      }
    }
  }

  lemma UnambiguousAreApart(n: Notification, swaps: seq<SwapInstruction>, places: seq<nat>, p: nat, q: nat,
                            a: SwapInstruction, b: SwapInstruction)
    requires AllDecode(n.accountKeys, Sites(n)) && Selects(Decoded(n.accountKeys, Sites(n)), swaps, places)
    requires Unambiguous(swaps) && p < q && SwapAt(n, p, a) && SwapAt(n, q, b)
    ensures Apart(a, b)
  {
    var i := SwapIsSelected(n, swaps, places, p, a);
    var j := SwapIsSelected(n, swaps, places, q, b);
    OrderOfPlaces(places, i, j);
    assert !Conflict(swaps[i], swaps[j]);
  }

  lemma AllApartExactly(n: Notification)
    requires AllDecode(n.accountKeys, Sites(n))
    ensures Unambiguous(Swaps(n.accountKeys, Sites(n))) <==> AllApart(n)
  {
    var swaps := Swaps(n.accountKeys, Sites(n));
    var places := SwapsAreSelected(n.accountKeys, Sites(n));
    if Unambiguous(swaps) {
      forall p: nat, q: nat, a, b | p < q && SwapAt(n, p, a) && SwapAt(n, q, b)
        ensures Apart(a, b)
      {
        UnambiguousAreApart(n, swaps, places, p, q, a, b);
      }
    }
    if AllApart(n) {
      SelectedAreSwaps(n, swaps, places);
      forall i, j | 0 <= i < j < |swaps|
        ensures !Conflict(swaps[i], swaps[j])
      {
        assert SwapAt(n, places[i], swaps[i]) && SwapAt(n, places[j], swaps[j]);
        assert Apart(swaps[i], swaps[j]);
      }
    }
  }

  ghost predicate EachExplained(n: Notification, swaps: seq<SwapInstruction>, observedAt: u64)
    requires n.preBalances.Some? && n.postBalances.Some?
  {
    forall i :: 0 <= i < |swaps| ==> HasEvent(n, swaps[i], observedAt)
  }

  lemma AllExplainedExactly(n: Notification, observedAt: u64)
    requires n.preBalances.Some? && n.postBalances.Some? && AllDecode(n.accountKeys, Sites(n))
    ensures EachExplained(n, Swaps(n.accountKeys, Sites(n)), observedAt) <==> AllExplained(n, observedAt)
  {
    var swaps := Swaps(n.accountKeys, Sites(n));
    var places := SwapsAreSelected(n.accountKeys, Sites(n));
    SelectedAreSwaps(n, swaps, places);
    if AllExplained(n, observedAt) {
      forall i | 0 <= i < |swaps|
        ensures HasEvent(n, swaps[i], observedAt)
      {
        assert SwapAt(n, places[i], swaps[i]);
      }
    }
    if EachExplained(n, swaps, observedAt) {
      forall p: nat, swap | SwapAt(n, p, swap)
        ensures HasEvent(n, swap, observedAt)
      {
        var k := SwapIsSelected(n, swaps, places, p, swap);
        assert HasEvent(n, swaps[k], observedAt);
      }
    }
  }

  lemma ExplainedDecodes(n: Notification, observedAt: u64)
    requires Acceptable(n)
    ensures (exists events :: DecodesTo(n, observedAt, events))
            <==> EachExplained(n, Swaps(n.accountKeys, Sites(n)), observedAt)
  {
    var swaps := Swaps(n.accountKeys, Sites(n));
    if EachExplained(n, swaps, observedAt) {
      var events := seq(|swaps|, i requires 0 <= i < |swaps| =>
        assert HasEvent(n, swaps[i], observedAt); var e :| EventFor(n, swaps[i], observedAt, e); e);
      assert DecodesTo(n, observedAt, events);
    }
  }

  /** A notification decodes exactly when it is signed, every instruction is a readable
      swap or no swap, the swaps share no pool and no vault, and the balances explain an
      event for each. Otherwise the decoder returns an error. */
  lemma DecodesExactly(n: Notification, observedAt: u64)
    ensures (exists events :: DecodesTo(n, observedAt, events))
            <==> IsSigned(n) && AllReadable(n) && AllApart(n) && AllExplained(n, observedAt)
  {
    AllReadableExactly(n);
    if AllDecode(n.accountKeys, Sites(n)) && n.preBalances.Some? && n.postBalances.Some? {
      AllApartExactly(n);
      AllExplainedExactly(n, observedAt);
      if Acceptable(n) {
        ExplainedDecodes(n, observedAt);
      }
    }
  }

  // ---- No balance feeds two events ---------------------------------------------------------

  ghost predicate Uses(n: Notification, swap: SwapInstruction, index: nat) {
    IsOnlyIndex(n.accountKeys, swap.baseVault, index) || IsOnlyIndex(n.accountKeys, swap.quoteVault, index)
  }

  /** Different events come from different pools and read different account indices. */
  lemma NoBalanceFeedsTwoEvents(n: Notification, observedAt: u64, events: seq<SwapEvent>, i: nat, j: nat, index: nat)
    requires DecodesTo(n, observedAt, events) && i < j < |events|
    ensures events[i].poolId != events[j].poolId
    ensures var swaps := Swaps(n.accountKeys, Sites(n));
            !(Uses(n, swaps[i], index) && Uses(n, swaps[j], index))
  {
    var swaps := Swaps(n.accountKeys, Sites(n));
    assert EventFor(n, swaps[i], observedAt, events[i]) && EventFor(n, swaps[j], observedAt, events[j]);
    assert !Conflict(swaps[i], swaps[j]);
  }

  /** What an event says: the amounts are the absolute changes of its two vaults,
      both non-zero, in opposite directions, one of WSOL and the other of the target;
      it carries the first listed signature, the slot and the time of observation. */
  lemma EventMeaning(n: Notification, swap: SwapInstruction, observedAt: u64, e: SwapEvent)
    returns (token: VaultChange, wsol: VaultChange)
    requires n.preBalances.Some? && n.postBalances.Some? && EventFor(n, swap, observedAt, e)
    ensures (VaultRead(n, swap.baseVault, token) && VaultRead(n, swap.quoteVault, wsol))
            || (VaultRead(n, swap.baseVault, wsol) && VaultRead(n, swap.quoteVault, token))
    ensures wsol.mint == WSOL_MINT != token.mint == e.targetMint
    ensures e.baseAmount == Moved(token) > 0 && e.quoteAmount == Moved(wsol) > 0
    ensures (token.post > token.pre) != (wsol.post > wsol.pre)
    ensures n.signatures != [] && n.signatures[0] == ValidSignature(e.signature)
    ensures e.slot == n.slot && e.timestampMs == observedAt
  {
    var b, q :| EventExplained(n, swap, b, q, observedAt, e);
    if b.mint == WSOL_MINT {
      token, wsol := q, b;
    } else {
      token, wsol := b, q;
    }
  }

  // ---- The order of balance entries --------------------------------------------------------

  predicate SameEntries(a: Option<seq<TokenBalance>>, b: Option<seq<TokenBalance>>) {
    (a.None? && b.None?) || (a.Some? && b.Some? && multiset(a.value) == multiset(b.value))
  }

  /** Permuting the balance lists changes neither success nor the events. */
  lemma BalanceOrderIsIrrelevant(n: Notification, pre: Option<seq<TokenBalance>>, post: Option<seq<TokenBalance>>,
                                 observedAt: u64, events: seq<SwapEvent>)
    requires SameEntries(n.preBalances, pre) && SameEntries(n.postBalances, post)
    ensures DecodesTo(n, observedAt, events)
            <==> DecodesTo(n.(preBalances := pre, postBalances := post), observedAt, events)
  {
    var m := n.(preBalances := pre, postBalances := post);
    if DecodesTo(n, observedAt, events) {
      BalanceOrderOneWay(n, m, observedAt, events);
    }
    if DecodesTo(m, observedAt, events) {
      BalanceOrderOneWay(m, n, observedAt, events);
    }
  }

  lemma BalanceOrderOneWay(n: Notification, m: Notification, observedAt: u64, events: seq<SwapEvent>)
    requires m == n.(preBalances := m.preBalances, postBalances := m.postBalances)
    requires SameEntries(n.preBalances, m.preBalances) && SameEntries(n.postBalances, m.postBalances)
    requires DecodesTo(n, observedAt, events)
    ensures DecodesTo(m, observedAt, events)
  {
    assert Sites(m) == Sites(n) && m.accountKeys == n.accountKeys;
    assert SourceSignature(m) == SourceSignature(n);
    var swaps := Swaps(n.accountKeys, Sites(n));
    forall i | 0 <= i < |swaps|
      ensures EventFor(m, swaps[i], observedAt, events[i])
    {
      assert EventFor(n, swaps[i], observedAt, events[i]);
      var b, q :| EventExplained(n, swaps[i], b, q, observedAt, events[i]);
      SameReading(n, m, swaps[i].baseVault, b);
      SameReading(n, m, swaps[i].quoteVault, q);
      assert EventExplained(m, swaps[i], b, q, observedAt, events[i]);
    }
  }

  lemma SameReading(n: Notification, m: Notification, vault: Pubkey, v: VaultChange)
    requires m == n.(preBalances := m.preBalances, postBalances := m.postBalances)
    requires SameEntries(n.preBalances, m.preBalances) && SameEntries(n.postBalances, m.postBalances)
    requires n.preBalances.Some? && n.postBalances.Some? && VaultRead(n, vault, v)
    ensures VaultRead(m, vault, v)
  {
    var i: nat :| IsOnlyIndex(n.accountKeys, vault, i) && VaultReadAt(n, i, v);
    assert VaultReadAt(m, i, v);
  }

  // ---- Which vault is called base -------------------------------------------------------------

  /** The instruction with its two vault accounts exchanged, when it has a vault layout. */
  function ExchangeVaults(ins: RawInstruction): RawInstruction {
    var base := BaseVaultIndex(|ins.accounts|);
    if base.None? then ins
    else
      var b := base.value;
      ins.(accounts := ins.accounts[b := ins.accounts[b + 1]][b + 1 := ins.accounts[b]])
  }

  function ExchangeSwap(s: SwapInstruction): SwapInstruction {
    s.(baseVault := s.quoteVault, quoteVault := s.baseVault)
  }

  lemma ExchangedInstruction(keys: seq<KeyText>, ins: RawInstruction, outer: nat, inner: Option<nat>)
    ensures var d, x := DecodeSwapInstruction(keys, ins, outer, inner),
                        DecodeSwapInstruction(keys, ExchangeVaults(ins), outer, inner);
            && (d.Ok? <==> x.Ok?)
            && (d.Ok? && d.value.None? ==> x.value.None?)
            && (d.Ok? && d.value.Some? ==> x.value == Some(ExchangeSwap(d.value.value)))
  {
  }

  /** Two instruction lists that differ only in exchanged vaults, anywhere. */
  ghost predicate Exchanged(a: seq<RawInstruction>, b: seq<RawInstruction>) {
    |a| == |b| && forall i :: 0 <= i < |a| ==> b[i] == a[i] || b[i] == ExchangeVaults(a[i])
  }

  ghost predicate ExchangedNotification(n: Notification, m: Notification) {
    && m == n.(instructions := m.instructions, innerGroups := m.innerGroups)
    && Exchanged(n.instructions, m.instructions)
    && |m.innerGroups| == |n.innerGroups|
    && forall g :: 0 <= g < |n.innerGroups| ==>
         m.innerGroups[g].outerIndex == n.innerGroups[g].outerIndex
         && Exchanged(n.innerGroups[g].instructions, m.innerGroups[g].instructions)
  }

  ghost predicate SiteExchanged(s: Site, t: Site) {
    s == t || (s.Site? && t == s.(ins := ExchangeVaults(s.ins)))
  }

  ghost predicate SitesExchanged(a: seq<Site>, b: seq<Site>) {
    |a| == |b| && forall i :: 0 <= i < |a| ==> SiteExchanged(a[i], b[i])
  }

  lemma {:induction false} GroupsExchanged(a: seq<InnerGroup>, b: seq<InnerGroup>, outerCount: nat)
    requires |a| == |b|
    requires forall g :: 0 <= g < |a| ==>
               a[g].outerIndex == b[g].outerIndex && Exchanged(a[g].instructions, b[g].instructions)
    ensures SitesExchanged(GroupsSites(a, outerCount), GroupsSites(b, outerCount))
  {
    if a != [] {
      var n := |a| - 1;
      GroupsExchanged(a[..n], b[..n], outerCount);
      assert SitesExchanged(GroupSites(a[n], outerCount), GroupSites(b[n], outerCount));
    }
  }

  /** The same swap, or the same swap with its vaults exchanged. */
  ghost predicate SwapsExchanged(a: seq<SwapInstruction>, b: seq<SwapInstruction>) {
    |a| == |b| && forall i :: 0 <= i < |a| ==> b[i] == a[i] || b[i] == ExchangeSwap(a[i])
  }

  lemma ExchangedSite(keys: seq<KeyText>, s: Site, t: Site)
    requires SiteExchanged(s, t)
    ensures DecodeSite(keys, s).Ok? <==> DecodeSite(keys, t).Ok?
    ensures DecodeSite(keys, s).Ok? ==>
              var x, y := DecodeSite(keys, s).value, DecodeSite(keys, t).value;
              y == x || (x.Some? && y == Some(ExchangeSwap(x.value)))
  {
    if s.Site? {
      ExchangedInstruction(keys, s.ins, s.outer, s.inner);
    }
  }

  lemma ExchangedDecode(keys: seq<KeyText>, a: seq<Site>, b: seq<Site>)
    requires SitesExchanged(a, b)
    ensures AllDecode(keys, a) <==> AllDecode(keys, b)
  {
    forall i | 0 <= i < |a|
      ensures DecodeSite(keys, a[i]).Ok? <==> DecodeSite(keys, b[i]).Ok?
    {
      ExchangedSite(keys, a[i], b[i]);
    }
  }

  lemma SwapsExchangedSnoc(a: seq<SwapInstruction>, b: seq<SwapInstruction>, x: SwapInstruction, y: SwapInstruction)
    requires SwapsExchanged(a, b) && (y == x || y == ExchangeSwap(x))
    ensures SwapsExchanged(a + [x], b + [y])
  {
  }

  lemma {:induction false} ExchangedSwaps(keys: seq<KeyText>, a: seq<Site>, b: seq<Site>)
    requires SitesExchanged(a, b) && AllDecode(keys, a)
    ensures SwapsExchanged(Swaps(keys, a), Swaps(keys, b))
  {
    if a != [] {
      var n := |a| - 1;
      ExchangedSwaps(keys, a[..n], b[..n]);
      ExchangedSite(keys, a[n], b[n]);
      assert DecodeSite(keys, a[n]).Ok?;
      var x, y := DecodeSite(keys, a[n]).value, DecodeSite(keys, b[n]).value;
      if x.Some? {
        SwapsExchangedSnoc(Swaps(keys, a[..n]), Swaps(keys, b[..n]), x.value, y.value);
      }
    }
  }

  lemma ExchangedSites(keys: seq<KeyText>, a: seq<Site>, b: seq<Site>)
    requires SitesExchanged(a, b)
    ensures AllDecode(keys, a) <==> AllDecode(keys, b)
    ensures AllDecode(keys, a) ==> SwapsExchanged(Swaps(keys, a), Swaps(keys, b))
  {
    ExchangedDecode(keys, a, b);
    if AllDecode(keys, a) {
      ExchangedSwaps(keys, a, b);
    }
  }

  lemma ExchangedAmbiguity(a: seq<SwapInstruction>, b: seq<SwapInstruction>)
    requires SwapsExchanged(a, b)
    ensures Unambiguous(a) <==> Unambiguous(b)
  {
    forall i, j | 0 <= i < j < |a|
      ensures Conflict(a[i], a[j]) <==> Conflict(b[i], b[j])
    {
    }
  }

  lemma ExchangedEvent(n: Notification, m: Notification, s: SwapInstruction, t: SwapInstruction, observedAt: u64,
                       e: SwapEvent)
    requires m == n.(instructions := m.instructions, innerGroups := m.innerGroups)
    requires n.preBalances.Some? && n.postBalances.Some? && EventFor(n, s, observedAt, e)
    requires t == s || t == ExchangeSwap(s)
    ensures EventFor(m, t, observedAt, e)
  {
    var b, q :| EventExplained(n, s, b, q, observedAt, e);
    assert VaultRead(m, s.baseVault, b) && VaultRead(m, s.quoteVault, q);
    if t == s {
      assert EventExplained(m, t, b, q, observedAt, e);
    } else {
      assert EventExplained(m, t, q, b, observedAt, e);
    }
  }

  lemma ExchangeOneWay(n: Notification, m: Notification, observedAt: u64, events: seq<SwapEvent>)
    requires m == n.(instructions := m.instructions, innerGroups := m.innerGroups)
    requires SitesExchanged(Sites(n), Sites(m)) && DecodesTo(n, observedAt, events)
    ensures DecodesTo(m, observedAt, events)
  {
    var keys := n.accountKeys;
    ExchangedSites(keys, Sites(n), Sites(m));
    var a, b := Swaps(keys, Sites(n)), Swaps(keys, Sites(m));
    ExchangedAmbiguity(a, b);
    forall i | 0 <= i < |b|
      ensures EventFor(m, b[i], observedAt, events[i])
    {
      ExchangedEvent(n, m, a[i], b[i], observedAt, events[i]);
    }
  }

  lemma SiteExchangedBack(s: Site, t: Site)
    requires SiteExchanged(s, t)
    ensures SiteExchanged(t, s)
  {
    if s.Site? {
      assert ExchangeVaults(ExchangeVaults(s.ins)).accounts == s.ins.accounts;
    }
  }

  /** Exchanging base and quote vault, in any of the swap instructions of a
      transaction, changes neither success nor the events. */
  lemma VaultOrderIsIrrelevant(n: Notification, m: Notification, observedAt: u64, events: seq<SwapEvent>)
    requires ExchangedNotification(n, m)
    ensures DecodesTo(n, observedAt, events) <==> DecodesTo(m, observedAt, events)
  {
    GroupsExchanged(n.innerGroups, m.innerGroups, |n.instructions|);
    assert SitesExchanged(OuterSites(n.instructions), OuterSites(m.instructions));
    assert SitesExchanged(Sites(n), Sites(m));
    forall i | 0 <= i < |Sites(m)|
      ensures SiteExchanged(Sites(m)[i], Sites(n)[i])
    {
      SiteExchangedBack(Sites(n)[i], Sites(m)[i]);
    }
    if DecodesTo(n, observedAt, events) {
      ExchangeOneWay(n, m, observedAt, events);
    }
    if DecodesTo(m, observedAt, events) {
      ExchangeOneWay(m, n, observedAt, events);
    }
  }

  // ---- Reading back what the program builds -------------------------------------------------------

  function ToRaw(ins: RaydiumSwap.Instruction): RawInstruction {
    RawInstruction(Some(ValidKey(ins.programId)), None,
                   seq(|ins.accounts|, i requires 0 <= i < |ins.accounts| => Address(ValidKey(ins.accounts[i].pubkey))),
                   Data(ins.data))
  }

  predicate HasRawKey(ins: RawInstruction, i: nat, key: Pubkey) {
    i < |ins.accounts| && ins.accounts[i] == Address(ValidKey(key))
  }

  /** A swap instruction with literal keys, read in the layout its account count selects. */
  lemma RawSwapDecodes(keys: seq<KeyText>, raw: RawInstruction, base: nat, p: Pubkey, b: Pubkey, q: Pubkey, outer: u8)
    requires raw.programId == Some(ValidKey(RAYDIUM_V4_PROGRAM_ID)) && raw.programIdIndex.None?
    requires IsSwapData(raw.data) && |raw.data.bytes| <= DATA_BUFFER_LEN
    requires BaseVaultIndex(|raw.accounts|) == Some(base)
    requires HasRawKey(raw, 0, TOKEN_PROGRAM_ID) && HasRawKey(raw, 1, p)
    requires HasRawKey(raw, base, b) && HasRawKey(raw, base + 1, q)
    ensures DecodeSwapInstruction(keys, raw, outer, None)
            == if PoolAccountsOk(p, b, q) then Ok(Some(SwapInstruction(p, b, q, outer, None)))
               else Err(AmbiguousPoolAccounts)
  {
  }

  lemma ValidKeysAreNotDefault(pool: RaydiumSwap.PoolKeys)
    requires pool.Valid()
    ensures DEFAULT_PUBKEY !in {pool.ammId, pool.baseVault, pool.quoteVault, pool.marketProgramId}
  {
    var all := pool.All();
    assert all[0] == pool.ammId && all[4] == pool.baseVault && all[5] == pool.quoteVault
           && all[8] == pool.marketProgramId;
  }

  lemma BuiltData(amountIn: u64, minimumOut: u64)
    ensures IsSwapData(Data(RaydiumSwap.SwapData(amountIn, minimumOut)))
    ensures |RaydiumSwap.SwapData(amountIn, minimumOut)| <= DATA_BUFFER_LEN
  {
  }

  /** Decoding a built swap gives back its pool and vaults exactly when the three
      are distinct; construction itself does not check that. */
  lemma BuiltSwapDecodes(keys: seq<KeyText>, pool: RaydiumSwap.PoolKeys, owner: Pubkey, source: Pubkey,
                         destination: Pubkey, amountIn: u64, minimumOut: u64, outer: u8)
    requires RaydiumSwap.ConstructSwap(pool, owner, source, destination, amountIn, minimumOut).Ok?
    ensures var ins := RaydiumSwap.ConstructSwap(pool, owner, source, destination, amountIn, minimumOut).value;
            DecodeSwapInstruction(keys, ToRaw(ins), outer, None)
            == if pool.ammId != pool.baseVault && pool.ammId != pool.quoteVault && pool.baseVault != pool.quoteVault
               then Ok(Some(SwapInstruction(pool.ammId, pool.baseVault, pool.quoteVault, outer, None)))
               else Err(AmbiguousPoolAccounts)
  {
    var ins := RaydiumSwap.ConstructSwap(pool, owner, source, destination, amountIn, minimumOut).value;
    ValidKeysAreNotDefault(pool);
    BuiltData(amountIn, minimumOut);
    RawSwapDecodes(keys, ToRaw(ins), 4, pool.ammId, pool.baseVault, pool.quoteVault, outer);
  }

  /** Once the sentinel is appended the instruction has 18 accounts and is read in
      the legacy layout, one place further on: the quote vault stands as base vault
      and the market program as quote vault. */
  lemma ShieldedSwapIsMisread(keys: seq<KeyText>, pool: RaydiumSwap.PoolKeys, owner: Pubkey, source: Pubkey,
                              destination: Pubkey, amountIn: u64, minimumOut: u64, sentinel: Pubkey, outer: u8)
    requires RaydiumSwap.ConstructSwap(pool, owner, source, destination, amountIn, minimumOut).Ok?
    requires !RaydiumSwap.HasKey(RaydiumSwap.SwapAccounts(pool, owner, source, destination), sentinel)
    ensures var ins := RaydiumSwap.ConstructSwap(pool, owner, source, destination, amountIn, minimumOut).value;
            var shielded := RaydiumSwap.Protect(ins, sentinel, true);
            && shielded.Ok?
            && DecodeSwapInstruction(keys, ToRaw(shielded.value), outer, None)
               == if pool.ammId != pool.quoteVault && pool.ammId != pool.marketProgramId
                     && pool.quoteVault != pool.marketProgramId
                  then Ok(Some(SwapInstruction(pool.ammId, pool.quoteVault, pool.marketProgramId, outer, None)))
                  else Err(AmbiguousPoolAccounts)
  {
    var ins := RaydiumSwap.ConstructSwap(pool, owner, source, destination, amountIn, minimumOut).value;
    ValidKeysAreNotDefault(pool);
    BuiltData(amountIn, minimumOut);
    RawSwapDecodes(keys, ToRaw(RaydiumSwap.Protect(ins, sentinel, true).value), 5,
                   pool.ammId, pool.quoteVault, pool.marketProgramId, outer);
  }

  /** No balance entry stands at the index of the key. */
  ghost predicate Unlisted(n: Notification, key: Pubkey)
    requires n.preBalances.Some?
  {
    forall i: nat, e :: IsOnlyIndex(n.accountKeys, key, i) && e in n.preBalances.value ==> e.accountIndex != i
  }

  lemma ReadVaultIsListed(n: Notification, swap: SwapInstruction, observedAt: u64, e: SwapEvent)
    requires n.preBalances.Some? && n.postBalances.Some? && EventFor(n, swap, observedAt, e)
    ensures !Unlisted(n, swap.quoteVault)
  {
    var b, q :| EventExplained(n, swap, b, q, observedAt, e);
    var i: nat :| IsOnlyIndex(n.accountKeys, swap.quoteVault, i) && VaultReadAt(n, i, q);
    assert TokenBalance(i, ValidKey(q.mint), Some(q.pre)) in multiset(n.preBalances.value);
  }

  /** A transaction with a swap whose quote vault has no balance entry is refused whole. */
  lemma UnlistedVaultIsNeverDecoded(n: Notification, k: nat, swap: SwapInstruction, observedAt: u64,
                                    events: seq<SwapEvent>)
    requires k < |Sites(n)| && DecodeSite(n.accountKeys, Sites(n)[k]) == Ok(Some(swap))
    requires n.preBalances.Some? ==> Unlisted(n, swap.quoteVault)
    ensures !DecodesTo(n, observedAt, events)
  {
    if DecodesTo(n, observedAt, events) {
      var swaps, places := EventsFollowInstructions(n, observedAt, events);
      assert Decoded(n.accountKeys, Sites(n))[k] == Some(swap);
      var j :| 0 <= j < |places| && places[j] == k;
      assert EventFor(n, swap, observedAt, events[j]);
      ReadVaultIsListed(n, swap, observedAt, events[j]);
    }
  }

  /** The reading of a swap does not depend on where it stands, except that a place
      beyond the index range is an error. */
  lemma ReadingAtAnyPlace(keys: seq<KeyText>, raw: RawInstruction, outer: nat, inner: Option<nat>)
    ensures var here := DecodeSwapInstruction(keys, raw, 0, None);
            var there := DecodeSwapInstruction(keys, raw, outer, inner);
            && (here.Err? ==> there.Err?)
            && (here.Ok? && here.value.Some? && there.Ok? ==>
                  there.value.Some? && there.value.value.quoteVault == here.value.value.quoteVault)
            && (here.Ok? && here.value.Some? ==> there.Err? || there.value.Some?)
  {
  }

  /** A transaction that carries the program's own shielded swap, anywhere among its
      instructions, is refused whole whenever the market program, not being a token
      account, has no balance entry; when the misread accounts coincide, always. */
  lemma ShieldedSwapIsNeverDecoded(n: Notification, k: nat, pool: RaydiumSwap.PoolKeys, owner: Pubkey, source: Pubkey,
                                   destination: Pubkey, amountIn: u64, minimumOut: u64, sentinel: Pubkey,
                                   observedAt: u64, events: seq<SwapEvent>)
    requires RaydiumSwap.ConstructSwap(pool, owner, source, destination, amountIn, minimumOut).Ok?
    requires !RaydiumSwap.HasKey(RaydiumSwap.SwapAccounts(pool, owner, source, destination), sentinel)
    requires k < |Sites(n)| && Sites(n)[k].Site?
    requires var ins := RaydiumSwap.ConstructSwap(pool, owner, source, destination, amountIn, minimumOut).value;
             Sites(n)[k].ins == ToRaw(RaydiumSwap.Protect(ins, sentinel, true).value)
    requires n.preBalances.Some? && !MisreadAmbiguous(pool) ==> Unlisted(n, pool.marketProgramId)
    ensures !DecodesTo(n, observedAt, events)
  {
    var site := Sites(n)[k];
    ShieldedSwapIsMisread(n.accountKeys, pool, owner, source, destination, amountIn, minimumOut, sentinel, 0);
    ReadingAtAnyPlace(n.accountKeys, site.ins, site.outer, site.inner);
    var reading := DecodeSite(n.accountKeys, site);
    if reading.Ok? && reading.value.Some? {
      UnlistedVaultIsNeverDecoded(n, k, reading.value.value, observedAt, events);
    }
  }

  /** The accounts a shielded swap is read as are not distinct. */
  predicate MisreadAmbiguous(pool: RaydiumSwap.PoolKeys) {
    pool.ammId == pool.quoteVault || pool.ammId == pool.marketProgramId || pool.quoteVault == pool.marketProgramId
  }
}
