/** Decoding a transaction notification into swap events: which instructions are
    swaps, which vault balances they moved, and when the whole notification is refused.

    The first part says declaratively what a notification decodes to; the methods
    at the end follow the loops of the decoder and are proved against it. */
module SwapDecoder {
  import opened Primitives
  import opened Types
  import RaydiumSwap

  const CURRENT_SWAP_ACCOUNT_COUNT := 17
  const LEGACY_SWAP_ACCOUNT_COUNT := 18
  const DATA_BUFFER_LEN := 64

  // ---- Parsed notifications ---------------------------------------------------------

  /** Text that should be a public key, already parsed. */
  datatype KeyText = ValidKey(key: Pubkey) | InvalidKey

  datatype SignatureText = ValidSignature(signature: Signature) | InvalidSignature(text: nat)

  datatype AccountRef = Address(text: KeyText) | AccountIndex(index: nat)

  datatype DataText = NoData | BadBase58 | Data(bytes: seq<u8>)

  datatype RawInstruction = RawInstruction(
    programId: Option<KeyText>, programIdIndex: Option<nat>, accounts: seq<AccountRef>, data: DataText)

  datatype InnerGroup = InnerGroup(outerIndex: nat, instructions: seq<RawInstruction>)

  datatype TokenBalance = TokenBalance(accountIndex: nat, mint: KeyText, amount: Option<u64>)

  datatype Notification = Notification(
    failed: bool,
    slot: u64,
    signature: Option<SignatureText>,
    signatures: seq<SignatureText>,
    accountKeys: seq<KeyText>,
    instructions: seq<RawInstruction>,
    innerGroups: seq<InnerGroup>,
    preBalances: Option<seq<TokenBalance>>,
    postBalances: Option<seq<TokenBalance>>)

  datatype SwapInstruction = SwapInstruction(
    poolId: Pubkey, baseVault: Pubkey, quoteVault: Pubkey, outerIndex: u8, innerIndex: Option<u8>)

  datatype DecodeError =
    | FailedTransaction
    | BadSignature
    | BadAccountKey
    | MissingAccountIndex
    | BothProgramIds
    | MissingData
    | InvalidData
    | UnsupportedLayout
    | WrongTokenProgram
    | AmbiguousPoolAccounts
    | IndexOutOfRange
    | AbsentOuterInstruction
    | AmbiguousSwaps
    | MissingBalances
    | DuplicateEntry
    | MissingEntry
    | InvalidEntry
    | VaultMintChanged
    | VaultUnchanged
    | SameDirection
    | NotOneWsol

  // ---- One instruction ----------------------------------------------------------------

  function ResolveKey(keys: seq<KeyText>, reference: AccountRef): Result<Pubkey, DecodeError> {
    match reference
    case Address(ValidKey(key)) => Ok(key)
    case Address(InvalidKey) => Err(BadAccountKey)
    case AccountIndex(i) =>
      if i >= |keys| then Err(MissingAccountIndex)
      else if keys[i].InvalidKey? then Err(BadAccountKey)
      else Ok(keys[i].key)
  }

  function ResolveProgram(keys: seq<KeyText>, ins: RawInstruction): Result<Option<Pubkey>, DecodeError> {
    match (ins.programId, ins.programIdIndex)
    case (Some(text), None) => if text.InvalidKey? then Err(BadAccountKey) else Ok(Some(text.key))
    case (None, Some(i)) =>
      var key := ResolveKey(keys, AccountIndex(i));
      if key.Err? then Err(key.error) else Ok(Some(key.value))
    case (None, None) => Ok(None)
    case (Some(_), Some(_)) => Err(BothProgramIds)
  }

  /** Where the base vault stands in a layout of `count` accounts; the quote vault is next to it. */
  function BaseVaultIndex(count: nat): Option<nat> {
    if count == CURRENT_SWAP_ACCOUNT_COUNT then Some(4)
    else if count == LEGACY_SWAP_ACCOUNT_COUNT then Some(5)
    else None
  }

  predicate IsSwapData(data: DataText) {
    data.Data? && data.bytes != [] && data.bytes[0] in {RaydiumSwap.SWAP_BASE_IN, RaydiumSwap.SWAP_BASE_OUT}
  }

  function NarrowIndex(i: Option<nat>): Result<Option<u8>, DecodeError> {
    if i.None? then Ok(None) else if i.value < 256 then Ok(Some(i.value)) else Err(IndexOutOfRange)
  }

  /** A Raydium swap, None for any other instruction, or an error. */
  function DecodeSwapInstruction(keys: seq<KeyText>, ins: RawInstruction, outer: nat, inner: Option<nat>)
    : Result<Option<SwapInstruction>, DecodeError>
  {
    var program := ResolveProgram(keys, ins);
    if program.Err? then Err(program.error)
    else if program.value != Some(RAYDIUM_V4_PROGRAM_ID) then Ok(None)
    else if ins.data.NoData? then Err(MissingData)
    else if ins.data.BadBase58? || |ins.data.bytes| > DATA_BUFFER_LEN then Err(InvalidData)
    else if !IsSwapData(ins.data) then Ok(None)
    else if BaseVaultIndex(|ins.accounts|).None? then Err(UnsupportedLayout)
    else DecodeSwapAccounts(keys, ins.accounts, BaseVaultIndex(|ins.accounts|).value, outer, inner)
  }

  function DecodeSwapAccounts(keys: seq<KeyText>, accounts: seq<AccountRef>, base: nat, outer: nat, inner: Option<nat>)
    : Result<Option<SwapInstruction>, DecodeError>
    requires 2 <= base && base + 1 < |accounts|
  {
    var token := ResolveKey(keys, accounts[0]);
    if token.Err? then Err(token.error)
    else if token.value != TOKEN_PROGRAM_ID then Err(WrongTokenProgram)
    else
      var pool := ResolveKey(keys, accounts[1]);
      var baseVault := ResolveKey(keys, accounts[base]);
      var quoteVault := ResolveKey(keys, accounts[base + 1]);
      if pool.Err? then Err(pool.error)
      else if baseVault.Err? then Err(baseVault.error)
      else if quoteVault.Err? then Err(quoteVault.error)
      else if !PoolAccountsOk(pool.value, baseVault.value, quoteVault.value) then Err(AmbiguousPoolAccounts)
      else if outer >= 256 then Err(IndexOutOfRange)
      else
        var narrow := NarrowIndex(inner);
        if narrow.Err? then Err(narrow.error)
        else Ok(Some(SwapInstruction(pool.value, baseVault.value, quoteVault.value, outer, narrow.value)))
  }

  predicate PoolAccountsOk(pool: Pubkey, base: Pubkey, quote: Pubkey) {
    DEFAULT_PUBKEY !in {pool, base, quote} && pool != base && pool != quote && base != quote
  }

  // ---- All instructions, in order --------------------------------------------------------

  /** A place where an instruction stands: outer ones first, then the inner groups in
      order. A group that names an absent outer instruction is an error by itself. */
  datatype Site = Site(ins: RawInstruction, outer: nat, inner: Option<nat>) | AbsentOuter

  function OuterSites(instructions: seq<RawInstruction>): seq<Site> {
    seq(|instructions|, i requires 0 <= i < |instructions| => Site(instructions[i], i, None))
  }

  function GroupSites(group: InnerGroup, outerCount: nat): seq<Site> {
    if group.outerIndex >= outerCount then [AbsentOuter]
    else seq(|group.instructions|, i requires 0 <= i < |group.instructions|
                                   => Site(group.instructions[i], group.outerIndex, Some(i)))
  }

  function GroupsSites(groups: seq<InnerGroup>, outerCount: nat): seq<Site> {
    if groups == [] then []
    else GroupsSites(groups[..|groups| - 1], outerCount) + GroupSites(groups[|groups| - 1], outerCount)
  }

  function Sites(n: Notification): seq<Site> {
    OuterSites(n.instructions) + GroupsSites(n.innerGroups, |n.instructions|)
  }

  function DecodeSite(keys: seq<KeyText>, s: Site): Result<Option<SwapInstruction>, DecodeError> {
    match s
    case Site(ins, outer, inner) => DecodeSwapInstruction(keys, ins, outer, inner)
    case AbsentOuter => Err(AbsentOuterInstruction)
  }

  predicate AllDecode(keys: seq<KeyText>, sites: seq<Site>) {
    forall i :: 0 <= i < |sites| ==> DecodeSite(keys, sites[i]).Ok?
  }

  /** The swaps among the sites, in order. */
  function Swaps(keys: seq<KeyText>, sites: seq<Site>): seq<SwapInstruction> {
    if sites == [] then []
    else WithSwap(Swaps(keys, sites[..|sites| - 1]), DecodeSite(keys, sites[|sites| - 1]))
  }

  function WithSwap(before: seq<SwapInstruction>, decoded: Result<Option<SwapInstruction>, DecodeError>)
    : seq<SwapInstruction>
  {
    if decoded.Ok? && decoded.value.Some? then before + [decoded.value.value] else before
  }

  predicate Conflict(a: SwapInstruction, b: SwapInstruction) {
    || a.poolId == b.poolId
    || a.baseVault == b.baseVault || a.baseVault == b.quoteVault
    || a.quoteVault == b.baseVault || a.quoteVault == b.quoteVault
  }

  predicate Unambiguous(swaps: seq<SwapInstruction>) {
    forall i, j :: 0 <= i < j < |swaps| ==> !Conflict(swaps[i], swaps[j])
  }

  // ---- Vault balances ------------------------------------------------------------------------

  /** The key stands at index i, nowhere else, and every account key is valid. */
  ghost predicate IsOnlyIndex(keys: seq<KeyText>, key: Pubkey, i: nat) {
    && i < |keys| && keys[i] == ValidKey(key)
    && (forall j :: 0 <= j < |keys| ==> keys[j].ValidKey?)
    && forall j :: 0 <= j < |keys| && keys[j] == ValidKey(key) ==> j == i
  }

  /** Exactly one entry for the account index, with a valid mint and amount. It is
      a statement about the multiset of entries, not their order. */
  ghost predicate HoldsBalance(entries: multiset<TokenBalance>, index: nat, mint: Pubkey, amount: u64) {
    var entry := TokenBalance(index, ValidKey(mint), Some(amount));
    && entries[entry] == 1
    && forall e :: e in entries && e.accountIndex == index ==> e == entry
  }

  datatype VaultChange = VaultChange(mint: Pubkey, pre: u64, post: u64)

  ghost predicate VaultReadAt(n: Notification, i: nat, v: VaultChange)
    requires n.preBalances.Some? && n.postBalances.Some?
  {
    && HoldsBalance(multiset(n.preBalances.value), i, v.mint, v.pre)
    && HoldsBalance(multiset(n.postBalances.value), i, v.mint, v.post)
  }

  ghost predicate VaultRead(n: Notification, vault: Pubkey, v: VaultChange)
    requires n.preBalances.Some? && n.postBalances.Some?
  {
    exists i: nat :: IsOnlyIndex(n.accountKeys, vault, i) && VaultReadAt(n, i, v)
  }

  function Moved(v: VaultChange): u64 {
    if v.post >= v.pre then v.post - v.pre else v.pre - v.post
  }

  predicate Opposite(a: VaultChange, b: VaultChange) {
    (a.pre < a.post && b.pre > b.post) || (a.pre > a.post && b.pre < b.post)
  }

  predicate OneIsWsol(a: VaultChange, b: VaultChange) {
    (a.mint == WSOL_MINT) != (b.mint == WSOL_MINT)
  }

  /** The event of a swap: the token side names the target, the WSOL side the quote. */
  function EventOf(swap: SwapInstruction, base: VaultChange, quote: VaultChange,
                   signature: Signature, slot: u64, observedAt: u64): SwapEvent
  {
    var token, wsol := if base.mint == WSOL_MINT then quote else base, if base.mint == WSOL_MINT then base else quote;
    SwapEvent(token.mint, swap.poolId, Moved(token), Moved(wsol), observedAt, signature, slot,
              swap.outerIndex, swap.innerIndex)
  }

  ghost predicate EventExplained(n: Notification, swap: SwapInstruction, base: VaultChange, quote: VaultChange,
                                 observedAt: u64, e: SwapEvent)
    requires n.preBalances.Some? && n.postBalances.Some?
  {
    && VaultRead(n, swap.baseVault, base) && VaultRead(n, swap.quoteVault, quote)
    && Opposite(base, quote) && OneIsWsol(base, quote)
    && SourceSignature(n).Some?
    && e == EventOf(swap, base, quote, SourceSignature(n).value, n.slot, observedAt)
  }

  ghost predicate EventFor(n: Notification, swap: SwapInstruction, observedAt: u64, e: SwapEvent)
    requires n.preBalances.Some? && n.postBalances.Some?
  {
    exists base, quote :: EventExplained(n, swap, base, quote, observedAt, e)
  }

  /** The first listed signature, when it is valid and the notification does not name another one. */
  function SourceSignature(n: Notification): Option<Signature> {
    if n.signatures == [] then None
    else if n.signature.Some? && n.signature.value != n.signatures[0] then None
    else if n.signatures[0].InvalidSignature? then None
    else Some(n.signatures[0].signature)
  }

  // ---- The whole notification ---------------------------------------------------------------

  predicate Acceptable(n: Notification) {
    && !n.failed
    && SourceSignature(n).Some?
    && AllDecode(n.accountKeys, Sites(n))
    && Unambiguous(Swaps(n.accountKeys, Sites(n)))
    && n.preBalances.Some? && n.postBalances.Some?
  }

  /** What a notification decodes to: one event per swap, in order, each explained
      by the balances of its own vaults; or nothing at all. */
  ghost predicate DecodesTo(n: Notification, observedAt: u64, events: seq<SwapEvent>) {
    && Acceptable(n)
    && var swaps := Swaps(n.accountKeys, Sites(n));
       && |events| == |swaps|
       && forall i :: 0 <= i < |swaps| ==> EventFor(n, swaps[i], observedAt, events[i])
  }

  // ---- The decoder's loops --------------------------------------------------------------------

  method AccountIndexForPubkey(keys: seq<KeyText>, expected: Pubkey) returns (r: Result<nat, DecodeError>)
    ensures r.Ok? ==> IsOnlyIndex(keys, expected, r.value)
    ensures r.Err? ==> forall i: nat :: !IsOnlyIndex(keys, expected, i)
  {
    var found: Option<nat> := None;
    for index := 0 to |keys|
      invariant forall j :: 0 <= j < index ==> keys[j].ValidKey?
      invariant found.Some? ==> found.value < index
      invariant forall j :: 0 <= j < index ==> (keys[j] == ValidKey(expected) <==> found == Some(j))
    {
      if keys[index].InvalidKey? {
        return Err(BadAccountKey);
      }
      if keys[index].key == expected {
        if found.Some? {
          return Err(DuplicateEntry);
        }
        found := Some(index);
      }
    }
    r := if found.Some? then Ok(found.value) else Err(MissingEntry);
  }

  lemma PrefixCounts(entries: seq<TokenBalance>, i: nat)
    requires i <= |entries|
    ensures multiset(entries[..i]) <= multiset(entries)
    ensures i < |entries| ==> multiset(entries[..i + 1]) == multiset(entries[..i]) + multiset{entries[i]}
  {
    assert entries == entries[..i] + entries[i..];
    if i < |entries| {
      assert entries[..i + 1] == entries[..i] + [entries[i]];
    }
  }

  /** A second entry for the index refutes every reading. */
  lemma SecondEntryRefutes(entries: seq<TokenBalance>, i: nat, index: nat, mint: Pubkey, amount: u64)
    requires i < |entries| && entries[i].accountIndex == index
    requires HoldsBalance(multiset(entries[..i]), index, mint, amount)
    ensures forall m, a :: !HoldsBalance(multiset(entries), index, m, a)
  {
    PrefixCounts(entries, i);
    PrefixCounts(entries, i + 1);
    var first := TokenBalance(index, ValidKey(mint), Some(amount));
    assert first in multiset(entries) && entries[i] in multiset(entries);
    assert multiset(entries[..i + 1])[first] <= multiset(entries)[first];
  }

  method UniqueTokenBalance(entries: seq<TokenBalance>, index: nat) returns (r: Result<(Pubkey, u64), DecodeError>)
    ensures r.Ok? ==> HoldsBalance(multiset(entries), index, r.value.0, r.value.1)
    ensures r.Err? ==> forall mint, amount :: !HoldsBalance(multiset(entries), index, mint, amount)
  {
    var found: Option<(Pubkey, u64)> := None;
    for i := 0 to |entries|
      invariant found.None? ==> forall e :: e in multiset(entries[..i]) ==> e.accountIndex != index
      invariant found.Some? ==> HoldsBalance(multiset(entries[..i]), index, found.value.0, found.value.1)
    {
      PrefixCounts(entries, i);
      var entry := entries[i];
      if entry.accountIndex == index {
        if found.Some? {
          SecondEntryRefutes(entries, i, index, found.value.0, found.value.1);
          return Err(DuplicateEntry);
        }
        assert entry in multiset(entries);
        if entry.mint.InvalidKey? || entry.amount.None? {
          return Err(InvalidEntry);
        }
        found := Some((entry.mint.key, entry.amount.value));
      }
    }
    assert entries[..|entries|] == entries;
    r := if found.Some? then Ok(found.value) else Err(MissingEntry);
  }

  datatype BalanceDirection = Increase | Decrease

  function BalanceDelta(pre: u64, post: u64): Result<(BalanceDirection, u64), DecodeError> {
    if post > pre then Ok((Increase, post - pre))
    else if post < pre then Ok((Decrease, pre - post))
    else Err(VaultUnchanged)
  }

  lemma OnlyIndexIsUnique(keys: seq<KeyText>, key: Pubkey, i: nat, j: nat)
    requires IsOnlyIndex(keys, key, i) && IsOnlyIndex(keys, key, j)
    ensures i == j
  {
  }

  lemma BalanceIsUnique(entries: multiset<TokenBalance>, index: nat, m1: Pubkey, a1: u64, m2: Pubkey, a2: u64)
    requires HoldsBalance(entries, index, m1, a1) && HoldsBalance(entries, index, m2, a2)
    ensures m1 == m2 && a1 == a2
  {
    assert TokenBalance(index, ValidKey(m1), Some(a1)) in entries;
  }

  /** A vault is read in one way only. */
  lemma VaultReadIsUnique(n: Notification, vault: Pubkey, v: VaultChange, w: VaultChange)
    requires n.preBalances.Some? && n.postBalances.Some? && VaultRead(n, vault, v) && VaultRead(n, vault, w)
    ensures v == w
  {
    var i: nat :| IsOnlyIndex(n.accountKeys, vault, i) && VaultReadAt(n, i, v);
    var j: nat :| IsOnlyIndex(n.accountKeys, vault, j) && VaultReadAt(n, j, w);
    OnlyIndexIsUnique(n.accountKeys, vault, i, j);
    BalanceIsUnique(multiset(n.preBalances.value), i, v.mint, v.pre, w.mint, w.pre);
    BalanceIsUnique(multiset(n.postBalances.value), i, v.mint, v.post, w.mint, w.post);
  }

  /** The change of one vault, or an error when it cannot be read. */
  method ReadVault(n: Notification, vault: Pubkey) returns (r: Result<VaultChange, DecodeError>)
    requires n.preBalances.Some? && n.postBalances.Some?
    ensures r.Ok? ==> VaultRead(n, vault, r.value)
    ensures r.Err? ==> forall v :: !VaultRead(n, vault, v)
  {
    var index := AccountIndexForPubkey(n.accountKeys, vault);
    if index.Err? {
      return Err(index.error);
    }
    forall i: nat, v | IsOnlyIndex(n.accountKeys, vault, i) && VaultReadAt(n, i, v)
      ensures VaultReadAt(n, index.value, v)
    {
      OnlyIndexIsUnique(n.accountKeys, vault, i, index.value);
    }
    var pre := UniqueTokenBalance(n.preBalances.value, index.value);
    if pre.Err? {
      return Err(pre.error);
    }
    var post := UniqueTokenBalance(n.postBalances.value, index.value);
    if post.Err? {
      return Err(post.error);
    }
    if pre.value.0 != post.value.0 {
      forall v
        ensures !VaultReadAt(n, index.value, v)
      {
        if VaultReadAt(n, index.value, v) {
          BalanceIsUnique(multiset(n.preBalances.value), index.value, v.mint, v.pre, pre.value.0, pre.value.1);
          BalanceIsUnique(multiset(n.postBalances.value), index.value, v.mint, v.post, post.value.0, post.value.1);
        }
      }
      return Err(VaultMintChanged);
    }
    var v := VaultChange(pre.value.0, pre.value.1, post.value.1);
    assert VaultReadAt(n, index.value, v);
    r := Ok(v);
  }

  method DecodeCandidate(n: Notification, swap: SwapInstruction, signature: Signature, observedAt: u64)
    returns (r: Result<SwapEvent, DecodeError>)
    requires n.preBalances.Some? && n.postBalances.Some? && SourceSignature(n) == Some(signature)
    ensures r.Ok? ==> EventFor(n, swap, observedAt, r.value)
    ensures r.Err? ==> forall e :: !EventFor(n, swap, observedAt, e)
  {
    var base := ReadVault(n, swap.baseVault);
    if base.Err? {
      return Err(base.error);
    }
    var quote := ReadVault(n, swap.quoteVault);
    if quote.Err? {
      return Err(quote.error);
    }
    forall b, q | VaultRead(n, swap.baseVault, b) && VaultRead(n, swap.quoteVault, q)
      ensures b == base.value && q == quote.value
    {
      VaultReadIsUnique(n, swap.baseVault, b, base.value);
      VaultReadIsUnique(n, swap.quoteVault, q, quote.value);
    }
    var baseDelta := BalanceDelta(base.value.pre, base.value.post);
    if baseDelta.Err? {
      return Err(baseDelta.error);
    }
    var quoteDelta := BalanceDelta(quote.value.pre, quote.value.post);
    if quoteDelta.Err? {
      return Err(quoteDelta.error);
    }
    if baseDelta.value.0 == quoteDelta.value.0 {
      return Err(SameDirection);
    }
    var e;
    if base.value.mint == WSOL_MINT && quote.value.mint != WSOL_MINT {
      e := SwapEvent(quote.value.mint, swap.poolId, quoteDelta.value.1, baseDelta.value.1, observedAt,
                     signature, n.slot, swap.outerIndex, swap.innerIndex);
    } else if quote.value.mint == WSOL_MINT && base.value.mint != WSOL_MINT {
      e := SwapEvent(base.value.mint, swap.poolId, baseDelta.value.1, quoteDelta.value.1, observedAt,
                     signature, n.slot, swap.outerIndex, swap.innerIndex);
    } else {
      return Err(NotOneWsol);
    }
    assert EventExplained(n, swap, base.value, quote.value, observedAt, e);
    r := Ok(e);
  }

  lemma SwapsSnoc(keys: seq<KeyText>, sites: seq<Site>, s: Site)
    ensures Swaps(keys, sites + [s]) == WithSwap(Swaps(keys, sites), DecodeSite(keys, s))
    ensures AllDecode(keys, sites + [s]) <==> AllDecode(keys, sites) && DecodeSite(keys, s).Ok?
  {
    assert (sites + [s])[..|sites|] == sites;
    if AllDecode(keys, sites + [s]) {
      assert DecodeSite(keys, (sites + [s])[|sites|]).Ok?;
      forall i | 0 <= i < |sites|
        ensures DecodeSite(keys, sites[i]).Ok?
      {
        assert (sites + [s])[i] == sites[i];
      }
    }
  }

  lemma AllDecodePrefix(keys: seq<KeyText>, sites: seq<Site>, rest: seq<Site>)
    requires AllDecode(keys, sites + rest)
    ensures AllDecode(keys, sites)
  {
    forall i | 0 <= i < |sites|
      ensures DecodeSite(keys, sites[i]).Ok?
    {
      assert (sites + rest)[i] == sites[i];
    }
  }

  lemma {:induction false} GroupsPrefix(groups: seq<InnerGroup>, outerCount: nat, g: nat) returns (rest: seq<Site>)
    requires g <= |groups|
    ensures GroupsSites(groups, outerCount) == GroupsSites(groups[..g], outerCount) + rest
  {
    if g == |groups| {
      rest := [];
      assert groups[..g] == groups;
    } else {
      rest := GroupsPrefix(groups[..|groups| - 1], outerCount, g);
      assert groups[..|groups| - 1][..g] == groups[..g];
      rest := rest + GroupSites(groups[|groups| - 1], outerCount);
    }
  }

  /** Appending site i to the sites up to i, after those in `before`. */
  lemma SiteStep(keys: seq<KeyText>, before: seq<Site>, sites: seq<Site>, i: nat)
    requires i < |sites| && AllDecode(keys, before + sites[..i])
    ensures Swaps(keys, before + sites[..i + 1])
            == WithSwap(Swaps(keys, before + sites[..i]), DecodeSite(keys, sites[i]))
    ensures AllDecode(keys, before + sites[..i + 1]) <==> DecodeSite(keys, sites[i]).Ok?
    ensures DecodeSite(keys, sites[i]).Err? ==> !AllDecode(keys, before + sites)
  {
    assert before + sites[..i + 1] == (before + sites[..i]) + [sites[i]];
    SwapsSnoc(keys, before + sites[..i], sites[i]);
    if AllDecode(keys, before + sites) {
      assert before + sites == (before + sites[..i + 1]) + sites[i + 1..];
      AllDecodePrefix(keys, before + sites[..i + 1], sites[i + 1..]);
    }
  }

  /** Appending group g to the groups up to g, after the outer sites. */
  lemma GroupStep(keys: seq<KeyText>, outer: seq<Site>, groups: seq<InnerGroup>, outerCount: nat, g: nat)
    requires g < |groups|
    ensures outer + GroupsSites(groups[..g + 1], outerCount)
            == (outer + GroupsSites(groups[..g], outerCount)) + GroupSites(groups[g], outerCount)
    ensures AllDecode(keys, outer + GroupsSites(groups, outerCount))
            ==> AllDecode(keys, outer + GroupsSites(groups[..g + 1], outerCount))
  {
    assert groups[..g + 1][..g] == groups[..g];
    var rest := GroupsPrefix(groups, outerCount, g + 1);
    assert outer + GroupsSites(groups, outerCount) == (outer + GroupsSites(groups[..g + 1], outerCount)) + rest;
    if AllDecode(keys, outer + GroupsSites(groups, outerCount)) {
      AllDecodePrefix(keys, outer + GroupsSites(groups[..g + 1], outerCount), rest);
    }
  }

  /** The first loop: the swaps among the outer instructions. */
  method CollectOuter(n: Notification) returns (r: Result<seq<SwapInstruction>, DecodeError>)
    ensures r.Ok? <==> AllDecode(n.accountKeys, OuterSites(n.instructions))
    ensures r.Ok? ==> r.value == Swaps(n.accountKeys, OuterSites(n.instructions))
  {
    var keys := n.accountKeys;
    ghost var sites := OuterSites(n.instructions);
    var candidates := [];
    for i := 0 to |n.instructions|
      invariant AllDecode(keys, sites[..i]) && candidates == Swaps(keys, sites[..i])
    {
      assert sites[..i + 1] == sites[..i] + [sites[i]];
      SwapsSnoc(keys, sites[..i], sites[i]);
      var candidate := DecodeSwapInstruction(keys, n.instructions[i], i, None);
      if candidate.Err? {
        return Err(candidate.error);
      }
      if candidate.value.Some? {
        candidates := candidates + [candidate.value.value];
      }
    }
    assert sites[..|n.instructions|] == sites;
    r := Ok(candidates);
  }

  /** One inner group: its swaps are added after those already collected at `before`. */
  method CollectGroup(keys: seq<KeyText>, group: InnerGroup, outerCount: nat, ghost before: seq<Site>,
                      collected: seq<SwapInstruction>)
    returns (r: Result<seq<SwapInstruction>, DecodeError>)
    requires AllDecode(keys, before) && collected == Swaps(keys, before)
    ensures r.Ok? <==> AllDecode(keys, before + GroupSites(group, outerCount))
    ensures r.Ok? ==> r.value == Swaps(keys, before + GroupSites(group, outerCount))
  {
    ghost var sites := GroupSites(group, outerCount);
    if group.outerIndex >= outerCount {
      SwapsSnoc(keys, before, AbsentOuter);
      return Err(AbsentOuterInstruction);
    }
    var candidates := collected;
    assert before + sites[..0] == before;
    for i := 0 to |group.instructions|
      invariant AllDecode(keys, before + sites[..i]) && candidates == Swaps(keys, before + sites[..i])
    {
      SiteStep(keys, before, sites, i);
      var candidate := DecodeSwapInstruction(keys, group.instructions[i], group.outerIndex, Some(i));
      if candidate.Err? {
        return Err(candidate.error);
      }
      if candidate.value.Some? {
        candidates := candidates + [candidate.value.value];
      }
    }
    assert sites[..|group.instructions|] == sites;
    r := Ok(candidates);
  }

  /** The instruction loops together. */
  method CollectCandidates(n: Notification) returns (r: Result<seq<SwapInstruction>, DecodeError>)
    ensures r.Ok? <==> AllDecode(n.accountKeys, Sites(n))
    ensures r.Ok? ==> r.value == Swaps(n.accountKeys, Sites(n))
  {
    var keys, outerCount := n.accountKeys, |n.instructions|;
    ghost var outer := OuterSites(n.instructions);
    r := CollectOuter(n);
    if r.Err? {
      if AllDecode(keys, Sites(n)) {
        AllDecodePrefix(keys, outer, GroupsSites(n.innerGroups, outerCount));
      }
      return;
    }
    assert outer + GroupsSites(n.innerGroups[..0], outerCount) == outer;
    for g := 0 to |n.innerGroups|
      invariant r.Ok?
      invariant AllDecode(keys, outer + GroupsSites(n.innerGroups[..g], outerCount))
      invariant r.value == Swaps(keys, outer + GroupsSites(n.innerGroups[..g], outerCount))
    {
      GroupStep(keys, outer, n.innerGroups, outerCount, g);
      r := CollectGroup(keys, n.innerGroups[g], outerCount, outer + GroupsSites(n.innerGroups[..g], outerCount),
                        r.value);
      if r.Err? {
        return;
      }
    }
    assert n.innerGroups[..|n.innerGroups|] == n.innerGroups;
  }

  method FindConflict(swaps: seq<SwapInstruction>) returns (conflict: bool)
    ensures conflict <==> !Unambiguous(swaps)
  {
    for i := 0 to |swaps|
      invariant forall a, b :: 0 <= a < i && a < b < |swaps| ==> !Conflict(swaps[a], swaps[b])
    {
      for j := i + 1 to |swaps|
        invariant forall b :: i < b < j ==> !Conflict(swaps[i], swaps[b])
      {
        if Conflict(swaps[i], swaps[j]) {
          return true;
        }
      }
    }
    conflict := false;
  }

  /** Decodes a notification, all or nothing. */
  method DecodeNotification(n: Notification, observedAt: u64) returns (r: Result<seq<SwapEvent>, DecodeError>)
    ensures r.Ok? ==> DecodesTo(n, observedAt, r.value)
    ensures r.Err? ==> forall events :: !DecodesTo(n, observedAt, events)
  {
    if n.failed {
      return Err(FailedTransaction);
    }
    var signature := SourceSignature(n);
    if signature.None? {
      return Err(BadSignature);
    }
    var candidates := CollectCandidates(n);
    if candidates.Err? {
      return Err(candidates.error);
    }
    var conflict := FindConflict(candidates.value);
    if conflict {
      return Err(AmbiguousSwaps);
    }
    if n.preBalances.None? || n.postBalances.None? {
      return Err(MissingBalances);
    }
    var swaps := candidates.value;
    var events := [];
    for i := 0 to |swaps|
      invariant |events| == i && forall k :: 0 <= k < i ==> EventFor(n, swaps[k], observedAt, events[k])
    {
      var e := DecodeCandidate(n, swaps[i], signature.value, observedAt);
      if e.Err? {
        return Err(e.error);
      }
      events := events + [e.value];
    }
    r := Ok(events);
  }
}
