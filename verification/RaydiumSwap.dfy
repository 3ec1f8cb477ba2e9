/** Construction of the Raydium V4 swap instruction and the trailing
    anti-sandwich sentinel added to it. */
module RaydiumSwap {
  import opened Primitives
  import opened Types

  const SWAP_BASE_IN: u8 := 9
  const SWAP_BASE_OUT: u8 := 11
  const SWAP_DATA_LEN := 17

  datatype AccountMeta = AccountMeta(pubkey: Pubkey, isSigner: bool, isWritable: bool)

  function Writable(key: Pubkey): AccountMeta { AccountMeta(key, false, true) }

  function ReadOnly(key: Pubkey): AccountMeta { AccountMeta(key, false, false) }

  datatype Instruction = Instruction(programId: Pubkey, accounts: seq<AccountMeta>, data: seq<u8>)

  datatype PoolKeys = PoolKeys(
    ammId: Pubkey, authority: Pubkey, openOrders: Pubkey, targetOrders: Pubkey,
    baseVault: Pubkey, quoteVault: Pubkey, baseMint: Pubkey, quoteMint: Pubkey,
    marketProgramId: Pubkey, marketId: Pubkey, marketBids: Pubkey, marketAsks: Pubkey,
    marketEventQueue: Pubkey, marketBaseVault: Pubkey, marketQuoteVault: Pubkey, marketVaultSigner: Pubkey)
  {
    function All(): seq<Pubkey> {
      [ammId, authority, openOrders, targetOrders, baseVault, quoteVault, baseMint, quoteMint,
       marketProgramId, marketId, marketBids, marketAsks, marketEventQueue, marketBaseVault,
       marketQuoteVault, marketVaultSigner]
    }

    /** No key is the default key. Distinctness is not checked. */
    predicate Valid() {
      DEFAULT_PUBKEY !in All()
    }
  }

  datatype SwapError =
    | DefaultPoolKey
    | ZeroAmountIn
    | ZeroMinimumOut
    | DefaultUserAccount
    | SourceIsDestination
    | OwnerIsTokenAccount
    | TokenAccountIsVault
    | InvalidSentinelPrefix
    | UnsafeTrailingAccount

  // ---- Little-endian amounts -------------------------------------------------

  function LeBytes(x: nat, n: nat): (bytes: seq<u8>)
    ensures |bytes| == n
  {
    if n == 0 then [] else [x % 256] + LeBytes(x / 256, n - 1)
  }

  function FromLeBytes(bytes: seq<u8>): nat {
    if bytes == [] then 0 else bytes[0] + 256 * FromLeBytes(bytes[1..])
  }

  function Pow256(n: nat): nat {
    if n == 0 then 1 else 256 * Pow256(n - 1)
  }

  lemma {:induction false} LeRoundTrip(x: nat, n: nat)
    requires x < Pow256(n)
    ensures FromLeBytes(LeBytes(x, n)) == x
  {
    if n > 0 {
      LeRoundTrip(x / 256, n - 1);
      assert LeBytes(x, n)[1..] == LeBytes(x / 256, n - 1);
    }
  }

  lemma Pow256Of8()
    ensures Pow256(8) == TWO_64
  {
    assert Pow256(2) == 256 * 256;
    assert Pow256(4) == 256 * 256 * Pow256(2);
    assert Pow256(6) == 256 * 256 * Pow256(4);
  }

  // ---- Construction ------------------------------------------------------------

  function SwapData(amountIn: u64, minimumOut: u64): seq<u8> {
    [SWAP_BASE_IN] + LeBytes(amountIn, 8) + LeBytes(minimumOut, 8)
  }

  /** The current 17-account layout: the unused target-orders account is omitted. */
  function SwapAccounts(keys: PoolKeys, owner: Pubkey, source: Pubkey, destination: Pubkey): seq<AccountMeta> {
    [ReadOnly(TOKEN_PROGRAM_ID),
     Writable(keys.ammId),
     ReadOnly(keys.authority),
     Writable(keys.openOrders),
     Writable(keys.baseVault),
     Writable(keys.quoteVault),
     ReadOnly(keys.marketProgramId),
     Writable(keys.marketId),
     Writable(keys.marketBids),
     Writable(keys.marketAsks),
     Writable(keys.marketEventQueue),
     Writable(keys.marketBaseVault),
     Writable(keys.marketQuoteVault),
     ReadOnly(keys.marketVaultSigner),
     Writable(source),
     Writable(destination),
     AccountMeta(owner, true, false)]
  }

  function UserAccountsError(keys: PoolKeys, owner: Pubkey, source: Pubkey, destination: Pubkey): Option<SwapError> {
    if DEFAULT_PUBKEY in {owner, source, destination} then Some(DefaultUserAccount)
    else if source == destination then Some(SourceIsDestination)
    else if owner == source || owner == destination then Some(OwnerIsTokenAccount)
    else if source in {keys.baseVault, keys.quoteVault} || destination in {keys.baseVault, keys.quoteVault} then
      Some(TokenAccountIsVault)
    else None
  }

  function ConstructSwap(keys: PoolKeys, owner: Pubkey, source: Pubkey, destination: Pubkey,
                         amountIn: u64, minimumOut: u64): Result<Instruction, SwapError>
  {
    if !keys.Valid() then Err(DefaultPoolKey)
    else if amountIn == 0 then Err(ZeroAmountIn)
    else if minimumOut == 0 then Err(ZeroMinimumOut)
    else
      var e := UserAccountsError(keys, owner, source, destination);
      if e.Some? then Err(e.value)
      else Ok(Instruction(RAYDIUM_V4_PROGRAM_ID, SwapAccounts(keys, owner, source, destination),
                          SwapData(amountIn, minimumOut)))
  }

  /** The seventeen accounts in the order the on-chain program reads them: what each
      place holds, who signs (the owner alone) and what is written. */
  predicate StandsInOrder(accounts: seq<AccountMeta>, keys: PoolKeys, owner: Pubkey, source: Pubkey,
                          destination: Pubkey)
  {
    && |accounts| >= 17
    && accounts[0] == AccountMeta(TOKEN_PROGRAM_ID, false, false)
    && accounts[1] == AccountMeta(keys.ammId, false, true)
    && accounts[2] == AccountMeta(keys.authority, false, false)
    && accounts[3] == AccountMeta(keys.openOrders, false, true)
    && accounts[4] == AccountMeta(keys.baseVault, false, true)
    && accounts[5] == AccountMeta(keys.quoteVault, false, true)
    && accounts[6] == AccountMeta(keys.marketProgramId, false, false)
    && accounts[7] == AccountMeta(keys.marketId, false, true)
    && accounts[8] == AccountMeta(keys.marketBids, false, true)
    && accounts[9] == AccountMeta(keys.marketAsks, false, true)
    && accounts[10] == AccountMeta(keys.marketEventQueue, false, true)
    && accounts[11] == AccountMeta(keys.marketBaseVault, false, true)
    && accounts[12] == AccountMeta(keys.marketQuoteVault, false, true)
    && accounts[13] == AccountMeta(keys.marketVaultSigner, false, false)
    && accounts[14] == AccountMeta(source, false, true)
    && accounts[15] == AccountMeta(destination, false, true)
    && accounts[16] == AccountMeta(owner, true, false)
  }

  lemma AccountsStandInOrder(keys: PoolKeys, owner: Pubkey, source: Pubkey, destination: Pubkey)
    ensures var accounts := SwapAccounts(keys, owner, source, destination);
            |accounts| == 17 && StandsInOrder(accounts, keys, owner, source, destination)
  {
    var accounts := SwapAccounts(keys, owner, source, destination);
    assert accounts[16] == AccountMeta(owner, true, false);
    assert accounts[15] == Writable(destination) && accounts[14] == Writable(source);
    assert accounts[13] == ReadOnly(keys.marketVaultSigner) && accounts[12] == Writable(keys.marketQuoteVault);
    assert accounts[11] == Writable(keys.marketBaseVault) && accounts[10] == Writable(keys.marketEventQueue);
    assert accounts[9] == Writable(keys.marketAsks) && accounts[8] == Writable(keys.marketBids);
    assert accounts[7] == Writable(keys.marketId) && accounts[6] == ReadOnly(keys.marketProgramId);
  }

  lemma BuiltStandsInOrder(keys: PoolKeys, owner: Pubkey, source: Pubkey, destination: Pubkey,
                           amountIn: u64, minimumOut: u64)
    ensures var built := ConstructSwap(keys, owner, source, destination, amountIn, minimumOut);
            built.Ok? ==>
              && built.value.programId == RAYDIUM_V4_PROGRAM_ID && |built.value.accounts| == 17
              && StandsInOrder(built.value.accounts, keys, owner, source, destination)
  {
    AccountsStandInOrder(keys, owner, source, destination);
  }

  lemma ValidKeysExactly(keys: PoolKeys)
    ensures keys.Valid()
            <==> DEFAULT_PUBKEY !in {keys.ammId, keys.authority, keys.openOrders, keys.targetOrders,
                                     keys.baseVault, keys.quoteVault, keys.baseMint, keys.quoteMint,
                                     keys.marketProgramId, keys.marketId, keys.marketBids, keys.marketAsks,
                                     keys.marketEventQueue, keys.marketBaseVault, keys.marketQuoteVault,
                                     keys.marketVaultSigner}
  {
    var all := keys.All();
    assert keys.marketVaultSigner == all[15] && keys.marketQuoteVault == all[14] && keys.marketBaseVault == all[13];
  }

  /** A swap can be built exactly on valid pool keys, for two amounts above zero and three
      distinct user keys, none the default one, whose token accounts are not the vaults. */
  lemma ConstructsExactly(keys: PoolKeys, owner: Pubkey, source: Pubkey, destination: Pubkey,
                          amountIn: u64, minimumOut: u64)
    ensures ConstructSwap(keys, owner, source, destination, amountIn, minimumOut).Ok?
            <==> && keys.Valid() && amountIn > 0 && minimumOut > 0
                 && owner != DEFAULT_PUBKEY && source != DEFAULT_PUBKEY && destination != DEFAULT_PUBKEY
                 && source != destination && owner != source && owner != destination
                 && source != keys.baseVault && source != keys.quoteVault
                 && destination != keys.baseVault && destination != keys.quoteVault
  {
  }

  /** The amounts read back from a built instruction are the amounts it was built with. */
  lemma AmountsRoundTrip(keys: PoolKeys, owner: Pubkey, source: Pubkey, destination: Pubkey,
                         amountIn: u64, minimumOut: u64)
    requires ConstructSwap(keys, owner, source, destination, amountIn, minimumOut).Ok?
    ensures var data := ConstructSwap(keys, owner, source, destination, amountIn, minimumOut).value.data;
            && |data| == SWAP_DATA_LEN
            && data[0] == SWAP_BASE_IN
            && FromLeBytes(data[1..9]) == amountIn
            && FromLeBytes(data[9..]) == minimumOut
  {
    Pow256Of8();
    LeRoundTrip(amountIn, 8);
    LeRoundTrip(minimumOut, 8);
    var data := SwapData(amountIn, minimumOut);
    assert data[1..9] == LeBytes(amountIn, 8);
    assert data[9..] == LeBytes(minimumOut, 8);
  }

  /** The amount in, read from an instruction's bytes. */
  function AmountInOf(ins: Instruction): nat {
    if |ins.data| == SWAP_DATA_LEN then FromLeBytes(ins.data[1..9]) else 0
  }

  /** The minimum amount out, read from an instruction's bytes. */
  function MinimumOutOf(ins: Instruction): nat {
    if |ins.data| == SWAP_DATA_LEN then FromLeBytes(ins.data[9..]) else 0
  }

  // ---- The sentinel ---------------------------------------------------------------

  predicate HasKey(accounts: seq<AccountMeta>, key: Pubkey) {
    exists i :: 0 <= i < |accounts| && accounts[i].pubkey == key
  }

  /** Appends the sentinel as a read-only non-signer unless it is already present.
      `hasPrefix` says whether the sentinel's text starts with `jitodontfront`. */
  function Protect(ins: Instruction, sentinel: Pubkey, hasPrefix: bool): Result<Instruction, SwapError> {
    if !hasPrefix then Err(InvalidSentinelPrefix)
    else if ins.programId != RAYDIUM_V4_PROGRAM_ID then Err(UnsafeTrailingAccount)
    else if HasKey(ins.accounts, sentinel) then Ok(ins)
    else Ok(ins.(accounts := ins.accounts + [ReadOnly(sentinel)]))
  }

  /** Protecting twice is protecting once, the sentinel is present afterwards, and
      the original accounts keep their positions. */
  lemma ProtectIsIdempotent(ins: Instruction, sentinel: Pubkey)
    requires ins.programId == RAYDIUM_V4_PROGRAM_ID
    ensures var once := Protect(ins, sentinel, true);
            && once.Ok?
            && HasKey(once.value.accounts, sentinel)
            && ins.accounts <= once.value.accounts
            && Protect(once.value, sentinel, true) == once
  {
    var once := Protect(ins, sentinel, true).value;
    if !HasKey(ins.accounts, sentinel) {
      assert once.accounts[|ins.accounts|].pubkey == sentinel;
    }
  }

  /** An instruction under construction, whose account list is appended to in place. */
  class PendingInstruction {
    const programId: Pubkey
    const data: seq<u8>
    var accounts: seq<AccountMeta>

    function Value(): Instruction
      reads this
    {
      Instruction(programId, accounts, data)
    }

    constructor (ins: Instruction)
      ensures Value() == ins
    {
      programId, data, accounts := ins.programId, ins.data, ins.accounts;
    }

    /** On an error the account list is left as it was. */
    method ApplyJitodontfrontProtection(sentinel: Pubkey, hasPrefix: bool) returns (error: Option<SwapError>)
      modifies this
      ensures var expected := Protect(old(Value()), sentinel, hasPrefix);
              match error
              case None => expected == Ok(Value())
              case Some(e) => expected == Err(e) && Value() == old(Value())
    {
      if !hasPrefix {
        return Some(InvalidSentinelPrefix);
      }
      if programId != RAYDIUM_V4_PROGRAM_ID {
        return Some(UnsafeTrailingAccount);
      }
      for i := 0 to |accounts|
        invariant forall j :: 0 <= j < i ==> accounts[j].pubkey != sentinel
      {
        if accounts[i].pubkey == sentinel {
          return None;
        }
      }
      accounts := accounts + [ReadOnly(sentinel)];
      error := None;
    }
  }
}
