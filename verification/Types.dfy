/** Identifiers and events shared by the ingestion, execution and exit components.
    Public keys and signatures are opaque values; only equality matters. */
module Types {
  import opened Primitives

  datatype Pubkey = Pubkey(id: nat)

  const DEFAULT_PUBKEY := Pubkey(0)
  const TOKEN_PROGRAM_ID := Pubkey(1)
  const WSOL_MINT := Pubkey(2)
  const RAYDIUM_V4_PROGRAM_ID := Pubkey(3)

  type Signature = nat

  /** A decoded swap. Base amounts are target-token raw units and quote amounts
      are WSOL lamports, whatever the pool's own ordering. */
  datatype SwapEvent = SwapEvent(
    targetMint: Pubkey,
    poolId: Pubkey,
    baseAmount: u64,
    quoteAmount: u64,
    timestampMs: u64,
    signature: Signature,
    slot: u64,
    outerIndex: u8,
    innerIndex: Option<u8>)

  /** The source-pool text of a position: a pool address, or the literal `pump`
      given to positions bought outside Raydium, which is no address at all. */
  datatype SourcePool = RaydiumPool(key: Pubkey) | PumpPool

  predicate EventMatchesPool(e: SwapEvent, pool: SourcePool) {
    pool == RaydiumPool(e.poolId)
  }
}
