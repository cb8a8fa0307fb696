// Public-goods-funding records kept by governance: funding obligations and stewards.
module GovernanceTypes {
  import opened Ledger
  import opened Decimal

  /** A funding paid by a transfer on this chain. */
  datatype PgfInternalTarget = PgfInternalTarget(target: Address, amount: Amount)

  /** A funding paid over IBC to a receiver on another chain. */
  datatype PgfIbcTarget = PgfIbcTarget(target: string, amount: Amount, portId: string, channelId: string)

  /** Where a funding goes. */
  datatype PgfTarget = Internal(internal: PgfInternalTarget) | Ibc(ibc: PgfIbcTarget)

  /** A continuous funding as stored, identified by `id`. */
  datatype StoragePgfFunding = StoragePgfFunding(detail: PgfTarget, id: u64)

  /** A steward and how it splits its share: pairs in the iteration order of its distribution map. */
  datatype StewardDetail = StewardDetail(address: Address, rewardDistribution: seq<(Address, Dec)>)
}
