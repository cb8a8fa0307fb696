// The value types of the Ethereum bridge configuration.
module BridgeTypes {
  import opened Ledger

  /** Minimum number of confirmations an Ethereum event needs before it is acted on; never zero. */
  datatype MinimumConfirmations = MinimumConfirmations(confirmations: NonZeroU64)

  /** `MinimumConfirmations::default()`. */
  function DefaultMinimumConfirmations(): (m: MinimumConfirmations)
    ensures m.confirmations == 100
  {
    MinimumConfirmations(100)
  }

  /** `From<NonZeroU64> for MinimumConfirmations`. */
  function MinimumConfirmationsFrom(n: NonZeroU64): (m: MinimumConfirmations)
    ensures m.confirmations == n
  {
    MinimumConfirmations(n)
  }

  /** `From<MinimumConfirmations> for NonZeroU64`, the inverse of `MinimumConfirmationsFrom`. */
  function ConfirmationsOf(m: MinimumConfirmations): (n: NonZeroU64)
    ensures MinimumConfirmationsFrom(n) == m
  {
    m.confirmations
  }

  /** Version of an upgradeable contract; starts from 1 and is never zero. */
  datatype ContractVersion = ContractVersion(version: NonZeroU64)

  /** `ContractVersion::default()`. */
  function DefaultContractVersion(): (v: ContractVersion)
    ensures v.version == 1
  {
    ContractVersion(1)
  }

  /** An Ethereum contract that may be upgraded. */
  datatype UpgradeableContract = UpgradeableContract(address: EthAddress, version: ContractVersion)

  /** The Ethereum contracts validators must know about. */
  datatype Contracts = Contracts(nativeErc20: EthAddress, bridge: UpgradeableContract)

  /** An ERC20 token whitelist entry. */
  datatype Erc20WhitelistEntry = Erc20WhitelistEntry(tokenAddress: EthAddress, tokenCap: DenominatedAmount)

  /** Height of an Ethereum block, unbounded here (the 256-bit bound is not modelled). */
  type EthBlockHeight = nat

  /** Chain parameters of the Ethereum bridge. */
  datatype EthereumBridgeParams = EthereumBridgeParams(
    ethStartHeight: EthBlockHeight,
    minConfirmations: MinimumConfirmations,
    erc20Whitelist: seq<Erc20WhitelistEntry>,
    contracts: Contracts)

  /** The parameters the Ethereum oracle needs: the bridge parameters without the whitelist. */
  datatype EthereumOracleConfig = EthereumOracleConfig(
    ethStartHeight: EthBlockHeight,
    minConfirmations: MinimumConfirmations,
    contracts: Contracts)

  /** Since when the bridge is enabled. */
  datatype EthBridgeEnabled = AtGenesis | AtEpoch(epoch: u64)

  /** Value stored under the bridge's active key. */
  datatype EthBridgeStatus = Disabled | Enabled(since: EthBridgeEnabled)
}
