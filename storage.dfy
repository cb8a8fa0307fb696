// The ledger's key-value storage with its write log, as the bridge, PGF and IBC modules see it:
// one typed value per key, an IBC event buffer, recoverable errors and panics.
module Storage {
  import opened Ledger
  import opened Decimal
  import opened BridgeTypes
  import opened GovernanceTypes

  /** The three keys kept per whitelisted ERC20 token. */
  datatype WhitelistKeyType = Whitelisted | Cap | Denomination

  /** Storage keys read or written by the bridge, PGF and IBC modules. */
  datatype Key =
    // Ethereum bridge
    | BridgeActiveKey
    | MinConfirmationsKey
    | NativeErc20Key
    | BridgeContractKey
    | EthStartHeightKey
    | WhitelistKey(asset: EthAddress, suffix: WhitelistKeyType)
    // tokens
    | BalanceKey(token: Address, owner: Address)
    | MintedBalanceKey(token: Address)
    | MinterKey(token: Address)
    // protocol parameters
    | NativeTokenKey
    | EpochsPerYearKey
    | EpochDurationKey
    // public goods funding
    | PgfInflationRateKey
    | StewardsInflationRateKey
    | PgfFundingsKey
    | PgfStewardsKey

  /** Lower bounds on the length of an epoch. */
  datatype EpochDuration = EpochDuration(minNumOfBlocks: u64, minDurationSecs: u64)

  /** A stored value, by the type it decodes to; `Undecodable` holds bytes that decode to nothing. */
  datatype Value =
    | BoolValue(b: bool)
    | U64Value(n: u64)
    | AmountValue(amount: Amount)
    | DenomValue(denom: u8)
    | AddressValue(address: Address)
    | EthAddressValue(ethAddress: EthAddress)
    | DecValue(dec: Dec)
    | BridgeStatusValue(status: EthBridgeStatus)
    | MinConfirmationsValue(minConfirmations: MinimumConfirmations)
    | ContractValue(contract: UpgradeableContract)
    | BlockHeightValue(height: EthBlockHeight)
    | EpochDurationValue(duration: EpochDuration)
    | FundingsValue(fundings: seq<StoragePgfFunding>)
    | StewardsValue(stewards: seq<StewardDetail>)
    | Undecodable(bytes: seq<u8>)

  // Decoders: reading a key at a type succeeds exactly when the stored value has that type.
  function AsBool(v: Value): Option<bool> { if v.BoolValue? then Some(v.b) else None }
  function AsU64(v: Value): Option<u64> { if v.U64Value? then Some(v.n) else None }
  function AsAmount(v: Value): Option<Amount> { if v.AmountValue? then Some(v.amount) else None }
  function AsAddress(v: Value): Option<Address> { if v.AddressValue? then Some(v.address) else None }
  function AsEthAddress(v: Value): Option<EthAddress> { if v.EthAddressValue? then Some(v.ethAddress) else None }
  function AsDec(v: Value): Option<Dec> { if v.DecValue? then Some(v.dec) else None }
  function AsBridgeStatus(v: Value): Option<EthBridgeStatus> { if v.BridgeStatusValue? then Some(v.status) else None }
  function AsMinConfirmations(v: Value): Option<MinimumConfirmations> { if v.MinConfirmationsValue? then Some(v.minConfirmations) else None }
  function AsContract(v: Value): Option<UpgradeableContract> { if v.ContractValue? then Some(v.contract) else None }
  function AsBlockHeight(v: Value): Option<EthBlockHeight> { if v.BlockHeightValue? then Some(v.height) else None }
  function AsEpochDuration(v: Value): Option<EpochDuration> { if v.EpochDurationValue? then Some(v.duration) else None }
  function AsFundings(v: Value): Option<seq<StoragePgfFunding>> { if v.FundingsValue? then Some(v.fundings) else None }
  function AsStewards(v: Value): Option<seq<StewardDetail>> { if v.StewardsValue? then Some(v.stewards) else None }

  /** Recoverable errors (Rust's `Err`). */
  datatype Error =
    | DecodeFailed(key: Key)
    | NativeErc20NotInitialized
    | NativeErc20ReadFailed(cause: Error)
    | NativeTokenMissing
    | ParameterMissing(key: Key)
    | InsufficientBalance(token: Address, owner: Address)
    | BalanceOverflow(token: Address, owner: Address)
    | SupplyOverflow(token: Address)
    | SupplyUnderflow(token: Address)
    | TimestampOutOfRange
    | IbcExecutionFailed(reason: string)

  /**
   * Why the ledger aborts (a Rust panic, `unwrap`, `expect` or `unimplemented!`).
   * `DecimalArithmetic` is an unchecked `Dec` operation that divides by zero or leaves the
   * 256-bit range; `NegativeAmount` is the conversion of a negative `Dec` to an amount.
   */
  datatype Panic =
    | NativeErc20WrongDenomination
    | CouldNotRead(key: Key)
    | PartiallyConfigured(key: Key)
    | BridgeStatusUnreadable
    | ValueMissing(key: Key)
    | DecimalArithmetic
    | NegativeAmount
    | Unimplemented(what: string)

  datatype Result<+T> = Ok(value: T) | Err(error: Error) {
    predicate IsFailure() { Err? }
    function PropagateFailure<U>(): Result<U> requires Err? { Err(error) }
    function Extract(): T requires Ok? { value }
  }

  /** How a computation ends: it returns a value or the ledger aborts. */
  datatype Outcome<+T> = Returns(value: T) | Panics(reason: Panic) {
    predicate IsFailure() { Panics? }
    function PropagateFailure<U>(): Outcome<U> requires Panics? { Panics(reason) }
    function Extract(): T requires Returns? { value }
  }

  /** `StorageRead::read::<T>`: nothing for an absent key, an error for a value of another type. */
  function Read<T>(kv: map<Key, Value>, key: Key, decode: Value -> Option<T>): (r: Result<Option<T>>)
    ensures key !in kv ==> r == Ok(None)
    ensures key in kv && decode(kv[key]).Some? ==> r == Ok(decode(kv[key]))
    ensures key in kv && decode(kv[key]).None? ==> r == Err(DecodeFailed(key))
  {
    if key !in kv then Ok(None)
    else match decode(kv[key])
      case Some(v) => Ok(Some(v))
      case None => Err(DecodeFailed(key))
  }

  /** A snapshot of the storage together with its write log's IBC event buffer. */
  datatype State = State(kv: map<Key, Value>, ibcEvents: seq<IbcEvent>)

  /** The storage with its write log (`WlStorage`), updated in place. */
  class WlStorage {
    var kv: map<Key, Value>
    var ibcEvents: seq<IbcEvent>

    constructor (initial: map<Key, Value>)
      ensures kv == initial && ibcEvents == []
    {
      kv := initial;
      ibcEvents := [];
    }

    function Snapshot(): (s: State)
      reads this
      ensures s.kv == kv && s.ibcEvents == ibcEvents
    {
      State(kv, ibcEvents)
    }

    /** `write_bytes`: store `value` under `key`. */
    method WriteBytes(key: Key, value: Value)
      modifies this
      ensures kv == old(kv)[key := value]
      ensures ibcEvents == old(ibcEvents)
    {
      kv := kv[key := value];
    }

    /** Take on the state a collaborator computed. */
    method Become(s: State)
      modifies this
      ensures Snapshot() == s
    {
      kv, ibcEvents := s.kv, s.ibcEvents;
    }
  }
}
