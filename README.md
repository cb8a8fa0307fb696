# Namada ledger core: bridge parameters, PGF inflation, IBC protocol context

A Dafny model of three pieces of Namada's deterministic ledger logic. All three run against
the ledger's key-value storage with its write log. The model keeps that storage as a map from
keys to typed values, with an `Undecodable` value for bytes that decode to nothing. A Rust
panic (`panic!`, `unwrap`, `expect`, `unimplemented!`) is an explicit `Panics(reason)`
outcome. It is kept apart from a returned error `Err(error)`.

- **Ethereum bridge parameter store** (`bridge_types.dfy`, `bridge_parameters.dfy`):
  - the non-zero value types `MinimumConfirmations` and `ContractVersion`;
  - `init_storage`, which writes the bridge status, the four scalar parameters and three keys
    per whitelisted ERC20 token, and aborts when the native ERC20 is whitelisted with the
    wrong number of decimal places;
  - `EthereumOracleConfig::read`, which has three outcomes: not bootstrapped or inactive, a
    full configuration, or an abort on corrupt or partial storage;
  - `read_native_erc20_address`, which returns errors and never aborts.
- **PGF inflation** (`pgf_inflation.dfy`): `apply_inflation` is a method over the storage
  object, proved against the specification function `Inflation`. It works in three phases:
  - mint the per-epoch PGF inflation into the PGF account;
  - pay the continuous fundings in ascending id order, by local transfer or by the IBC
    callback, skipping any payment that fails;
  - mint each steward's shares of the steward pool.
  Both the mint and the steward pool come from the total supply read once, before the mint.
- **IBC protocol context** (`ibc_actions.dfy`):
  - the context object's event buffer: emit appends, get filters by type in buffer order;
  - its token transfer, mint (which records IBC as minter), burn and the unsupported MASP
    handler;
  - `transfer_over_ibc`, which builds an ICS-20 `MsgTransfer` (empty memo, no timeout height,
    timeout `now + min_duration`) and executes it.

Shared support:
- `ledger.dfy`: addresses, `u8`/`u64`, 256-bit amounts.
- `decimal.dfy`: `Dec`, a signed 256-bit integer scaled by 10^12, with truncating division.
- `storage.dfy`: keys, values, errors, panics, and the `WlStorage` class.
- `token.dfy`: checked credit, transfer and burn on balances and minted supply.
- `governance_types.dfy`: PGF fundings and stewards.

Two behaviours of the code that the model follows:
- A failed PGF mint is returned as an error (`?`, inflation.rs:46-51), not an abort, and so
  it is in `Inflation`.
- The code shows no rollback of a failed funding attempt. The model assumes that a failed
  token primitive, IBC callback or IBC execution leaves the storage unchanged.

## Model

| member | source | states |
|---|---|---|
| BridgeTypes.DefaultMinimumConfirmations | crates/ethereum_bridge/src/storage/parameters.rs:56-62 | the default minimum confirmations is 100 |
| BridgeTypes.MinimumConfirmationsFrom | crates/ethereum_bridge/src/storage/parameters.rs:64-68 | wrapping a non-zero `u64` keeps its value |
| BridgeTypes.ConfirmationsOf | crates/ethereum_bridge/src/storage/parameters.rs:70-74 | unwrapping is the inverse of wrapping: wrapping the result gives back the same confirmations |
| BridgeTypes.DefaultContractVersion | crates/ethereum_bridge/src/storage/parameters.rs:92-99 | the default contract version is 1 |
| BridgeParameters.FirstWrongNativeDenomination | crates/ethereum_bridge/src/storage/parameters.rs:208-221 | the index at which `init_storage` aborts: an entry for the native ERC20 with a denomination other than 6, and no such entry before it |
| BridgeParameters.InitStorage | crates/ethereum_bridge/src/storage/parameters.rs:170-243 | returns iff no whitelist entry gives the native ERC20 a denomination other than 6. On return, storage holds the scalar writes then every entry's three writes in order. On abort, it holds the writes made before the first offending entry |
| BridgeParameters.LastEntryFor | crates/ethereum_bridge/src/storage/parameters.rs:208-243 | the whitelist entry for an address that no later entry overrides |
| BridgeParameters.InitializedScalars | crates/ethereum_bridge/src/storage/parameters.rs:185-207 | after `init_storage`: active key = `Enabled(AtGenesis)`, plus min confirmations, native ERC20, bridge contract and start height |
| BridgeParameters.InitializedWhitelist | crates/ethereum_bridge/src/storage/parameters.rs:208-243 | after `init_storage`, every listed token is whitelisted, with the cap and denomination of its last entry |
| BridgeParameters.InitializedFrame | crates/ethereum_bridge/src/storage/parameters.rs:185-243 | `init_storage` changes no other key: keys outside the scalar keys and the listed tokens' whitelist keys keep their presence and value |
| BridgeParameters.MustReadKey | crates/ethereum_bridge/src/storage/parameters.rs:345-366 | returns the decoded value iff the key is present and decodes. A missing key aborts as "partially configured"; an undecodable one as "could not read" |
| BridgeParameters.ReadOracleConfig | crates/ethereum_bridge/src/storage/parameters.rs:286-323 | `None` iff the active key is absent or the bridge is inactive. `Some` iff active and all four keys decode, and then it holds exactly the stored fields. Aborts iff the status is unreadable, or the bridge is active and a key is missing or undecodable, so it never returns a partial config |
| BridgeParameters.InactiveReadIgnoresOtherKeys | crates/ethereum_bridge/src/storage/parameters.rs:291-300 | with the active key absent or inactive, `read` is `None` whatever the other keys hold |
| BridgeParameters.OracleConfigFrom | crates/ethereum_bridge/src/storage/parameters.rs:265-279 | the oracle configuration keeps the parameters' start height, minimum confirmations and contracts, and drops the whitelist; `InitThenRead` shows it is what `read` returns after `init_storage` |
| BridgeParameters.InitThenRead | crates/ethereum_bridge/src/storage/parameters.rs:265-279 | `init_storage(p)` then `read` gives `Some(From(p))`, i.e. `p` without its whitelist (test at 401-422) |
| BridgeParameters.CorruptConfirmationsAbortRead | crates/ethereum_bridge/src/storage/parameters.rs:432-456 | overwriting min confirmations with `[42, 1, 2, 3, 4]` after init makes `read` abort with "could not read" |
| BridgeParameters.PartialConfigurationAbortsRead | crates/ethereum_bridge/src/storage/parameters.rs:458-480 | an active bridge with only min confirmations written aborts as partially configured, at the native ERC20 key |
| BridgeParameters.ReadNativeErc20Address | crates/ethereum_bridge/src/storage/parameters.rs:327-343 | `Ok(addr)` iff present and decodable, "not initialized" when absent, "failed to read" when undecodable. Never aborts |
| BridgeParameters.InitThenReadNativeErc20 | crates/ethereum_bridge/src/storage/parameters.rs:327-343 | after `init_storage`, the native ERC20 address reads back |
| PgfInflation.ReadExpect | crates/governance/src/pgf/inflation.rs:34-39 | `read(key)?.expect(..)`: a value iff present and decodable. Undecodable gives a returned decode error; absent gives an abort |
| PgfInflation.ReadNativeToken | crates/governance/src/pgf/inflation.rs:32 | the native token is `Ok` iff stored as an address; absent gives an error |
| PgfInflation.ReadFundings | crates/governance/src/pgf/inflation.rs:58 | absent means no fundings; otherwise `Ok` iff the stored value decodes, and it is the stored list |
| PgfInflation.ReadStewards | crates/governance/src/pgf/inflation.rs:97 | absent means no stewards; otherwise `Ok` iff the stored value decodes, and it is the stored list |
| PgfInflation.PerEpochInflation | crates/governance/src/pgf/inflation.rs:41-43 | zero epochs per year aborts; a result means both the supply conversion and the rate division succeeded |
| PgfInflation.ReadSetup | crates/governance/src/pgf/inflation.rs:31-44 | reads in source order: a missing rate, epochs per year or supply aborts as a missing value, an undecodable one is a returned decode error, a native-token error is returned. When every value is stored and decodes, a failed decimal operation aborts, a negative inflation aborts, and otherwise setup succeeds. On success the native token, the supply snapshot and the (non-zero) epochs per year are the stored values and the PGF mint is the integer part of `Dec(total) * (pgf_rate / epochs_per_year)` |
| PgfInflation.Attempt | crates/governance/src/pgf/inflation.rs:62-77 | an internal funding is a transfer of its amount from the PGF address to its target; an IBC funding is the callback with the PGF address as source; a reward is a credit of its amount |
| PgfInflation.Settle | crates/governance/src/pgf/inflation.rs:78-93 | a successful payment's storage is kept; a failed one leaves the storage as it was |
| PgfInflation.PayAllAppend | crates/governance/src/pgf/inflation.rs:62-94 | paying a schedule `a + b` is paying `a`, then paying `b` from where `a` left off |
| PgfInflation.FailedPayoutIsSkipped | crates/governance/src/pgf/inflation.rs:78-93 | a payment that fails ends the run exactly as if it had not been scheduled; later payments still run |
| PgfInflation.SortById | crates/governance/src/pgf/inflation.rs:59-60 | the fundings sorted by ascending id, a permutation of the input |
| PgfInflation.RewardAmount | crates/governance/src/pgf/inflation.rs:104-107 | the integer part of `pool * percentage`; zero when `checked_mul` fails; `None` (an abort) exactly when the product is negative |
| PgfInflation.DistributionPayouts | crates/governance/src/pgf/inflation.rs:103-107 | one reward per share, in distribution order, for the share's address and its amount |
| PgfInflation.StewardPayoutsAreRewards | crates/governance/src/pgf/inflation.rs:102-125 | the steward phase schedules one credit per (steward, share) pair and nothing but credits |
| PgfInflation.StewardPayoutAt | crates/governance/src/pgf/inflation.rs:102-107 | share `j` of steward `i` is paid at position `SharesBefore(i) + j`, to its own address, for `pool * percentage` |
| PgfInflation.Inflation | crates/governance/src/pgf/inflation.rs:17-128 | `apply_inflation` as a function of the storage: setup reads, PGF mint, fundings by ascending id, then steward rewards. A failed setup writes nothing and never returns `Ok`; a run that returns `Ok` made the PGF mint and computed the steward pool. `InflationSchedule`, `MintBeforePayments` and `ZeroEpochsPerYearAborts` state each phase |
| PgfInflation.InflationSchedule | crates/governance/src/pgf/inflation.rs:58-127 | once reads, mint and arithmetic succeed, the run returns `Ok` whatever the payments do. Its storage is the post-mint storage after paying the sorted fundings and then the steward rewards |
| PgfInflation.ScheduleOrder | crates/governance/src/pgf/inflation.rs:58-125 | the schedule starts with every funding, in ascending id order, and every later entry is a steward credit |
| PgfInflation.MintBeforePayments | crates/governance/src/pgf/inflation.rs:37-51 | a failed PGF mint returns its error with nothing written. A successful one adds the mint to the PGF balance and to the supply snapshot before any payment |
| PgfInflation.ZeroEpochsPerYearAborts | crates/governance/src/pgf/inflation.rs:34-42 | with every parameter readable and zero epochs per year, the run aborts before writing anything |
| PgfInflation.PayFunding | crates/governance/src/pgf/inflation.rs:62-92 | one funding attempted in place: the storage becomes that of a successful transfer or IBC payment, and stays as it was when the payment fails |
| PgfInflation.PayFundings | crates/governance/src/pgf/inflation.rs:62-94 | the funding loop leaves the storage of paying the fundings in order, each once |
| PgfInflation.PayReward | crates/governance/src/pgf/inflation.rs:108-122 | one steward share minted in place: the storage becomes that of the credit when it succeeds, and stays as it was when it fails |
| PgfInflation.PayShares | crates/governance/src/pgf/inflation.rs:103-124 | the share loop succeeds iff every share converts, and then leaves the storage of crediting each share in order |
| PgfInflation.PayStewards | crates/governance/src/pgf/inflation.rs:102-125 | the steward loop succeeds iff every share of every steward converts, and then leaves the storage of the steward schedule |
| PgfInflation.ApplyInflation | crates/governance/src/pgf/inflation.rs:17-128 | the in-place `apply_inflation` ends as `Inflation` says, and on return leaves the storage `Inflation` computes |
| IbcActions.EventsOfType | crates/ibc/src/actions.rs:86-93 | an event is in the result iff it is buffered and has the requested type |
| IbcActions.EventsOfTypeAppend | crates/ibc/src/actions.rs:82-94 | filtering keeps buffer order: filtering `a + b` is filtering `a`, then `b` |
| IbcActions.IbcProtocolContext.constructor | crates/ibc/src/actions.rs:187 | the context wraps the given storage |
| IbcActions.IbcProtocolContext.EmitIbcEvent | crates/ibc/src/actions.rs:76-79 | always `Ok`; appends the event to the buffer and writes no key. For every type, the events read back gain the new one iff it has that type |
| IbcActions.IbcProtocolContext.GetIbcEvents | crates/ibc/src/actions.rs:82-94 | always `Ok`; exactly the buffered events of the type; reads without changing the buffer |
| IbcActions.IbcProtocolContext.TransferToken | crates/ibc/src/actions.rs:97-105 | a token transfer of the raw amount with the same source, destination and token; on error nothing changes |
| IbcActions.IbcProtocolContext.HandleMaspTx | crates/ibc/src/actions.rs:108-114 | never succeeds: aborts as unimplemented |
| IbcActions.IbcProtocolContext.MintToken | crates/ibc/src/actions.rs:117-127 | a credit of the raw amount, then the token's minter key set to `Internal(Ibc)`. If the credit fails, its error is returned and the minter key is not written |
| IbcActions.IbcProtocolContext.BurnToken | crates/ibc/src/actions.rs:130-137 | a burn of the raw amount from the target; on error nothing changes |
| IbcActions.MintThenBurn | crates/ibc/src/actions.rs:117-137 | minting raises the target's balance and the supply and names IBC as minter. Burning the same amount then restores both |
| IbcActions.TimeoutTimestamp | crates/ibc/src/actions.rs:172-175 | `now + min_duration` when the epoch duration is readable and the sum is a Tendermint time. An error when the duration is missing, undecodable or the time is out of range |
| IbcActions.TimeoutNotBeforeNow | crates/ibc/src/actions.rs:172-175 | the timeout is `min_duration` seconds after `now`, never earlier |
| IbcActions.BuildMsgTransfer | crates/ibc/src/actions.rs:162-182 | the message pays back exactly the funding: receiver = `target.target`, amount, port and channel. Denomination = token, sender = source, empty memo, timeout height `Never`, the given timestamp |
| IbcActions.BuildMsgTransferInjective | crates/ibc/src/actions.rs:162-182 | different token, source, funding or timeout give different messages |
| IbcActions.IbcTransfer | crates/ibc/src/actions.rs:152-189 | an error reading the duration or converting the time is the result. Otherwise the result is that of executing the built message once |
| IbcActions.TransferOverIbc | crates/ibc/src/actions.rs:152-189 | the in-place `transfer_over_ibc` returns `Ok` iff `IbcTransfer` does, and then takes its storage. On error, the error is `IbcTransfer`'s and the storage is unchanged |

## Left out

- Logging (`tracing` at inflation.rs:53-56, 80-92, 112-122 and `log_string`) is not modelled.
- Borsh, TOML and prost encodings are not modelled. Storage holds typed values; `Undecodable` stands for bytes that do not decode. The TOML round-trip test (parameters.rs:380-399) is left out with them.
- The prost encoding of the message (actions.rs:183-185) is not modelled: encoding into a `Vec` cannot run out of space.
- The write-log plumbing is not modelled: `WriteLogAndStorage` (actions.rs:41-69), `impl_storage_traits!`, the split between write log and committed storage, and the `Rc<RefCell<..>>` around the context. The model has one storage view.
- `vp::ethereum_bridge::init_storage` and `vp::bridge_pool::init_storage` (parameters.rs:245-247) are not part of this model.
- Storage write failures are not modelled: the `unwrap` on `write_bytes` and the `write` in `mint_token` always succeed here.
- `is_bridge_active` is not part of this model. `IsBridgeActive` takes it as: disabled is inactive, enabled at genesis is active, enabled at an epoch is active from that epoch on. The current epoch is a parameter.
- `has_key(..).unwrap()` (parameters.rs:294-295) is not modelled as failing. An undecodable status aborts (`BridgeStatusUnreadable`), standing in for `is_bridge_active`'s own read.
- The token primitives `transfer`, `credit_tokens` and `burn` are not part of this model. `Token` stands in for them with checked 256-bit arithmetic on balances and minted supply.
- The model assumes a failed token primitive leaves the storage unchanged.
- `IbcTransferFn` (the IBC callback) and `ExecuteFn` (`IbcActions::execute`) are assumed to leave the storage unchanged when they fail. `TransferOverIbc`'s unchanged storage on error and `FailedPayoutIsSkipped` for IBC fundings rest on this assumption.
- `EthAddress` holds a byte sequence of any length; the 20-byte length is not enforced, because the parameter store only copies and compares addresses.
- `EthBlockHeight` is an unbounded natural number; its 256-bit bound is not modelled, because the parameter store only writes and reads the height back unchanged.
- `Dec` internals are not part of this model. `Decimal` stands in for them with a signed 256-bit integer scaled by 10^12 and truncating division.
- Unchecked `Dec` operators abort with `DecimalArithmetic` on overflow or division by zero. `Amount::from` of a negative `Dec` aborts with `NegativeAmount`.
- PgfInflation.PerEpochInflation: zero epochs per year is modelled as an abort (division by zero), not excluded by a precondition.
- The PGF parameter helpers `get_parameters`, `get_payments`, `get_stewards` and `get_native_token` are not part of this model. They are modelled as single typed reads:
  - the two rates, the epochs per year and the supply read like `read(..)?.expect(..)`;
  - absent fundings or stewards are empty lists;
  - an absent native token is an error.
- A steward's `reward_distribution` is a hash map. The model keeps it as a sequence of pairs in the map's iteration order, which the source leaves unspecified. Percentages are not checked or normalised, as in the source.
- `sort_by` (inflation.rs:60) is a library sort on the vector. `SortById` models it as a stable insertion sort on a sequence, not in place.
- PgfInflation.ApplyInflation: the storage left behind after an abort is not specified, because the ledger discards it.
- PgfInflation.Inflation: the IBC callback is a function parameter, so every funding in a run sees the same clock when the callback is `IbcTransfer` with a fixed `now`. The source samples the clock once per call.
- `DateTimeUtc::now()` is the parameter `now`, in nanoseconds since the Unix epoch.
- The chrono arithmetic behind `now + min_duration` is not part of this model; the model takes it as an exact sum in nanoseconds. Only the conversion to a Tendermint time can fail.
- `token.to_string().parse().expect("invalid token")` (actions.rs:163) is taken never to fail: the denomination is the token address itself.
- `IbcActions::execute` is a function parameter: any resulting storage, or any error.
- The MASP transaction's content and the `pin_key` argument are unused, as in the source.
