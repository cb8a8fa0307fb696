// Scalar types, addresses and token amounts shared by every ledger component.
module Ledger {

  /** Rust's `u8`. */
  newtype u8 = x: int | 0 <= x < 0x100

  /** Rust's `u64`. */
  newtype u64 = x: int | 0 <= x < 0x1_0000_0000_0000_0000

  /** Rust's `NonZeroU64`: a `u64` that cannot hold zero. */
  type NonZeroU64 = x: u64 | x != 0 witness 1

  /** The largest token amount: `token::Amount` is an unsigned 256-bit integer. */
  const AMOUNT_MAX: int := 0xFFFFFFFFFFFFFFFFFFFFFFFFFFFFFFFFFFFFFFFFFFFFFFFFFFFFFFFFFFFFFFFF

  /** A raw token amount. */
  type Amount = a: int | 0 <= a <= AMOUNT_MAX

  datatype Option<+T> = None | Some(value: T) {
    function GetOr(default: T): T {
      match this
      case Some(v) => v
      case None => default
    }
  }

  /** The protocol's own internal accounts. */
  datatype InternalAddress = PoS | Parameters | Governance | Pgf | Ibc | EthBridge | EthBridgePool | Multitoken

  /** A ledger address. */
  datatype Address =
    | Established(hash: string)
    | Implicit(publicKeyHash: string)
    | Internal(internal: InternalAddress)

  /** The account of the public-goods-funding treasury (`pgf::ADDRESS`). */
  const PGF_ADDRESS: Address := Internal(Pgf)

  /** The identity recorded as minter of tokens minted by the IBC protocol. */
  const IBC_ADDRESS: Address := Internal(Ibc)

  /** An Ethereum address, as its bytes (the 20-byte length is not enforced here). */
  datatype EthAddress = EthAddress(bytes: seq<u8>)

  /** An amount together with its number of decimal places (`DenominatedAmount`). */
  datatype DenominatedAmount = DenominatedAmount(amount: Amount, denom: u8)

  /** An IBC event as buffered by the write log. */
  datatype IbcEvent = IbcEvent(eventType: string, attributes: map<string, string>)
}
