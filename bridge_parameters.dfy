// The Ethereum bridge parameter store: writing the genesis configuration to storage
// and reading the oracle's part of it back.
module BridgeParameters {
  import opened Ledger
  import opened BridgeTypes
  import opened Storage

  /** Decimal places of the native token; a whitelisted native ERC20 must use exactly these. */
  const NATIVE_MAX_DECIMAL_PLACES: u8 := 6

  /** `From<EthereumBridgeParams> for EthereumOracleConfig`: drop the whitelist. */
  function OracleConfigFrom(p: EthereumBridgeParams): (r: EthereumOracleConfig)
    ensures r.ethStartHeight == p.ethStartHeight
    ensures r.minConfirmations == p.minConfirmations
    ensures r.contracts == p.contracts
  {
    EthereumOracleConfig(p.ethStartHeight, p.minConfirmations, p.contracts)
  }

  // ---------------------------------------------------------------------------
  // Writing the configuration (init_storage)

  /** The entry whitelists the native ERC20 with the wrong number of decimal places. */
  predicate WrongNativeDenomination(native: EthAddress, e: Erc20WhitelistEntry) {
    e.tokenAddress == native && e.tokenCap.denom != NATIVE_MAX_DECIMAL_PLACES
  }

  predicate HasWrongNativeDenomination(p: EthereumBridgeParams) {
    exists i :: 0 <= i < |p.erc20Whitelist| && WrongNativeDenomination(p.contracts.nativeErc20, p.erc20Whitelist[i])
  }

  /** Index of the first entry that makes `init_storage` abort. */
  function FirstWrongNativeDenomination(native: EthAddress, wl: seq<Erc20WhitelistEntry>): (i: nat)
    requires exists i :: 0 <= i < |wl| && WrongNativeDenomination(native, wl[i])
    ensures i < |wl| && WrongNativeDenomination(native, wl[i])
    ensures forall j :: 0 <= j < i ==> !WrongNativeDenomination(native, wl[j])
  {
    if WrongNativeDenomination(native, wl[0]) then 0
    else
      assert exists i :: 0 <= i < |wl[1..]| && WrongNativeDenomination(native, wl[1..][i]) by {
        var i :| 0 <= i < |wl| && WrongNativeDenomination(native, wl[i]);
        assert wl[1..][i - 1] == wl[i];
      }
      1 + FirstWrongNativeDenomination(native, wl[1..])
  }

  /** The five scalar writes, in the order `init_storage` performs them. */
  function WriteScalars(kv: map<Key, Value>, p: EthereumBridgeParams): map<Key, Value> {
    kv[BridgeActiveKey := BridgeStatusValue(Enabled(AtGenesis))]
      [MinConfirmationsKey := MinConfirmationsValue(p.minConfirmations)]
      [NativeErc20Key := EthAddressValue(p.contracts.nativeErc20)]
      [BridgeContractKey := ContractValue(p.contracts.bridge)]
      [EthStartHeightKey := BlockHeightValue(p.ethStartHeight)]
  }

  /** The three writes for one whitelist entry. */
  function WriteEntry(kv: map<Key, Value>, e: Erc20WhitelistEntry): map<Key, Value> {
    kv[WhitelistKey(e.tokenAddress, Whitelisted) := BoolValue(true)]
      [WhitelistKey(e.tokenAddress, Cap) := AmountValue(e.tokenCap.amount)]
      [WhitelistKey(e.tokenAddress, Denomination) := DenomValue(e.tokenCap.denom)]
  }

  /** The writes for the entries, first to last. */
  function WriteEntries(kv: map<Key, Value>, wl: seq<Erc20WhitelistEntry>): map<Key, Value>
    decreases |wl|
  {
    if wl == [] then kv else WriteEntry(WriteEntries(kv, wl[..|wl| - 1]), wl[|wl| - 1])
  }

  /** Storage after a complete `init_storage`. */
  function Initialized(kv: map<Key, Value>, p: EthereumBridgeParams): map<Key, Value> {
    WriteEntries(WriteScalars(kv, p), p.erc20Whitelist)
  }

  /** `EthereumBridgeParams::init_storage`. */
  method InitStorage(p: EthereumBridgeParams, storage: WlStorage) returns (r: Outcome<()>)
    modifies storage
    ensures storage.ibcEvents == old(storage.ibcEvents)
    ensures r.Returns? <==> !HasWrongNativeDenomination(p)
    ensures r.Returns? ==> storage.kv == Initialized(old(storage.kv), p)
    ensures r.Panics? ==>
      && r.reason == NativeErc20WrongDenomination
      && storage.kv == WriteEntries(WriteScalars(old(storage.kv), p),
           p.erc20Whitelist[..FirstWrongNativeDenomination(p.contracts.nativeErc20, p.erc20Whitelist)])
  {
    storage.WriteBytes(BridgeActiveKey, BridgeStatusValue(Enabled(AtGenesis)));
    storage.WriteBytes(MinConfirmationsKey, MinConfirmationsValue(p.minConfirmations));
    storage.WriteBytes(NativeErc20Key, EthAddressValue(p.contracts.nativeErc20));
    storage.WriteBytes(BridgeContractKey, ContractValue(p.contracts.bridge));
    storage.WriteBytes(EthStartHeightKey, BlockHeightValue(p.ethStartHeight));
    var native := p.contracts.nativeErc20;
    var wl := p.erc20Whitelist;
    var i := 0;
    while i < |wl|
      invariant 0 <= i <= |wl|
      invariant storage.kv == WriteEntries(WriteScalars(old(storage.kv), p), wl[..i])
      invariant storage.ibcEvents == old(storage.ibcEvents)
      invariant forall j :: 0 <= j < i ==> !WrongNativeDenomination(native, wl[j])
    {
      var e := wl[i];
      if e.tokenAddress == native && e.tokenCap.denom != NATIVE_MAX_DECIMAL_PLACES {
        return Panics(NativeErc20WrongDenomination);
      }
      storage.WriteBytes(WhitelistKey(e.tokenAddress, Whitelisted), BoolValue(true));
      storage.WriteBytes(WhitelistKey(e.tokenAddress, Cap), AmountValue(e.tokenCap.amount));
      storage.WriteBytes(WhitelistKey(e.tokenAddress, Denomination), DenomValue(e.tokenCap.denom));
      assert wl[..i + 1][..i] == wl[..i];
      i := i + 1;
    }
    assert wl[..i] == wl;
    r := Returns(());
  }

  // ---------------------------------------------------------------------------
  // What init_storage leaves in storage

  function WhitelistedAddresses(wl: seq<Erc20WhitelistEntry>): set<EthAddress> {
    set e | e in wl :: e.tokenAddress
  }

  /** The last entry for `a`: a later entry overwrites an earlier one's keys. */
  function LastEntryFor(wl: seq<Erc20WhitelistEntry>, a: EthAddress): (e: Erc20WhitelistEntry)
    requires a in WhitelistedAddresses(wl)
    ensures e.tokenAddress == a
    ensures exists i :: 0 <= i < |wl| && wl[i] == e && forall j :: i < j < |wl| ==> wl[j].tokenAddress != a
    decreases |wl|
  {
    var n := |wl|;
    if wl[n - 1].tokenAddress == a then wl[n - 1]
    else
      assert a in WhitelistedAddresses(wl[..n - 1]) by {
        var e :| e in wl && e.tokenAddress == a;
        var i :| 0 <= i < n && wl[i] == e;
        assert wl[..n - 1][i] == e;
      }
      var pre := wl[..n - 1];
      var e := LastEntryFor(pre, a);
      ghost var i :| 0 <= i < n - 1 && pre[i] == e && forall j :: i < j < n - 1 ==> pre[j].tokenAddress != a;
      assert wl[i] == e && forall j :: i < j < n ==> wl[j].tokenAddress != a;
      e
  }

  /** A key that `init_storage` writes for some whitelist entry. */
  predicate IsWhitelistKeyOf(k: Key, wl: seq<Erc20WhitelistEntry>) {
    k.WhitelistKey? && k.asset in WhitelistedAddresses(wl)
  }

  /** The whitelist writes touch nothing but the whitelist keys of the listed addresses. */
  lemma {:induction false} WriteEntriesFrame(kv: map<Key, Value>, wl: seq<Erc20WhitelistEntry>, k: Key)
    requires !IsWhitelistKeyOf(k, wl)
    ensures k in WriteEntries(kv, wl) <==> k in kv
    ensures k in kv ==> WriteEntries(kv, wl)[k] == kv[k]
    decreases |wl|
  {
    if wl != [] {
      var n := |wl|;
      assert WhitelistedAddresses(wl[..n - 1]) <= WhitelistedAddresses(wl) by {
        forall a | a in WhitelistedAddresses(wl[..n - 1]) ensures a in WhitelistedAddresses(wl) {
          var e :| e in wl[..n - 1] && e.tokenAddress == a;
          assert e in wl;
        }
      }
      WriteEntriesFrame(kv, wl[..n - 1], k);
      assert wl[n - 1] in wl;
    }
  }

  /** After the whitelist writes, each listed address is whitelisted with its last entry's cap. */
  lemma {:induction false} WriteEntriesWhitelist(kv: map<Key, Value>, wl: seq<Erc20WhitelistEntry>, a: EthAddress)
    requires a in WhitelistedAddresses(wl)
    ensures var w := WriteEntries(kv, wl); var e := LastEntryFor(wl, a);
      && WhitelistKey(a, Whitelisted) in w && w[WhitelistKey(a, Whitelisted)] == BoolValue(true)
      && WhitelistKey(a, Cap) in w && w[WhitelistKey(a, Cap)] == AmountValue(e.tokenCap.amount)
      && WhitelistKey(a, Denomination) in w && w[WhitelistKey(a, Denomination)] == DenomValue(e.tokenCap.denom)
    decreases |wl|
  {
    var n := |wl|;
    if wl[n - 1].tokenAddress != a {
      assert a in WhitelistedAddresses(wl[..n - 1]) by {
        var e :| e in wl && e.tokenAddress == a;
        var i :| 0 <= i < n && wl[i] == e;
        assert wl[..n - 1][i] == e;
      }
      WriteEntriesWhitelist(kv, wl[..n - 1], a);
    }
  }

  /** After `init_storage`, the five scalar keys hold the bridge status and the parameters. */
  lemma InitializedScalars(kv: map<Key, Value>, p: EthereumBridgeParams)
    ensures var w := Initialized(kv, p);
      && BridgeActiveKey in w && w[BridgeActiveKey] == BridgeStatusValue(Enabled(AtGenesis))
      && MinConfirmationsKey in w && w[MinConfirmationsKey] == MinConfirmationsValue(p.minConfirmations)
      && NativeErc20Key in w && w[NativeErc20Key] == EthAddressValue(p.contracts.nativeErc20)
      && BridgeContractKey in w && w[BridgeContractKey] == ContractValue(p.contracts.bridge)
      && EthStartHeightKey in w && w[EthStartHeightKey] == BlockHeightValue(p.ethStartHeight)
  {
    var s := WriteScalars(kv, p);
    WriteEntriesFrame(s, p.erc20Whitelist, BridgeActiveKey);
    WriteEntriesFrame(s, p.erc20Whitelist, MinConfirmationsKey);
    WriteEntriesFrame(s, p.erc20Whitelist, NativeErc20Key);
    WriteEntriesFrame(s, p.erc20Whitelist, BridgeContractKey);
    WriteEntriesFrame(s, p.erc20Whitelist, EthStartHeightKey);
  }

  /** After `init_storage`, every listed token is whitelisted with the cap and denomination of its last entry. */
  lemma InitializedWhitelist(kv: map<Key, Value>, p: EthereumBridgeParams, a: EthAddress)
    requires a in WhitelistedAddresses(p.erc20Whitelist)
    ensures var w := Initialized(kv, p); var e := LastEntryFor(p.erc20Whitelist, a);
      && WhitelistKey(a, Whitelisted) in w && w[WhitelistKey(a, Whitelisted)] == BoolValue(true)
      && WhitelistKey(a, Cap) in w && w[WhitelistKey(a, Cap)] == AmountValue(e.tokenCap.amount)
      && WhitelistKey(a, Denomination) in w && w[WhitelistKey(a, Denomination)] == DenomValue(e.tokenCap.denom)
  {
    WriteEntriesWhitelist(WriteScalars(kv, p), p.erc20Whitelist, a);
  }

  /** `init_storage` changes no key other than the scalar keys and the listed tokens' whitelist keys. */
  lemma InitializedFrame(kv: map<Key, Value>, p: EthereumBridgeParams, k: Key)
    requires !IsWhitelistKeyOf(k, p.erc20Whitelist)
    requires k !in {BridgeActiveKey, MinConfirmationsKey, NativeErc20Key, BridgeContractKey, EthStartHeightKey}
    ensures k in Initialized(kv, p) <==> k in kv
    ensures k in kv ==> Initialized(kv, p)[k] == kv[k]
  {
    WriteEntriesFrame(WriteScalars(kv, p), p.erc20Whitelist, k);
  }

  // ---------------------------------------------------------------------------
  // Reading the configuration back

  /**
   * Whether the bridge is active under `status` in `currentEpoch` (`is_bridge_active`):
   * enabled at genesis, or enabled at an epoch already reached.
   */
  predicate IsBridgeActive(status: EthBridgeStatus, currentEpoch: u64) {
    match status
    case Disabled => false
    case Enabled(AtGenesis) => true
    case Enabled(AtEpoch(e)) => e <= currentEpoch
  }

  /** `must_read_key`: the decoded value, or an abort that tells a missing key from an undecodable one. */
  function MustReadKey<T>(kv: map<Key, Value>, key: Key, decode: Value -> Option<T>): (r: Outcome<T>)
    ensures r.Returns? <==> key in kv && decode(kv[key]).Some?
    ensures r.Returns? ==> decode(kv[key]) == Some(r.value)
    ensures key !in kv ==> r == Panics(PartiallyConfigured(key))
    ensures key in kv && decode(kv[key]).None? ==> r == Panics(CouldNotRead(key))
  {
    match Read(kv, key, decode)
    case Err(_) => Panics(CouldNotRead(key))
    case Ok(None) => Panics(PartiallyConfigured(key))
    case Ok(Some(v)) => Returns(v)
  }

  /** The active key holds a status under which the bridge is not active. */
  predicate StoredInactive(kv: map<Key, Value>, currentEpoch: u64) {
    BridgeActiveKey in kv && AsBridgeStatus(kv[BridgeActiveKey]).Some?
    && !IsBridgeActive(AsBridgeStatus(kv[BridgeActiveKey]).value, currentEpoch)
  }

  /** The active key holds a status under which the bridge is active. */
  predicate StoredActive(kv: map<Key, Value>, currentEpoch: u64) {
    BridgeActiveKey in kv && AsBridgeStatus(kv[BridgeActiveKey]).Some?
    && IsBridgeActive(AsBridgeStatus(kv[BridgeActiveKey]).value, currentEpoch)
  }

  /** Each of the four oracle keys is present and decodes. */
  predicate OracleKeysDecode(kv: map<Key, Value>) {
    && MinConfirmationsKey in kv && AsMinConfirmations(kv[MinConfirmationsKey]).Some?
    && NativeErc20Key in kv && AsEthAddress(kv[NativeErc20Key]).Some?
    && BridgeContractKey in kv && AsContract(kv[BridgeContractKey]).Some?
    && EthStartHeightKey in kv && AsBlockHeight(kv[EthStartHeightKey]).Some?
  }

  /** The four oracle keys hold exactly the fields of `c`. */
  predicate StoresOracleConfig(kv: map<Key, Value>, c: EthereumOracleConfig) {
    && MinConfirmationsKey in kv && kv[MinConfirmationsKey] == MinConfirmationsValue(c.minConfirmations)
    && NativeErc20Key in kv && kv[NativeErc20Key] == EthAddressValue(c.contracts.nativeErc20)
    && BridgeContractKey in kv && kv[BridgeContractKey] == ContractValue(c.contracts.bridge)
    && EthStartHeightKey in kv && kv[EthStartHeightKey] == BlockHeightValue(c.ethStartHeight)
  }

  /**
   * `EthereumOracleConfig::read`: `None` when the bridge was never bootstrapped or is not
   * active, the stored configuration when it is, and an abort when it is active but the
   * storage is corrupt or only partially written.
   */
  function ReadOracleConfig(kv: map<Key, Value>, currentEpoch: u64): (r: Outcome<Option<EthereumOracleConfig>>)
    ensures r == Returns(None) <==> BridgeActiveKey !in kv || StoredInactive(kv, currentEpoch)
    ensures r.Returns? && r.value.Some? <==> StoredActive(kv, currentEpoch) && OracleKeysDecode(kv)
    ensures r.Returns? && r.value.Some? ==> StoresOracleConfig(kv, r.value.value)
    ensures r.Panics? <==>
      BridgeActiveKey in kv && (AsBridgeStatus(kv[BridgeActiveKey]).None? || (StoredActive(kv, currentEpoch) && !OracleKeysDecode(kv)))
  {
    if BridgeActiveKey !in kv then Returns(None)
    else match AsBridgeStatus(kv[BridgeActiveKey])
      case None => Panics(BridgeStatusUnreadable)
      case Some(status) =>
        if !IsBridgeActive(status, currentEpoch) then Returns(None)
        else
          var minConfirmations :- MustReadKey(kv, MinConfirmationsKey, AsMinConfirmations);
          var nativeErc20 :- MustReadKey(kv, NativeErc20Key, AsEthAddress);
          var bridgeContract :- MustReadKey(kv, BridgeContractKey, AsContract);
          var ethStartHeight :- MustReadKey(kv, EthStartHeightKey, AsBlockHeight);
          Returns(Some(EthereumOracleConfig(ethStartHeight, minConfirmations, Contracts(nativeErc20, bridgeContract))))
  }

  /** While the bridge is not active, reading consults the active key only. */
  lemma InactiveReadIgnoresOtherKeys(kv1: map<Key, Value>, kv2: map<Key, Value>, currentEpoch: u64)
    requires BridgeActiveKey in kv1 <==> BridgeActiveKey in kv2
    requires BridgeActiveKey in kv1 ==> kv1[BridgeActiveKey] == kv2[BridgeActiveKey]
    requires BridgeActiveKey !in kv1 || StoredInactive(kv1, currentEpoch)
    ensures ReadOracleConfig(kv1, currentEpoch) == ReadOracleConfig(kv2, currentEpoch) == Returns(None)
  {
  }

  /** Writing the parameters and reading them back yields their oracle projection. */
  lemma InitThenRead(kv: map<Key, Value>, p: EthereumBridgeParams, currentEpoch: u64)
    ensures ReadOracleConfig(Initialized(kv, p), currentEpoch) == Returns(Some(OracleConfigFrom(p)))
  {
    InitializedScalars(kv, p);
  }

  /** An undecodable confirmations value after initialization aborts the read ("Could not read"). */
  lemma CorruptConfirmationsAbortRead(kv: map<Key, Value>, p: EthereumBridgeParams, currentEpoch: u64)
    ensures ReadOracleConfig(Initialized(kv, p)[MinConfirmationsKey := Undecodable([42, 1, 2, 3, 4])], currentEpoch)
         == Panics(CouldNotRead(MinConfirmationsKey))
  {
    InitializedScalars(kv, p);
  }

  /** An active bridge with only the confirmations written aborts on the first missing key. */
  lemma PartialConfigurationAbortsRead(currentEpoch: u64)
    ensures ReadOracleConfig(map[BridgeActiveKey := BridgeStatusValue(Enabled(AtGenesis)),
                                 MinConfirmationsKey := MinConfirmationsValue(DefaultMinimumConfirmations())], currentEpoch)
         == Panics(PartiallyConfigured(NativeErc20Key))
  {
  }

  /** `read_native_erc20_address`: an error, never an abort, when the address is missing or unreadable. */
  function ReadNativeErc20Address(kv: map<Key, Value>): (r: Result<EthAddress>)
    ensures NativeErc20Key !in kv ==> r == Err(NativeErc20NotInitialized)
    ensures r.Ok? <==> NativeErc20Key in kv && AsEthAddress(kv[NativeErc20Key]).Some?
    ensures r.Ok? ==> kv[NativeErc20Key] == EthAddressValue(r.value)
    ensures NativeErc20Key in kv && r.Err? ==> r.error == NativeErc20ReadFailed(DecodeFailed(NativeErc20Key))
  {
    match Read(kv, NativeErc20Key, AsEthAddress)
    case Ok(Some(a)) => Ok(a)
    case Ok(None) => Err(NativeErc20NotInitialized)
    case Err(e) => Err(NativeErc20ReadFailed(e))
  }

  /** After initialization the native ERC20 address reads back. */
  lemma InitThenReadNativeErc20(kv: map<Key, Value>, p: EthereumBridgeParams)
    ensures ReadNativeErc20Address(Initialized(kv, p)) == Ok(p.contracts.nativeErc20)
  {
    InitializedScalars(kv, p);
  }
}
