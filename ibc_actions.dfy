// The IBC protocol context: the storage interface the IBC handlers use while the ledger itself
// executes an IBC message (its event buffer, token transfers, mints and burns), and
// `transfer_over_ibc`, which builds the ICS-20 transfer message a PGF funding is paid with.
module IbcActions {
  import opened Ledger
  import opened GovernanceTypes
  import opened Storage
  import Token

  // ---- Event buffer ----

  /** The events of `events` whose type is `eventType`, in buffer order. */
  function EventsOfType(events: seq<IbcEvent>, eventType: string): (r: seq<IbcEvent>)
    ensures forall e :: e in r <==> e in events && e.eventType == eventType
    ensures |r| <= |events|
    decreases |events|
  {
    if events == [] then []
    else
      var n := |events|;
      var front := EventsOfType(events[..n - 1], eventType);
      assert events == events[..n - 1] + [events[n - 1]];
      if events[n - 1].eventType == eventType then front + [events[n - 1]] else front
  }

  /** Filtering distributes over appending: the order of the buffer is kept. */
  lemma {:induction false} EventsOfTypeAppend(a: seq<IbcEvent>, b: seq<IbcEvent>, eventType: string)
    ensures EventsOfType(a + b, eventType) == EventsOfType(a, eventType) + EventsOfType(b, eventType)
    decreases |b|
  {
    if b == [] {
      assert a + b == a;
    } else {
      var n := |b|;
      assert (a + b)[..|a + b| - 1] == a + b[..n - 1];
      assert (a + b)[|a + b| - 1] == b[n - 1];
      EventsOfTypeAppend(a, b[..n - 1], eventType);
    }
  }

  /** A MASP transaction; its content plays no part here. */
  datatype MaspTransaction = MaspTransaction(bytes: seq<u8>)

  /** `IbcProtocolContext`: the IBC storage context over the ledger's own storage. */
  class IbcProtocolContext {
    const wlStorage: WlStorage

    constructor (wlStorage: WlStorage)
      ensures this.wlStorage == wlStorage
    {
      this.wlStorage := wlStorage;
    }

    /** `emit_ibc_event`: buffer the event in the write log; never fails. */
    method EmitIbcEvent(event: IbcEvent) returns (r: Result<()>)
      modifies wlStorage
      ensures r == Ok(())
      ensures wlStorage.ibcEvents == old(wlStorage.ibcEvents) + [event]
      ensures wlStorage.kv == old(wlStorage.kv)
      ensures forall t :: GetIbcEvents(t) == Ok(EventsOfType(old(wlStorage.ibcEvents), t) + if event.eventType == t then [event] else [])
    {
      wlStorage.ibcEvents := wlStorage.ibcEvents + [event];
      forall t
        ensures GetIbcEvents(t) == Ok(EventsOfType(old(wlStorage.ibcEvents), t) + if event.eventType == t then [event] else [])
      {
        EventsOfTypeAppend(old(wlStorage.ibcEvents), [event], t);
      }
      return Ok(());
    }

    /** `get_ibc_events`: the buffered events of one type, in buffer order. */
    function GetIbcEvents(eventType: string): (r: Result<seq<IbcEvent>>)
      reads wlStorage
      ensures r.Ok?
      ensures forall e :: e in r.value <==> e in wlStorage.ibcEvents && e.eventType == eventType
    {
      Ok(EventsOfType(wlStorage.ibcEvents, eventType))
    }

    /** `transfer_token`: a token transfer of the raw amount, from `src` to `dest`. */
    method TransferToken(src: Address, dest: Address, token: Address, amount: DenominatedAmount) returns (r: Result<()>)
      modifies wlStorage
      ensures var t := Token.Transfer(old(wlStorage.kv), token, src, dest, amount.amount);
        && (r.Ok? <==> t.Ok?)
        && (t.Ok? ==> wlStorage.kv == t.value)
        && (t.Err? ==> r == Err(t.error) && wlStorage.kv == old(wlStorage.kv))
      ensures wlStorage.ibcEvents == old(wlStorage.ibcEvents)
    {
      var moved := Token.Transfer(wlStorage.kv, token, src, dest, amount.amount);
      if moved.Err? {
        return Err(moved.error);
      }
      wlStorage.kv := moved.value;
      return Ok(());
    }

    /** `handle_masp_tx`: shielded transfers are not supported in a protocol transaction. */
    method HandleMaspTx(shielded: MaspTransaction, pinKey: Option<string>) returns (r: Outcome<Result<()>>)
      ensures r == Panics(Unimplemented("No MASP transfer in an IBC protocol transaction"))
    {
      return Panics(Unimplemented("No MASP transfer in an IBC protocol transaction"));
    }

    /** `mint_token`: credit the raw amount to `target`, then record IBC as the token's minter. */
    method MintToken(target: Address, token: Address, amount: DenominatedAmount) returns (r: Result<()>)
      modifies wlStorage
      ensures var c := Token.CreditTokens(old(wlStorage.kv), token, target, amount.amount);
        && (r.Ok? <==> c.Ok?)
        && (c.Ok? ==> wlStorage.kv == c.value[MinterKey(token) := AddressValue(IBC_ADDRESS)])
        && (c.Err? ==> r == Err(c.error) && wlStorage.kv == old(wlStorage.kv))
      ensures wlStorage.ibcEvents == old(wlStorage.ibcEvents)
    {
      var credited := Token.CreditTokens(wlStorage.kv, token, target, amount.amount);
      if credited.Err? {
        return Err(credited.error);
      }
      wlStorage.kv := credited.value;
      wlStorage.WriteBytes(MinterKey(token), AddressValue(IBC_ADDRESS));
      return Ok(());
    }

    /** `burn_token`: remove the raw amount from `target` and from the supply. */
    method BurnToken(target: Address, token: Address, amount: DenominatedAmount) returns (r: Result<()>)
      modifies wlStorage
      ensures var b := Token.Burn(old(wlStorage.kv), token, target, amount.amount);
        && (r.Ok? <==> b.Ok?)
        && (b.Ok? ==> wlStorage.kv == b.value)
        && (b.Err? ==> r == Err(b.error) && wlStorage.kv == old(wlStorage.kv))
      ensures wlStorage.ibcEvents == old(wlStorage.ibcEvents)
    {
      var burnt := Token.Burn(wlStorage.kv, token, target, amount.amount);
      if burnt.Err? {
        return Err(burnt.error);
      }
      wlStorage.kv := burnt.value;
      return Ok(());
    }
  }

  /**
   * A mint through the context credits the target, grows the supply and names IBC as the
   * minter; a burn of the same amount then gives back the balance and the supply.
   */
  lemma MintThenBurn(kv: map<Key, Value>, token: Address, target: Address, amount: Amount)
    requires Token.CreditTokens(kv, token, target, amount).Ok?
    ensures var minted := Token.CreditTokens(kv, token, target, amount).value[MinterKey(token) := AddressValue(IBC_ADDRESS)];
      && Token.ReadBalance(minted, token, target) == Ok(Token.ReadBalance(kv, token, target).value + amount)
      && Token.ReadMinted(minted, token) == Ok(Token.ReadMinted(kv, token).value + amount)
      && minted[MinterKey(token)] == AddressValue(IBC_ADDRESS)
      && Token.Burn(minted, token, target, amount).Ok?
      && Token.ReadBalance(Token.Burn(minted, token, target, amount).value, token, target) == Token.ReadBalance(kv, token, target)
      && Token.ReadMinted(Token.Burn(minted, token, target, amount).value, token) == Token.ReadMinted(kv, token)
  {
    var credited := Token.CreditTokens(kv, token, target, amount).value;
    var minted := credited[MinterKey(token) := AddressValue(IBC_ADDRESS)];
    assert minted[BalanceKey(token, target)] == credited[BalanceKey(token, target)];
    assert minted[MintedBalanceKey(token)] == credited[MintedBalanceKey(token)];
  }

  // ---- transfer_over_ibc ----

  /** An ICS-20 coin: the token's denomination (the token address) and an amount. */
  datatype PrefixedCoin = PrefixedCoin(denom: Address, amount: Amount)

  /** ICS-20 packet data. */
  datatype PacketData = PacketData(token: PrefixedCoin, sender: Address, receiver: string, memo: string)

  /** Timeout height on the receiving chain. */
  datatype TimeoutHeight = Never | At(revisionNumber: u64, revisionHeight: u64)

  /** ICS-20 `MsgTransfer`; the timeout timestamp is in nanoseconds since the Unix epoch. */
  datatype MsgTransfer = MsgTransfer(
    portIdOnA: string,
    chanIdOnA: string,
    packetData: PacketData,
    timeoutHeightOnB: TimeoutHeight,
    timeoutTimestampOnB: int)

  const NANOS_PER_SEC: int := 1_000_000_000

  /** 0001-01-01T00:00:00Z, the earliest Tendermint time, in nanoseconds since the Unix epoch. */
  const TM_TIME_MIN: int := -62_135_596_800 * NANOS_PER_SEC

  /** 9999-12-31T23:59:59.999999999Z, the latest Tendermint time. */
  const TM_TIME_MAX: int := 253_402_300_799 * NANOS_PER_SEC + 999_999_999

  predicate InTendermintRange(t: int) {
    TM_TIME_MIN <= t <= TM_TIME_MAX
  }

  /**
   * `now + min_duration` as a Tendermint time: an error when the epoch duration cannot be
   * read or the sum is outside Tendermint's range.
   */
  function TimeoutTimestamp(kv: map<Key, Value>, now: int): (r: Result<int>)
    ensures EpochDurationKey !in kv ==> r == Err(ParameterMissing(EpochDurationKey))
    ensures EpochDurationKey in kv && !kv[EpochDurationKey].EpochDurationValue? ==> r == Err(DecodeFailed(EpochDurationKey))
    ensures EpochDurationKey in kv && kv[EpochDurationKey].EpochDurationValue? ==>
      var timeout := now + kv[EpochDurationKey].duration.minDurationSecs as int * NANOS_PER_SEC;
      r == if InTendermintRange(timeout) then Ok(timeout) else Err(TimestampOutOfRange)
  {
    var duration :- Read(kv, EpochDurationKey, AsEpochDuration);
    if duration.None? then Err(ParameterMissing(EpochDurationKey))
    else
      var timeout := now + duration.value.minDurationSecs as int * NANOS_PER_SEC;
      if InTendermintRange(timeout) then Ok(timeout) else Err(TimestampOutOfRange)
  }

  /** The timeout is never before `now`. */
  lemma TimeoutNotBeforeNow(kv: map<Key, Value>, now: int)
    requires TimeoutTimestamp(kv, now).Ok?
    ensures now <= TimeoutTimestamp(kv, now).value
    ensures TimeoutTimestamp(kv, now).value - now == kv[EpochDurationKey].duration.minDurationSecs as int * NANOS_PER_SEC
  {
  }

  /**
   * The transfer message for a PGF IBC funding: `source` sends `target.amount` of `token` to
   * `target.target` over the target's port and channel, with an empty memo, no timeout height
   * and the given timeout timestamp.
   */
  function BuildMsgTransfer(token: Address, source: Address, target: PgfIbcTarget, timeout: int): (m: MsgTransfer)
    ensures FundingOf(m) == target
    ensures m.packetData.token.denom == token && m.packetData.sender == source
    ensures m.packetData.memo == [] && m.timeoutHeightOnB == Never && m.timeoutTimestampOnB == timeout
  {
    MsgTransfer(
      target.portId,
      target.channelId,
      PacketData(PrefixedCoin(token, target.amount), source, target.target, ""),
      Never,
      timeout)
  }

  /** The funding a transfer message pays: receiver, amount, port and channel. */
  function FundingOf(m: MsgTransfer): PgfIbcTarget {
    PgfIbcTarget(m.packetData.receiver, m.packetData.token.amount, m.portIdOnA, m.chanIdOnA)
  }

  /** A message is fully determined by the token, the source, the funding and the timeout. */
  lemma BuildMsgTransferInjective(token: Address, source: Address, target: PgfIbcTarget, timeout: int,
                                  token': Address, source': Address, target': PgfIbcTarget, timeout': int)
    requires BuildMsgTransfer(token, source, target, timeout) == BuildMsgTransfer(token', source', target', timeout')
    ensures token == token' && source == source' && target == target' && timeout == timeout'
  {
    assert FundingOf(BuildMsgTransfer(token, source, target, timeout)) == target;
    assert FundingOf(BuildMsgTransfer(token', source', target', timeout')) == target';
  }

  /** The message handler (`IbcActions::execute`): the storage it leaves, or its error. */
  type ExecuteFn = (State, MsgTransfer) -> Result<State>

  /**
   * `transfer_over_ibc` on a storage value: the timeout, then one execution of the message.
   * With `now` and `execute` fixed it is the callback the PGF inflation pays IBC fundings with.
   */
  function IbcTransfer(st: State, token: Address, source: Address, target: PgfIbcTarget, now: int, execute: ExecuteFn): (r: Result<State>)
    ensures TimeoutTimestamp(st.kv, now).Err? ==> r == Err(TimeoutTimestamp(st.kv, now).error)
    ensures TimeoutTimestamp(st.kv, now).Ok? ==>
      r == execute(st, BuildMsgTransfer(token, source, target, TimeoutTimestamp(st.kv, now).value))
  {
    var timeout :- TimeoutTimestamp(st.kv, now);
    execute(st, BuildMsgTransfer(token, source, target, timeout))
  }

  /** `transfer_over_ibc`, updating the storage in place; a failure leaves it as it was. */
  method TransferOverIbc(storage: WlStorage, token: Address, source: Address, target: PgfIbcTarget, now: int, execute: ExecuteFn)
    returns (r: Result<()>)
    modifies storage
    ensures var spec := IbcTransfer(old(storage.Snapshot()), token, source, target, now, execute);
      && (r.Ok? <==> spec.Ok?)
      && (spec.Ok? ==> storage.Snapshot() == spec.value)
      && (spec.Err? ==> r == Err(spec.error) && storage.Snapshot() == old(storage.Snapshot()))
  {
    var timeout := TimeoutTimestamp(storage.kv, now);
    if timeout.Err? {
      return Err(timeout.error);
    }
    var message := BuildMsgTransfer(token, source, target, timeout.value);
    var executed := execute(storage.Snapshot(), message);
    if executed.Err? {
      return Err(executed.error);
    }
    storage.Become(executed.value);
    return Ok(());
  }
}
