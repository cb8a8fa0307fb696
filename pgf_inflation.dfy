// Public-goods-funding inflation (`apply_inflation`): once per epoch, mint the PGF share of
// the native token into the PGF account, pay the continuous fundings from it oldest first,
// then mint each steward's share of the steward inflation to the addresses it names.
// A payment that fails is skipped; only reads, the PGF mint and the decimal arithmetic can
// end the run early.
module PgfInflation {
  import opened Ledger
  import opened Decimal
  import opened GovernanceTypes
  import opened Storage
  import Token

  /**
   * The `transfer_over_ibc` callback: pay an IBC funding of the given token from the given
   * account, giving back the storage it leaves or an error.
   */
  type IbcTransferFn = (State, Address, Address, PgfIbcTarget) -> Result<State>

  /** How far a run gets: it goes on with a value, stops with a returned error, or aborts. */
  datatype Step<+T> = Continue(value: T) | Stop(error: Error) | Abort(panic: Panic) {
    predicate IsFailure() { !Continue? }
    function PropagateFailure<U>(): Step<U> requires !Continue? {
      if Stop? then Stop(error) else Abort(panic)
    }
    function Extract(): T requires Continue? { value }
  }

  function OrStop<T>(r: Result<T>): Step<T> {
    match r
    case Ok(v) => Continue(v)
    case Err(e) => Stop(e)
  }

  function OrAbort<T>(o: Option<T>, p: Panic): Step<T> {
    match o
    case Some(v) => Continue(v)
    case None => Abort(p)
  }

  /** `storage.read(key)?.expect(..)`: an error when the value does not decode, an abort when it is missing. */
  function ReadExpect<T>(kv: map<Key, Value>, key: Key, decode: Value -> Option<T>): (r: Step<T>)
    ensures r.Continue? <==> key in kv && decode(kv[key]).Some?
    ensures r.Continue? ==> Some(r.value) == decode(kv[key])
    ensures key !in kv <==> r == Abort(ValueMissing(key))
    ensures r.Stop? <==> key in kv && decode(kv[key]).None?
    ensures r.Stop? ==> r.error == DecodeFailed(key)
  {
    match Read(kv, key, decode)
    case Err(e) => Stop(e)
    case Ok(None) => Abort(ValueMissing(key))
    case Ok(Some(v)) => Continue(v)
  }

  /** `get_native_token`: the address stored as the native token; an error when absent. */
  function ReadNativeToken(kv: map<Key, Value>): (r: Result<Address>)
    ensures r.Ok? <==> NativeTokenKey in kv && kv[NativeTokenKey].AddressValue?
    ensures r.Ok? ==> kv[NativeTokenKey] == AddressValue(r.value)
    ensures NativeTokenKey !in kv ==> r == Err(NativeTokenMissing)
  {
    var token :- Read(kv, NativeTokenKey, AsAddress);
    if token.None? then Err(NativeTokenMissing) else Ok(token.value)
  }

  /** `get_payments`: the stored continuous fundings; none when never written. */
  function ReadFundings(kv: map<Key, Value>): (r: Result<seq<StoragePgfFunding>>)
    ensures PgfFundingsKey !in kv ==> r == Ok([])
    ensures PgfFundingsKey in kv ==> (r.Ok? <==> kv[PgfFundingsKey].FundingsValue?)
    ensures r.Ok? && PgfFundingsKey in kv ==> kv[PgfFundingsKey] == FundingsValue(r.value)
  {
    var fundings :- Read(kv, PgfFundingsKey, AsFundings);
    Ok(fundings.GetOr([]))
  }

  /** `get_stewards`: the stored stewards; none when never written. */
  function ReadStewards(kv: map<Key, Value>): (r: Result<seq<StewardDetail>>)
    ensures PgfStewardsKey !in kv ==> r == Ok([])
    ensures PgfStewardsKey in kv ==> (r.Ok? <==> kv[PgfStewardsKey].StewardsValue?)
    ensures r.Ok? && PgfStewardsKey in kv ==> kv[PgfStewardsKey] == StewardsValue(r.value)
  {
    var stewards :- Read(kv, PgfStewardsKey, AsStewards);
    Ok(stewards.GetOr([]))
  }

  /**
   * `Dec::from(total) * (rate / Dec::from(epochs_per_year))`: one epoch's share of a yearly
   * rate applied to the supply; `None` where the unchecked decimal operators abort.
   */
  function PerEpochInflation(rate: Dec, total: Amount, epochsPerYear: u64): (r: Option<Dec>)
    ensures epochsPerYear == 0 ==> r.None?
    ensures r.Some? ==> FromAmount(total).Some? && CheckedDiv(rate, FromU64(epochsPerYear)).Some?
  {
    var perEpochRate := CheckedDiv(rate, FromU64(epochsPerYear));
    var supply := FromAmount(total);
    if perEpochRate.None? || supply.None? then None
    else CheckedMul(supply.value, perEpochRate.value)
  }

  /** What the first part of the run reads and computes before minting. */
  datatype Setup = Setup(token: Address, totalTokens: Amount, epochsPerYear: u64, stewardsRate: Dec, pgfMint: Amount)

  /** Both inflation rates are stored as decimals. */
  predicate RatesStored(kv: map<Key, Value>) {
    && PgfInflationRateKey in kv && kv[PgfInflationRateKey].DecValue?
    && StewardsInflationRateKey in kv && kv[StewardsInflationRateKey].DecValue?
  }

  /** Every value the setup reads is stored and decodes. */
  predicate SetupStored(kv: map<Key, Value>) {
    && RatesStored(kv)
    && ReadNativeToken(kv).Ok?
    && EpochsPerYearKey in kv && kv[EpochsPerYearKey].U64Value?
    && MintedBalanceKey(ReadNativeToken(kv).value) in kv
    && kv[MintedBalanceKey(ReadNativeToken(kv).value)].AmountValue?
  }

  /** The per-epoch PGF inflation computed from the stored values. */
  function StoredPgfInflation(kv: map<Key, Value>): Option<Dec>
    requires SetupStored(kv)
  {
    PerEpochInflation(kv[PgfInflationRateKey].dec, kv[MintedBalanceKey(ReadNativeToken(kv).value)].amount,
                      kv[EpochsPerYearKey].n)
  }

  /**
   * Read the rates, the native token, the epochs per year and the token's total supply, and
   * compute the PGF mint: the integer part of the per-epoch PGF inflation. The reads happen in
   * that order; a missing `.expect` value aborts, an undecodable one is a returned error.
   */
  function ReadSetup(kv: map<Key, Value>): (r: Step<Setup>)
    ensures r.Continue? ==>
      && ReadNativeToken(kv) == Ok(r.value.token)
      && MintedBalanceKey(r.value.token) in kv && EpochsPerYearKey in kv
      && StewardsInflationRateKey in kv && PgfInflationRateKey in kv
      && kv[MintedBalanceKey(r.value.token)] == AmountValue(r.value.totalTokens)
      && kv[EpochsPerYearKey] == U64Value(r.value.epochsPerYear)
      && r.value.epochsPerYear != 0
      && kv[StewardsInflationRateKey] == DecValue(r.value.stewardsRate)
      && kv[PgfInflationRateKey].DecValue?
      && var perEpoch := PerEpochInflation(kv[PgfInflationRateKey].dec, r.value.totalTokens, r.value.epochsPerYear);
         perEpoch.Some? && ToAmount(perEpoch.value) == Some(r.value.pgfMint)
    ensures EpochsPerYearKey in kv && kv[EpochsPerYearKey] == U64Value(0) ==> !r.Continue?
    ensures PgfInflationRateKey !in kv ==> r == Abort(ValueMissing(PgfInflationRateKey))
    ensures PgfInflationRateKey in kv && !kv[PgfInflationRateKey].DecValue? ==> r == Stop(DecodeFailed(PgfInflationRateKey))
    ensures PgfInflationRateKey in kv && kv[PgfInflationRateKey].DecValue? ==>
      && (StewardsInflationRateKey !in kv ==> r == Abort(ValueMissing(StewardsInflationRateKey)))
      && (StewardsInflationRateKey in kv && !kv[StewardsInflationRateKey].DecValue? ==>
            r == Stop(DecodeFailed(StewardsInflationRateKey)))
    ensures RatesStored(kv) && ReadNativeToken(kv).Err? ==> r == Stop(ReadNativeToken(kv).error)
    ensures RatesStored(kv) && ReadNativeToken(kv).Ok? ==>
      && (EpochsPerYearKey !in kv ==> r == Abort(ValueMissing(EpochsPerYearKey)))
      && (EpochsPerYearKey in kv && !kv[EpochsPerYearKey].U64Value? ==> r == Stop(DecodeFailed(EpochsPerYearKey)))
    ensures RatesStored(kv) && ReadNativeToken(kv).Ok? && EpochsPerYearKey in kv && kv[EpochsPerYearKey].U64Value? ==>
      var supplyKey := MintedBalanceKey(ReadNativeToken(kv).value);
      && (supplyKey !in kv ==> r == Abort(ValueMissing(supplyKey)))
      && (supplyKey in kv && !kv[supplyKey].AmountValue? ==> r == Stop(DecodeFailed(supplyKey)))
    ensures SetupStored(kv) ==>
      && (StoredPgfInflation(kv).None? ==> r == Abort(DecimalArithmetic))
      && (StoredPgfInflation(kv).Some? && StoredPgfInflation(kv).value.raw < 0 ==> r == Abort(NegativeAmount))
      && (StoredPgfInflation(kv).Some? && StoredPgfInflation(kv).value.raw >= 0 ==> r.Continue?)
  {
    var pgfRate :- ReadExpect(kv, PgfInflationRateKey, AsDec);
    var stewardsRate :- ReadExpect(kv, StewardsInflationRateKey, AsDec);
    var token :- OrStop(ReadNativeToken(kv));
    var epochsPerYear :- ReadExpect(kv, EpochsPerYearKey, AsU64);
    var total :- ReadExpect(kv, MintedBalanceKey(token), AsAmount);
    var inflation :- OrAbort(PerEpochInflation(pgfRate, total, epochsPerYear), DecimalArithmetic);
    var mint :- OrAbort(ToAmount(inflation), NegativeAmount);
    Continue(Setup(token, total, epochsPerYear, stewardsRate, mint))
  }

  // ---- Payments ----

  /** One scheduled payment: a continuous funding, or a steward reward to mint. */
  datatype Payout = Fund(funding: StoragePgfFunding) | Reward(recipient: Address, amount: Amount)

  /**
   * Attempt one payment from the PGF account: an internal funding is a transfer, an IBC
   * funding goes through the callback, a reward is a mint to its recipient.
   */
  function Attempt(st: State, token: Address, p: Payout, transferOverIbc: IbcTransferFn): (r: Result<State>)
    ensures p.Fund? && p.funding.detail.Internal? ==>
      var t := p.funding.detail.internal;
      r == (match Token.Transfer(st.kv, token, PGF_ADDRESS, t.target, t.amount)
            case Ok(kv) => Ok(st.(kv := kv))
            case Err(e) => Err(e))
    ensures p.Fund? && p.funding.detail.Ibc? ==> r == transferOverIbc(st, token, PGF_ADDRESS, p.funding.detail.ibc)
    ensures p.Reward? ==> (r.Ok? <==> Token.CreditTokens(st.kv, token, p.recipient, p.amount).Ok?)
    ensures p.Reward? && r.Ok? ==>
      r.value.ibcEvents == st.ibcEvents
      && Token.CreditTokens(st.kv, token, p.recipient, p.amount) == Ok(r.value.kv)
  {
    match p
    case Fund(funding) =>
      (match funding.detail
       case Internal(t) =>
         var kv :- Token.Transfer(st.kv, token, PGF_ADDRESS, t.target, t.amount);
         Ok(st.(kv := kv))
       case Ibc(t) => transferOverIbc(st, token, PGF_ADDRESS, t))
    case Reward(recipient, amount) =>
      var kv :- Token.CreditTokens(st.kv, token, recipient, amount);
      Ok(st.(kv := kv))
  }

  /** A payment whose attempt fails leaves the storage as it was. */
  function Settle(st: State, token: Address, p: Payout, transferOverIbc: IbcTransferFn): (r: State)
    ensures Attempt(st, token, p, transferOverIbc).Ok? ==> r == Attempt(st, token, p, transferOverIbc).value
    ensures Attempt(st, token, p, transferOverIbc).Err? ==> r == st
  {
    match Attempt(st, token, p, transferOverIbc)
    case Ok(s) => s
    case Err(_) => st
  }

  /** Attempt every payment once, in order; a failure is logged and the next one is tried. */
  function PayAll(st: State, token: Address, ps: seq<Payout>, transferOverIbc: IbcTransferFn): State
    decreases |ps|
  {
    if ps == [] then st
    else Settle(PayAll(st, token, ps[..|ps| - 1], transferOverIbc), token, ps[|ps| - 1], transferOverIbc)
  }

  /** Paying `a` then `b` is paying `a + b`. */
  lemma {:induction false} PayAllAppend(st: State, token: Address, a: seq<Payout>, b: seq<Payout>, transferOverIbc: IbcTransferFn)
    ensures PayAll(st, token, a + b, transferOverIbc) == PayAll(PayAll(st, token, a, transferOverIbc), token, b, transferOverIbc)
    decreases |b|
  {
    if b == [] {
      assert a + b == a;
    } else {
      var front, last := b[..|b| - 1], b[|b| - 1];
      assert b == front + [last];
      assert a + b == (a + front) + [last];
      PayAllAppend(st, token, a, front, transferOverIbc);
      PayAllSnoc(st, token, a + front, last, transferOverIbc);
      PayAllSnoc(PayAll(st, token, a, transferOverIbc), token, front, last, transferOverIbc);
    }
  }

  /** Paying one more payment settles it on top of what the others left. */
  lemma PayAllSnoc(st: State, token: Address, ps: seq<Payout>, p: Payout, transferOverIbc: IbcTransferFn)
    ensures PayAll(st, token, ps + [p], transferOverIbc) == Settle(PayAll(st, token, ps, transferOverIbc), token, p, transferOverIbc)
  {
    assert (ps + [p])[..|ps|] == ps;
  }

  /** A payment that fails is skipped: the run ends as if it had never been scheduled. */
  lemma FailedPayoutIsSkipped(st: State, token: Address, ps: seq<Payout>, k: nat, transferOverIbc: IbcTransferFn)
    requires k < |ps|
    requires Attempt(PayAll(st, token, ps[..k], transferOverIbc), token, ps[k], transferOverIbc).Err?
    ensures PayAll(st, token, ps, transferOverIbc) == PayAll(st, token, ps[..k] + ps[k + 1..], transferOverIbc)
  {
    assert ps == ps[..k + 1] + ps[k + 1..];
    assert ps[..k + 1][..k] == ps[..k];
    PayAllAppend(st, token, ps[..k + 1], ps[k + 1..], transferOverIbc);
    PayAllAppend(st, token, ps[..k], ps[k + 1..], transferOverIbc);
  }

  // ---- Fundings, oldest first ----

  predicate SortedById(fs: seq<StoragePgfFunding>) {
    forall i, j :: 0 <= i < j < |fs| ==> fs[i].id <= fs[j].id
  }

  /** Insert `f` after every funding whose id is at most its own, keeping equal ids in arrival order. */
  function InsertById(sorted: seq<StoragePgfFunding>, f: StoragePgfFunding): (r: seq<StoragePgfFunding>)
    requires SortedById(sorted)
    ensures SortedById(r)
    ensures |r| == |sorted| + 1
    ensures multiset(r) == multiset(sorted) + multiset{f}
    ensures forall x :: x in r <==> x in sorted || x == f
    decreases |sorted|
  {
    if sorted == [] || sorted[|sorted| - 1].id <= f.id then sorted + [f]
    else
      var n := |sorted|;
      var last := sorted[n - 1];
      var front := InsertById(sorted[..n - 1], f);
      assert sorted == sorted[..n - 1] + [last];
      assert forall x :: x in front ==> x.id <= last.id;
      front + [last]
  }

  /** `sort_by(|a, b| a.id.cmp(&b.id))`: a stable sort by id, oldest funding first. */
  function SortById(fs: seq<StoragePgfFunding>): (r: seq<StoragePgfFunding>)
    ensures SortedById(r)
    ensures |r| == |fs|
    ensures multiset(r) == multiset(fs)
    decreases |fs|
  {
    if fs == [] then []
    else
      var n := |fs|;
      assert fs == fs[..n - 1] + [fs[n - 1]];
      InsertById(SortById(fs[..n - 1]), fs[n - 1])
  }

  function FundingPayouts(fs: seq<StoragePgfFunding>): (ps: seq<Payout>)
    ensures |ps| == |fs|
    ensures forall k :: 0 <= k < |fs| ==> ps[k] == Fund(fs[k])
  {
    seq(|fs|, k requires 0 <= k < |fs| => Fund(fs[k]))
  }

  // ---- Steward rewards ----

  /**
   * `pool.checked_mul(&percentage).unwrap_or_default()` then `Amount::from`: the integer part
   * of the steward's share, zero when the product overflows; `None` (an abort) when negative.
   */
  function RewardAmount(pool: Dec, percentage: Dec): (r: Option<Amount>)
    ensures CheckedMul(pool, percentage).None? ==> r == Some(0)
    ensures r.None? <==> CheckedMul(pool, percentage).Some? && CheckedMul(pool, percentage).value.raw < 0
    ensures r.Some? && CheckedMul(pool, percentage).Some? ==>
      r.value * SCALE <= CheckedMul(pool, percentage).value.raw < (r.value + 1) * SCALE
  {
    ToAmount(CheckedMul(pool, percentage).GetOr(ZERO))
  }

  /** Every share of every steward converts to an amount without aborting. */
  /** Every share of one steward converts to an amount. */
  predicate SharesConvertible(dist: seq<(Address, Dec)>, pool: Dec) {
    forall j :: 0 <= j < |dist| ==> RewardAmount(pool, dist[j].1).Some?
  }

  /** Every share of every steward converts to an amount. */
  predicate RewardsConvertible(stewards: seq<StewardDetail>, pool: Dec) {
    forall i :: 0 <= i < |stewards| ==> SharesConvertible(stewards[i].rewardDistribution, pool)
  }

  /** The rewards of one steward, in the iteration order of its distribution. */
  function DistributionPayouts(dist: seq<(Address, Dec)>, pool: Dec): (ps: seq<Payout>)
    requires SharesConvertible(dist, pool)
    ensures |ps| == |dist|
    ensures forall j :: 0 <= j < |dist| ==> ps[j] == Reward(dist[j].0, RewardAmount(pool, dist[j].1).value)
  {
    seq(|dist|, j requires 0 <= j < |dist| => Reward(dist[j].0, RewardAmount(pool, dist[j].1).value))
  }

  /** Number of shares held by the first `i` stewards. */
  function SharesBefore(stewards: seq<StewardDetail>, i: nat): nat
    requires i <= |stewards|
  {
    if i == 0 then 0 else SharesBefore(stewards, i - 1) + |stewards[i - 1].rewardDistribution|
  }

  /** All steward rewards, steward after steward. */
  function StewardPayouts(stewards: seq<StewardDetail>, pool: Dec): seq<Payout>
    requires RewardsConvertible(stewards, pool)
    decreases |stewards|
  {
    if stewards == [] then []
    else
      var n := |stewards|;
      FrontConvertible(stewards, pool);
      StewardPayouts(stewards[..n - 1], pool) + DistributionPayouts(stewards[n - 1].rewardDistribution, pool)
  }

  lemma {:induction false} SharesBeforePrefix(stewards: seq<StewardDetail>, n: nat, i: nat)
    requires i <= n <= |stewards|
    ensures SharesBefore(stewards[..n], i) == SharesBefore(stewards, i)
  {
    if i > 0 {
      SharesBeforePrefix(stewards, n, i - 1);
    }
  }

  /** All steward rewards are rewards, one per share. */
  lemma {:induction false} StewardPayoutsAreRewards(stewards: seq<StewardDetail>, pool: Dec)
    requires RewardsConvertible(stewards, pool)
    ensures |StewardPayouts(stewards, pool)| == SharesBefore(stewards, |stewards|)
    ensures forall k :: 0 <= k < |StewardPayouts(stewards, pool)| ==> StewardPayouts(stewards, pool)[k].Reward?
    decreases |stewards|
  {
    if stewards != [] {
      var n := |stewards|;
      var front := stewards[..n - 1];
      FrontConvertible(stewards, pool);
      StewardPayoutsAreRewards(front, pool);
      SharesBeforePrefix(stewards, n - 1, n - 1);
    }
  }

  lemma FrontConvertible(stewards: seq<StewardDetail>, pool: Dec)
    requires stewards != [] && RewardsConvertible(stewards, pool)
    ensures RewardsConvertible(stewards[..|stewards| - 1], pool)
    ensures SharesConvertible(stewards[|stewards| - 1].rewardDistribution, pool)
  {
    var front := stewards[..|stewards| - 1];
    forall i, j | 0 <= i < |front| && 0 <= j < |front[i].rewardDistribution|
      ensures RewardAmount(pool, front[i].rewardDistribution[j].1).Some?
    {
      assert front[i] == stewards[i];
    }
  }

  /**
   * Share `j` of steward `i` is paid exactly once: at position `SharesBefore(i) + j` of the
   * steward rewards, to its own address and for its own fraction of the pool.
   */
  lemma {:induction false} StewardPayoutAt(stewards: seq<StewardDetail>, pool: Dec, i: nat, j: nat)
    requires RewardsConvertible(stewards, pool)
    requires i < |stewards| && j < |stewards[i].rewardDistribution|
    ensures SharesBefore(stewards, i) + j < |StewardPayouts(stewards, pool)|
    ensures StewardPayouts(stewards, pool)[SharesBefore(stewards, i) + j]
      == Reward(stewards[i].rewardDistribution[j].0, RewardAmount(pool, stewards[i].rewardDistribution[j].1).value)
    decreases |stewards|
  {
    var n := |stewards|;
    var front := stewards[..n - 1];
    var last := stewards[n - 1].rewardDistribution;
    FrontConvertible(stewards, pool);
    StewardPayoutsAreRewards(front, pool);
    SharesBeforePrefix(stewards, n - 1, n - 1);
    var ps := StewardPayouts(stewards, pool);
    assert ps == StewardPayouts(front, pool) + DistributionPayouts(last, pool);
    if i < n - 1 {
      StewardPayoutAt(front, pool, i, j);
      SharesBeforePrefix(stewards, n - 1, i);
      assert front[i] == stewards[i];
    } else {
      assert ps[SharesBefore(stewards, i) + j] == DistributionPayouts(last, pool)[j];
    }
  }

  // ---- The whole run ----

  /**
   * How a run ends and the storage it leaves. `state` is meaningful only when the run returns:
   * after an abort the ledger discards the storage, so the model does not track what a
   * partial payment round wrote before it.
   */
  datatype Run = Run(outcome: Outcome<Result<()>>, state: State)

  /**
   * `apply_inflation` as one function of the storage it starts from: setup, PGF mint, fundings
   * by ascending id, then steward rewards from the supply read before the mint.
   */
  function Inflation(st: State, transferOverIbc: IbcTransferFn): (r: Run)
    ensures !ReadSetup(st.kv).Continue? ==> r.state == st && r.outcome != Returns(Ok(()))
    ensures r.outcome == Returns(Ok(())) ==>
      && ReadSetup(st.kv).Continue?
      && var s := ReadSetup(st.kv).value;
      && Token.CreditTokens(st.kv, s.token, PGF_ADDRESS, s.pgfMint).Ok?
      && PerEpochInflation(s.stewardsRate, s.totalTokens, s.epochsPerYear).Some?
  {
    match ReadSetup(st.kv)
    case Abort(p) => Run(Panics(p), st)
    case Stop(e) => Run(Returns(Err(e)), st)
    case Continue(s) =>
      match Token.CreditTokens(st.kv, s.token, PGF_ADDRESS, s.pgfMint)
      case Err(e) => Run(Returns(Err(e)), st)
      case Ok(kv) =>
        var minted := st.(kv := kv);
        match ReadFundings(kv)
        case Err(e) => Run(Returns(Err(e)), minted)
        case Ok(fundings) =>
          var funded := PayAll(minted, s.token, FundingPayouts(SortById(fundings)), transferOverIbc);
          match ReadStewards(funded.kv)
          case Err(e) => Run(Returns(Err(e)), funded)
          case Ok(stewards) =>
            match PerEpochInflation(s.stewardsRate, s.totalTokens, s.epochsPerYear)
            case None => Run(Panics(DecimalArithmetic), funded)
            case Some(pool) =>
              if !RewardsConvertible(stewards, pool) then Run(Panics(NegativeAmount), funded)
              else Run(Returns(Ok(())), PayAll(funded, s.token, StewardPayouts(stewards, pool), transferOverIbc))
  }

  /**
   * When the reads, the PGF mint and the arithmetic succeed, the run returns `Ok` whatever the
   * payments do, and its storage is that of one schedule: every funding in ascending id
   * order, then every steward reward, all paid from the storage the PGF mint left.
   */
  lemma InflationSchedule(st: State, transferOverIbc: IbcTransferFn, s: Setup, kv: map<Key, Value>,
                          fundings: seq<StoragePgfFunding>, stewards: seq<StewardDetail>, pool: Dec)
    requires ReadSetup(st.kv) == Continue(s)
    requires Token.CreditTokens(st.kv, s.token, PGF_ADDRESS, s.pgfMint) == Ok(kv)
    requires ReadFundings(kv) == Ok(fundings)
    requires ReadStewards(PayAll(st.(kv := kv), s.token, FundingPayouts(SortById(fundings)), transferOverIbc).kv) == Ok(stewards)
    requires PerEpochInflation(s.stewardsRate, s.totalTokens, s.epochsPerYear) == Some(pool)
    requires RewardsConvertible(stewards, pool)
    ensures Inflation(st, transferOverIbc).outcome == Returns(Ok(()))
    ensures Inflation(st, transferOverIbc).state
      == PayAll(st.(kv := kv), s.token, FundingPayouts(SortById(fundings)) + StewardPayouts(stewards, pool), transferOverIbc)
  {
    PayAllAppend(st.(kv := kv), s.token, FundingPayouts(SortById(fundings)), StewardPayouts(stewards, pool), transferOverIbc);
  }

  /** The schedule starts with the fundings in ascending id order; rewards come after all of them. */
  lemma ScheduleOrder(fundings: seq<StoragePgfFunding>, stewards: seq<StewardDetail>, pool: Dec)
    requires RewardsConvertible(stewards, pool)
    ensures var schedule := FundingPayouts(SortById(fundings)) + StewardPayouts(stewards, pool);
      && (forall k :: 0 <= k < |fundings| ==> schedule[k].Fund?)
      && (forall k, l :: 0 <= k < l < |fundings| ==> schedule[k].funding.id <= schedule[l].funding.id)
      && (forall k :: |fundings| <= k < |schedule| ==> schedule[k].Reward?)
      && multiset(SortById(fundings)) == multiset(fundings)
  {
    StewardPayoutsAreRewards(stewards, pool);
  }

  /** The PGF account is credited before anything is paid; a failed mint stops the run with nothing written. */
  lemma MintBeforePayments(st: State, transferOverIbc: IbcTransferFn)
    requires ReadSetup(st.kv).Continue?
    ensures var s := ReadSetup(st.kv).value;
      var mint := Token.CreditTokens(st.kv, s.token, PGF_ADDRESS, s.pgfMint);
      && (mint.Err? ==> Inflation(st, transferOverIbc) == Run(Returns(Err(mint.error)), st))
      && (mint.Ok? ==>
            && Token.ReadBalance(mint.value, s.token, PGF_ADDRESS) == Ok(Token.ReadBalance(st.kv, s.token, PGF_ADDRESS).value + s.pgfMint)
            && Token.ReadMinted(mint.value, s.token) == Ok(s.totalTokens + s.pgfMint))
  {
    var s := ReadSetup(st.kv).value;
    assert Token.ReadMinted(st.kv, s.token) == Ok(s.totalTokens);
  }

  /** Zero epochs per year aborts the run before anything is written. */
  lemma ZeroEpochsPerYearAborts(st: State, transferOverIbc: IbcTransferFn)
    requires ReadNativeToken(st.kv).Ok?
    requires PgfInflationRateKey in st.kv && st.kv[PgfInflationRateKey].DecValue?
    requires StewardsInflationRateKey in st.kv && st.kv[StewardsInflationRateKey].DecValue?
    requires EpochsPerYearKey in st.kv && st.kv[EpochsPerYearKey] == U64Value(0)
    requires MintedBalanceKey(ReadNativeToken(st.kv).value) in st.kv
    requires st.kv[MintedBalanceKey(ReadNativeToken(st.kv).value)].AmountValue?
    ensures Inflation(st, transferOverIbc) == Run(Panics(DecimalArithmetic), st)
  {
  }

  /** Attempt one funding from the PGF account; a failed attempt leaves the storage as it was. */
  method PayFunding(storage: WlStorage, token: Address, funding: StoragePgfFunding, transferOverIbc: IbcTransferFn)
    modifies storage
    ensures storage.Snapshot() == Settle(old(storage.Snapshot()), token, Fund(funding), transferOverIbc)
  {
    var result: Result<State>;
    match funding.detail {
      case Internal(target) =>
        var kv := Token.Transfer(storage.kv, token, PGF_ADDRESS, target.target, target.amount);
        result := if kv.Ok? then Ok(storage.Snapshot().(kv := kv.value)) else Err(kv.error);
      case Ibc(target) =>
        result := transferOverIbc(storage.Snapshot(), token, PGF_ADDRESS, target);
    }
    if result.Ok? {
      storage.Become(result.value);
    }
  }

  /** One more funding paid: the schedule of the first `i + 1` fundings ends with funding `i`. */
  lemma FundingStep(start: State, token: Address, fundings: seq<StoragePgfFunding>, i: nat, transferOverIbc: IbcTransferFn)
    requires i < |fundings|
    ensures PayAll(start, token, FundingPayouts(fundings[..i + 1]), transferOverIbc)
      == Settle(PayAll(start, token, FundingPayouts(fundings[..i]), transferOverIbc), token, Fund(fundings[i]), transferOverIbc)
  {
    assert FundingPayouts(fundings[..i + 1]) == FundingPayouts(fundings[..i]) + [Fund(fundings[i])];
    PayAllSnoc(start, token, FundingPayouts(fundings[..i]), Fund(fundings[i]), transferOverIbc);
  }

  /** The funding loop: attempt each funding once, in the given order. */
  method PayFundings(storage: WlStorage, token: Address, fundings: seq<StoragePgfFunding>, transferOverIbc: IbcTransferFn)
    modifies storage
    ensures storage.Snapshot() == PayAll(old(storage.Snapshot()), token, FundingPayouts(fundings), transferOverIbc)
  {
    ghost var start := storage.Snapshot();
    var i := 0;
    while i < |fundings|
      invariant 0 <= i <= |fundings|
      invariant storage.Snapshot() == PayAll(start, token, FundingPayouts(fundings[..i]), transferOverIbc)
    {
      PayFunding(storage, token, fundings[i], transferOverIbc);
      FundingStep(start, token, fundings, i, transferOverIbc);
      i := i + 1;
    }
    assert fundings[..i] == fundings;
  }

  /**
   * The inner steward loop: mint each share of one steward; `false` (an abort in the ledger)
   * at the first share that does not convert to an amount.
   */
  method PayShares(storage: WlStorage, token: Address, dist: seq<(Address, Dec)>, pool: Dec, transferOverIbc: IbcTransferFn) returns (converted: bool)
    modifies storage
    ensures converted <==> SharesConvertible(dist, pool)
    ensures converted ==> storage.Snapshot() == PayAll(old(storage.Snapshot()), token, DistributionPayouts(dist, pool), transferOverIbc)
  {
    ghost var start := storage.Snapshot();
    var j := 0;
    while j < |dist|
      invariant 0 <= j <= |dist|
      invariant SharesConvertible(dist[..j], pool)
      invariant storage.Snapshot() == PayAll(start, token, DistributionPayouts(dist[..j], pool), transferOverIbc)
    {
      var (address, percentage) := dist[j];
      var reward := RewardAmount(pool, percentage);
      if reward.None? {
        assert !RewardAmount(pool, dist[j].1).Some?;
        return false;
      }
      ShareStep(start, token, dist, pool, j, transferOverIbc);
      PayReward(storage, token, address, reward.value, transferOverIbc);
      j := j + 1;
    }
    assert dist[..j] == dist;
    return true;
  }
  /** Mint one reward to its recipient; a failed credit leaves the storage as it was. */
  method PayReward(storage: WlStorage, token: Address, recipient: Address, amount: Amount, transferOverIbc: IbcTransferFn)
    modifies storage
    ensures storage.Snapshot() == Settle(old(storage.Snapshot()), token, Reward(recipient, amount), transferOverIbc)
  {
    SettleReward(storage.Snapshot(), token, recipient, amount, transferOverIbc);
    var credited := Token.CreditTokens(storage.kv, token, recipient, amount);
    if credited.Ok? {
      storage.kv := credited.value;
    }
  }

  /** One more share paid: the schedule of the first `j + 1` shares ends with share `j`'s reward. */
  lemma ShareStep(start: State, token: Address, dist: seq<(Address, Dec)>, pool: Dec, j: nat, transferOverIbc: IbcTransferFn)
    requires j < |dist| && SharesConvertible(dist[..j], pool) && RewardAmount(pool, dist[j].1).Some?
    ensures SharesConvertible(dist[..j + 1], pool)
    ensures PayAll(start, token, DistributionPayouts(dist[..j + 1], pool), transferOverIbc)
      == Settle(PayAll(start, token, DistributionPayouts(dist[..j], pool), transferOverIbc),
                token, Reward(dist[j].0, RewardAmount(pool, dist[j].1).value), transferOverIbc)
  {
    assert SharesConvertible(dist[..j + 1], pool) by {
      assert forall m :: 0 <= m < j ==> dist[..j + 1][m] == dist[..j][m];
    }
    var done := DistributionPayouts(dist[..j], pool);
    var p := Reward(dist[j].0, RewardAmount(pool, dist[j].1).value);
    assert DistributionPayouts(dist[..j + 1], pool) == done + [p];
    PayAllSnoc(start, token, done, p, transferOverIbc);
  }

  /** Settling a reward is a credit that is kept when it succeeds. */
  lemma SettleReward(st: State, token: Address, recipient: Address, amount: Amount, transferOverIbc: IbcTransferFn)
    ensures var c := Token.CreditTokens(st.kv, token, recipient, amount);
      Settle(st, token, Reward(recipient, amount), transferOverIbc) == if c.Ok? then st.(kv := c.value) else st
  {
  }

  /** One more steward paid: the schedule of the first `k + 1` stewards ends with steward `k`'s shares. */
  lemma StewardStep(start: State, token: Address, stewards: seq<StewardDetail>, pool: Dec, k: nat, transferOverIbc: IbcTransferFn)
    requires k < |stewards| && RewardsConvertible(stewards[..k], pool)
    requires SharesConvertible(stewards[k].rewardDistribution, pool)
    ensures RewardsConvertible(stewards[..k + 1], pool)
    ensures PayAll(start, token, StewardPayouts(stewards[..k + 1], pool), transferOverIbc)
      == PayAll(PayAll(start, token, StewardPayouts(stewards[..k], pool), transferOverIbc),
                token, DistributionPayouts(stewards[k].rewardDistribution, pool), transferOverIbc)
  {
    var upTo := stewards[..k + 1];
    assert upTo[..k] == stewards[..k];
    assert RewardsConvertible(upTo, pool) by {
      forall i | 0 <= i < k + 1
        ensures SharesConvertible(upTo[i].rewardDistribution, pool)
      {
        if i < k {
          assert upTo[i] == stewards[..k][i];
        }
      }
    }
    PayAllAppend(start, token, StewardPayouts(stewards[..k], pool),
                 DistributionPayouts(stewards[k].rewardDistribution, pool), transferOverIbc);
  }

  /** One steward whose shares do not all convert makes the whole steward round abort. */
  lemma UnconvertibleSteward(stewards: seq<StewardDetail>, pool: Dec, k: nat)
    requires k < |stewards| && !SharesConvertible(stewards[k].rewardDistribution, pool)
    ensures !RewardsConvertible(stewards, pool)
  {
  }

  /** The steward loop: every share of every steward, steward after steward. */
  method PayStewards(storage: WlStorage, token: Address, stewards: seq<StewardDetail>, pool: Dec, transferOverIbc: IbcTransferFn)
    returns (converted: bool)
    modifies storage
    ensures converted <==> RewardsConvertible(stewards, pool)
    ensures converted ==> storage.Snapshot() == PayAll(old(storage.Snapshot()), token, StewardPayouts(stewards, pool), transferOverIbc)
  {
    ghost var start := storage.Snapshot();
    var k := 0;
    while k < |stewards|
      invariant 0 <= k <= |stewards|
      invariant RewardsConvertible(stewards[..k], pool)
      invariant storage.Snapshot() == PayAll(start, token, StewardPayouts(stewards[..k], pool), transferOverIbc)
    {
      var dist := stewards[k].rewardDistribution;
      converted := PayShares(storage, token, dist, pool, transferOverIbc);
      if !converted {
        UnconvertibleSteward(stewards, pool, k);
        return;
      }
      StewardStep(start, token, stewards, pool, k, transferOverIbc);
      k := k + 1;
    }
    assert stewards[..k] == stewards;
    return true;
  }

  /** `apply_inflation`, updating the storage in place. */
  method ApplyInflation(storage: WlStorage, transferOverIbc: IbcTransferFn) returns (r: Outcome<Result<()>>)
    modifies storage
    ensures r == Inflation(old(storage.Snapshot()), transferOverIbc).outcome
    ensures r.Returns? ==> storage.Snapshot() == Inflation(old(storage.Snapshot()), transferOverIbc).state
  {
    var setup := ReadSetup(storage.kv);
    if setup.Abort? {
      return Panics(setup.panic);
    }
    if setup.Stop? {
      return Returns(Err(setup.error));
    }
    var s := setup.value;

    var minted := Token.CreditTokens(storage.kv, s.token, PGF_ADDRESS, s.pgfMint);
    if minted.Err? {
      return Returns(Err(minted.error));
    }
    storage.kv := minted.value;

    var fundings := ReadFundings(storage.kv);
    if fundings.Err? {
      return Returns(Err(fundings.error));
    }
    PayFundings(storage, s.token, SortById(fundings.value), transferOverIbc);

    var stewards := ReadStewards(storage.kv);
    if stewards.Err? {
      return Returns(Err(stewards.error));
    }
    var pool := PerEpochInflation(s.stewardsRate, s.totalTokens, s.epochsPerYear);
    if pool.None? {
      return Panics(DecimalArithmetic);
    }
    var converted := PayStewards(storage, s.token, stewards.value, pool.value, transferOverIbc);
    if !converted {
      return Panics(NegativeAmount);
    }
    return Returns(Ok(()));
  }
}
