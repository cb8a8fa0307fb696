// Token balance primitives the bridge, PGF and IBC modules call: credit (mint), transfer and burn.
// A primitive that fails returns an error and no new storage: a failed call changes nothing.
module Token {
  import opened Ledger
  import opened Storage

  /** The balance of `owner` in `token`: zero when never written. */
  function ReadBalance(kv: map<Key, Value>, token: Address, owner: Address): (r: Result<Amount>)
    ensures BalanceKey(token, owner) !in kv ==> r == Ok(0)
  {
    var b :- Read(kv, BalanceKey(token, owner), AsAmount);
    Ok(b.GetOr(0))
  }

  /** The total minted supply of `token`: zero when never written. */
  function ReadMinted(kv: map<Key, Value>, token: Address): (r: Result<Amount>)
    ensures MintedBalanceKey(token) !in kv ==> r == Ok(0)
  {
    var m :- Read(kv, MintedBalanceKey(token), AsAmount);
    Ok(m.GetOr(0))
  }

  /** Only the given keys differ between `kv` and `kv'`. */
  ghost predicate OnlyChanged(kv: map<Key, Value>, kv': map<Key, Value>, keys: set<Key>) {
    kv'.Keys == kv.Keys + keys && forall k :: k in kv && k !in keys ==> kv'[k] == kv[k]
  }

  /** `credit_tokens`: add `amount` to the balance of `dest` and to the minted supply. */
  function CreditTokens(kv: map<Key, Value>, token: Address, dest: Address, amount: Amount): (r: Result<map<Key, Value>>)
    ensures r.Ok? ==>
      && ReadBalance(kv, token, dest).Ok? && ReadMinted(kv, token).Ok?
      && ReadBalance(r.value, token, dest) == Ok(ReadBalance(kv, token, dest).value + amount)
      && ReadMinted(r.value, token) == Ok(ReadMinted(kv, token).value + amount)
      && OnlyChanged(kv, r.value, {BalanceKey(token, dest), MintedBalanceKey(token)})
  {
    var balance :- ReadBalance(kv, token, dest);
    if balance + amount > AMOUNT_MAX then Err(BalanceOverflow(token, dest))
    else
      var supply :- ReadMinted(kv, token);
      if supply + amount > AMOUNT_MAX then Err(SupplyOverflow(token))
      else Ok(kv[BalanceKey(token, dest) := AmountValue(balance + amount)]
                [MintedBalanceKey(token) := AmountValue(supply + amount)])
  }

  /** `transfer`: move `amount` of `token` from `src` to `dest`. */
  function Transfer(kv: map<Key, Value>, token: Address, src: Address, dest: Address, amount: Amount): (r: Result<map<Key, Value>>)
    ensures r.Ok? && src != dest && amount != 0 ==>
      && ReadBalance(kv, token, src).Ok? && ReadBalance(kv, token, dest).Ok?
      && ReadBalance(r.value, token, src) == Ok(ReadBalance(kv, token, src).value - amount)
      && ReadBalance(r.value, token, dest) == Ok(ReadBalance(kv, token, dest).value + amount)
      && OnlyChanged(kv, r.value, {BalanceKey(token, src), BalanceKey(token, dest)})
    ensures r.Ok? && (src == dest || amount == 0) ==> r.value == kv
  {
    if amount == 0 then Ok(kv)
    else
      var from :- ReadBalance(kv, token, src);
      if from < amount then Err(InsufficientBalance(token, src))
      else if src == dest then Ok(kv)
      else
        var to :- ReadBalance(kv, token, dest);
        if to + amount > AMOUNT_MAX then Err(BalanceOverflow(token, dest))
        else Ok(kv[BalanceKey(token, src) := AmountValue(from - amount)]
                  [BalanceKey(token, dest) := AmountValue(to + amount)])
  }

  /** `burn`: remove `amount` from the balance of `target` and from the minted supply. */
  function Burn(kv: map<Key, Value>, token: Address, target: Address, amount: Amount): (r: Result<map<Key, Value>>)
    ensures r.Ok? ==>
      && ReadBalance(kv, token, target).Ok? && ReadMinted(kv, token).Ok?
      && ReadBalance(r.value, token, target) == Ok(ReadBalance(kv, token, target).value - amount)
      && ReadMinted(r.value, token) == Ok(ReadMinted(kv, token).value - amount)
      && OnlyChanged(kv, r.value, {BalanceKey(token, target), MintedBalanceKey(token)})
  {
    var balance :- ReadBalance(kv, token, target);
    if balance < amount then Err(InsufficientBalance(token, target))
    else
      var supply :- ReadMinted(kv, token);
      if supply < amount then Err(SupplyUnderflow(token))
      else Ok(kv[BalanceKey(token, target) := AmountValue(balance - amount)]
                [MintedBalanceKey(token) := AmountValue(supply - amount)])
  }
}
