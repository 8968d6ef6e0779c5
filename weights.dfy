/**
 * The static price-weight table: each staked token is worth a fixed number of
 * ten-thousandths of the reference asset.
 */
module Weights {
  import opened Wrappers
  import opened Addresses

  /** Weights are numerators over this denominator: 10000 is 1.0x. */
  const DENOMINATOR: nat := 10000

  // The token addresses in their lower-cased form.
  const STETH: Address := "0x7b1fcd81f8b91c5ef3743c4d56bf7c1e52c93360"
  const METH: Address := "0xb5b8c247c740d53b6fbab10f1c17922788baed54"
  const WBETH: Address := "0x7f62b7a0a9848d5e261960ff4b4009206ad00bd5"
  const SWETH: Address := "0xbb68f4548a1c26b6611cbb8087c25a616edd8569"

  const LST_PRICE_MAP: map<Address, nat> :=
    map[STETH := DENOMINATOR, METH := 10240, WBETH := 10330, SWETH := 10530]

  /** The weight of a (lower-cased) token, or None for a token outside the table. */
  function WeightOf(token: Address): (w: Option<nat>)
    ensures w.Some? <==> token in {STETH, METH, WBETH, SWETH}
    ensures w.Some? ==> DENOMINATOR <= w.value <= 10530
  {
    if token in LST_PRICE_MAP then Some(LST_PRICE_MAP[token]) else None
  }

  /** The four token addresses are pairwise different, so no entry hides another. */
  lemma TokensDistinct()
    ensures STETH != METH && STETH != WBETH && STETH != SWETH
    ensures METH != WBETH && METH != SWETH && WBETH != SWETH
  {
    assert STETH[2] != METH[2] && STETH[3] != WBETH[3] && STETH[2] != SWETH[2];
    assert METH[2] != WBETH[2] && METH[3] != SWETH[3] && WBETH[2] != SWETH[2];
  }

  /** The table holds exactly the four configured weights. */
  lemma WeightTable()
    ensures WeightOf(STETH) == Some(10000)
    ensures WeightOf(METH) == Some(10240)
    ensures WeightOf(WBETH) == Some(10330)
    ensures WeightOf(SWETH) == Some(10530)
  {
    TokensDistinct();
  }
}
