/**
 * The weighted points ledger: one Point per account, kept in a keyed store,
 * and the Transfer handler that debits the sender and credits the receiver
 * with the transfer's weighted shares and their time-weighted amount.
 */
module Points {
  import opened Wrappers
  import opened Addresses
  import opened Weights

  /** The per-account record; `address` is its key in the store. */
  datatype Point = Point(address: Address, balance: int, timeWeightAmountIn: int, timeWeightAmountOut: int)

  /** The keyed entity store: canonical address to Point. */
  type Store = map<Address, Point>

  /** One ERC-20 Transfer event, with the fields the handler reads. */
  datatype TransferEvent = TransferEvent(token: Address, from: Address, to: Address, value: nat, timestamp: nat)

  datatype Error = UnknownTokenWeight(token: Address)

  /** What one transfer moves: weighted shares and timestamp times those shares. */
  datatype Amounts = Amounts(shares: nat, increase: nat)

  /** `value * weight / DENOMINATOR`, multiplying first and rounding down. */
  function WeightedShares(value: nat, weight: nat): (s: nat)
    ensures s * DENOMINATOR <= value * weight < (s + 1) * DENOMINATOR
    ensures weight == DENOMINATOR ==> s == value
    ensures weight >= DENOMINATOR ==> s >= value
  {
    value * weight / DENOMINATOR
  }

  /** The amounts of an event, or the error when its token has no weight. */
  function TransferAmounts(e: TransferEvent): (r: Result<Amounts, Error>)
    ensures r.Failure? <==> WeightOf(ToLowerCase(e.token)).None?
    ensures r.Failure? ==> r.error == UnknownTokenWeight(ToLowerCase(e.token))
    ensures r.Success? ==>
              var w := WeightOf(ToLowerCase(e.token)).value;
              && r.value.shares * DENOMINATOR <= e.value * w < (r.value.shares + 1) * DENOMINATOR
              && r.value.increase == e.timestamp * r.value.shares
  {
    var token := ToLowerCase(e.token);
    match WeightOf(token)
    case None => Failure(UnknownTokenWeight(token))
    case Some(w) =>
      var shares := WeightedShares(e.value, w);
      Success(Amounts(shares, e.timestamp * shares))
  }

  /** A fresh record for `a`: zero balance and zero sums. */
  function NewPoint(a: Address): Point {
    Point(a, 0, 0, 0)
  }

  /** The record load-or-create yields for key `k`. */
  function Lookup(m: Store, k: Address): Point {
    if k in m then m[k] else NewPoint(k)
  }

  /** The sender's update: balance down by the shares, out-sum up by the increase. */
  function Debit(m: Store, k: Address, a: Amounts): (r: Store)
    ensures r.Keys == m.Keys + {k}
    ensures forall j :: j in m && j != k ==> r[j] == m[j]
    ensures r[k].address == Lookup(m, k).address
    ensures r[k].balance == Lookup(m, k).balance - a.shares
    ensures r[k].timeWeightAmountIn == Lookup(m, k).timeWeightAmountIn
    ensures r[k].timeWeightAmountOut == Lookup(m, k).timeWeightAmountOut + a.increase
  {
    var p := Lookup(m, k);
    m[k := p.(timeWeightAmountOut := p.timeWeightAmountOut + a.increase, balance := p.balance - a.shares)]
  }

  /** The receiver's update: balance up by the shares, in-sum up by the increase. */
  function Credit(m: Store, k: Address, a: Amounts): (r: Store)
    ensures r.Keys == m.Keys + {k}
    ensures forall j :: j in m && j != k ==> r[j] == m[j]
    ensures r[k].address == Lookup(m, k).address
    ensures r[k].balance == Lookup(m, k).balance + a.shares
    ensures r[k].timeWeightAmountIn == Lookup(m, k).timeWeightAmountIn + a.increase
    ensures r[k].timeWeightAmountOut == Lookup(m, k).timeWeightAmountOut
  {
    var p := Lookup(m, k);
    m[k := p.(timeWeightAmountIn := p.timeWeightAmountIn + a.increase, balance := p.balance + a.shares)]
  }

  /** The store after one Transfer event, or the error that aborts it. */
  function Apply(m: Store, e: TransferEvent): Result<Store, Error> {
    match TransferAmounts(e)
    case Failure(err) => Failure(err)
    case Success(a) =>
      var from, to := ToLowerCase(e.from), ToLowerCase(e.to);
      var m1 := if from != ADDRESS_ZERO then Debit(m, from, a) else m;
      var m2 := if to != ADDRESS_ZERO then Credit(m1, to, a) else m1;
      Success(m2)
  }

  /**
   * The invariant of a store built only by the handler: every key is a
   * canonical, non-zero address, each record sits under its own address,
   * and both time-weighted sums are non-negative.
   */
  ghost predicate LedgerInvariant(m: Store) {
    forall k :: k in m ==>
      && IsCanonical(k) && k != ADDRESS_ZERO
      && m[k].address == k
      && m[k].timeWeightAmountIn >= 0 && m[k].timeWeightAmountOut >= 0
  }

  /** The sender update keeps the invariant for a canonical non-zero key. */
  lemma DebitKeepsInvariant(m: Store, k: Address, a: Amounts)
    requires LedgerInvariant(m) && IsCanonical(k) && k != ADDRESS_ZERO
    ensures LedgerInvariant(Debit(m, k, a))
  {
    var m' := Debit(m, k, a);
    forall j | j in m'
      ensures IsCanonical(j) && j != ADDRESS_ZERO && m'[j].address == j
      ensures m'[j].timeWeightAmountIn >= 0 && m'[j].timeWeightAmountOut >= 0
    {
      if j != k {
        assert m'[j] == m[j];
      }
    }
  }

  /** The receiver update keeps the invariant for a canonical non-zero key. */
  lemma CreditKeepsInvariant(m: Store, k: Address, a: Amounts)
    requires LedgerInvariant(m) && IsCanonical(k) && k != ADDRESS_ZERO
    ensures LedgerInvariant(Credit(m, k, a))
  {
    var m' := Credit(m, k, a);
    forall j | j in m'
      ensures IsCanonical(j) && j != ADDRESS_ZERO && m'[j].address == j
      ensures m'[j].timeWeightAmountIn >= 0 && m'[j].timeWeightAmountOut >= 0
    {
      if j != k {
        assert m'[j] == m[j];
      }
    }
  }

  /** The handler keeps the ledger invariant; in particular the zero address never gets a record. */
  lemma InvariantPreserved(m: Store, e: TransferEvent)
    requires LedgerInvariant(m)
    requires Apply(m, e).Success?
    ensures LedgerInvariant(Apply(m, e).value)
    ensures ADDRESS_ZERO !in Apply(m, e).value
  {
    var a := TransferAmounts(e).value;
    var from, to := ToLowerCase(e.from), ToLowerCase(e.to);
    var m1 := if from != ADDRESS_ZERO then Debit(m, from, a) else m;
    if from != ADDRESS_ZERO {
      DebitKeepsInvariant(m, from, a);
    }
    assert LedgerInvariant(m1);
    if to != ADDRESS_ZERO {
      CreditKeepsInvariant(m1, to, a);
    }
    assert Apply(m, e).value == if to != ADDRESS_ZERO then Credit(m1, to, a) else m1;
  }
}
