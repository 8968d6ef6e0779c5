/** Properties of the Transfer handler, stated on its specification `Points.Apply`. */
module LedgerProperties {
  import opened Wrappers
  import opened Addresses
  import opened Weights
  import opened Points

  // ---------------------------------------------------------------------
  // Sum of balances over a store

  ghost function BalanceOver(m: Store, keys: set<Address>): int
    requires keys <= m.Keys
    decreases keys
  {
    if keys == {} then 0 else var k :| k in keys; m[k].balance + BalanceOver(m, keys - {k})
  }

  /** The sum of every account's balance. */
  ghost function TotalBalance(m: Store): int {
    BalanceOver(m, m.Keys)
  }

  /** Any key can be taken out of the sum first. */
  lemma {:induction false} BalanceOverRemove(m: Store, keys: set<Address>, k: Address)
    requires keys <= m.Keys && k in keys
    ensures BalanceOver(m, keys) == m[k].balance + BalanceOver(m, keys - {k})
    decreases keys
  {
    var j :| j in keys && BalanceOver(m, keys) == m[j].balance + BalanceOver(m, keys - {j});
    if j != k {
      BalanceOverRemove(m, keys - {j}, k);
      BalanceOverRemove(m, keys - {k}, j);
      assert keys - {j} - {k} == keys - {k} - {j};
    }
  }

  /** The sum only depends on the balances of the summed keys. */
  lemma {:induction false} BalanceOverAgree(m1: Store, m2: Store, keys: set<Address>)
    requires keys <= m1.Keys && keys <= m2.Keys
    requires forall k :: k in keys ==> m1[k].balance == m2[k].balance
    ensures BalanceOver(m1, keys) == BalanceOver(m2, keys)
    decreases keys
  {
    if keys != {} {
      var j :| j in keys && BalanceOver(m1, keys) == m1[j].balance + BalanceOver(m1, keys - {j});
      BalanceOverRemove(m2, keys, j);
      BalanceOverAgree(m1, m2, keys - {j});
    }
  }

  /** Writing one record changes the total by the difference of the two balances. */
  lemma TotalBalanceUpdate(m: Store, k: Address, p: Point)
    ensures TotalBalance(m[k := p]) == TotalBalance(m) - Lookup(m, k).balance + p.balance
  {
    var m' := m[k := p];
    var rest := m.Keys - {k};
    BalanceOverRemove(m', m'.Keys, k);
    assert m'.Keys - {k} == rest;
    BalanceOverAgree(m, m', rest);
    if k in m {
      BalanceOverRemove(m, m.Keys, k);
    } else {
      assert m.Keys == rest;
    }
  }

  // ---------------------------------------------------------------------
  // One event

  /** `k` is a key the event writes: a non-zero lower-cased endpoint. */
  predicate Touches(e: TransferEvent, k: Address) {
    k != ADDRESS_ZERO && (k == ToLowerCase(e.from) || k == ToLowerCase(e.to))
  }

  /** Key `k` is present in both stores with the same record, or absent from both. */
  predicate Untouched(m: Store, m': Store, k: Address) {
    (k in m <==> k in m') && (k in m ==> m'[k] == m[k])
  }

  /** Weighted shares multiply first: 1000 at 10330 gives 1033, where dividing first would give 0. */
  lemma SharesExample()
    ensures WeightedShares(1000, 10330) == 1033
    ensures (1000 / DENOMINATOR) * 10330 == 0
  {
  }

  /** A token outside the weight table aborts the event with that token as the error. */
  lemma UnknownTokenAborts(m: Store, e: TransferEvent)
    ensures WeightOf(ToLowerCase(e.token)).None? <==> Apply(m, e).Failure?
    ensures Apply(m, e).Failure? ==> Apply(m, e).error == UnknownTokenWeight(ToLowerCase(e.token))
  {
  }

  /** A non-zero sender, distinct from the receiver, loses the shares and gains the increase in its out-sum. */
  lemma SenderUpdate(m: Store, e: TransferEvent)
    requires TransferAmounts(e).Success?
    requires ToLowerCase(e.from) != ADDRESS_ZERO && ToLowerCase(e.from) != ToLowerCase(e.to)
    ensures var a, from, m' := TransferAmounts(e).value, ToLowerCase(e.from), Apply(m, e).value;
            && from in m'
            && m'[from].balance == Lookup(m, from).balance - a.shares
            && m'[from].timeWeightAmountOut == Lookup(m, from).timeWeightAmountOut + a.increase
            && m'[from].timeWeightAmountIn == Lookup(m, from).timeWeightAmountIn
            && m'[from].address == Lookup(m, from).address
  {
  }

  /** A non-zero receiver, distinct from the sender, gains the shares and the increase in its in-sum. */
  lemma ReceiverUpdate(m: Store, e: TransferEvent)
    requires TransferAmounts(e).Success?
    requires ToLowerCase(e.to) != ADDRESS_ZERO && ToLowerCase(e.from) != ToLowerCase(e.to)
    ensures var a, to, m' := TransferAmounts(e).value, ToLowerCase(e.to), Apply(m, e).value;
            && to in m'
            && m'[to].balance == Lookup(m, to).balance + a.shares
            && m'[to].timeWeightAmountIn == Lookup(m, to).timeWeightAmountIn + a.increase
            && m'[to].timeWeightAmountOut == Lookup(m, to).timeWeightAmountOut
            && m'[to].address == Lookup(m, to).address
  {
  }

  /** A self-transfer keeps the balance and grows both sums by the increase. */
  lemma SelfTransfer(m: Store, e: TransferEvent)
    requires TransferAmounts(e).Success?
    requires ToLowerCase(e.from) != ADDRESS_ZERO && ToLowerCase(e.from) == ToLowerCase(e.to)
    ensures var a, k, m' := TransferAmounts(e).value, ToLowerCase(e.from), Apply(m, e).value;
            && k in m'
            && m'[k].balance == Lookup(m, k).balance
            && m'[k].timeWeightAmountIn == Lookup(m, k).timeWeightAmountIn + a.increase
            && m'[k].timeWeightAmountOut == Lookup(m, k).timeWeightAmountOut + a.increase
  {
  }

  /** Every key other than the non-zero endpoints keeps its record, the zero address included. */
  lemma OnlyEndpointsChange(m: Store, e: TransferEvent)
    requires Apply(m, e).Success?
    ensures forall k :: !Touches(e, k) ==> Untouched(m, Apply(m, e).value, k)
    ensures forall k :: Touches(e, k) ==> k in Apply(m, e).value
  {
  }

  /** A mint touches only the receiver, a burn only the sender. */
  lemma MintAndBurnTouchOneSide(m: Store, e: TransferEvent)
    requires Apply(m, e).Success?
    ensures ToLowerCase(e.from) == ADDRESS_ZERO ==>
              forall k :: k != ToLowerCase(e.to) ==> Untouched(m, Apply(m, e).value, k)
    ensures ToLowerCase(e.to) == ADDRESS_ZERO ==>
              forall k :: k != ToLowerCase(e.from) ==> Untouched(m, Apply(m, e).value, k)
  {
    OnlyEndpointsChange(m, e);
  }

  /** Records are never deleted and neither time-weighted sum ever decreases. */
  lemma TimeWeightsMonotone(m: Store, e: TransferEvent)
    requires Apply(m, e).Success?
    ensures var m' := Apply(m, e).value;
            forall k :: k in m ==>
              && k in m'
              && m'[k].timeWeightAmountIn >= m[k].timeWeightAmountIn
              && m'[k].timeWeightAmountOut >= m[k].timeWeightAmountOut
  {
  }

  /** The sender update lowers the total balance by the shares. */
  lemma DebitTotal(m: Store, k: Address, a: Amounts)
    ensures TotalBalance(Debit(m, k, a)) == TotalBalance(m) - a.shares
  {
    var p := Lookup(m, k);
    TotalBalanceUpdate(m, k, p.(timeWeightAmountOut := p.timeWeightAmountOut + a.increase, balance := p.balance - a.shares));
  }

  /** The receiver update raises the total balance by the shares. */
  lemma CreditTotal(m: Store, k: Address, a: Amounts)
    ensures TotalBalance(Credit(m, k, a)) == TotalBalance(m) + a.shares
  {
    var p := Lookup(m, k);
    TotalBalanceUpdate(m, k, p.(timeWeightAmountIn := p.timeWeightAmountIn + a.increase, balance := p.balance + a.shares));
  }

  /**
   * The total balance moves only by mints and burns: it is unchanged by a
   * transfer between two non-zero addresses, the self-transfer included.
   */
  lemma BalanceConservation(m: Store, e: TransferEvent)
    requires Apply(m, e).Success?
    ensures var s, m' := TransferAmounts(e).value.shares, Apply(m, e).value;
            TotalBalance(m') == TotalBalance(m)
                                + (if ToLowerCase(e.from) == ADDRESS_ZERO then s else 0)
                                - (if ToLowerCase(e.to) == ADDRESS_ZERO then s else 0)
  {
    var a := TransferAmounts(e).value;
    var from, to := ToLowerCase(e.from), ToLowerCase(e.to);
    var m1 := if from != ADDRESS_ZERO then Debit(m, from, a) else m;
    if from != ADDRESS_ZERO {
      DebitTotal(m, from, a);
    }
    if to != ADDRESS_ZERO {
      CreditTotal(m1, to, a);
    }
  }

  /** A zero-value event changes no existing record and adds only zero records. */
  lemma ZeroValueTransfer(m: Store, e: TransferEvent)
    requires Apply(m, e).Success?
    requires e.value == 0
    ensures var m' := Apply(m, e).value;
            && (forall k :: k in m ==> k in m' && m'[k] == m[k])
            && (forall k :: k in m' && k !in m ==> m'[k] == NewPoint(k))
  {
    var m' := Apply(m, e).value;
    assert TransferAmounts(e).value == Amounts(0, 0);
    EndpointEffect(m, e);
    OnlyEndpointsChange(m, e);
    forall k | k in m' ensures m'[k] == Lookup(m, k) {
      if !Touches(e, k) {
        assert Untouched(m, m', k);
      }
    }
  }

  /** `k` is the event's non-zero lower-cased sender. */
  predicate IsSender(e: TransferEvent, k: Address) {
    k != ADDRESS_ZERO && k == ToLowerCase(e.from)
  }

  /** `k` is the event's non-zero lower-cased receiver. */
  predicate IsReceiver(e: TransferEvent, k: Address) {
    k != ADDRESS_ZERO && k == ToLowerCase(e.to)
  }

  /**
   * The effect on every written key, whatever the event: a sender loses the
   * shares and gains the increase in its out-sum, a receiver gains the shares
   * and the increase in its in-sum, and a key that is both gets both.
   */
  lemma EndpointEffect(m: Store, e: TransferEvent)
    requires Apply(m, e).Success?
    ensures var a, m' := TransferAmounts(e).value, Apply(m, e).value;
            forall k :: Touches(e, k) ==>
              && k in m'
              && m'[k].address == Lookup(m, k).address
              && m'[k].balance == Lookup(m, k).balance
                                  + (if IsReceiver(e, k) then a.shares else 0)
                                  - (if IsSender(e, k) then a.shares else 0)
              && m'[k].timeWeightAmountIn == Lookup(m, k).timeWeightAmountIn
                                             + (if IsReceiver(e, k) then a.increase else 0)
              && m'[k].timeWeightAmountOut == Lookup(m, k).timeWeightAmountOut
                                              + (if IsSender(e, k) then a.increase else 0)
  {
    var a := TransferAmounts(e).value;
    var from, to := ToLowerCase(e.from), ToLowerCase(e.to);
    var m1 := if from != ADDRESS_ZERO then Debit(m, from, a) else m;
    var m' := if to != ADDRESS_ZERO then Credit(m1, to, a) else m1;
    assert Apply(m, e).value == m';
    forall k | Touches(e, k)
      ensures k in m' && m'[k].address == Lookup(m, k).address
      ensures m'[k].balance == Lookup(m, k).balance
                               + (if IsReceiver(e, k) then a.shares else 0)
                               - (if IsSender(e, k) then a.shares else 0)
      ensures m'[k].timeWeightAmountIn == Lookup(m, k).timeWeightAmountIn
                                          + (if IsReceiver(e, k) then a.increase else 0)
      ensures m'[k].timeWeightAmountOut == Lookup(m, k).timeWeightAmountOut
                                           + (if IsSender(e, k) then a.increase else 0)
    {
      assert Lookup(m1, k) == if IsSender(e, k) then m1[k] else Lookup(m, k);
    }
  }

  /**
   * Applying the same event twice counts it twice, for a transfer, a mint, a
   * burn and a self-transfer alike: there is no deduplication.
   */
  lemma ReplayCountsTwice(m: Store, e: TransferEvent)
    requires Apply(m, e).Success?
    ensures Apply(Apply(m, e).value, e).Success?
    ensures var a, m'' := TransferAmounts(e).value, Apply(Apply(m, e).value, e).value;
            forall k :: Touches(e, k) ==>
              && k in m''
              && m''[k].balance == Lookup(m, k).balance
                                   + 2 * (if IsReceiver(e, k) then a.shares else 0)
                                   - 2 * (if IsSender(e, k) then a.shares else 0)
              && m''[k].timeWeightAmountIn == Lookup(m, k).timeWeightAmountIn
                                              + 2 * (if IsReceiver(e, k) then a.increase else 0)
              && m''[k].timeWeightAmountOut == Lookup(m, k).timeWeightAmountOut
                                               + 2 * (if IsSender(e, k) then a.increase else 0)
    ensures var m'' := Apply(Apply(m, e).value, e).value;
            forall k :: !Touches(e, k) ==> Untouched(m, m'', k)
  {
    var m1 := Apply(m, e).value;
    EndpointEffect(m, e);
    EndpointEffect(m1, e);
    OnlyEndpointsChange(m, e);
    OnlyEndpointsChange(m1, e);
  }

  // ---------------------------------------------------------------------
  // Concrete cases

  /** Mint of 1000 at timestamp 100 with weight 1.0x into an account without a record. */
  lemma MintScenario(m: Store, e: TransferEvent)
    requires ToLowerCase(e.token) == STETH && ToLowerCase(e.from) == ADDRESS_ZERO
    requires ToLowerCase(e.to) != ADDRESS_ZERO && ToLowerCase(e.to) !in m
    requires e.value == 1000 && e.timestamp == 100
    ensures Apply(m, e).Success?
    ensures var m', to := Apply(m, e).value, ToLowerCase(e.to);
            && to in m' && m'[to] == Point(to, 1000, 100000, 0)
            && (ADDRESS_ZERO in m' <==> ADDRESS_ZERO in m)
  {
    WeightTable();
  }

  /** Transfer of 1000 at timestamp 50 with weight 1.033x: 1033 shares, 51650 time-weight. */
  lemma WeightedTransferScenario(m: Store, e: TransferEvent)
    requires ToLowerCase(e.token) == WBETH
    requires ToLowerCase(e.from) != ADDRESS_ZERO && ToLowerCase(e.to) != ADDRESS_ZERO && ToLowerCase(e.from) != ToLowerCase(e.to)
    requires e.value == 1000 && e.timestamp == 50
    ensures Apply(m, e).Success?
    ensures var m', from, to := Apply(m, e).value, ToLowerCase(e.from), ToLowerCase(e.to);
            && m'[from].balance == Lookup(m, from).balance - 1033
            && m'[from].timeWeightAmountOut == Lookup(m, from).timeWeightAmountOut + 51650
            && m'[to].balance == Lookup(m, to).balance + 1033
            && m'[to].timeWeightAmountIn == Lookup(m, to).timeWeightAmountIn + 51650
  {
    WeightTable();
    SenderUpdate(m, e);
    ReceiverUpdate(m, e);
  }

  // ---------------------------------------------------------------------
  // A stream of events

  /** The events applied one after another, stopping at the first that aborts. */
  function ApplyAll(m: Store, es: seq<TransferEvent>): Result<Store, Error>
    decreases |es|
  {
    if es == [] then Success(m)
    else match Apply(m, es[0])
         case Failure(err) => Failure(err)
         case Success(m1) => ApplyAll(m1, es[1..])
  }

  /** No endpoint of the event is the zero address. */
  predicate IsClosedTransfer(e: TransferEvent) {
    ToLowerCase(e.from) != ADDRESS_ZERO && ToLowerCase(e.to) != ADDRESS_ZERO
  }

  /** A stream without mints or burns leaves the total balance where it was. */
  lemma {:induction false} ClosedStreamConservesBalance(m: Store, es: seq<TransferEvent>)
    requires forall i :: 0 <= i < |es| ==> IsClosedTransfer(es[i])
    requires ApplyAll(m, es).Success?
    ensures TotalBalance(ApplyAll(m, es).value) == TotalBalance(m)
    decreases |es|
  {
    if es != [] {
      BalanceConservation(m, es[0]);
      assert IsClosedTransfer(es[0]);
      var m1 := Apply(m, es[0]).value;
      assert forall i :: 0 <= i < |es[1..]| ==> IsClosedTransfer(es[1..][i]) by {
        forall i | 0 <= i < |es[1..]| ensures IsClosedTransfer(es[1..][i]) {
          assert es[1..][i] == es[i + 1];
        }
      }
      ClosedStreamConservesBalance(m1, es[1..]);
    }
  }

  /** The ledger invariant holds of every store a stream builds from an empty one. */
  lemma {:induction false} StreamKeepsInvariant(m: Store, es: seq<TransferEvent>)
    requires LedgerInvariant(m)
    requires ApplyAll(m, es).Success?
    ensures LedgerInvariant(ApplyAll(m, es).value)
    decreases |es|
  {
    if es != [] {
      InvariantPreserved(m, es[0]);
      StreamKeepsInvariant(Apply(m, es[0]).value, es[1..]);
    }
  }
}
