/**
 * The entity store as an object: its `points` map is read and rewritten in
 * place by load-or-create and by the Transfer handler.
 */
module Ledger {
  import opened Wrappers
  import opened Addresses
  import opened Weights
  import opened Points

  /** The entity store and the handler that writes it. */
  class PointStore {
    var points: Store

    constructor ()
      ensures points == map[]
    {
      points := map[];
    }

    /** Point.load: the stored record under `k`, if any. */
    method Load(k: Address) returns (p: Option<Point>)
      ensures p.Some? <==> k in points
      ensures p.Some? ==> p.value == points[k]
    {
      p := if k in points then Some(points[k]) else None;
    }

    /** Point.save: store `p` under its entity id `k`. */
    method Save(k: Address, p: Point)
      modifies this
      ensures points == old(points)[k := p]
    {
      points := points[k := p];
    }

    /**
     * Returns the record of the lower-cased `a`; when there is none, a zero
     * record is created and saved first.
     */
    method LoadOrCreatePoint(a: Address) returns (p: Point)
      modifies this
      ensures var k := ToLowerCase(a);
              && (k in old(points) ==> p == old(points)[k] && points == old(points))
              && (k !in old(points) ==> p == NewPoint(k) && points == old(points)[k := p])
      ensures p == Lookup(old(points), ToLowerCase(a))
      ensures ToLowerCase(a) in points && points[ToLowerCase(a)] == p
    {
      var address := ToLowerCase(a);
      var loaded := Load(address);
      if loaded.None? {
        p := NewPoint(address);
        Save(address, p);
      } else {
        p := loaded.value;
      }
    }

    /** The sender block of the handler, for a canonical non-zero `from`. */
    method DebitSender(from: Address, a: Amounts)
      requires IsCanonical(from)
      modifies this
      ensures points == Debit(old(points), from, a)
    {
      CanonicalIsFixpoint(from);
      var point := LoadOrCreatePoint(from);
      point := point.(timeWeightAmountOut := point.timeWeightAmountOut + a.increase);
      point := point.(balance := point.balance - a.shares);
      Save(from, point);
    }

    /** The receiver block of the handler, for a canonical non-zero `to`. */
    method CreditReceiver(to: Address, a: Amounts)
      requires IsCanonical(to)
      modifies this
      ensures points == Credit(old(points), to, a)
    {
      CanonicalIsFixpoint(to);
      var point := LoadOrCreatePoint(to);
      point := point.(timeWeightAmountIn := point.timeWeightAmountIn + a.increase);
      point := point.(balance := point.balance + a.shares);
      Save(to, point);
    }

    /**
     * Applies one Transfer event: looks up the token's weight, then debits
     * a non-zero sender and credits a non-zero receiver.
     */
    method HandleTransfer(e: TransferEvent) returns (r: Result<(), Error>)
      modifies this
      ensures r.Failure? <==> WeightOf(ToLowerCase(e.token)).None?
      ensures r.Failure? ==> points == old(points)
      ensures match Apply(old(points), e)
              case Success(m) => r == Success(()) && points == m
              case Failure(err) => r == Failure(err) && points == old(points)
      ensures LedgerInvariant(old(points)) ==> LedgerInvariant(points)
    {
      var stakeToken := ToLowerCase(e.token);
      var weight := WeightOf(stakeToken);
      if weight.None? {
        return Failure(UnknownTokenWeight(stakeToken));
      }
      var from := ToLowerCase(e.from);
      var to := ToLowerCase(e.to);
      var shares := WeightedShares(e.value, weight.value);
      var increase := e.timestamp * shares;
      if from != ADDRESS_ZERO {
        DebitSender(from, Amounts(shares, increase));
      }
      if to != ADDRESS_ZERO {
        CreditReceiver(to, Amounts(shares, increase));
      }
      r := Success(());
      if LedgerInvariant(old(points)) {
        InvariantPreserved(old(points), e);
      }
    }
  }
}
