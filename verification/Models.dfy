/** The trade record, its lifecycle and its columns (app/db/models.py). */
module Models {
  import opened Wrappers
  import opened Decimals
  import opened BinanceClient

  type TradeId = nat

  datatype OrderSide = Buy | Sell

  datatype TradeStatus =
    | Pending | Unknown | New | PartiallyFilled
    | Filled | Cancelled | Rejected | Expired | Failed

  /** `TERMINAL_STATUSES`: statuses that never change again on their own. */
  predicate IsTerminal(status: TradeStatus) {
    status.Filled? || status.Cancelled? || status.Rejected? || status.Expired? || status.Failed?
  }

  /** `RECONCILABLE_STATUSES`: statuses a reconciliation run re-checks. */
  predicate IsReconcilable(status: TradeStatus) {
    status.Pending? || status.Unknown? || status.New? || status.PartiallyFilled?
  }

  /** One committed row of `trades`. Timestamps other than `created_at` are kept as set / unset. */
  datatype Trade = Trade(
    id: TradeId,
    userId: nat,
    signalId: string,
    clientOrderId: string,
    symbol: string,
    side: OrderSide,
    quantity: Decimal,
    status: TradeStatus,
    binanceOrderId: Option<int>,
    binanceStatus: Option<OrderStatus>,
    executedQuantity: Option<Decimal>,
    cumulativeQuoteQuantity: Option<Decimal>,
    errorCode: Option<string>,
    submitted: bool,
    reconciled: bool,
    createdAt: int)

  /** The columns that say which order a trade stands for; nothing ever edits them. */
  predicate SameOrder(a: Trade, b: Trade) {
    a.id == b.id && a.userId == b.userId && a.signalId == b.signalId && a.clientOrderId == b.clientOrderId &&
    a.symbol == b.symbol && a.side == b.side && a.quantity == b.quantity && a.createdAt == b.createdAt
  }

  // ---------------------------------------------------------------- NUMERIC(28, 12)

  /** The nearest multiple, ties away from zero. */
  function RoundHalfUp(c: nat, m: nat): (q: nat)
    requires m > 0
    ensures 2 * (m * q) - m <= 2 * c < 2 * (m * q) + m
  {
    if 2 * (c % m) >= m then c / m + 1 else c / m
  }

  /** The value a NUMERIC(28, 12) column holds after storing `d`; none when it overflows. */
  function StoreNumeric(d: Decimal): Option<Decimal>
    requires d.Finite?
  {
    var units :=
      if d.exponent + SCALE >= 0 then d.coefficient * Pow10(d.exponent + SCALE)
      else RoundHalfUp(d.coefficient, Pow10(-(d.exponent + SCALE)));
    if units >= Pow10(PRECISION) then None
    else Some(Finite(d.negative && units > 0, units, -SCALE))
  }

  /** A number with at most 12 decimal places is stored exactly, or overflows at 10^16. */
  lemma StoredExactly(d: Decimal)
    requires d.Finite? && d.exponent >= -SCALE
    ensures StoreNumeric(d).Some? <==> Magnitude(d.coefficient, d.exponent) < TenTo(PRECISION - SCALE)
    ensures StoreNumeric(d).Some? ==>
              var r := StoreNumeric(d).value;
              r.Finite? && r.exponent == -SCALE && r.coefficient < Pow10(PRECISION) && Value(r) == Value(d)
  {
    var k := d.exponent + SCALE;
    var units := d.coefficient * Pow10(k);
    ShiftBy(d.coefficient, -SCALE, k);
    ColumnBound(units);
    SameScale(units, 0, -SCALE);
  }

  /** The column holds 28 digits of 10^-12, which is everything below 10^16. */
  lemma ColumnBound(units: nat)
    ensures units < Pow10(PRECISION) <==> Magnitude(units, -SCALE) < TenTo(PRECISION - SCALE)
  {
    ShiftBy(1, -SCALE, PRECISION);
    assert Magnitude(1, PRECISION - SCALE) == TenTo(PRECISION - SCALE);
    SameScale(units, Pow10(PRECISION), -SCALE);
  }
}
