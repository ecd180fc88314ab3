/** The risk calculators used before an order is accepted. */
module Risk {
  import opened Models

  const MAX_LEVERAGE := 20.0
  const MAX_POSITION_MARGIN_PCT := 0.5

  /** Realised profit of a round trip, net of taker fees on both legs. */
  function Pnl(side: OrderSide, entry: real, exit: real, quantity: real, fee: real): Result<real> {
    if quantity <= 0.0 || entry <= 0.0 || exit <= 0.0 then Err(InvalidInput)
    else
      var gross := if side.Buy? then (exit - entry) * quantity else (entry - exit) * quantity;
      Ok(gross - (entry + exit) * quantity * fee)
  }

  /** The pre-trade check with no reward-to-risk ratio given. */
  function CheckOrder(notional: real, equity: real, leverage: real): Result<()> {
    if equity <= 0.0 then Err(RiskLimit)
    else if leverage > MAX_LEVERAGE then Err(RiskLimit)
    else if notional > equity * leverage * MAX_POSITION_MARGIN_PCT then Err(RiskLimit)
    else Ok(())
  }

  /** Profit is computed for a positive quantity at positive prices, and refused otherwise. */
  lemma PnlRefusesIff(side: OrderSide, entry: real, exit: real, quantity: real, fee: real)
    ensures Pnl(side, entry, exit, quantity, fee).Err? <==> !(quantity > 0.0 && entry > 0.0 && exit > 0.0)
    ensures Pnl(side, entry, exit, quantity, fee).Err? ==> Pnl(side, entry, exit, quantity, fee).error == InvalidInput
  {
  }
}
