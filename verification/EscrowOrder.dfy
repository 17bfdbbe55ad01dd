/** Calls on different deals do not interfere: neither decides the other's outcome, and the order leaves no trace. */
module EscrowOrder {
  import opened Evm
  import opened Options
  import opened MapSums
  import opened TokenLedger
  import opened Escrow
  import opened EscrowSafety

  function Verdict(r: Result): Option<Error> {
    if r.Done? then None else Some(r.error)
  }

  /** A call on a locked deal is refused exactly when the deal itself says so. */
  lemma VerdictIsRefusal(self: Address, w: World, tx: Tx)
    requires Inv(self, w) && tx.sender != ZERO && tx.call.OnEscrow() && !tx.call.Lock?
    ensures Verdict(Execute(self, w, tx)) == Refusal(DealAt(w.deals, tx.call.rfqId), tx)
  {
    hide Sum, Execute, TransferCall;
    CallShape(self, w, tx);
    var id := tx.call.rfqId;
    var d := DealAt(w.deals, id);
    if Refusal(d, tx).None? && Payee(d, tx).Some? {
      PayoutGoesThrough(self, w, id, Payee(d, tx).value);
    }
  }

  lemma PayoutsCommute(tokens: map<Address, Ledger>, self: Address, d: Deal, a: Tx, e: Deal, b: Tx)
    requires PaidCall(tokens, self, d, a).Some? && PaidCall(tokens, self, e, b).Some?
    requires PaidCall(PaidCall(tokens, self, d, a).value, self, e, b).Some?
    requires PaidCall(PaidCall(tokens, self, e, b).value, self, d, a).Some?
    ensures PaidCall(PaidCall(tokens, self, d, a).value, self, e, b)
         == PaidCall(PaidCall(tokens, self, e, b).value, self, d, a)
  {
    hide Transfer;
    if Payee(d, a).Some? && Payee(e, b).Some? {
      var x, y := Payee(d, a).value, Payee(e, b).value;
      if d.token == e.token {
        TransfersCommute(tokens[d.token], self, x, d.amount, y, e.amount);
      }
      var ab := PaidCall(PaidCall(tokens, self, d, a).value, self, e, b).value;
      var ba := PaidCall(PaidCall(tokens, self, e, b).value, self, d, a).value;
      assert ab.Keys == ba.Keys;
      assert forall t :: t in ab ==> ab[t] == ba[t];
      assert ab == ba;
    }
  }

  /**
   Independence: two calls on different deals, neither of them a lock, have the
   same outcome in either order and lead to the same deals and ledgers.
   */
  lemma Independence(self: Address, w: World, a: Tx, b: Tx)
    requires Inv(self, w) && External(self, [a, b])
    requires a.call.OnEscrow() && !a.call.Lock? && b.call.OnEscrow() && !b.call.Lock?
    requires a.call.rfqId != b.call.rfqId
    ensures Verdict(Execute(self, Next(self, w, a), b)) == Verdict(Execute(self, w, b))
    ensures Verdict(Execute(self, Next(self, w, b), a)) == Verdict(Execute(self, w, a))
    ensures Next(self, Next(self, w, a), b) == Next(self, Next(self, w, b), a)
  {
    hide Inv, Execute, PaidCall;
    assert [a, b][0] == a && [a, b][1] == b;
    var i, j := a.call.rfqId, b.call.rfqId;
    var d, e := DealAt(w.deals, i), DealAt(w.deals, j);
    var wa, wb := Next(self, w, a), Next(self, w, b);
    SolvencyStep(self, w, a);
    SolvencyStep(self, w, b);
    CallShape(self, w, a);
    CallShape(self, w, b);
    VerdictIsRefusal(self, w, a);
    VerdictIsRefusal(self, w, b);
    assert DealAt(wa.deals, j) == e && DealAt(wb.deals, i) == d;
    CallShape(self, wa, b);
    CallShape(self, wb, a);
    VerdictIsRefusal(self, wa, b);
    VerdictIsRefusal(self, wb, a);
    if Refusal(d, a).None? && Refusal(e, b).None? {
      PayoutsCommute(w.tokens, self, d, a, e, b);
      var x, y := Settled(d, a), Settled(e, b);
      assert w.deals[i := x][j := y] == w.deals[j := y][i := x];
    }
  }
}
