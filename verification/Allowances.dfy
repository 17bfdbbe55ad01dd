/**
 What the calls on a token do from outside, and what an approval is worth: over
 every run, an owner's approval is spent by its spender's pulls and by nothing else.
 */
module Allowances {
  import opened Evm
  import opened Options
  import opened TokenLedger
  import opened Escrow
  import opened EscrowSafety

  function AllowanceIn(w: World, t: Address, owner: Address, spender: Address): Uint256 {
    if t in w.tokens then Allowance(w.tokens[t], owner, spender) else 0
  }

  /** What a transaction takes from `owner` on behalf of `spender`: the escrow pulls for its deals. */
  function Pulled(self: Address, w: World, tx: Tx, t: Address, owner: Address, spender: Address): nat {
    if Execute(self, w, tx).Revert? then 0
    else match tx.call
      case Lock(_, _, amount, token, _, _) =>
        if token == t && tx.sender == owner && self == spender then amount else 0
      case TokenTransferFrom(token, from, _, amount) =>
        if token == t && from == owner && tx.sender == spender then amount else 0
      case _ => 0
  }

  function PulledIn(self: Address, w: World, txs: seq<Tx>, t: Address, owner: Address, spender: Address): nat {
    if txs == [] then 0
    else
      var front, last := txs[..|txs| - 1], txs[|txs| - 1];
      PulledIn(self, w, front, t, owner, spender) + Pulled(self, Run(self, w, front), last, t, owner, spender)
  }

  predicate Approves(tx: Tx, t: Address, owner: Address, spender: Address) {
    tx.call.TokenApprove? && tx.call.token == t && tx.sender == owner && tx.call.spender == spender
  }

  /** What is left of an allowance after `pulled` has been taken; an infinite one does not shrink. */
  function Left(allowed: Uint256, pulled: nat): int {
    if allowed == MAX_UINT256 then MAX_UINT256 else allowed - pulled
  }

  /** The effect of one transaction on one allowance. */
  lemma AllowanceStep(self: Address, w: World, tx: Tx, t: Address, owner: Address, spender: Address)
    requires t in w.tokens && !Approves(tx, t, owner, spender)
    ensures var after := Next(self, w, tx);
            && t in after.tokens
            && AllowanceIn(after, t, owner, spender)
               == Left(AllowanceIn(w, t, owner, spender), Pulled(self, w, tx, t, owner, spender))
  {
    if Execute(self, w, tx).Done? {
      if tx.call.Lock? {
        LockAllowance(self, w, tx, t, owner, spender);
      } else if tx.call.OnEscrow() {
        DealCallAllowance(self, w, tx, t);
      } else {
        TokenCallAllowance(self, w, tx, t, owner, spender);
      }
    }
  }

  lemma LockAllowance(self: Address, w: World, tx: Tx, t: Address, owner: Address, spender: Address)
    requires t in w.tokens && tx.call.Lock? && Execute(self, w, tx).Done?
    ensures var after := Next(self, w, tx);
            && t in after.tokens
            && AllowanceIn(after, t, owner, spender)
               == Left(AllowanceIn(w, t, owner, spender), Pulled(self, w, tx, t, owner, spender))
  {
    hide TransferFrom;
    TransferFromSpends(w.tokens[tx.call.token], self, tx.sender, self, tx.call.amount, owner, spender);
  }

  /** Payments out of the escrow spend no allowance. */
  lemma DealCallAllowance(self: Address, w: World, tx: Tx, t: Address)
    requires t in w.tokens && tx.call.OnEscrow() && !tx.call.Lock?
    ensures var after := Next(self, w, tx);
            t in after.tokens && after.tokens[t].allowance == w.tokens[t].allowance
  {
    hide Execute, Transfer;
    CallShape(self, w, tx);
    var d := DealAt(w.deals, tx.call.rfqId);
    if Payee(d, tx).Some? && d.token in w.tokens
       && Transfer(w.tokens[d.token], self, Payee(d, tx).value, d.amount).Some? {
      TransferMoves(w.tokens[d.token], self, Payee(d, tx).value, d.amount, self);
    }
  }

  lemma TokenCallAllowance(self: Address, w: World, tx: Tx, t: Address, owner: Address, spender: Address)
    requires t in w.tokens && !tx.call.OnEscrow() && Execute(self, w, tx).Done? && !Approves(tx, t, owner, spender)
    ensures var after := Next(self, w, tx);
            && t in after.tokens
            && AllowanceIn(after, t, owner, spender)
               == Left(AllowanceIn(w, t, owner, spender), Pulled(self, w, tx, t, owner, spender))
  {
    hide LockFunds, ConfirmDelivery, ReleaseFunds, OptimisticRelease, RaiseDispute, ClaimRefund;
    hide Transfer, TransferFrom, Approve, Mint;
    var l := w.tokens[tx.call.token];
    match tx.call {
      case TokenMint(_, to, amount) => MintMoves(l, to, amount, to);
      case TokenApprove(_, to, amount) => ApproveSets(l, tx.sender, to, amount, owner, spender);
      case TokenTransfer(_, to, amount) => TransferMoves(l, tx.sender, to, amount, to);
      case TokenTransferFrom(_, from, to, amount) =>
        TransferFromSpends(l, tx.sender, from, to, amount, owner, spender);
    }
  }

  /** Over every run without a new approval, what was pulled is what the allowance lost. */
  lemma {:induction false} AllowanceIsSpent(self: Address, w: World, txs: seq<Tx>, t: Address, owner: Address,
                                            spender: Address)
    requires t in w.tokens && forall i :: 0 <= i < |txs| ==> !Approves(txs[i], t, owner, spender)
    ensures var end := Run(self, w, txs);
            && t in end.tokens
            && AllowanceIn(end, t, owner, spender)
               == Left(AllowanceIn(w, t, owner, spender), PulledIn(self, w, txs, t, owner, spender))
    decreases |txs|
  {
    hide Next, Pulled, AllowanceIn;
    if txs != [] {
      var front := txs[..|txs| - 1];
      AllowanceIsSpent(self, w, front, t, owner, spender);
      AllowanceStep(self, Run(self, w, front), txs[|txs| - 1], t, owner, spender);
      AllowanceIsBounded(Run(self, w, front), t, owner, spender);
    }
  }

  lemma AllowanceIsBounded(w: World, t: Address, owner: Address, spender: Address)
    ensures AllowanceIn(w, t, owner, spender) <= MAX_UINT256
  {
  }

  /**
   The worth of an approval: from the moment an owner approves a finite amount, and
   until the owner approves anew, what the spender has pulled and what is left add
   up to the amount. So nobody is ever charged more than was approved.
   */
  lemma ApprovalIsHonoured(self: Address, w: World, before: seq<Tx>, approval: Tx, after: seq<Tx>)
    requires approval.call.TokenApprove? && approval.call.token in Run(self, w, before).tokens
    requires approval.call.amount != MAX_UINT256
    requires forall i :: 0 <= i < |after| ==>
               !Approves(after[i], approval.call.token, approval.sender, approval.call.spender)
    ensures var TokenApprove(t, spender, amount) := approval.call;
            var approved := Next(self, Run(self, w, before), approval);
            && Run(self, w, before + [approval] + after) == Run(self, approved, after)
            && PulledIn(self, approved, after, t, approval.sender, spender)
               + AllowanceIn(Run(self, approved, after), t, approval.sender, spender) == amount
  {
    var TokenApprove(t, spender, amount) := approval.call;
    var start := Run(self, w, before);
    var approved := Next(self, start, approval);
    RunAppend(self, w, before, [approval]);
    RunAppend(self, w, before + [approval], after);
    assert [approval][..0] == [];
    ApproveSets(start.tokens[t], approval.sender, spender, amount, approval.sender, spender);
    hide Run, PulledIn;
    AllowanceIsSpent(self, approved, after, t, approval.sender, spender);
  }

  // ---------------------------------------------------------------- calls on the tokens

  /** The balance that a token call of an outside account adds to account `a`. */
  function Credited(tx: Tx, t: Address, a: Address): int
    requires !tx.call.OnEscrow()
  {
    if tx.call.token != t then 0
    else match tx.call
      case TokenMint(_, to, amount) => if a == to then amount else 0
      case TokenApprove(_, _, _) => 0
      case TokenTransfer(_, to, amount) => (if a == to then amount else 0) - if a == tx.sender then amount else 0
      case TokenTransferFrom(_, from, to, amount) =>
        (if a == to then amount else 0) - if a == from then amount else 0
  }

  /** Every token call changes every account, in every token, by exactly what it says. */
  lemma TokenCallMoves(self: Address, w: World, tx: Tx, t: Address, a: Address)
    requires !tx.call.OnEscrow() && Execute(self, w, tx).Done?
    ensures TokenBalance(Next(self, w, tx), t, a) == TokenBalance(w, t, a) + Credited(tx, t, a)
    ensures Next(self, w, tx).deals == w.deals
  {
    hide LockFunds, ConfirmDelivery, ReleaseFunds, OptimisticRelease, RaiseDispute, ClaimRefund;
    hide Transfer, TransferFrom, Approve, Mint;
    var l := w.tokens[tx.call.token];
    match tx.call {
      case TokenMint(_, to, amount) => MintMoves(l, to, amount, a);
      case TokenApprove(_, to, amount) => ApproveSets(l, tx.sender, to, amount, a, a);
      case TokenTransfer(_, to, amount) => TransferMoves(l, tx.sender, to, amount, a);
      case TokenTransferFrom(_, from, to, amount) => TransferFromMoves(l, tx.sender, from, to, amount, a);
    }
  }
}
