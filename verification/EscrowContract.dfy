/** The escrow contract: its storage mapping, updated in place, and its token calls. */
module EscrowContract {
  import opened Evm
  import opened Options
  import opened TokenLedger
  import opened MockUSDCContract
  import opened Escrow

  /** What a call reports and leaves behind when it does what `result` says. */
  ghost predicate Observed(result: Result, before: World, after: World, error: Option<Error>) {
    match result
    case Done(w) => error == None && after == w
    case Revert(e) => error == Some(e) && after == before
  }

  class AgentBazaarEscrow {
    const self: Address
    const tokens: map<Address, MockUSDC> // the token contracts deployed on the chain
    var deals: map<Bytes32, Deal>

    /** Two addresses never hold the same contract. */
    ghost predicate Valid() {
      forall s, t :: s in tokens && t in tokens && s != t ==> tokens[s] != tokens[t]
    }

    ghost function Contracts(): set<object> {
      set t | t in tokens :: tokens[t]
    }

    ghost function Ledgers(): map<Address, Ledger>
      reads Contracts()
    {
      map t | t in tokens :: tokens[t].View()
    }

    ghost function View(): World
      reads this, Contracts()
    {
      World(deals, Ledgers())
    }

    constructor (self: Address, tokens: map<Address, MockUSDC>)
      requires forall s, t :: s in tokens && t in tokens && s != t ==> tokens[s] != tokens[t]
      ensures Valid() && this.self == self && this.tokens == tokens && deals == map[]
    {
      this.self, this.tokens := self, tokens;
      deals := map[];
    }

    /** `getDeal`: an rfqId never locked reads as the zero struct. */
    method GetDeal(rfqId: Bytes32) returns (deal: Deal)
      ensures deal == DealAt(deals, rfqId)
    {
      deal := if rfqId in deals then deals[rfqId] else NO_DEAL;
    }

    /** An external call reverts when there is no contract at the address. */
    method CallTransfer(token: Address, to: Address, amount: Uint256) returns (ok: bool)
      requires Valid()
      modifies Contracts()
      ensures var effect := TransferCall(old(Ledgers()), self, token, to, amount);
              ok == effect.Some? && Ledgers() == if ok then effect.value else old(Ledgers())
    {
      if token !in tokens {
        return false;
      }
      ok := tokens[token].Transfer(self, to, amount);
    }

    method CallTransferFrom(token: Address, from: Address, amount: Uint256) returns (ok: bool)
      requires Valid()
      modifies Contracts()
      ensures var effect := TransferFromCall(old(Ledgers()), self, token, from, amount);
              ok == effect.Some? && Ledgers() == if ok then effect.value else old(Ledgers())
    {
      if token !in tokens {
        return false;
      }
      ok := tokens[token].TransferFrom(self, from, self, amount);
    }

    method LockFunds(sender: Address, now: Uint256, rfqId: Bytes32, seller: Address, amount: Uint256,
                     token: Address, deliveryWindow: Uint64, disputeWindow: Uint64)
      returns (error: Option<Error>)
      requires Valid()
      modifies this, Contracts()
      ensures Observed(Escrow.LockFunds(self, old(View()), sender, now, rfqId, seller, amount, token,
                                 deliveryWindow, disputeWindow),
                       old(View()), View(), error)
    {
      hide TransferFrom;
      var before := deals;
      var used := GetDeal(rfqId);
      if used.buyer != ZERO {
        return Some(RfqAlreadyUsed);
      }
      if amount == 0 {
        return Some(InvalidAmount);
      }
      if seller == ZERO {
        return Some(NotAuthorized);
      }
      if ToUint64(now) + deliveryWindow >= TWO_64 {
        return Some(Overflow);
      }
      var deliveryDeadline := ToUint64(now) + deliveryWindow;
      deals := deals[rfqId := Deal(rfqId, sender, seller, amount, token, deliveryDeadline, disputeWindow, 0, LOCKED)];
      var ok := CallTransferFrom(token, sender, amount);
      if !ok {
        deals := before;
        return Some(TokenCallFailed);
      }
      error := None;
    }

    method ConfirmDelivery(sender: Address, now: Uint256, rfqId: Bytes32, resultHash: Bytes32)
      returns (error: Option<Error>)
      modifies this
      ensures Observed(Escrow.ConfirmDelivery(old(View()), sender, now, rfqId, resultHash),
                       old(View()), View(), error)
    {
      var before := deals;
      var deal := GetDeal(rfqId);
      if sender != deal.seller {
        return Some(NotAuthorized);
      }
      if deal.state != LOCKED {
        return Some(InvalidState(deal.state, LOCKED));
      }
      if now > deal.deliveryDeadline {
        return Some(DeadlinePassed);
      }
      deals := deals[rfqId := deal.(resultHash := resultHash)];
      // The window stored at lock time becomes an absolute deadline.
      if ToUint64(now) + deals[rfqId].disputeDeadline >= TWO_64 {
        deals := before;
        return Some(Overflow);
      }
      deals := deals[rfqId := deals[rfqId].(disputeDeadline := ToUint64(now) + deals[rfqId].disputeDeadline)];
      deals := deals[rfqId := deals[rfqId].(state := DELIVERED)];
      error := None;
    }

    method ReleaseFunds(sender: Address, rfqId: Bytes32) returns (error: Option<Error>)
      requires Valid()
      modifies this, Contracts()
      ensures Observed(Escrow.ReleaseFunds(self, old(View()), sender, rfqId),
                       old(View()), View(), error)
    {
      var deal := GetDeal(rfqId);
      if sender != deal.buyer {
        return Some(NotAuthorized);
      }
      if deal.state != DELIVERED {
        return Some(InvalidState(deal.state, DELIVERED));
      }
      error := Release(rfqId);
    }

    method OptimisticRelease(now: Uint256, rfqId: Bytes32) returns (error: Option<Error>)
      requires Valid()
      modifies this, Contracts()
      ensures Observed(Escrow.OptimisticRelease(self, old(View()), now, rfqId),
                       old(View()), View(), error)
    {
      var deal := GetDeal(rfqId);
      if deal.state != DELIVERED {
        return Some(InvalidState(deal.state, DELIVERED));
      }
      if now <= deal.disputeDeadline {
        return Some(DeadlineNotPassed);
      }
      error := Release(rfqId);
    }

    method RaiseDispute(sender: Address, now: Uint256, rfqId: Bytes32) returns (error: Option<Error>)
      modifies this
      ensures Observed(Escrow.RaiseDispute(old(View()), sender, now, rfqId),
                       old(View()), View(), error)
    {
      var deal := GetDeal(rfqId);
      if sender != deal.buyer {
        return Some(NotAuthorized);
      }
      if deal.state != DELIVERED {
        return Some(InvalidState(deal.state, DELIVERED));
      }
      if now > deal.disputeDeadline {
        return Some(DeadlinePassed);
      }
      deals := deals[rfqId := deal.(state := DISPUTED)];
      error := None;
    }

    method ClaimRefund(now: Uint256, rfqId: Bytes32) returns (error: Option<Error>)
      requires Valid()
      modifies this, Contracts()
      ensures Observed(Escrow.ClaimRefund(self, old(View()), now, rfqId),
                       old(View()), View(), error)
    {
      var deal := GetDeal(rfqId);
      if deal.state != LOCKED {
        return Some(InvalidState(deal.state, LOCKED));
      }
      if now <= deal.deliveryDeadline {
        return Some(DeadlineNotPassed);
      }
      error := Pay(rfqId, REFUNDED, deal.buyer);
    }

    method Release(rfqId: Bytes32) returns (error: Option<Error>)
      requires Valid()
      modifies this, Contracts()
      ensures Observed(Escrow.Release(self, old(View()), rfqId),
                       old(View()), View(), error)
    {
      var deal := GetDeal(rfqId);
      error := Pay(rfqId, RELEASED, deal.seller);
    }

    /** Writes the final state of a deal, then sends its amount out. */
    method Pay(rfqId: Bytes32, state: State, to: Address) returns (error: Option<Error>)
      requires Valid()
      modifies this, Contracts()
      ensures var deal := DealAt(old(deals), rfqId);
              Observed(Committed(old(deals)[rfqId := deal.(state := state)],
                            TransferCall(old(View()).tokens, self, deal.token, to, deal.amount)),
                       old(View()), View(), error)
    {
      hide Transfer;
      var before := deals;
      var deal := GetDeal(rfqId);
      deals := deals[rfqId := deal.(state := state)];
      var ok := CallTransfer(deal.token, to, deal.amount);
      if !ok {
        deals := before;
        return Some(TokenCallFailed);
      }
      error := None;
    }

    // ---------------------------------------------------------------- the chain

    /** One transaction, to the escrow or to a token. */
    method Submit(tx: Tx) returns (error: Option<Error>)
      requires Valid()
      modifies this, Contracts()
      ensures Observed(Execute(self, old(View()), tx), old(View()), View(), error)
    {
      hide Escrow.LockFunds, Escrow.ConfirmDelivery, Escrow.ReleaseFunds, Escrow.OptimisticRelease;
      hide Escrow.RaiseDispute, Escrow.ClaimRefund, TokenLedger.Mint, TokenLedger.Transfer, TokenLedger.TransferFrom;
      match tx.call {
        case Lock(rfqId, seller, amount, token, deliveryWindow, disputeWindow) =>
          error := LockFunds(tx.sender, tx.time, rfqId, seller, amount, token, deliveryWindow, disputeWindow);
        case Confirm(rfqId, resultHash) => error := ConfirmDelivery(tx.sender, tx.time, rfqId, resultHash);
        case BuyerRelease(rfqId) => error := ReleaseFunds(tx.sender, rfqId);
        case KeeperRelease(rfqId) => error := OptimisticRelease(tx.time, rfqId);
        case Dispute(rfqId) => error := RaiseDispute(tx.sender, tx.time, rfqId);
        case Refund(rfqId) => error := ClaimRefund(tx.time, rfqId);
        case _ => error := SubmitToToken(tx);
      }
    }

    method SubmitToToken(tx: Tx) returns (error: Option<Error>)
      requires Valid() && !tx.call.OnEscrow()
      modifies Contracts()
      ensures Observed(Execute(self, old(View()), tx), old(View()), View(), error)
    {
      hide Escrow.LockFunds, Escrow.ConfirmDelivery, Escrow.ReleaseFunds, Escrow.OptimisticRelease;
      hide Escrow.RaiseDispute, Escrow.ClaimRefund, TokenLedger.Mint, TokenLedger.Transfer, TokenLedger.TransferFrom;
      if tx.call.token !in tokens {
        return Some(TokenCallFailed);
      }
      var token := tokens[tx.call.token];
      assert forall t :: t in tokens && t != tx.call.token ==> tokens[t] != token;
      var ok;
      match tx.call {
        case TokenMint(_, to, amount) => ok := token.Mint(to, amount);
        case TokenApprove(_, spender, amount) => ok := token.Approve(tx.sender, spender, amount);
        case TokenTransfer(_, to, amount) => ok := token.Transfer(tx.sender, to, amount);
        case TokenTransferFrom(_, from, to, amount) => ok := token.TransferFrom(tx.sender, from, to, amount);
      }
      assert Ledgers() == old(Ledgers())[tx.call.token := token.View()];
      error := if ok then None else Some(TokenCallFailed);
    }

    /** A run of transactions: what is proved of `Run` holds of the contracts. */
    method SubmitAll(txs: seq<Tx>)
      requires Valid()
      modifies this, Contracts()
      ensures View() == Run(self, old(View()), txs)
    {
      hide Execute;
      for i := 0 to |txs|
        invariant View() == Run(self, old(View()), txs[..i])
      {
        assert txs[..i + 1][..i] == txs[..i];
        var _ := Submit(txs[i]);
      }
      assert txs[..|txs|] == txs;
    }
  }
}
