/**
 What each external call of `AgentBazaarEscrow` does to the chain state it can
 reach: its deals, and the ledgers of the deployed tokens.
 */
module Escrow {
  import opened Evm
  import opened Options
  import opened TokenLedger

  datatype State = OPEN | LOCKED | DELIVERED | RELEASED | DISPUTED | REFUNDED

  datatype Deal = Deal(
    rfqId: Bytes32,
    buyer: Address,
    seller: Address,
    amount: Uint256,
    token: Address,
    deliveryDeadline: Uint64,
    disputeDeadline: Uint64, // a relative window while LOCKED, an absolute time afterwards
    resultHash: Bytes32,
    state: State)

  // What a mapping holds at an rfqId that was never locked.
  const NO_DEAL := Deal(0, ZERO, ZERO, 0, ZERO, 0, 0, 0, OPEN)

  datatype World = World(deals: map<Bytes32, Deal>, tokens: map<Address, Ledger>)

  datatype Error =
    | RfqAlreadyUsed
    | InvalidAmount
    | NotAuthorized
    | InvalidState(actual: State, expected: State)
    | DeadlinePassed
    | DeadlineNotPassed
    | Overflow        // a checked addition reverts
    | TokenCallFailed // the token reverted, or there is no contract at its address

  /** A call either takes effect or reverts, and then leaves no trace. */
  datatype Result = Done(world: World) | Revert(error: Error)

  function DealAt(deals: map<Bytes32, Deal>, rfqId: Bytes32): Deal {
    if rfqId in deals then deals[rfqId] else NO_DEAL
  }

  /** The ledgers after the contract `self` has called `transfer` on `token`. */
  function TransferCall(tokens: map<Address, Ledger>, self: Address, token: Address, to: Address, amount: Uint256)
    : Option<map<Address, Ledger>>
  {
    if token !in tokens then None
    else match Transfer(tokens[token], self, to, amount)
      case None => None
      case Some(l) => Some(tokens[token := l])
  }

  function TransferFromCall(tokens: map<Address, Ledger>, self: Address, token: Address, from: Address, amount: Uint256)
    : Option<map<Address, Ledger>>
  {
    if token !in tokens then None
    else match TransferFrom(tokens[token], self, from, self, amount)
      case None => None
      case Some(l) => Some(tokens[token := l])
  }

  function Committed(deals: map<Bytes32, Deal>, tokens: Option<map<Address, Ledger>>): Result {
    match tokens
    case None => Revert(TokenCallFailed)
    case Some(after) => Done(World(deals, after))
  }

  function LockFunds(self: Address, w: World, sender: Address, now: Uint256, rfqId: Bytes32, seller: Address,
                     amount: Uint256, token: Address, deliveryWindow: Uint64, disputeWindow: Uint64): Result
  {
    if DealAt(w.deals, rfqId).buyer != ZERO then Revert(RfqAlreadyUsed)
    else if amount == 0 then Revert(InvalidAmount)
    else if seller == ZERO then Revert(NotAuthorized)
    else if ToUint64(now) + deliveryWindow >= TWO_64 then Revert(Overflow)
    else
      var deal := Deal(rfqId, sender, seller, amount, token, ToUint64(now) + deliveryWindow, disputeWindow, 0, LOCKED);
      Committed(w.deals[rfqId := deal], TransferFromCall(w.tokens, self, token, sender, amount))
  }

  function ConfirmDelivery(w: World, sender: Address, now: Uint256, rfqId: Bytes32, resultHash: Bytes32): Result {
    var deal := DealAt(w.deals, rfqId);
    if sender != deal.seller then Revert(NotAuthorized)
    else if deal.state != LOCKED then Revert(InvalidState(deal.state, LOCKED))
    else if now > deal.deliveryDeadline then Revert(DeadlinePassed)
    else if ToUint64(now) + deal.disputeDeadline >= TWO_64 then Revert(Overflow)
    else
      var delivered := deal.(resultHash := resultHash,
                             disputeDeadline := ToUint64(now) + deal.disputeDeadline,
                             state := DELIVERED);
      Done(w.(deals := w.deals[rfqId := delivered]))
  }

  function Release(self: Address, w: World, rfqId: Bytes32): Result {
    var deal := DealAt(w.deals, rfqId);
    Committed(w.deals[rfqId := deal.(state := RELEASED)],
              TransferCall(w.tokens, self, deal.token, deal.seller, deal.amount))
  }

  function ReleaseFunds(self: Address, w: World, sender: Address, rfqId: Bytes32): Result {
    var deal := DealAt(w.deals, rfqId);
    if sender != deal.buyer then Revert(NotAuthorized)
    else if deal.state != DELIVERED then Revert(InvalidState(deal.state, DELIVERED))
    else Release(self, w, rfqId)
  }

  function OptimisticRelease(self: Address, w: World, now: Uint256, rfqId: Bytes32): Result {
    var deal := DealAt(w.deals, rfqId);
    if deal.state != DELIVERED then Revert(InvalidState(deal.state, DELIVERED))
    else if now <= deal.disputeDeadline then Revert(DeadlineNotPassed)
    else Release(self, w, rfqId)
  }

  function RaiseDispute(w: World, sender: Address, now: Uint256, rfqId: Bytes32): Result {
    var deal := DealAt(w.deals, rfqId);
    if sender != deal.buyer then Revert(NotAuthorized)
    else if deal.state != DELIVERED then Revert(InvalidState(deal.state, DELIVERED))
    else if now > deal.disputeDeadline then Revert(DeadlinePassed)
    else Done(w.(deals := w.deals[rfqId := deal.(state := DISPUTED)]))
  }

  function ClaimRefund(self: Address, w: World, now: Uint256, rfqId: Bytes32): Result {
    var deal := DealAt(w.deals, rfqId);
    if deal.state != LOCKED then Revert(InvalidState(deal.state, LOCKED))
    else if now <= deal.deliveryDeadline then Revert(DeadlineNotPassed)
    else Committed(w.deals[rfqId := deal.(state := REFUNDED)],
                   TransferCall(w.tokens, self, deal.token, deal.buyer, deal.amount))
  }

  // ---------------------------------------------------------------- transactions

  /** The calls a transaction can make: on one deal of the escrow, or on a token. */
  datatype Call =
    | Lock(rfqId: Bytes32, seller: Address, amount: Uint256, token: Address,
           deliveryWindow: Uint64, disputeWindow: Uint64)
    | Confirm(rfqId: Bytes32, resultHash: Bytes32)
    | BuyerRelease(rfqId: Bytes32)
    | KeeperRelease(rfqId: Bytes32)
    | Dispute(rfqId: Bytes32)
    | Refund(rfqId: Bytes32)
    | TokenMint(token: Address, to: Address, amount: Uint256)
    | TokenApprove(token: Address, spender: Address, amount: Uint256)
    | TokenTransfer(token: Address, to: Address, amount: Uint256)
    | TokenTransferFrom(token: Address, from: Address, to: Address, amount: Uint256)
  {
    predicate OnEscrow() {
      Lock? || Confirm? || BuyerRelease? || KeeperRelease? || Dispute? || Refund?
    }
  }

  datatype Tx = Tx(sender: Address, time: Uint256, call: Call)

  function OnToken(w: World, token: Address, effect: Option<Ledger>): Result
    requires token in w.tokens
  {
    match effect
    case None => Revert(TokenCallFailed)
    case Some(l) => Done(w.(tokens := w.tokens[token := l]))
  }

  function Execute(self: Address, w: World, tx: Tx): Result {
    match tx.call
    case Lock(rfqId, seller, amount, token, deliveryWindow, disputeWindow) =>
      LockFunds(self, w, tx.sender, tx.time, rfqId, seller, amount, token, deliveryWindow, disputeWindow)
    case Confirm(rfqId, resultHash) => ConfirmDelivery(w, tx.sender, tx.time, rfqId, resultHash)
    case BuyerRelease(rfqId) => ReleaseFunds(self, w, tx.sender, rfqId)
    case KeeperRelease(rfqId) => OptimisticRelease(self, w, tx.time, rfqId)
    case Dispute(rfqId) => RaiseDispute(w, tx.sender, tx.time, rfqId)
    case Refund(rfqId) => ClaimRefund(self, w, tx.time, rfqId)
    case TokenMint(token, to, amount) =>
      if token !in w.tokens then Revert(TokenCallFailed)
      else OnToken(w, token, Mint(w.tokens[token], to, amount))
    case TokenApprove(token, spender, amount) =>
      if token !in w.tokens then Revert(TokenCallFailed)
      else OnToken(w, token, Some(Approve(w.tokens[token], tx.sender, spender, amount)))
    case TokenTransfer(token, to, amount) =>
      if token !in w.tokens then Revert(TokenCallFailed)
      else OnToken(w, token, Transfer(w.tokens[token], tx.sender, to, amount))
    case TokenTransferFrom(token, from, to, amount) =>
      if token !in w.tokens then Revert(TokenCallFailed)
      else OnToken(w, token, TransferFrom(w.tokens[token], tx.sender, from, to, amount))
  }

  function Next(self: Address, w: World, tx: Tx): World {
    match Execute(self, w, tx)
    case Done(after) => after
    case Revert(_) => w
  }

  function Run(self: Address, w: World, txs: seq<Tx>): World {
    if txs == [] then w
    else Next(self, Run(self, w, txs[..|txs| - 1]), txs[|txs| - 1])
  }

  lemma {:induction false} RunAppend(self: Address, w: World, a: seq<Tx>, b: seq<Tx>)
    ensures Run(self, w, a + b) == Run(self, Run(self, w, a), b)
    decreases |b|
  {
    hide Next;
    if b == [] {
      assert a + b == a;
    } else {
      assert (a + b)[..|a + b| - 1] == a + b[..|b| - 1];
      RunAppend(self, w, a, b[..|b| - 1]);
    }
  }

  /** Transactions come from accounts other than the zero address and the escrow. */
  ghost predicate External(self: Address, txs: seq<Tx>) {
    forall i :: 0 <= i < |txs| ==> txs[i].sender != ZERO && txs[i].sender != self
  }

  /** The escrow is new and has never called a token; the tokens may be in use. */
  ghost predicate Genesis(self: Address, w: World) {
    && self != ZERO
    && w.deals == map[]
    && forall t :: t in w.tokens ==> Conserved(w.tokens[t]) && NoAllowance(w.tokens[t], self)
  }
}
