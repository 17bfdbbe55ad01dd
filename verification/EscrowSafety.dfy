/**
 Safety over unbounded runs: the escrow can always cover what it owes, and so
 a payout is never refused by the token.
 */
module EscrowSafety {
  import opened Evm
  import opened Options
  import opened MapSums
  import opened TokenLedger
  import opened Escrow

  /** The state in which the escrow still owes the amount of a deal to somebody. */
  predicate Holds(s: State) {
    s == LOCKED || s == DELIVERED || s == DISPUTED
  }

  function Held(d: Deal, t: Address): nat {
    if d.token == t && Holds(d.state) then d.amount else 0
  }

  // A function value has one name here, so that two sums over it are the same sum.
  function HeldIn(t: Address): Deal -> nat {
    (d: Deal) => Held(d, t)
  }

  function Shares(deals: map<Bytes32, Deal>, share: Deal -> nat): map<Bytes32, nat> {
    map id | id in deals :: share(deals[id])
  }

  ghost function Total(deals: map<Bytes32, Deal>, share: Deal -> nat): nat {
    Sum(Shares(deals, share))
  }

  ghost function Owed(deals: map<Bytes32, Deal>, t: Address): nat {
    Total(deals, HeldIn(t))
  }

  function TokenBalance(w: World, t: Address, a: Address): Uint256 {
    if t in w.tokens then Balance(w.tokens[t], a) else 0
  }

  ghost function Surplus(self: Address, w: World, t: Address): int {
    TokenBalance(w, t, self) - Owed(w.deals, t)
  }

  ghost predicate WellFormed(self: Address, w: World, id: Bytes32)
    requires id in w.deals
  {
    var d := w.deals[id];
    && d.rfqId == id && d.amount > 0 && d.state != OPEN
    && d.buyer != ZERO && d.buyer != self && d.seller != ZERO
    && d.token in w.tokens
  }

  ghost predicate Sound(self: Address, w: World, t: Address)
    requires t in w.tokens
  {
    && Conserved(w.tokens[t])
    && NoAllowance(w.tokens[t], self)
    && Surplus(self, w, t) >= 0
  }

  ghost predicate Inv(self: Address, w: World) {
    && self != ZERO
    && (forall id :: id in w.deals ==> WellFormed(self, w, id))
    && (forall t :: t in w.tokens ==> Sound(self, w, t))
  }

  // ---------------------------------------------------------------- sums over deals

  lemma TotalUpdate(deals: map<Bytes32, Deal>, id: Bytes32, d: Deal, share: Deal -> nat)
    ensures Total(deals[id := d], share)
         == Total(deals, share) - (if id in deals then share(deals[id]) else 0) + share(d)
  {
    assert Shares(deals[id := d], share) == Shares(deals, share)[id := share(d)];
    SumUpdate(Shares(deals, share), id, share(d));
  }

  lemma OwedCovers(deals: map<Bytes32, Deal>, id: Bytes32)
    requires id in deals && Holds(deals[id].state)
    ensures deals[id].amount <= Owed(deals, deals[id].token)
  {
    SumCoversOne(Shares(deals, HeldIn(deals[id].token)), id);
  }

  lemma {:induction false} NothingOwed(t: Address)
    ensures Owed(map[], t) == 0
  {
    assert Shares(map[], HeldIn(t)) == map[];
  }

  // ---------------------------------------------------------------- the shape of a call

  /** Why a call on a locked deal is refused, which the deal alone decides. */
  function Refusal(d: Deal, tx: Tx): Option<Error> {
    match tx.call
    case Confirm(_, _) =>
      if tx.sender != d.seller then Some(NotAuthorized)
      else if d.state != LOCKED then Some(InvalidState(d.state, LOCKED))
      else if tx.time > d.deliveryDeadline then Some(DeadlinePassed)
      else if ToUint64(tx.time) + d.disputeDeadline >= TWO_64 then Some(Overflow)
      else None
    case BuyerRelease(_) =>
      if tx.sender != d.buyer then Some(NotAuthorized)
      else if d.state != DELIVERED then Some(InvalidState(d.state, DELIVERED))
      else None
    case KeeperRelease(_) =>
      if d.state != DELIVERED then Some(InvalidState(d.state, DELIVERED))
      else if tx.time <= d.disputeDeadline then Some(DeadlineNotPassed)
      else None
    case Dispute(_) =>
      if tx.sender != d.buyer then Some(NotAuthorized)
      else if d.state != DELIVERED then Some(InvalidState(d.state, DELIVERED))
      else if tx.time > d.disputeDeadline then Some(DeadlinePassed)
      else None
    case Refund(_) =>
      if d.state != LOCKED then Some(InvalidState(d.state, LOCKED))
      else if tx.time <= d.deliveryDeadline then Some(DeadlineNotPassed)
      else None
    case _ => None
  }

  /** The deal that a call which is not refused leaves behind. */
  function Settled(d: Deal, tx: Tx): Deal
    requires Refusal(d, tx).None?
  {
    match tx.call
    case Confirm(_, hash) =>
      d.(resultHash := hash, disputeDeadline := ToUint64(tx.time) + d.disputeDeadline, state := DELIVERED)
    case BuyerRelease(_) => d.(state := RELEASED)
    case KeeperRelease(_) => d.(state := RELEASED)
    case Dispute(_) => d.(state := DISPUTED)
    case Refund(_) => d.(state := REFUNDED)
    case _ => d
  }

  /** Who is paid the amount of the deal by a call that is not refused. */
  function Payee(d: Deal, tx: Tx): Option<Address> {
    if tx.call.BuyerRelease? || tx.call.KeeperRelease? then Some(d.seller)
    else if tx.call.Refund? then Some(d.buyer)
    else None
  }

  function PaidCall(tokens: map<Address, Ledger>, self: Address, d: Deal, tx: Tx): Option<map<Address, Ledger>> {
    match Payee(d, tx)
    case None => Some(tokens)
    case Some(to) => TransferCall(tokens, self, d.token, to, d.amount)
  }

  /** A call on a locked deal checks the deal, rewrites it, and pays out. */
  lemma CallShape(self: Address, w: World, tx: Tx)
    requires tx.call.OnEscrow() && !tx.call.Lock?
    ensures var d := DealAt(w.deals, tx.call.rfqId);
            Execute(self, w, tx)
            == match Refusal(d, tx)
               case Some(error) => Revert(error)
               case None => Committed(w.deals[tx.call.rfqId := Settled(d, tx)], PaidCall(w.tokens, self, d, tx))
  {
    hide Transfer;
  }

  /** A successful lock writes one fresh deal, with the caller as its buyer. */
  lemma LockShape(self: Address, w: World, tx: Tx)
    requires tx.call.Lock? && Execute(self, w, tx).Done?
    ensures var Lock(id, seller, amount, token, deliveryWindow, disputeWindow) := tx.call;
            && DealAt(w.deals, id).buyer == ZERO
            && ToUint64(tx.time) + deliveryWindow < TWO_64
            && Next(self, w, tx).deals == w.deals[id := Deal(id, tx.sender, seller, amount, token,
                 ToUint64(tx.time) + deliveryWindow, disputeWindow, 0, LOCKED)]
  {
    hide TransferFrom;
  }

  // ---------------------------------------------------------------- payouts

  /** The token never refuses to pay out a deal that is still held. */
  lemma PayoutGoesThrough(self: Address, w: World, id: Bytes32, to: Address)
    requires Inv(self, w) && id in w.deals && Holds(w.deals[id].state)
    ensures var d := w.deals[id];
            TransferCall(w.tokens, self, d.token, to, d.amount).Some?
  {
    hide Sum;
    var d := w.deals[id];
    assert WellFormed(self, w, id) && Sound(self, w, d.token);
    OwedCovers(w.deals, id);
    TransferConserves(w.tokens[d.token], self, to, d.amount);
  }

  /** Payability of the three ways out: the token transfer is never what refuses them. */
  lemma BuyerReleaseSucceedsIff(self: Address, w: World, sender: Address, id: Bytes32)
    requires Inv(self, w) && sender != ZERO
    ensures var d := DealAt(w.deals, id);
            ReleaseFunds(self, w, sender, id).Done? <==> sender == d.buyer && d.state == DELIVERED
  {
    hide Sum;
    if id in w.deals && Holds(w.deals[id].state) {
      PayoutGoesThrough(self, w, id, w.deals[id].seller);
    }
  }

  lemma KeeperReleaseSucceedsIff(self: Address, w: World, now: Uint256, id: Bytes32)
    requires Inv(self, w)
    ensures var d := DealAt(w.deals, id);
            OptimisticRelease(self, w, now, id).Done? <==> d.state == DELIVERED && now > d.disputeDeadline
  {
    hide Sum;
    if id in w.deals && Holds(w.deals[id].state) {
      PayoutGoesThrough(self, w, id, w.deals[id].seller);
    }
  }

  lemma RefundSucceedsIff(self: Address, w: World, now: Uint256, id: Bytes32)
    requires Inv(self, w)
    ensures var d := DealAt(w.deals, id);
            ClaimRefund(self, w, now, id).Done? <==> d.state == LOCKED && now > d.deliveryDeadline
  {
    hide Sum;
    if id in w.deals && Holds(w.deals[id].state) {
      PayoutGoesThrough(self, w, id, w.deals[id].buyer);
    }
  }

  /** A lock succeeds exactly on a fresh rfqId, sane terms, and a covered, approved pull. */
  lemma LockSucceedsIff(self: Address, w: World, sender: Address, now: Uint256, id: Bytes32, seller: Address,
                        amount: Uint256, token: Address, deliveryWindow: Uint64, disputeWindow: Uint64)
    requires Inv(self, w) && sender != self
    ensures LockFunds(self, w, sender, now, id, seller, amount, token, deliveryWindow, disputeWindow).Done?
       <==> && id !in w.deals && amount > 0 && seller != ZERO
            && ToUint64(now) + deliveryWindow < TWO_64
            && token in w.tokens
            && amount <= Balance(w.tokens[token], sender)
            && amount <= Allowance(w.tokens[token], sender, self)
  {
    hide Sum;
    assert id in w.deals ==> WellFormed(self, w, id);
    if token in w.tokens {
      assert Sound(self, w, token);
      TransferFromConserves(w.tokens[token], self, sender, self, amount);
    }
  }

  /** The reason why a lock is refused: the first of these that holds. */
  lemma LockRefusedBecause(self: Address, w: World, sender: Address, now: Uint256, id: Bytes32, seller: Address,
                           amount: Uint256, token: Address, deliveryWindow: Uint64, disputeWindow: Uint64)
    requires Inv(self, w) && sender != self
    ensures var result := LockFunds(self, w, sender, now, id, seller, amount, token, deliveryWindow, disputeWindow);
            result.Revert? ==>
              match result.error
              case RfqAlreadyUsed => id in w.deals
              case InvalidAmount => id !in w.deals && amount == 0
              case NotAuthorized => id !in w.deals && amount > 0 && seller == ZERO
              case Overflow =>
                id !in w.deals && amount > 0 && seller != ZERO && ToUint64(now) + deliveryWindow >= TWO_64
              case TokenCallFailed =>
                && id !in w.deals && amount > 0 && seller != ZERO && ToUint64(now) + deliveryWindow < TWO_64
                && (|| token !in w.tokens
                    || amount > Balance(w.tokens[token], sender)
                    || amount > Allowance(w.tokens[token], sender, self))
              case _ => false
  {
    hide Sum;
    assert id in w.deals ==> WellFormed(self, w, id);
    if token in w.tokens {
      assert Sound(self, w, token);
      TransferFromConserves(w.tokens[token], self, sender, self, amount);
    }
  }

  // ---------------------------------------------------------------- solvency

  /** What a transaction adds to the surplus of token `t`: donations, and a sale by the escrow itself. */
  function Gift(self: Address, w: World, tx: Tx, t: Address): nat {
    if Execute(self, w, tx).Revert? then 0
    else match tx.call
      case TokenMint(token, to, amount) => if token == t && to == self then amount else 0
      case TokenTransfer(token, to, amount) => if token == t && to == self then amount else 0
      case TokenTransferFrom(token, from, to, amount) =>
        if token == t && to == self && from != self then amount else 0
      case BuyerRelease(id) => SelfSale(self, DealAt(w.deals, id), t)
      case KeeperRelease(id) => SelfSale(self, DealAt(w.deals, id), t)
      case _ => 0
  }

  function SelfSale(self: Address, d: Deal, t: Address): nat {
    if d.seller == self && d.token == t then d.amount else 0
  }

  /** The same terms in another state, the hash and the dispute deadline aside. */
  predicate SameTerms(d: Deal, e: Deal) {
    d == e.(state := d.state, disputeDeadline := d.disputeDeadline, resultHash := d.resultHash)
  }

  lemma RewriteKeepsDeals(self: Address, w: World, id: Bytes32, d: Deal, tokens: map<Address, Ledger>)
    requires Inv(self, w) && id in w.deals && SameTerms(d, w.deals[id]) && d.state != OPEN
    requires tokens.Keys == w.tokens.Keys
    ensures var after := World(w.deals[id := d], tokens);
            forall i :: i in after.deals ==> WellFormed(self, after, i)
  {
    var after := World(w.deals[id := d], tokens);
    forall i | i in after.deals ensures WellFormed(self, after, i) {
      assert WellFormed(self, w, i);
    }
  }

  lemma OwedUpdate(deals: map<Bytes32, Deal>, id: Bytes32, d: Deal, t: Address)
    ensures Owed(deals[id := d], t)
         == Owed(deals, t) - (if id in deals then Held(deals[id], t) else 0) + Held(d, t)
  {
    TotalUpdate(deals, id, d, HeldIn(t));
  }

  /** One token's side of a payout: its ledger stays sound, and covers one deal less. */
  lemma PayoutKeepsToken(self: Address, w: World, id: Bytes32, d: Deal, to: Address, paid: map<Address, Ledger>,
                         t: Address)
    requires Inv(self, w) && id in w.deals && Holds(w.deals[id].state) && t in w.tokens
    requires SameTerms(d, w.deals[id]) && (d.state == RELEASED || d.state == REFUNDED)
    requires TransferCall(w.tokens, self, d.token, to, d.amount) == Some(paid)
    ensures Sound(self, World(w.deals[id := d], paid), t)
    ensures Surplus(self, World(w.deals[id := d], paid), t)
         == Surplus(self, w, t) + (if to == self && t == d.token then d.amount else 0)
  {
    hide Sum, Transfer;
    assert Sound(self, w, t) && WellFormed(self, w, id);
    OwedUpdate(w.deals, id, d, t);
    if t == d.token {
      TransferConserves(w.tokens[t], self, to, d.amount);
      TransferMoves(w.tokens[t], self, to, d.amount, self);
    }
  }

  /** Writing one deal and paying its amount out keeps the invariant. */
  lemma PayoutKeepsInv(self: Address, w: World, id: Bytes32, d: Deal, to: Address, paid: map<Address, Ledger>)
    requires Inv(self, w) && id in w.deals && Holds(w.deals[id].state)
    requires SameTerms(d, w.deals[id]) && (d.state == RELEASED || d.state == REFUNDED)
    requires TransferCall(w.tokens, self, d.token, to, d.amount) == Some(paid)
    ensures Inv(self, World(w.deals[id := d], paid)) && paid.Keys == w.tokens.Keys
    ensures forall t :: t in w.tokens ==>
              Surplus(self, World(w.deals[id := d], paid), t)
              == Surplus(self, w, t) + (if to == self && t == d.token then d.amount else 0)
  {
    hide Sum, Transfer;
    RewriteKeepsDeals(self, w, id, d, paid);
    forall t | t in w.tokens
      ensures Sound(self, World(w.deals[id := d], paid), t)
      ensures Surplus(self, World(w.deals[id := d], paid), t)
           == Surplus(self, w, t) + (if to == self && t == d.token then d.amount else 0)
    {
      PayoutKeepsToken(self, w, id, d, to, paid, t);
    }
  }

  /** Writing one deal without a payment keeps the invariant when it changes no obligation. */
  lemma RewriteKeepsInv(self: Address, w: World, id: Bytes32, d: Deal)
    requires Inv(self, w) && id in w.deals && Holds(w.deals[id].state) && Holds(d.state)
    requires SameTerms(d, w.deals[id])
    ensures Inv(self, w.(deals := w.deals[id := d]))
    ensures forall t :: t in w.tokens ==> Surplus(self, w.(deals := w.deals[id := d]), t) == Surplus(self, w, t)
  {
    hide Sum;
    var after := w.(deals := w.deals[id := d]);
    RewriteKeepsDeals(self, w, id, d, w.tokens);
    forall t | t in w.tokens
      ensures Sound(self, after, t) && Surplus(self, after, t) == Surplus(self, w, t)
    {
      assert Sound(self, w, t);
      OwedUpdate(w.deals, id, d, t);
    }
  }

  lemma LockKeepsInv(self: Address, w: World, tx: Tx)
    requires Inv(self, w) && tx.sender != ZERO && tx.sender != self && tx.call.Lock? && Execute(self, w, tx).Done?
    ensures Inv(self, Next(self, w, tx)) && Next(self, w, tx).tokens.Keys == w.tokens.Keys
    ensures forall t :: t in w.tokens ==> Surplus(self, Next(self, w, tx), t) == Surplus(self, w, t)
  {
    hide Owed, TransferFrom;
    var after := Next(self, w, tx);
    var Lock(id, seller, amount, token, deliveryWindow, disputeWindow) := tx.call;
    LockSucceedsIff(self, w, tx.sender, tx.time, id, seller, amount, token, deliveryWindow, disputeWindow);
    var l := w.tokens[token];
    TransferFromConserves(l, self, tx.sender, self, amount);
    TransferFromMoves(l, self, tx.sender, self, amount, self);
    forall t | t in w.tokens
      ensures Sound(self, after, t) && Surplus(self, after, t) == Surplus(self, w, t)
    {
      assert Sound(self, w, t);
      OwedUpdate(w.deals, id, after.deals[id], t);
    }
    forall i | i in after.deals ensures WellFormed(self, after, i) {
      assert i != id ==> WellFormed(self, w, i);
    }
  }

  /** A token call from outside keeps its ledger sound; it can only add to the escrow's balance. */
  lemma TokenCallKeepsToken(self: Address, w: World, tx: Tx)
    requires Inv(self, w) && tx.sender != self && !tx.call.OnEscrow() && Execute(self, w, tx).Done?
    ensures var t, after := tx.call.token, Next(self, w, tx);
            && t in w.tokens && after.deals == w.deals && after.tokens == w.tokens[t := after.tokens[t]]
            && Conserved(after.tokens[t]) && NoAllowance(after.tokens[t], self)
            && Balance(after.tokens[t], self) == Balance(w.tokens[t], self) + Gift(self, w, tx, t)
  {
    hide LockFunds, ConfirmDelivery, ReleaseFunds, OptimisticRelease, RaiseDispute, ClaimRefund;
    hide Owed, Transfer, TransferFrom;
    var l := w.tokens[tx.call.token];
    assert Sound(self, w, tx.call.token);
    match tx.call {
      case TokenMint(_, to, amount) => MintConserves(l, to, amount);
      case TokenApprove(_, spender, amount) =>
      case TokenTransfer(_, to, amount) =>
        TransferConserves(l, tx.sender, to, amount);
        TransferMoves(l, tx.sender, to, amount, self);
      case TokenTransferFrom(_, from, to, amount) =>
        TransferFromConserves(l, tx.sender, from, to, amount);
        TransferFromMoves(l, tx.sender, from, to, amount, self);
    }
  }

  lemma TokenCallKeepsInv(self: Address, w: World, tx: Tx)
    requires Inv(self, w) && tx.sender != self && !tx.call.OnEscrow() && Execute(self, w, tx).Done?
    ensures Inv(self, Next(self, w, tx)) && Next(self, w, tx).tokens.Keys == w.tokens.Keys
    ensures forall t :: t in w.tokens ==>
              Surplus(self, Next(self, w, tx), t) == Surplus(self, w, t) + Gift(self, w, tx, t)
  {
    hide Sum, Transfer;
    var after := Next(self, w, tx);
    TokenCallKeepsToken(self, w, tx);
    forall t | t in w.tokens
      ensures Sound(self, after, t) && Surplus(self, after, t) == Surplus(self, w, t) + Gift(self, w, tx, t)
    {
      assert Sound(self, w, t);
    }
    forall i | i in after.deals ensures WellFormed(self, after, i) {
      assert WellFormed(self, w, i);
    }
  }

  lemma DealCallKeepsInv(self: Address, w: World, tx: Tx)
    requires Inv(self, w) && tx.sender != ZERO
    requires tx.call.OnEscrow() && !tx.call.Lock? && Execute(self, w, tx).Done?
    ensures Inv(self, Next(self, w, tx)) && Next(self, w, tx).tokens.Keys == w.tokens.Keys
    ensures forall t :: t in w.tokens ==>
              Surplus(self, Next(self, w, tx), t) == Surplus(self, w, t) + Gift(self, w, tx, t)
  {
    hide Sum, TransferCall, Execute;
    var id := tx.call.rfqId;
    var d := DealAt(w.deals, id);
    CallShape(self, w, tx);
    assert id in w.deals && WellFormed(self, w, id);
    var after := Next(self, w, tx);
    match Payee(d, tx) {
      case None => RewriteKeepsInv(self, w, id, after.deals[id]);
      case Some(to) => PayoutKeepsInv(self, w, id, after.deals[id], to, after.tokens);
    }
  }

  /**
   Solvency, one step: the invariant is kept, and the surplus of every token
   grows by exactly what the transaction gave the escrow beyond its deals.
   */
  lemma SolvencyStep(self: Address, w: World, tx: Tx)
    requires Inv(self, w) && tx.sender != ZERO && tx.sender != self
    ensures Inv(self, Next(self, w, tx)) && Next(self, w, tx).tokens.Keys == w.tokens.Keys
    ensures forall t :: t in w.tokens ==>
              Surplus(self, Next(self, w, tx), t) == Surplus(self, w, t) + Gift(self, w, tx, t)
  {
    hide Inv, Execute, Surplus;
    if Execute(self, w, tx).Done? {
      if !tx.call.OnEscrow() {
        TokenCallKeepsInv(self, w, tx);
      } else if tx.call.Lock? {
        LockKeepsInv(self, w, tx);
      } else {
        DealCallKeepsInv(self, w, tx);
      }
    }
  }

  lemma GenesisInv(self: Address, w: World)
    requires Genesis(self, w)
    ensures Inv(self, w)
  {
    forall t | t in w.tokens ensures Sound(self, w, t) {
      NothingOwed(t);
    }
  }

  /** All that the transactions of a run give the escrow in token `t`, beyond its deals. */
  function Gifts(self: Address, w: World, txs: seq<Tx>, t: Address): nat {
    if txs == [] then 0
    else
      var front, last := txs[..|txs| - 1], txs[|txs| - 1];
      Gifts(self, w, front, t) + Gift(self, Run(self, w, front), last, t)
  }

  /**
   Solvency over every run: whatever outside accounts and the escrow's callers
   do, and in whatever order, each token balance of the escrow covers its open
   deals. What it holds beyond them grows by exactly what it was given, so it
   never falls.
   */
  lemma {:induction false} Solvency(self: Address, w: World, txs: seq<Tx>)
    requires Inv(self, w) && External(self, txs)
    ensures var end := Run(self, w, txs);
            && Inv(self, end) && end.tokens.Keys == w.tokens.Keys
            && forall t :: t in w.tokens ==>
                 && Surplus(self, end, t) == Surplus(self, w, t) + Gifts(self, w, txs, t)
                 && 0 <= Surplus(self, w, t) <= Surplus(self, end, t)
    decreases |txs|
  {
    hide Gift, Surplus, Next;
    forall t | t in w.tokens ensures Surplus(self, w, t) >= 0 {
      assert Sound(self, w, t);
    }
    if txs != [] {
      var front := txs[..|txs| - 1];
      Solvency(self, w, front);
      SolvencyStep(self, Run(self, w, front), txs[|txs| - 1]);
    }
  }

  /** Over every run each ledger is conserved, and a transfer fails only when its sender is short. */
  lemma LedgersStayConserved(self: Address, w: World, txs: seq<Tx>, t: Address, from: Address, to: Address,
                             amount: Uint256)
    requires Genesis(self, w) && External(self, txs) && t in w.tokens
    ensures var end := Run(self, w, txs);
            && t in end.tokens && Sum(end.tokens[t].balanceOf) == end.tokens[t].totalSupply
            && (Transfer(end.tokens[t], from, to, amount).Some? <==> amount <= Balance(end.tokens[t], from))
  {
    hide Sum, Transfer, Run;
    GenesisInv(self, w);
    Solvency(self, w, txs);
    var end := Run(self, w, txs);
    assert Sound(self, end, t);
    TransferConserves(end.tokens[t], from, to, amount);
  }
}
