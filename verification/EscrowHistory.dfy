/**
 What the state of a deal says about its past, over every run from genesis:
 which calls made it so, who sent them and when, and which payments they caused.
 */
module EscrowHistory {
  import opened Evm
  import opened MapSums
  import opened TokenLedger
  import opened Escrow
  import opened EscrowSafety

  // ---------------------------------------------------------------- the log of a deal

  predicate Succeeds(self: Address, w: World, tx: Tx, id: Bytes32) {
    tx.call.OnEscrow() && tx.call.rfqId == id && Execute(self, w, tx).Done?
  }

  /** The transactions of a run that succeeded on one deal, in order. */
  function Log(self: Address, w: World, txs: seq<Tx>, id: Bytes32): seq<Tx> {
    if txs == [] then []
    else
      var front, last := txs[..|txs| - 1], txs[|txs| - 1];
      Log(self, w, front, id) + if Succeeds(self, Run(self, w, front), last, id) then [last] else []
  }

  ghost predicate LockedBy(d: Deal, tx: Tx) {
    && tx.call.Lock?
    && tx.call == Lock(d.rfqId, d.seller, d.amount, d.token, tx.call.deliveryWindow, tx.call.disputeWindow)
    && tx.sender == d.buyer
    && d.deliveryDeadline == ToUint64(tx.time) + tx.call.deliveryWindow
  }

  ghost predicate ConfirmedBy(d: Deal, lock: Tx, tx: Tx) {
    && lock.call.Lock?
    && tx.call == Confirm(d.rfqId, d.resultHash)
    && tx.sender == d.seller && tx.time <= d.deliveryDeadline
    && d.disputeDeadline == ToUint64(tx.time) + lock.call.disputeWindow
  }

  /** The one history that each state of a deal admits. */
  ghost predicate Explains(log: seq<Tx>, d: Deal) {
    && |log| >= 1 && LockedBy(d, log[0])
    && match d.state
       case OPEN => false
       case LOCKED =>
         |log| == 1 && d.disputeDeadline == log[0].call.disputeWindow && d.resultHash == 0
       case DELIVERED =>
         |log| == 2 && ConfirmedBy(d, log[0], log[1])
       case RELEASED =>
         && |log| == 3 && ConfirmedBy(d, log[0], log[1])
         && (|| (log[2].call == BuyerRelease(d.rfqId) && log[2].sender == d.buyer)
             || (log[2].call == KeeperRelease(d.rfqId) && log[2].time > d.disputeDeadline))
       case DISPUTED =>
         && |log| == 3 && ConfirmedBy(d, log[0], log[1])
         && log[2].call == Dispute(d.rfqId) && log[2].sender == d.buyer && log[2].time <= d.disputeDeadline
       case REFUNDED =>
         |log| == 2 && log[1].call == Refund(d.rfqId) && log[1].time > d.deliveryDeadline
  }

  ghost predicate Explained(log: seq<Tx>, w: World, id: Bytes32) {
    if id in w.deals then Explains(log, w.deals[id]) else log == []
  }

  /** A deal changes only by a successful escrow call on its own rfqId. */
  lemma OtherDealsUntouched(self: Address, w: World, tx: Tx, id: Bytes32)
    requires !Succeeds(self, w, tx, id)
    ensures id in Next(self, w, tx).deals <==> id in w.deals
    ensures id in w.deals ==> Next(self, w, tx).deals[id] == w.deals[id]
  {
    hide Transfer, TransferFrom;
  }

  lemma ExplainedLock(self: Address, w: World, tx: Tx, id: Bytes32, log: seq<Tx>)
    requires Inv(self, w) && tx.sender != ZERO && tx.call.Lock?
    requires Explained(log, w, id) && Succeeds(self, w, tx, id)
    ensures Explained(log + [tx], Next(self, w, tx), id)
  {
    assert id in w.deals ==> WellFormed(self, w, id);
    hide Inv, Execute;
    LockShape(self, w, tx);
  }

  /** A call that a deal does not refuse is the next entry in its history. */
  lemma SettledIsExplained(log: seq<Tx>, d: Deal, tx: Tx)
    requires Explains(log, d) && tx.call.OnEscrow() && !tx.call.Lock? && tx.call.rfqId == d.rfqId
    requires Refusal(d, tx).None?
    ensures Explains(log + [tx], Settled(d, tx))
  {
    var longer := log + [tx];
    assert longer[0] == log[0] && longer[|log|] == tx;
    assert |log| >= 2 ==> longer[1] == log[1];
  }

  lemma ExplainedCall(self: Address, w: World, tx: Tx, id: Bytes32, log: seq<Tx>)
    requires Inv(self, w) && tx.sender != ZERO && !tx.call.Lock?
    requires Explained(log, w, id) && Succeeds(self, w, tx, id)
    ensures Explained(log + [tx], Next(self, w, tx), id)
  {
    assert id in w.deals ==> WellFormed(self, w, id);
    hide Inv, Execute, TransferCall, Explains, Settled;
    CallShape(self, w, tx);
    SettledIsExplained(log, w.deals[id], tx);
  }

  lemma ExplainedStep(self: Address, w: World, tx: Tx, id: Bytes32, log: seq<Tx>)
    requires Inv(self, w) && tx.sender != ZERO && tx.sender != self
    requires Explained(log, w, id) && Succeeds(self, w, tx, id)
    ensures Explained(log + [tx], Next(self, w, tx), id)
  {
    hide Inv, Explained, Succeeds, Next;
    if tx.call.Lock? {
      ExplainedLock(self, w, tx, id, log);
    } else {
      ExplainedCall(self, w, tx, id, log);
    }
  }

  /**
   Timed lifecycle: at the end of every run each deal has exactly the history
   that its state tells, so at most three calls ever succeeded on it.
   */
  lemma {:induction false} Lifecycle(self: Address, w: World, txs: seq<Tx>, id: Bytes32)
    requires Genesis(self, w) && External(self, txs)
    ensures Explained(Log(self, w, txs, id), Run(self, w, txs), id)
    ensures |Log(self, w, txs, id)| <= 3
    decreases |txs|
  {
    hide Inv, Next, Succeeds;
    if txs != [] {
      var front, last := txs[..|txs| - 1], txs[|txs| - 1];
      Lifecycle(self, w, front, id);
      GenesisInv(self, w);
      Solvency(self, w, front);
      if Succeeds(self, Run(self, w, front), last, id) {
        ExplainedStep(self, Run(self, w, front), last, id, Log(self, w, front, id));
      } else {
        OtherDealsUntouched(self, Run(self, w, front), last, id);
      }
    }
  }

  // ---------------------------------------------------------------- forward only

  predicate Reaches(s: State, s': State) {
    || s == s'
    || (s == LOCKED && s' != OPEN)
    || (s == DELIVERED && (s' == RELEASED || s' == DISPUTED))
  }

  lemma SettledIsForward(d: Deal, tx: Tx)
    requires d.state != OPEN && tx.call.OnEscrow() && !tx.call.Lock? && Refusal(d, tx).None?
    ensures var after := Settled(d, tx);
            SameTerms(after, d) && d.state != after.state && Reaches(d.state, after.state)
  {
  }

  lemma ForwardStep(self: Address, w: World, tx: Tx, id: Bytes32)
    requires Inv(self, w) && id in w.deals && Succeeds(self, w, tx, id)
    ensures var d, next := w.deals[id], Next(self, w, tx);
            && id in next.deals && SameTerms(next.deals[id], d)
            && d.state != next.deals[id].state && Reaches(d.state, next.deals[id].state)
  {
    assert WellFormed(self, w, id);
    hide Inv, Execute, TransferCall, SameTerms, Reaches, Settled;
    if tx.call.Lock? {
      LockShape(self, w, tx);
    } else {
      CallShape(self, w, tx);
      SettledIsForward(w.deals[id], tx);
    }
  }

  /** Terms are fixed by the lock, states only move forward, and an end state is final. */
  lemma {:induction false} ForwardOnly(self: Address, w: World, txs: seq<Tx>, id: Bytes32)
    requires Inv(self, w) && External(self, txs) && id in w.deals
    ensures var end := Run(self, w, txs);
            && id in end.deals && SameTerms(end.deals[id], w.deals[id])
            && Reaches(w.deals[id].state, end.deals[id].state)
            && (w.deals[id].state in {RELEASED, DISPUTED, REFUNDED} ==> end.deals[id] == w.deals[id])
    decreases |txs|
  {
    hide Inv, Next, Succeeds;
    if txs != [] {
      var front, last := txs[..|txs| - 1], txs[|txs| - 1];
      ForwardOnly(self, w, front, id);
      Solvency(self, w, front);
      var mid := Run(self, w, front);
      if Succeeds(self, mid, last, id) {
        ForwardStep(self, mid, last, id);
      } else {
        OtherDealsUntouched(self, mid, last, id);
      }
    }
  }

  // ---------------------------------------------------------------- the money of a deal

  /** One token transfer that an escrow call makes on behalf of a deal. */
  datatype Move =
    | Pull(token: Address, from: Address, amount: nat)
    | Pay(token: Address, to: Address, amount: nat)

  function CallMoves(d: Deal, tx: Tx): seq<Move> {
    match tx.call
    case Lock(_, _, amount, token, _, _) => [Pull(token, tx.sender, amount)]
    case BuyerRelease(_) => [Pay(d.token, d.seller, d.amount)]
    case KeeperRelease(_) => [Pay(d.token, d.seller, d.amount)]
    case Refund(_) => [Pay(d.token, d.buyer, d.amount)]
    case _ => []
  }

  function MovesOf(self: Address, w: World, tx: Tx, id: Bytes32): seq<Move> {
    if Succeeds(self, w, tx, id) then CallMoves(DealAt(w.deals, id), tx) else []
  }

  function MoveLog(self: Address, w: World, txs: seq<Tx>, id: Bytes32): seq<Move> {
    if txs == [] then []
    else
      var front, last := txs[..|txs| - 1], txs[|txs| - 1];
      MoveLog(self, w, front, id) + MovesOf(self, Run(self, w, front), last, id)
  }

  /** What a list of moves does to the balance of account `a` in token `t`. */
  function Effect(moves: seq<Move>, self: Address, t: Address, a: Address): int {
    if moves == [] then 0
    else
      (match moves[0]
       case Pull(token, from, amount) =>
         if token != t then 0 else (if a == self then amount else 0) - (if a == from then amount else 0)
       case Pay(token, to, amount) =>
         if token != t then 0 else (if a == to then amount else 0) - (if a == self then amount else 0))
      + Effect(moves[1..], self, t, a)
  }

  /** The moves are real: an escrow call changes every account, in every token, by exactly its moves. */
  lemma MovesAreTransfers(self: Address, w: World, tx: Tx, t: Address, a: Address)
    requires tx.call.OnEscrow()
    ensures TokenBalance(Next(self, w, tx), t, a)
         == TokenBalance(w, t, a) + Effect(MovesOf(self, w, tx, tx.call.rfqId), self, t, a)
  {
    hide Transfer, TransferFrom;
    var id := tx.call.rfqId;
    if Succeeds(self, w, tx, id) {
      var d := DealAt(w.deals, id);
      match tx.call {
        case Lock(_, _, amount, token, _, _) =>
          TransferFromMoves(w.tokens[token], self, tx.sender, self, amount, a);
        case BuyerRelease(_) => TransferMoves(w.tokens[d.token], self, d.seller, d.amount, a);
        case KeeperRelease(_) => TransferMoves(w.tokens[d.token], self, d.seller, d.amount, a);
        case Refund(_) => TransferMoves(w.tokens[d.token], self, d.buyer, d.amount, a);
        case _ =>
      }
    }
  }

  function MovesTold(d: Deal): seq<Move> {
    [Pull(d.token, d.buyer, d.amount)]
    + if d.state == RELEASED then [Pay(d.token, d.seller, d.amount)]
      else if d.state == REFUNDED then [Pay(d.token, d.buyer, d.amount)]
      else []
  }

  ghost predicate Accounted(moves: seq<Move>, w: World, id: Bytes32) {
    moves == if id in w.deals then MovesTold(w.deals[id]) else []
  }

  lemma SettledIsAccounted(d: Deal, tx: Tx)
    requires d.state != OPEN && tx.call.OnEscrow() && !tx.call.Lock? && Refusal(d, tx).None?
    ensures MovesTold(Settled(d, tx)) == MovesTold(d) + CallMoves(d, tx)
  {
  }

  lemma AccountedCall(self: Address, w: World, tx: Tx, id: Bytes32)
    requires Inv(self, w) && id in w.deals && !tx.call.Lock? && Succeeds(self, w, tx, id)
    ensures Accounted(MovesTold(w.deals[id]) + CallMoves(w.deals[id], tx), Next(self, w, tx), id)
  {
    assert WellFormed(self, w, id);
    hide Inv, Execute, TransferCall, MovesTold, CallMoves, Settled;
    CallShape(self, w, tx);
    SettledIsAccounted(w.deals[id], tx);
  }

  lemma AccountedLock(self: Address, w: World, tx: Tx, id: Bytes32)
    requires Inv(self, w) && tx.call.Lock? && Succeeds(self, w, tx, id)
    ensures id !in w.deals && Accounted(CallMoves(NO_DEAL, tx), Next(self, w, tx), id)
  {
    assert id in w.deals ==> WellFormed(self, w, id);
    hide Inv, Execute;
    LockShape(self, w, tx);
  }

  lemma AccountedStep(self: Address, w: World, tx: Tx, id: Bytes32, moves: seq<Move>)
    requires Inv(self, w) && tx.sender != ZERO && Accounted(moves, w, id) && Succeeds(self, w, tx, id)
    ensures Accounted(moves + MovesOf(self, w, tx, id), Next(self, w, tx), id)
  {
    hide Inv, Execute, Next, MovesTold, CallMoves, TransferCall;
    if tx.call.Lock? {
      AccountedLock(self, w, tx, id);
      assert [] + CallMoves(NO_DEAL, tx) == CallMoves(NO_DEAL, tx);
    } else {
      OnlyLocksMakeDeals(self, w, tx, id);
      AccountedCall(self, w, tx, id);
    }
  }

  /** Any other call needs a deal that has been locked. */
  lemma OnlyLocksMakeDeals(self: Address, w: World, tx: Tx, id: Bytes32)
    requires tx.sender != ZERO && !tx.call.Lock? && Succeeds(self, w, tx, id)
    ensures id in w.deals
  {
    hide Execute, TransferCall;
    CallShape(self, w, tx);
  }

  /**
   Exact accounting: whatever races the buyer, the keeper and repeated calls
   run, the amount of a deal is pulled once, from its buyer, and paid out at
   most once: to the seller iff the deal is RELEASED, back to the buyer iff it
   is REFUNDED.
   */
  lemma {:induction false} ExactAccounting(self: Address, w: World, txs: seq<Tx>, id: Bytes32)
    requires Genesis(self, w) && External(self, txs)
    ensures Accounted(MoveLog(self, w, txs, id), Run(self, w, txs), id)
    decreases |txs|
  {
    hide Inv, Next, Succeeds;
    if txs != [] {
      var front, last := txs[..|txs| - 1], txs[|txs| - 1];
      ExactAccounting(self, w, front, id);
      GenesisInv(self, w);
      Solvency(self, w, front);
      var mid := Run(self, w, front);
      if Succeeds(self, mid, last, id) {
        AccountedStep(self, mid, last, id, MoveLog(self, w, front, id));
      } else {
        OtherDealsUntouched(self, mid, last, id);
      }
    }
  }

  // ---------------------------------------------------------------- the 64-bit clock

  /**
   Nobody is early. The keeper releases only after the whole dispute window,
   whatever the block times. A refund comes only after the whole delivery
   window, if the time of the lock fits into 64 bits.
   */
  lemma NeverEarly(self: Address, w: World, txs: seq<Tx>, id: Bytes32)
    requires Genesis(self, w) && External(self, txs)
    requires id in Run(self, w, txs).deals
    ensures var log, d := Log(self, w, txs, id), Run(self, w, txs).deals[id];
            && |log| >= 1 && log[0].call.Lock?
            && (d.state == RELEASED ==>
                  |log| == 3
                  && (log[2].call.KeeperRelease? ==> log[2].time > log[1].time + log[0].call.disputeWindow)
                  && (!log[2].call.KeeperRelease? ==> log[2].call.BuyerRelease? && log[2].sender == d.buyer))
            && (d.state == REFUNDED ==>
                  |log| == 2 && (log[0].time < TWO_64 ==>
                                   log[1].time > log[0].time + log[0].call.deliveryWindow))
  {
    hide Run;
    Lifecycle(self, w, txs, id);
  }

  /**
   The delivery deadline is computed on the time of the lock cut to 64 bits, and
   compared with the whole block time. So a refund before the delivery window is
   over, in the very block of the lock already, succeeds exactly when the time
   of the lock no longer fits into 64 bits.
   */
  lemma EarlyRefundIff(self: Address, w: World, tx: Tx, now: Uint256)
    requires Inv(self, w) && tx.sender != ZERO && tx.sender != self
    requires tx.call.Lock? && Execute(self, w, tx).Done?
    requires tx.time <= now <= tx.time + tx.call.deliveryWindow
    ensures ClaimRefund(self, Next(self, w, tx), now, tx.call.rfqId).Done? <==> tx.time >= TWO_64
  {
    hide Inv, Execute, ClaimRefund;
    SolvencyStep(self, w, tx);
    LockShape(self, w, tx);
    hide Next, Surplus, Gift;
    RefundSucceedsIff(self, Next(self, w, tx), now, tx.call.rfqId);
  }

  // ---------------------------------------------------------------- what a read tells

  /**
   `getDeal` after any run: the zero struct, a zero buyer and the state OPEN are
   three signs of one thing, that no call on the rfqId has ever succeeded.
   */
  lemma ReadsZeroIffNeverLocked(self: Address, w: World, txs: seq<Tx>, id: Bytes32)
    requires Genesis(self, w) && External(self, txs)
    ensures var d, untouched := DealAt(Run(self, w, txs).deals, id), Log(self, w, txs, id) == [];
            && (d == NO_DEAL <==> untouched)
            && (d.buyer == ZERO <==> untouched)
            && (d.state == OPEN <==> untouched)
  {
    hide Run, Log, Surplus, Sum;
    Lifecycle(self, w, txs, id);
    GenesisInv(self, w);
    Solvency(self, w, txs);
    assert id in Run(self, w, txs).deals ==> WellFormed(self, Run(self, w, txs), id);
  }
}
