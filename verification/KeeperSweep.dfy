/**
 The KeeperHub schedule: one pass over a list of deals that releases each
 delivered deal past its dispute deadline and refunds each locked deal past its
 delivery deadline.
 */
module KeeperSweep {
  import opened Evm
  import opened Options
  import opened MapSums
  import opened TokenLedger
  import opened Escrow
  import opened EscrowSafety

  predicate ReleaseDue(d: Deal, now: Uint256) {
    d.state == DELIVERED && now > d.disputeDeadline
  }

  predicate RefundDue(d: Deal, now: Uint256) {
    d.state == LOCKED && now > d.deliveryDeadline
  }

  predicate Due(d: Deal, now: Uint256) {
    ReleaseDue(d, now) || RefundDue(d, now)
  }

  /** What a pass has done so far, and how many of its calls reverted. */
  datatype Pass = Pass(world: World, reverts: nat)

  /** The call that the keeper fires at `callAt` for a deal that it read at `readAt`. */
  function KeeperCall(d: Deal, keeper: Address, readAt: Uint256, callAt: Uint256, id: Bytes32): Option<Tx> {
    if ReleaseDue(d, readAt) then Some(Tx(keeper, callAt, KeeperRelease(id)))
    else if RefundDue(d, readAt) then Some(Tx(keeper, callAt, Refund(id)))
    else None
  }

  function Fire(self: Address, p: Pass, call: Option<Tx>): Pass {
    match call
    case None => p
    case Some(tx) =>
      Pass(Next(self, p.world, tx), p.reverts + if Execute(self, p.world, tx).Revert? then 1 else 0)
  }

  /** A deal is read and its call lands before anything else happens. */
  function Visit(self: Address, p: Pass, keeper: Address, now: Uint256, id: Bytes32): Pass {
    Fire(self, p, KeeperCall(DealAt(p.world.deals, id), keeper, now, now, id))
  }

  function Sweep(self: Address, w: World, keeper: Address, now: Uint256, ids: seq<Bytes32>): Pass {
    if ids == [] then Pass(w, 0)
    else Visit(self, Sweep(self, w, keeper, now, ids[..|ids| - 1]), keeper, now, ids[|ids| - 1])
  }

  // ---------------------------------------------------------------- what a pass amounts to

  function SettledBy(d: Deal, now: Uint256): Deal {
    if ReleaseDue(d, now) then d.(state := RELEASED)
    else if RefundDue(d, now) then d.(state := REFUNDED)
    else d
  }

  function Recipient(d: Deal): Address {
    if d.state == DELIVERED then d.seller else d.buyer
  }

  function Paid(now: Uint256, t: Address): Deal -> nat {
    (d: Deal) => if Due(d, now) && d.token == t then d.amount else 0
  }

  function PaidTo(now: Uint256, t: Address, a: Address): Deal -> nat {
    (d: Deal) => if Due(d, now) && d.token == t && Recipient(d) == a then d.amount else 0
  }

  function Part(deals: map<Bytes32, Deal>, ids: set<Bytes32>): map<Bytes32, Deal> {
    map id | id in deals && id in ids :: deals[id]
  }

  function Recipients(deals: map<Bytes32, Deal>, now: Uint256, t: Address): set<Address> {
    set id | id in deals && Due(deals[id], now) && deals[id].token == t :: Recipient(deals[id])
  }

  /** The balance of `a` after the deals of `part` that are due have been settled. */
  ghost function BalanceAfter(self: Address, l: Ledger, part: map<Bytes32, Deal>, now: Uint256, t: Address,
                              a: Address): int
  {
    Balance(l, a) + Total(part, PaidTo(now, t, a)) - if a == self then Total(part, Paid(now, t)) else 0
  }

  ghost predicate SettledToken(self: Address, l: Ledger, part: map<Bytes32, Deal>, now: Uint256, t: Address,
                               l': Ledger)
  {
    var to := Recipients(part, now, t);
    && l'.totalSupply == l.totalSupply && l'.allowance == l.allowance
    && l'.balanceOf.Keys == l.balanceOf.Keys + to + (if to == {} then {} else {self})
    && forall a :: Balance(l', a) == BalanceAfter(self, l, part, now, t, a)
  }

  /** `w'` is `w` with exactly the due deals among `ids` settled and paid. */
  ghost predicate Swept(self: Address, w: World, now: Uint256, ids: set<Bytes32>, w': World) {
    && w'.deals == (map id | id in w.deals :: if id in ids then SettledBy(w.deals[id], now) else w.deals[id])
    && w'.tokens.Keys == w.tokens.Keys
    && forall t :: t in w.tokens ==> SettledToken(self, w.tokens[t], Part(w.deals, ids), now, t, w'.tokens[t])
  }

  lemma SettledTokenIsUnique(self: Address, l: Ledger, part: map<Bytes32, Deal>, now: Uint256, t: Address,
                             l1: Ledger, l2: Ledger)
    requires SettledToken(self, l, part, now, t, l1) && SettledToken(self, l, part, now, t, l2)
    ensures l1 == l2
  {
    hide BalanceAfter, Recipients;
    forall a | a in l1.balanceOf ensures l1.balanceOf[a] == l2.balanceOf[a] {
      assert Balance(l1, a) == Balance(l2, a);
    }
    assert l1.balanceOf == l2.balanceOf;
  }

  lemma SweptIsUnique(self: Address, w: World, now: Uint256, ids: set<Bytes32>, w1: World, w2: World)
    requires Swept(self, w, now, ids, w1) && Swept(self, w, now, ids, w2)
    ensures w1 == w2
  {
    hide SettledToken, SettledBy;
    forall t | t in w.tokens ensures w1.tokens[t] == w2.tokens[t] {
      SettledTokenIsUnique(self, w.tokens[t], Part(w.deals, ids), now, t, w1.tokens[t], w2.tokens[t]);
    }
    assert w1.tokens == w2.tokens;
  }

  lemma NothingSwept(self: Address, w: World, now: Uint256)
    ensures Swept(self, w, now, {}, w)
  {
    forall t | t in w.tokens ensures SettledToken(self, w.tokens[t], Part(w.deals, {}), now, t, w.tokens[t]) {
      assert Part(w.deals, {}) == map[];
      forall a ensures BalanceAfter(self, w.tokens[t], map[], now, t, a) == Balance(w.tokens[t], a) {
        assert Shares(map[], PaidTo(now, t, a)) == map[] == Shares(map[], Paid(now, t));
      }
    }
  }

  /** One more deal in the part, due or not. */
  lemma GrowPart(self: Address, l: Ledger, part: map<Bytes32, Deal>, now: Uint256, t: Address, id: Bytes32,
                 d: Deal, a: Address)
    requires id !in part
    ensures BalanceAfter(self, l, part[id := d], now, t, a)
         == BalanceAfter(self, l, part, now, t, a)
            + PaidTo(now, t, a)(d) - (if a == self then Paid(now, t)(d) else 0)
  {
    hide Total;
    TotalUpdate(part, id, d, PaidTo(now, t, a));
    TotalUpdate(part, id, d, Paid(now, t));
  }

  lemma GrowRecipients(part: map<Bytes32, Deal>, now: Uint256, t: Address, id: Bytes32, d: Deal)
    requires id !in part
    ensures Recipients(part[id := d], now, t)
         == Recipients(part, now, t) + if Due(d, now) && d.token == t then {Recipient(d)} else {}
  {
    var grown := part[id := d];
    assert Recipients(part, now, t) <= Recipients(grown, now, t) by {
      forall i | i in part && Due(part[i], now) && part[i].token == t
        ensures Recipient(part[i]) in Recipients(grown, now, t)
      {
        assert i in grown && grown[i] == part[i];
      }
    }
    if Due(d, now) && d.token == t {
      assert id in grown && grown[id] == d;
    }
  }

  lemma UndueToken(self: Address, l: Ledger, part: map<Bytes32, Deal>, now: Uint256, t: Address, l': Ledger,
                   id: Bytes32, d: Deal)
    requires SettledToken(self, l, part, now, t, l') && id !in part && !(Due(d, now) && d.token == t)
    ensures SettledToken(self, l, part[id := d], now, t, l')
  {
    hide BalanceAfter;
    GrowRecipients(part, now, t, id, d);
    forall a ensures Balance(l', a) == BalanceAfter(self, l, part[id := d], now, t, a) {
      GrowPart(self, l, part, now, t, id, d, a);
    }
  }

  lemma DueToken(self: Address, l: Ledger, part: map<Bytes32, Deal>, now: Uint256, t: Address, l': Ledger,
                 id: Bytes32, d: Deal)
    requires SettledToken(self, l, part, now, t, l') && id !in part && Due(d, now) && d.token == t
    requires Transfer(l', self, Recipient(d), d.amount).Some?
    ensures SettledToken(self, l, part[id := d], now, t, Transfer(l', self, Recipient(d), d.amount).value)
  {
    hide BalanceAfter, Transfer;
    GrowRecipients(part, now, t, id, d);
    var paid := Transfer(l', self, Recipient(d), d.amount).value;
    TransferMoves(l', self, Recipient(d), d.amount, self);
    forall a ensures Balance(paid, a) == BalanceAfter(self, l, part[id := d], now, t, a) {
      TransferMoves(l', self, Recipient(d), d.amount, a);
      GrowPart(self, l, part, now, t, id, d, a);
    }
  }

  /** A visit to a due deal goes through: it settles the deal and pays its recipient. */
  lemma VisitPays(self: Address, p: Pass, keeper: Address, now: Uint256, id: Bytes32)
    requires Inv(self, p.world) && keeper != ZERO && Due(DealAt(p.world.deals, id), now)
    ensures var d := DealAt(p.world.deals, id);
            var paid := TransferCall(p.world.tokens, self, d.token, Recipient(d), d.amount);
            && id in p.world.deals && paid.Some?
            && Visit(self, p, keeper, now, id)
               == Pass(World(p.world.deals[id := SettledBy(d, now)], paid.value), p.reverts)
  {
    hide Inv, Execute, TransferCall;
    var d := DealAt(p.world.deals, id);
    CallShape(self, p.world, Tx(keeper, now, if ReleaseDue(d, now) then KeeperRelease(id) else Refund(id)));
    PayoutGoesThrough(self, p.world, id, Recipient(d));
  }

  /** Visiting one more deal settles one more deal, and the call does not revert. */
  lemma VisitSweeps(self: Address, w: World, keeper: Address, now: Uint256, ids: set<Bytes32>, p: Pass, id: Bytes32)
    requires Inv(self, p.world) && keeper != ZERO && keeper != self
    requires Swept(self, w, now, ids, p.world) && p.reverts == 0
    ensures Swept(self, w, now, ids + {id}, Visit(self, p, keeper, now, id).world)
    ensures Visit(self, p, keeper, now, id).reverts == 0
  {
    hide Inv, SettledToken, Execute, Transfer;
    var d := DealAt(p.world.deals, id);
    if id in ids || id !in w.deals {
      assert !Due(d, now);
      assert Part(w.deals, ids + {id}) == Part(w.deals, ids);
    } else {
      assert d == w.deals[id];
      var after := Visit(self, p, keeper, now, id).world;
      if Due(d, now) {
        VisitPays(self, p, keeper, now, id);
      }
      forall t | t in w.tokens
        ensures SettledToken(self, w.tokens[t], Part(w.deals, ids + {id}), now, t, after.tokens[t])
      {
        VisitSettlesToken(self, w, now, ids, p.world.tokens[t], id, t);
      }
    }
  }

  lemma VisitSettlesToken(self: Address, w: World, now: Uint256, ids: set<Bytes32>, l: Ledger, id: Bytes32, t: Address)
    requires t in w.tokens && id in w.deals && id !in ids
    requires SettledToken(self, w.tokens[t], Part(w.deals, ids), now, t, l)
    ensures var d := w.deals[id];
            if Due(d, now) && d.token == t then
              Transfer(l, self, Recipient(d), d.amount).Some? ==>
                SettledToken(self, w.tokens[t], Part(w.deals, ids + {id}), now, t,
                             Transfer(l, self, Recipient(d), d.amount).value)
            else SettledToken(self, w.tokens[t], Part(w.deals, ids + {id}), now, t, l)
  {
    hide SettledToken, Transfer;
    var d := w.deals[id];
    var part := Part(w.deals, ids);
    assert Part(w.deals, ids + {id}) == part[id := d];
    if !(Due(d, now) && d.token == t) {
      UndueToken(self, w.tokens[t], part, now, t, l, id, d);
    } else if Transfer(l, self, Recipient(d), d.amount).Some? {
      DueToken(self, w.tokens[t], part, now, t, l, id, d);
    }
  }

  function Visited(ids: seq<Bytes32>): set<Bytes32> {
    set id | id in ids
  }

  /**
   A pass at any time, over any list of deals, never reverts. It settles exactly
   the listed deals that are due, and every account gains exactly what those
   deals owe it, at the escrow's expense.
   */
  lemma {:induction false} SweepSettles(self: Address, w: World, keeper: Address, now: Uint256, ids: seq<Bytes32>)
    requires Inv(self, w) && keeper != ZERO && keeper != self
    ensures var p := Sweep(self, w, keeper, now, ids);
            p.reverts == 0 && Inv(self, p.world) && Swept(self, w, now, Visited(ids), p.world)
    decreases |ids|
  {
    hide Inv, Swept, Execute, Next;
    if ids == [] {
      NothingSwept(self, w, now);
      assert Visited(ids) == {};
    } else {
      var front, last := ids[..|ids| - 1], ids[|ids| - 1];
      SweepSettles(self, w, keeper, now, front);
      var p := Sweep(self, w, keeper, now, front);
      VisitSweeps(self, w, keeper, now, Visited(front), p, last);
      assert ids == front + [last];
      assert Visited(ids) == Visited(front) + {last};
      SolvencyStep(self, p.world, Tx(keeper, now, KeeperRelease(last)));
      SolvencyStep(self, p.world, Tx(keeper, now, Refund(last)));
    }
  }

  /** The order of the visits, and visiting a deal again, leave no trace. */
  lemma SweepOrderIrrelevant(self: Address, w: World, keeper: Address, now: Uint256, ids: seq<Bytes32>,
                             ids': seq<Bytes32>)
    requires Inv(self, w) && keeper != ZERO && keeper != self
    requires Visited(ids) == Visited(ids')
    ensures Sweep(self, w, keeper, now, ids) == Sweep(self, w, keeper, now, ids')
  {
    SweepSettles(self, w, keeper, now, ids);
    SweepSettles(self, w, keeper, now, ids');
    SweptIsUnique(self, w, now, Visited(ids),
                  Sweep(self, w, keeper, now, ids).world, Sweep(self, w, keeper, now, ids').world);
  }

  function DisputedIn(t: Address): Deal -> nat {
    (d: Deal) => if d.state == DISPUTED && d.token == t then d.amount else 0
  }

  /** A deal that is past its deadline and settled still holds its amount only if it is disputed. */
  lemma OnlyDisputesHold(d: Deal, now: Uint256, t: Address)
    requires d.state != OPEN
    requires d.state == LOCKED ==> now > d.deliveryDeadline
    requires d.state == DELIVERED ==> now > d.disputeDeadline
    ensures SettledBy(d, now).state in {RELEASED, DISPUTED, REFUNDED}
    ensures Held(SettledBy(d, now), t) == DisputedIn(t)(d)
  {
  }

  /** A pass over all deals, once every deadline has passed, leaves only disputes open. */
  lemma SweepLeavesOnlyDisputes(self: Address, w: World, keeper: Address, now: Uint256, ids: seq<Bytes32>)
    requires Inv(self, w) && keeper != ZERO && keeper != self
    requires w.deals.Keys <= Visited(ids)
    requires forall id :: id in w.deals && w.deals[id].state == LOCKED ==> now > w.deals[id].deliveryDeadline
    requires forall id :: id in w.deals && w.deals[id].state == DELIVERED ==> now > w.deals[id].disputeDeadline
    ensures var end := Sweep(self, w, keeper, now, ids).world;
            && (forall id :: id in end.deals ==> end.deals[id].state in {RELEASED, DISPUTED, REFUNDED})
            && forall t :: Owed(end.deals, t) == Total(w.deals, DisputedIn(t))
  {
    hide Sum, SettledToken, Sound, Sweep, SettledBy;
    SweepSettles(self, w, keeper, now, ids);
    var end := Sweep(self, w, keeper, now, ids).world;
    forall id | id in w.deals
      ensures end.deals[id].state in {RELEASED, DISPUTED, REFUNDED}
      ensures forall t :: Held(end.deals[id], t) == DisputedIn(t)(w.deals[id])
    {
      assert WellFormed(self, w, id);
      forall t ensures Held(end.deals[id], t) == DisputedIn(t)(w.deals[id]) {
        OnlyDisputesHold(w.deals[id], now, t);
      }
      OnlyDisputesHold(w.deals[id], now, 0);
    }
    hide Held, Holds, Inv, Swept;
    forall t ensures Owed(end.deals, t) == Total(w.deals, DisputedIn(t)) {
      assert Shares(end.deals, HeldIn(t)) == Shares(w.deals, DisputedIn(t));
    }
  }

  // ---------------------------------------------------------------- the off-chain condition

  /** `deal_eligible_for_optimistic_release`: a missing or zero `now` means the wall clock. */
  function EligibleForOptimisticRelease(state: State, disputeDeadline: int, now: Option<int>, clock: int): bool {
    var t := if now.Some? && now.value != 0 then now.value else clock;
    state == DELIVERED && t > disputeDeadline
  }

  /**
   The off-chain check of a deal agrees with the on-chain call at time `now`
   exactly when `now` is positive or the wall clock finds nothing to release.
   */
  lemma EligibleIffReleasable(self: Address, w: World, now: Uint256, clock: int, id: Bytes32)
    requires Inv(self, w)
    ensures var d := DealAt(w.deals, id);
            (EligibleForOptimisticRelease(d.state, d.disputeDeadline, Some(now), clock)
             <==> OptimisticRelease(self, w, now, id).Done?)
            <==> (now > 0 || !(d.state == DELIVERED && clock > d.disputeDeadline))
  {
    hide Inv, OptimisticRelease;
    KeeperReleaseSucceedsIff(self, w, now, id);
  }

  /** Without a `now`, it agrees with the call at the time of the wall clock. */
  lemma EligibleByTheClock(self: Address, w: World, clock: Uint256, id: Bytes32)
    requires Inv(self, w)
    ensures var d := DealAt(w.deals, id);
            EligibleForOptimisticRelease(d.state, d.disputeDeadline, None, clock)
            <==> OptimisticRelease(self, w, clock, id).Done?
  {
    hide Inv, OptimisticRelease;
    KeeperReleaseSucceedsIff(self, w, clock, id);
  }
}
