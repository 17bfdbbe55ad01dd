/**
 The keeper's pass in a world that does not wait: between the reading of a deal and
 the call for it, other transactions land. Somebody else may then settle the deal
 first, and the keeper's call reverts.
 */
module KeeperRace {
  import opened Evm
  import opened Options
  import opened Escrow
  import opened EscrowContract
  import opened EscrowSafety
  import opened EscrowHistory
  import opened KeeperSweep

  /** A deal read at `readAt`, transactions of others, and the call for the deal at `callAt`. */
  datatype Tick = Tick(id: Bytes32, readAt: Uint256, between: seq<Tx>, callAt: Uint256)

  function RaceVisit(self: Address, p: Pass, keeper: Address, tick: Tick): Pass {
    var d := DealAt(p.world.deals, tick.id);
    Fire(self, p.(world := Run(self, p.world, tick.between)),
         KeeperCall(d, keeper, tick.readAt, tick.callAt, tick.id))
  }

  function RacePass(self: Address, w: World, keeper: Address, ticks: seq<Tick>): Pass {
    if ticks == [] then Pass(w, 0)
    else RaceVisit(self, RacePass(self, w, keeper, ticks[..|ticks| - 1]), keeper, ticks[|ticks| - 1])
  }

  /** The keeper's loop over the deployed contract. */
  method RunPass(escrow: AgentBazaarEscrow, keeper: Address, ticks: seq<Tick>) returns (reverts: nat)
    requires escrow.Valid()
    modifies escrow, escrow.Contracts()
    ensures Pass(escrow.View(), reverts) == RacePass(escrow.self, old(escrow.View()), keeper, ticks)
  {
    hide Execute;
    reverts := 0;
    for i := 0 to |ticks|
      invariant Pass(escrow.View(), reverts) == RacePass(escrow.self, old(escrow.View()), keeper, ticks[..i])
    {
      assert ticks[..i + 1][..i] == ticks[..i];
      var tick := ticks[i];
      var deal := escrow.GetDeal(tick.id);
      var call := KeeperCall(deal, keeper, tick.readAt, tick.callAt, tick.id);
      escrow.SubmitAll(tick.between);
      if call.Some? {
        var error := escrow.Submit(call.value);
        if error.Some? {
          reverts := reverts + 1;
        }
      }
    }
    assert ticks[..|ticks|] == ticks;
  }

  /** Without other transactions in between, a racing pass is a sweep. */
  lemma {:induction false} UndisturbedPassIsSweep(self: Address, w: World, keeper: Address, now: Uint256,
                                                  ids: seq<Bytes32>)
    ensures RacePass(self, w, keeper, seq(|ids|, i requires 0 <= i < |ids| => Tick(ids[i], now, [], now)))
         == Sweep(self, w, keeper, now, ids)
    decreases |ids|
  {
    if ids != [] {
      var front := ids[..|ids| - 1];
      var ticks := seq(|ids|, i requires 0 <= i < |ids| => Tick(ids[i], now, [], now));
      UndisturbedPassIsSweep(self, w, keeper, now, front);
      assert ticks[..|ids| - 1] == seq(|front|, i requires 0 <= i < |front| => Tick(front[i], now, [], now));
    }
  }

  // ---------------------------------------------------------------- one deal, many who would settle it

  ghost predicate NotBefore(start: Uint256, txs: seq<Tx>) {
    forall i :: 0 <= i < |txs| ==> txs[i].time >= start
  }

  /** A due deal is never touched except to settle it, the way that is due. */
  lemma DueRefusal(d: Deal, start: Uint256, tx: Tx)
    requires Due(d, start) && tx.time >= start && tx.call.OnEscrow() && !tx.call.Lock? && Refusal(d, tx).None?
    ensures Settled(d, tx) == SettledBy(d, start) && Payee(d, tx) == Some(Recipient(d))
    ensures if d.state == DELIVERED then tx.call.BuyerRelease? || tx.call.KeeperRelease? else tx.call.Refund?
  {
  }

  lemma DueStep(self: Address, w: World, tx: Tx, start: Uint256, id: Bytes32)
    requires Inv(self, w) && id in w.deals && Due(w.deals[id], start) && tx.time >= start
    requires Succeeds(self, w, tx, id)
    ensures var d, after := w.deals[id], Next(self, w, tx);
            && id in after.deals && after.deals[id] == SettledBy(d, start)
            && MovesOf(self, w, tx, id) == [Pay(d.token, Recipient(d), d.amount)]
  {
    assert WellFormed(self, w, id);
    hide Inv, Execute, TransferCall;
    if tx.call.Lock? {
      LockShape(self, w, tx);
    } else {
      CallShape(self, w, tx);
      DueRefusal(w.deals[id], start, tx);
    }
  }

  /** Nothing succeeds any more on a deal that is settled. */
  lemma SettledIsFinal(self: Address, w: World, tx: Tx, id: Bytes32)
    requires Inv(self, w) && id in w.deals && w.deals[id].state in {RELEASED, REFUNDED}
    ensures !Succeeds(self, w, tx, id)
  {
    hide Inv, Execute, Next;
    if Succeeds(self, w, tx, id) {
      ForwardStep(self, w, tx, id);
    }
  }

  /** The deal `id` and the moves made for it: as they were, or settled and paid once. */
  ghost predicate AtMostSettled(d: Deal, start: Uint256, end: World, id: Bytes32, moves: seq<Move>) {
    && id in end.deals
    && (|| (end.deals[id] == d && moves == [])
        || (end.deals[id] == SettledBy(d, start) && moves == [Pay(d.token, Recipient(d), d.amount)]))
  }

  lemma {:induction false} DueDealSettlesOnce(self: Address, w: World, txs: seq<Tx>, start: Uint256, id: Bytes32)
    requires Inv(self, w) && External(self, txs) && NotBefore(start, txs)
    requires id in w.deals && Due(w.deals[id], start)
    ensures AtMostSettled(w.deals[id], start, Run(self, w, txs), id, MoveLog(self, w, txs, id))
    decreases |txs|
  {
    hide Inv, Next, Succeeds, Due, SettledBy;
    if txs != [] {
      var front, last := txs[..|txs| - 1], txs[|txs| - 1];
      DueDealSettlesOnce(self, w, front, start, id);
      Solvency(self, w, front);
      var mid := Run(self, w, front);
      DueIsOpen(w.deals[id], start);
      if !Succeeds(self, mid, last, id) {
        OtherDealsUntouched(self, mid, last, id);
      } else if mid.deals[id] == w.deals[id] {
        DueStep(self, mid, last, start, id);
      } else {
        SettledIsFinal(self, mid, last, id);
      }
    }
  }

  lemma DueIsOpen(d: Deal, start: Uint256)
    requires Due(d, start)
    ensures d.state in {LOCKED, DELIVERED} && SettledBy(d, start).state in {RELEASED, REFUNDED}
  {
  }

  // ---------------------------------------------------------------- the race

  /** Time does not run backwards within a tick, and the transactions come from outside. */
  ghost predicate Timely(self: Address, tick: Tick) {
    External(self, tick.between) && NotBefore(tick.readAt, tick.between) && tick.callAt >= tick.readAt
  }

  /**
   The race is harmless. The call for a deal that was due when it was read goes
   through exactly when nobody has settled the deal since; it then pays the
   recipient. Otherwise it reverts over the state of the deal and changes nothing.
   Either way the deal ends up settled as was due, and its amount is paid once.
   */
  lemma RaceIsHarmless(self: Address, w: World, keeper: Address, tick: Tick)
    requires Inv(self, w) && keeper != ZERO && keeper != self && Timely(self, tick)
    requires tick.id in w.deals && Due(w.deals[tick.id], tick.readAt)
    ensures var d, mid := w.deals[tick.id], Run(self, w, tick.between);
            var call := KeeperCall(d, keeper, tick.readAt, tick.callAt, tick.id);
            && call.Some? && tick.id in mid.deals
            && Execute(self, mid, call.value)
               == (if mid.deals[tick.id] == d
                   then Done(Next(self, mid, call.value))
                   else Revert(InvalidState(SettledBy(d, tick.readAt).state, d.state)))
            && tick.id in Next(self, mid, call.value).deals
            && Next(self, mid, call.value).deals[tick.id] == SettledBy(d, tick.readAt)
            && MoveLog(self, w, tick.between + [call.value], tick.id) == [Pay(d.token, Recipient(d), d.amount)]
  {
    hide Inv, Run, Execute, Next, Due, SettledBy, KeeperCall, MovesOf;
    var d, mid := w.deals[tick.id], Run(self, w, tick.between);
    DueDealSettlesOnce(self, w, tick.between, tick.readAt, tick.id);
    Solvency(self, w, tick.between);
    CallIsFired(d, keeper, tick);
    var tx := KeeperCall(d, keeper, tick.readAt, tick.callAt, tick.id).value;
    assert (tick.between + [tx])[..|tick.between|] == tick.between;
    LateCall(self, mid, keeper, tick, d);
  }

  lemma CallIsFired(d: Deal, keeper: Address, tick: Tick)
    requires Due(d, tick.readAt)
    ensures KeeperCall(d, keeper, tick.readAt, tick.callAt, tick.id).Some?
    ensures SettledBy(d, tick.readAt) != d
  {
  }

  /** The call itself, on the deal as it was read or as somebody else has settled it. */
  lemma LateCall(self: Address, mid: World, keeper: Address, tick: Tick, d: Deal)
    requires Inv(self, mid) && keeper != ZERO && keeper != self && tick.callAt >= tick.readAt
    requires Due(d, tick.readAt) && tick.id in mid.deals
    requires mid.deals[tick.id] == d || mid.deals[tick.id] == SettledBy(d, tick.readAt)
    ensures var tx := KeeperCall(d, keeper, tick.readAt, tick.callAt, tick.id).value;
            && tx.call.OnEscrow() && tx.call.rfqId == tick.id
            && (mid.deals[tick.id] == d ==>
                  && Execute(self, mid, tx) == Done(Next(self, mid, tx))
                  && tick.id in Next(self, mid, tx).deals
                  && Next(self, mid, tx).deals[tick.id] == SettledBy(d, tick.readAt)
                  && MovesOf(self, mid, tx, tick.id) == [Pay(d.token, Recipient(d), d.amount)])
            && (mid.deals[tick.id] != d ==>
                  && Execute(self, mid, tx) == Revert(InvalidState(SettledBy(d, tick.readAt).state, d.state))
                  && Next(self, mid, tx) == mid && MovesOf(self, mid, tx, tick.id) == [])
  {
    hide Inv, Execute, TransferCall;
    var tx := KeeperCall(d, keeper, tick.readAt, tick.callAt, tick.id).value;
    CallShape(self, mid, tx);
    if mid.deals[tick.id] == d {
      PayoutGoesThrough(self, mid, tick.id, Recipient(d));
      DueStep(self, mid, tx, tick.readAt, tick.id);
    }
  }

  /** What a visit counts as a revert: a call that comes after somebody else has settled the deal, and nothing else. */
  lemma RevertsAreCounted(self: Address, p: Pass, keeper: Address, tick: Tick)
    requires Inv(self, p.world) && keeper != ZERO && keeper != self && Timely(self, tick)
    ensures var d, mid := DealAt(p.world.deals, tick.id), Run(self, p.world, tick.between);
            var late := Due(d, tick.readAt) && DealAt(mid.deals, tick.id) != d;
            && RaceVisit(self, p, keeper, tick).reverts == p.reverts + (if late then 1 else 0)
            && (late || !Due(d, tick.readAt) ==> RaceVisit(self, p, keeper, tick).world == mid)
  {
    hide Inv, Run, Execute, SettledBy, MoveLog;
    var d := DealAt(p.world.deals, tick.id);
    if Due(d, tick.readAt) {
      RaceIsHarmless(self, p.world, keeper, tick);
    }
  }

  // ---------------------------------------------------------------- a pass full of races

  /** The transactions that land during the last tick of a pass that has come to `before`. */
  function TickTxs(before: World, keeper: Address, tick: Tick): seq<Tx> {
    tick.between
    + match KeeperCall(DealAt(before.deals, tick.id), keeper, tick.readAt, tick.callAt, tick.id)
      case None => []
      case Some(tx) => [tx]
  }

  /** All transactions that land during a pass, the keeper's own among them. */
  function Landed(self: Address, w: World, keeper: Address, ticks: seq<Tick>): seq<Tx> {
    if ticks == [] then []
    else
      var front := Landed(self, w, keeper, ticks[..|ticks| - 1]);
      front + TickTxs(Run(self, w, front), keeper, ticks[|ticks| - 1])
  }

  lemma {:induction false} RacePassIsRun(self: Address, w: World, keeper: Address, ticks: seq<Tick>)
    ensures RacePass(self, w, keeper, ticks).world == Run(self, w, Landed(self, w, keeper, ticks))
    decreases |ticks|
  {
    hide Next, KeeperCall;
    if ticks != [] {
      var front, tick := ticks[..|ticks| - 1], ticks[|ticks| - 1];
      RacePassIsRun(self, w, keeper, front);
      var before := Run(self, w, Landed(self, w, keeper, front));
      RunAppend(self, w, Landed(self, w, keeper, front), TickTxs(before, keeper, tick));
      var call := KeeperCall(DealAt(before.deals, tick.id), keeper, tick.readAt, tick.callAt, tick.id);
      if call.Some? {
        assert (tick.between + [call.value])[..|tick.between|] == tick.between;
      } else {
        assert tick.between + [] == tick.between;
      }
    }
  }

  ghost predicate TimelyFrom(self: Address, start: Uint256, ticks: seq<Tick>) {
    forall i :: 0 <= i < |ticks| ==> Timely(self, ticks[i]) && ticks[i].readAt >= start
  }

  lemma TickIsTimely(self: Address, before: World, keeper: Address, tick: Tick, start: Uint256)
    requires keeper != ZERO && keeper != self && Timely(self, tick) && tick.readAt >= start
    ensures External(self, TickTxs(before, keeper, tick)) && NotBefore(start, TickTxs(before, keeper, tick))
  {
  }

  lemma {:induction false} LandedIsTimely(self: Address, w: World, keeper: Address, ticks: seq<Tick>, start: Uint256)
    requires keeper != ZERO && keeper != self && TimelyFrom(self, start, ticks)
    ensures External(self, Landed(self, w, keeper, ticks)) && NotBefore(start, Landed(self, w, keeper, ticks))
  {
    hide Timely, TickTxs, Run;
    if ticks != [] {
      var front := ticks[..|ticks| - 1];
      LandedIsTimely(self, w, keeper, front, start);
      TickIsTimely(self, Run(self, w, Landed(self, w, keeper, front)), keeper, ticks[|ticks| - 1], start);
    }
  }

  /**
   A pass in a busy world: whatever else lands between its readings and its calls,
   every deal it visits that was due when it began ends up settled as was due, and
   its amount is paid out once, by the keeper or by whoever was faster.
   */
  lemma {:induction false} RacePassSettles(self: Address, w: World, keeper: Address, start: Uint256,
                                           ticks: seq<Tick>, k: nat)
    requires Inv(self, w) && keeper != ZERO && keeper != self && TimelyFrom(self, start, ticks)
    requires k < |ticks| && ticks[k].id in w.deals && Due(w.deals[ticks[k].id], start)
    ensures var id := ticks[k].id;
            var d, end := w.deals[id], RacePass(self, w, keeper, ticks).world;
            && id in end.deals && end.deals[id] == SettledBy(d, start)
            && MoveLog(self, w, Landed(self, w, keeper, ticks), id) == [Pay(d.token, Recipient(d), d.amount)]
    decreases |ticks|
  {
    hide Inv, Next, Due, SettledBy, KeeperCall, RacePass, MoveLog;
    var id, front, tick := ticks[k].id, ticks[..|ticks| - 1], ticks[|ticks| - 1];
    var d, landed := w.deals[id], Landed(self, w, keeper, front);
    var before := Run(self, w, landed);
    LandedIsTimely(self, w, keeper, front, start);
    LandedIsTimely(self, w, keeper, ticks, start);
    DueDealSettlesOnce(self, w, landed, start, id);
    DueDealSettlesOnce(self, w, Landed(self, w, keeper, ticks), start, id);
    RacePassIsRun(self, w, keeper, ticks);
    RacePassIsRun(self, w, keeper, front);
    RunAppend(self, w, landed, TickTxs(before, keeper, tick));
    Solvency(self, w, landed);
    DueIsOpen(d, start);
    if k < |front| {
      RacePassSettles(self, w, keeper, start, front, k);
    }
    LastTick(self, before, keeper, start, tick, id, d);
  }

  /** After its own tick at the latest, a due deal is settled, and it stays so. */
  lemma LastTick(self: Address, before: World, keeper: Address, start: Uint256, tick: Tick, id: Bytes32, d: Deal)
    requires Inv(self, before) && keeper != ZERO && keeper != self && Timely(self, tick) && tick.readAt >= start
    requires id in before.deals && Due(d, start)
    requires before.deals[id] == SettledBy(d, start) || (before.deals[id] == d && tick.id == id)
    ensures var end := Run(self, before, TickTxs(before, keeper, tick));
            id in end.deals && end.deals[id] != d
  {
    hide Inv, Next, Execute;
    TickIsTimely(self, before, keeper, tick, start);
    var txs := TickTxs(before, keeper, tick);
    if before.deals[id] == d {
      RaceIsHarmless(self, before, keeper, tick);
      var call := KeeperCall(d, keeper, tick.readAt, tick.callAt, id);
      assert txs == tick.between + [call.value];
      assert txs[..|txs| - 1] == tick.between;
    } else {
      ForwardOnly(self, before, txs, id);
    }
  }
}
