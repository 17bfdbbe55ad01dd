/** The buyer's trade: quotes collected from the inbox, one lock, one delivery awaited, one release. */
module BuyerFlow {
  import opened Options
  import opened Json
  import opened Matching
  import opened Signing

  datatype Delivery = Delivery(rfqId: string, content: Payload, resultHash: string)

  /**
   What the flow takes from libraries: signature verification under a hex key,
   the schema validators, and the content hash.
   */
  datatype Env = Env(
    verify: (Payload, string) -> bool,
    asQuote: Payload -> Option<Quote>,
    asDelivery: Payload -> Option<Delivery>,
    contentHash: Payload -> string)

  /** A validator copies the string fields it is given; it never makes them up. */
  ghost predicate Validates(env: Env) {
    && (forall m: Payload :: env.asQuote(m).Some? ==>
          && "rfq_id" in m && m["rfq_id"] == Str(env.asQuote(m).value.rfqId)
          && "seller_axl_peer_id" in m && m["seller_axl_peer_id"] == Str(env.asQuote(m).value.peerId))
    && (forall m: Payload :: env.asDelivery(m).Some? ==>
          && "rfq_id" in m && m["rfq_id"] == Str(env.asDelivery(m).value.rfqId)
          && "result_hash" in m && m["result_hash"] == Str(env.asDelivery(m).value.resultHash))
  }

  predicate HasString(m: Payload, key: string, value: string) {
    key in m && m[key] == Str(value)
  }

  function Lower(s: string): string {
    seq(|s|, i requires 0 <= i < |s| => if 'A' <= s[i] <= 'Z' then (s[i] as int + 32) as char else s[i])
  }

  predicate SameUpToCase(a: char, b: char) {
    a == b
    || ('A' <= a <= 'Z' && b as int == a as int + 32)
    || ('A' <= b <= 'Z' && a as int == b as int + 32)
  }

  predicate EqualUpToCase(a: string, b: string) {
    |a| == |b| && forall i :: 0 <= i < |a| ==> SameUpToCase(a[i], b[i])
  }

  /** Two texts are equal in lower case exactly when they differ in the case of letters only. */
  lemma LowerEqualIff(a: string, b: string)
    ensures Lower(a) == Lower(b) <==> EqualUpToCase(a, b)
  {
    if Lower(a) == Lower(b) {
      assert |a| == |Lower(a)| == |Lower(b)| == |b|;
      forall i | 0 <= i < |a| ensures SameUpToCase(a[i], b[i]) {
        assert Lower(a)[i] == Lower(b)[i];
      }
    }
  }

  // ---------------------------------------------------------------- collecting quotes

  datatype Seen = Ignored | Quoted(quote: Quote) | Crashed

  /** What the collector does with one message; a key that is not a string crashes the verifier. */
  function SeeQuote(env: Env, rfqId: string, m: Payload): Seen {
    if !HasString(m, "rfq_id", rfqId) || "quote_price_atomic" !in m then Ignored
    else
      var peer := if "seller_axl_peer_id" in m then m["seller_axl_peer_id"] else Str("");
      if "signature" !in m || !m["signature"].Str? then Ignored
      else if !peer.Str? then Crashed
      else if !env.verify(m, peer.s) then Ignored
      else match env.asQuote(m)
        case Some(q) => Quoted(q)
        case None => Ignored
  }

  /** The quotes collected from a window of messages, or None if the collector crashed. */
  function Collected(env: Env, rfqId: string, msgs: seq<Payload>): Option<seq<Quote>> {
    if msgs == [] then Some([])
    else match Collected(env, rfqId, msgs[..|msgs| - 1])
      case None => None
      case Some(quotes) =>
        match SeeQuote(env, rfqId, msgs[|msgs| - 1])
        case Ignored => Some(quotes)
        case Quoted(q) => Some(quotes + [q])
        case Crashed => None
  }

  /** A signed quote message for this request whose key is no string. */
  predicate BadKey(rfqId: string, m: Payload) {
    && HasString(m, "rfq_id", rfqId) && "quote_price_atomic" in m
    && "signature" in m && m["signature"].Str?
    && "seller_axl_peer_id" in m && !m["seller_axl_peer_id"].Str?
  }

  /** The collector goes down exactly when some message of the window has a bad key, interpreter limits aside. */
  lemma {:induction false} CrashesIff(env: Env, rfqId: string, msgs: seq<Payload>)
    ensures Collected(env, rfqId, msgs).None? <==> exists i :: 0 <= i < |msgs| && BadKey(rfqId, msgs[i])
  {
    if msgs != [] {
      var front, n := msgs[..|msgs| - 1], |msgs| - 1;
      CrashesIff(env, rfqId, front);
      assert forall i :: 0 <= i < n ==> msgs[i] == front[i];
      if i :| 0 <= i < n && BadKey(rfqId, front[i]) {
        assert BadKey(rfqId, msgs[i]);
      }
      assert SeeQuote(env, rfqId, msgs[n]).Crashed? <==> BadKey(rfqId, msgs[n]);
    }
  }

  /** The collected quotes are those that some message brings, no more and no fewer. */
  lemma {:induction false} CollectedIff(env: Env, rfqId: string, msgs: seq<Payload>, q: Quote)
    requires Collected(env, rfqId, msgs).Some?
    ensures q in Collected(env, rfqId, msgs).value
            <==> exists i :: 0 <= i < |msgs| && SeeQuote(env, rfqId, msgs[i]) == Quoted(q)
  {
    hide SeeQuote;
    if msgs != [] {
      var front, n := msgs[..|msgs| - 1], |msgs| - 1;
      CollectedIff(env, rfqId, front, q);
      assert forall i :: 0 <= i < n ==> msgs[i] == front[i];
      if i :| 0 <= i < n && SeeQuote(env, rfqId, front[i]) == Quoted(q) {
        assert SeeQuote(env, rfqId, msgs[i]) == Quoted(q);
      }
    }
  }

  // ---------------------------------------------------------------- awaiting the delivery

  datatype Awaited = Arrived(delivery: Delivery) | Malformed | Waiting

  predicate SignedDelivery(env: Env, q: Quote, m: Payload) {
    HasString(m, "rfq_id", q.rfqId) && "result_hash" in m
    && "signature" in m && m["signature"].Str? && env.verify(m, q.peerId)
  }

  /** The comparison that the buyer makes. */
  predicate SameHash(env: Env, d: Delivery) {
    Lower(env.contentHash(d.content)) == Lower(d.resultHash)
  }

  /** The content has the hash that its message names, the case of hexadecimal letters aside. */
  predicate HashMatches(env: Env, d: Delivery) {
    EqualUpToCase(env.contentHash(d.content), d.resultHash)
  }

  lemma SameHashIff(env: Env, d: Delivery)
    ensures SameHash(env, d) <==> HashMatches(env, d)
  {
    LowerEqualIff(env.contentHash(d.content), d.resultHash);
  }

  /** The first message that ends the wait: a good delivery, or one the validator raises on. */
  function Await(env: Env, q: Quote, msgs: seq<Payload>): Awaited {
    if msgs == [] then Waiting
    else
      var m := msgs[0];
      if !SignedDelivery(env, q, m) then Await(env, q, msgs[1..])
      else match env.asDelivery(m)
        case None => Malformed
        case Some(d) => if SameHash(env, d) then Arrived(d) else Await(env, q, msgs[1..])
  }

  // ---------------------------------------------------------------- the trade

  /** The calls the buyer fires at the settlement services, in order. */
  datatype Action =
    | FireLock(rfqId: string, seller: string, amount: int)
    | FireRelease(rfqId: string)
    | DirectRelease(rfqId: string)

  /** What firing a workflow comes to: a reference, an answer without one, or an HTTP error raised. */
  datatype Reply = Started | NoReference | Raised

  /** How the services behave during one trade. */
  datatype Services = Services(swapQuoted: bool, lock: Reply, release: Reply, directGoesThrough: bool)

  datatype Outcome = Traded | NoEligibleQuote | Failed | StillWaiting

  datatype Trade = Trade(outcome: Outcome, actions: seq<Action>)

  /** The keeper's release first; the direct one only when that answers without a reference. */
  function ReleaseOf(rfqId: string, services: Services): (bool, seq<Action>) {
    match services.release
    case Started => (true, [FireRelease(rfqId)])
    case NoReference => (services.directGoesThrough, [FireRelease(rfqId), DirectRelease(rfqId)])
    case Raised => (false, [FireRelease(rfqId)])
  }

  function TradeOf(env: Env, rfq: Rfq, window: seq<Payload>, later: seq<Payload>, services: Services): Trade {
    match Collected(env, rfq.rfqId, window)
    case None => Trade(Failed, [])
    case Some(quotes) =>
      match SelectBest(rfq, quotes)
      case None => Trade(NoEligibleQuote, [])
      case Some(winner) =>
        if !services.swapQuoted then Trade(Failed, [])
        else
          var lock := [FireLock(winner.rfqId, winner.seller, winner.price)];
          if !services.lock.Started? then Trade(Failed, lock)
          else match Await(env, winner, later)
            case Malformed => Trade(Failed, lock)
            case Waiting => Trade(StillWaiting, lock)
            case Arrived(_) =>
              var (released, actions) := ReleaseOf(winner.rfqId, services);
              Trade(if released then Traded else Failed, lock + actions)
  }

  class BuyerAgent {
    const env: Env
    const services: Services
    var actions: seq<Action>

    constructor (env: Env, services: Services)
      ensures this.env == env && this.services == services && actions == []
    {
      this.env, this.services, actions := env, services, [];
    }

    /** `run_one_trade`; `window` is what arrives while quotes are collected, `later` what arrives after. */
    method RunOneTrade(rfq: Rfq, window: seq<Payload>, later: seq<Payload>) returns (outcome: Outcome)
      modifies this
      ensures var trade := TradeOf(env, rfq, window, later, services);
              outcome == trade.outcome && actions == old(actions) + trade.actions
    {
      var quotes := CollectQuotes(rfq.rfqId, window);
      if quotes.None? {
        return Failed;
      }
      var winner := SelectBest(rfq, quotes.value);
      if winner.None? {
        return NoEligibleQuote;
      }
      var locked := QuoteAndLock(winner.value);
      if !locked {
        return Failed;
      }
      var delivery := AwaitDelivery(winner.value, later);
      if delivery.Malformed? {
        return Failed;
      }
      if delivery.Waiting? {
        return StillWaiting;
      }
      var released := Release(winner.value);
      outcome := if released then Traded else Failed;
    }

    method CollectQuotes(rfqId: string, msgs: seq<Payload>) returns (quotes: Option<seq<Quote>>)
      ensures quotes == Collected(env, rfqId, msgs)
    {
      var found: seq<Quote> := [];
      for i := 0 to |msgs|
        invariant Collected(env, rfqId, msgs[..i]) == Some(found)
      {
        assert msgs[..i + 1][..i] == msgs[..i];
        var seen := SeeQuote(env, rfqId, msgs[i]);
        if seen.Crashed? {
          CrashesIff(env, rfqId, msgs);
          return None;
        }
        if seen.Quoted? {
          found := found + [seen.quote];
        }
      }
      assert msgs[..|msgs|] == msgs;
      quotes := Some(found);
    }

    method QuoteAndLock(quote: Quote) returns (locked: bool)
      modifies this
      ensures locked == (services.swapQuoted && services.lock.Started?)
      ensures actions == old(actions) + if services.swapQuoted
                                        then [FireLock(quote.rfqId, quote.seller, quote.price)] else []
    {
      if !services.swapQuoted {
        return false;
      }
      actions := actions + [FireLock(quote.rfqId, quote.seller, quote.price)];
      locked := services.lock.Started?;
    }

    method AwaitDelivery(quote: Quote, msgs: seq<Payload>) returns (awaited: Awaited)
      ensures awaited == Await(env, quote, msgs)
    {
      for i := 0 to |msgs|
        invariant Await(env, quote, msgs) == Await(env, quote, msgs[i..])
      {
        assert msgs[i..][0] == msgs[i] && msgs[i..][1..] == msgs[i + 1..];
        if !SignedDelivery(env, quote, msgs[i]) {
          continue;
        }
        var payload := env.asDelivery(msgs[i]);
        if payload.None? {
          return Malformed;
        }
        if !SameHash(env, payload.value) {
          continue;
        }
        return Arrived(payload.value);
      }
      awaited := Waiting;
    }

    method Release(quote: Quote) returns (released: bool)
      modifies this
      ensures var (ok, fired) := ReleaseOf(quote.rfqId, services);
              released == ok && actions == old(actions) + fired
    {
      actions := actions + [FireRelease(quote.rfqId)];
      if services.release.Raised? {
        return false;
      }
      if services.release.Started? {
        return true;
      }
      actions := actions + [DirectRelease(quote.rfqId)];
      released := services.directGoesThrough;
    }
  }

  // ---------------------------------------------------------------- safety of the flow

  /** The message that the quote `q` came in, signed under the very peer id that the quote names. */
  ghost predicate CameSigned(env: Env, rfq: Rfq, m: Payload, q: Quote) {
    && HasString(m, "rfq_id", rfq.rfqId) && env.asQuote(m) == Some(q)
    && q.rfqId == rfq.rfqId && env.verify(m, q.peerId)
  }

  lemma {:induction false} CollectedCameSigned(env: Env, rfq: Rfq, msgs: seq<Payload>, k: nat)
    requires Validates(env) && Collected(env, rfq.rfqId, msgs).Some?
    requires k < |Collected(env, rfq.rfqId, msgs).value|
    ensures exists m :: m in msgs && CameSigned(env, rfq, m, Collected(env, rfq.rfqId, msgs).value[k])
  {
    var front, last := msgs[..|msgs| - 1], msgs[|msgs| - 1];
    var quotes := Collected(env, rfq.rfqId, front).value;
    if k < |quotes| {
      CollectedCameSigned(env, rfq, front, k);
      var m :| m in front && CameSigned(env, rfq, m, quotes[k]);
      assert m in msgs;
    } else {
      assert last in msgs && CameSigned(env, rfq, last, Collected(env, rfq.rfqId, msgs).value[k]);
    }
  }

  /** The quote `q` is the right one to lock for: signed, affordable, reputable, and beaten by none. */
  ghost predicate RightQuote(env: Env, rfq: Rfq, window: seq<Payload>, q: Quote) {
    && (exists m :: m in window && CameSigned(env, rfq, m, q))
    && 0 < q.price && Meets(rfq, q)
    && Collected(env, rfq.rfqId, window).Some?
    && forall other :: other in Collected(env, rfq.rfqId, window).value && Meets(rfq, other) ==> !Beats(other, q)
  }

  /** A delivery that justifies releasing the payment of quote `q`. */
  ghost predicate GoodDelivery(env: Env, q: Quote, m: Payload, d: Delivery) {
    && env.verify(m, q.peerId) && env.asDelivery(m) == Some(d)
    && d.rfqId == q.rfqId && HashMatches(env, d)
  }

  /** A message that the wait passes over: not for this quote, not its seller's, or with another hash. */
  ghost predicate PassedOver(env: Env, q: Quote, m: Payload) {
    !SignedDelivery(env, q, m) || (env.asDelivery(m).Some? && !HashMatches(env, env.asDelivery(m).value))
  }

  /** The wait ends well exactly at a good delivery before which every message is passed over. */
  lemma {:induction false} ArrivesIff(env: Env, q: Quote, msgs: seq<Payload>, d: Delivery)
    requires Validates(env)
    ensures Await(env, q, msgs) == Arrived(d)
            <==> exists j :: 0 <= j < |msgs| && SignedDelivery(env, q, msgs[j]) && GoodDelivery(env, q, msgs[j], d)
                             && forall i :: 0 <= i < j ==> PassedOver(env, q, msgs[i])
  {
    hide SameHash, HashMatches, EqualUpToCase;
    if msgs != [] {
      var rest := msgs[1..];
      forall x: Delivery {
        SameHashIff(env, x);
      }
      ArrivesIff(env, q, rest, d);
      assert forall i :: 0 <= i < |rest| ==> rest[i] == msgs[i + 1];
      assert forall i :: 1 <= i < |msgs| ==> msgs[i] == rest[i - 1];
      if PassedOver(env, q, msgs[0]) {
        if j :| 0 <= j < |rest| && SignedDelivery(env, q, rest[j]) && GoodDelivery(env, q, rest[j], d)
                && forall i :: 0 <= i < j ==> PassedOver(env, q, rest[i]) {
          assert GoodDelivery(env, q, msgs[j + 1], d);
        }
        if j :| 0 <= j < |msgs| && SignedDelivery(env, q, msgs[j]) && GoodDelivery(env, q, msgs[j], d)
                && forall i :: 0 <= i < j ==> PassedOver(env, q, msgs[i]) {
          assert GoodDelivery(env, q, rest[j - 1], d);
        }
      } else if Await(env, q, msgs) == Arrived(d) {
        assert GoodDelivery(env, q, msgs[0], d);
      }
    }
  }

  /**
   Safety of the trade, for every stream of messages and every behaviour of the
   services: the first call, if any, is a lock for the right quote at its own
   price, for this request; a payment is released only after that lock, and only
   after a delivery that the same seller signed and whose content has the hash
   it names.
   */
  lemma TradeIsSafe(env: Env, rfq: Rfq, window: seq<Payload>, later: seq<Payload>, services: Services)
    requires Validates(env)
    ensures var actions := TradeOf(env, rfq, window, later, services).actions;
            actions != [] ==>
              exists q: Quote ::
                && RightQuote(env, rfq, window, q)
                && actions[0] == FireLock(rfq.rfqId, q.seller, q.price)
                && (forall i :: 1 <= i < |actions| ==>
                      actions[i] == FireRelease(rfq.rfqId) || actions[i] == DirectRelease(rfq.rfqId))
                && (|actions| > 1 ==> exists m, d :: m in later && GoodDelivery(env, q, m, d))
  {
    var trade := TradeOf(env, rfq, window, later, services);
    if trade.actions != [] {
      var quotes := Collected(env, rfq.rfqId, window).value;
      var winner := SelectBest(rfq, quotes).value;
      WinnerIsRight(env, rfq, window);
      if |trade.actions| > 1 {
        var d := Await(env, winner, later).delivery;
        ArrivesIff(env, winner, later, d);
        var j :| 0 <= j < |later| && GoodDelivery(env, winner, later[j], d);
        assert later[j] in later;
      }
    }
  }

  lemma WinnerIsRight(env: Env, rfq: Rfq, window: seq<Payload>)
    requires Validates(env) && Collected(env, rfq.rfqId, window).Some?
    requires SelectBest(rfq, Collected(env, rfq.rfqId, window).value).Some?
    ensures var q := SelectBest(rfq, Collected(env, rfq.rfqId, window).value).value;
            RightQuote(env, rfq, window, q) && q.rfqId == rfq.rfqId
  {
    hide SelectBest;
    var quotes := Collected(env, rfq.rfqId, window).value;
    SelectBestIsFirstMaximum(rfq, quotes);
    var i: nat :| Wins(rfq, quotes, i) && quotes[i] == SelectBest(rfq, quotes).value;
    CollectedCameSigned(env, rfq, window, i);
  }

  /**
   Nothing is held back either: the buyer locks exactly when the swap quote comes,
   no message takes the collector down, and some message brings a quote that
   meets the constraints.
   */
  lemma LocksIff(env: Env, rfq: Rfq, window: seq<Payload>, later: seq<Payload>, services: Services)
    ensures TradeOf(env, rfq, window, later, services).actions != []
            <==> && services.swapQuoted
                 && (forall i :: 0 <= i < |window| ==> !BadKey(rfq.rfqId, window[i]))
                 && exists i, q :: 0 <= i < |window| && SeeQuote(env, rfq.rfqId, window[i]) == Quoted(q)
                                   && Meets(rfq, q)
  {
    hide SelectBest, SeeQuote, Await, ReleaseOf;
    var collected := Collected(env, rfq.rfqId, window);
    CrashesIff(env, rfq.rfqId, window);
    if collected.Some? {
      WinnerIsUnbeaten(rfq, collected.value);
      forall q: Quote {
        CollectedIff(env, rfq.rfqId, window, q);
      }
    }
  }

  /** The wait goes on exactly as long as every message is passed over. */
  lemma {:induction false} WaitsIff(env: Env, q: Quote, msgs: seq<Payload>)
    ensures Await(env, q, msgs) == Waiting <==> forall i :: 0 <= i < |msgs| ==> PassedOver(env, q, msgs[i])
  {
    hide SignedDelivery, SameHash, HashMatches;
    if msgs != [] {
      forall x: Delivery {
        SameHashIff(env, x);
      }
      WaitsIff(env, q, msgs[1..]);
      assert forall i :: 0 <= i < |msgs| - 1 ==> msgs[1..][i] == msgs[i + 1];
    }
  }

  /** A good delivery for quote `q`, before which every message is passed over. */
  ghost predicate DeliveredAt(env: Env, q: Quote, msgs: seq<Payload>, j: int, d: Delivery) {
    && 0 <= j < |msgs| && SignedDelivery(env, q, msgs[j]) && GoodDelivery(env, q, msgs[j], d)
    && forall i :: 0 <= i < j ==> PassedOver(env, q, msgs[i])
  }

  /**
   What follows the choice of a winner, exactly. It is locked for, and the keeper's
   release is fired if and only if the lock started and a good delivery comes before
   anything that ends the wait; the trade is still waiting if and only if the lock
   started and all that came was passed over.
   */
  lemma ReleasesIff(env: Env, rfq: Rfq, window: seq<Payload>, later: seq<Payload>, services: Services, q: Quote)
    requires Validates(env) && services.swapQuoted && Collected(env, rfq.rfqId, window).Some?
    requires SelectBest(rfq, Collected(env, rfq.rfqId, window).value) == Some(q)
    ensures var trade := TradeOf(env, rfq, window, later, services);
            && trade.actions != [] && trade.actions[0] == FireLock(rfq.rfqId, q.seller, q.price)
            && (FireRelease(rfq.rfqId) in trade.actions
                <==> services.lock == Started && exists j, d :: DeliveredAt(env, q, later, j, d))
            && (trade.outcome == StillWaiting
                <==> services.lock == Started && forall i :: 0 <= i < |later| ==> PassedOver(env, q, later[i]))
  {
    hide SelectBest, SignedDelivery, GoodDelivery, PassedOver, Await;
    WinnerIsRight(env, rfq, window);
    WaitsIff(env, q, later);
    if Await(env, q, later).Arrived? {
      var d := Await(env, q, later).delivery;
      ArrivesIff(env, q, later, d);
      var j :| 0 <= j < |later| && SignedDelivery(env, q, later[j]) && GoodDelivery(env, q, later[j], d)
               && forall i :: 0 <= i < j ==> PassedOver(env, q, later[i]);
      assert DeliveredAt(env, q, later, j, d);
    }
    forall j, d | DeliveredAt(env, q, later, j, d) ensures Await(env, q, later) == Arrived(d) {
      ArrivesIff(env, q, later, d);
    }
    ReleaseFires(rfq.rfqId, services);
  }

  lemma ReleaseFires(rfqId: string, services: Services)
    ensures var (released, actions) := ReleaseOf(rfqId, services);
            && |actions| >= 1 && actions[0] == FireRelease(rfqId)
            && (released <==> services.release == Started
                              || (services.release == NoReference && services.directGoesThrough))
            && actions[1..] == if services.release == NoReference then [DirectRelease(rfqId)] else []
  {
  }

  /**
   What the outcome means. The trade is done if and only if the payment was released:
   by the keeper, who answered with a reference, or directly after an answer without
   one. It is never released both ways, and no call is made twice.
   */
  lemma TradedIffReleased(env: Env, rfq: Rfq, window: seq<Payload>, later: seq<Payload>, services: Services)
    requires Validates(env)
    ensures var trade := TradeOf(env, rfq, window, later, services);
            var fired, direct := FireRelease(rfq.rfqId) in trade.actions, DirectRelease(rfq.rfqId) in trade.actions;
            && (trade.outcome == Traded <==> || (fired && services.release == Started)
                                             || (direct && services.directGoesThrough))
            && (direct <==> fired && services.release == NoReference)
            && forall i, j :: 0 <= i < j < |trade.actions| ==> trade.actions[i] != trade.actions[j]
  {
    var collected := Collected(env, rfq.rfqId, window);
    if collected.Some? && SelectBest(rfq, collected.value).Some? {
      WinnerIsRight(env, rfq, window);
      ReleaseFires(rfq.rfqId, services);
    }
  }

  /** The buyer gives up without a winner exactly when no message brings a quote that meets the constraints. */
  lemma GivesUpIff(env: Env, rfq: Rfq, window: seq<Payload>, later: seq<Payload>, services: Services)
    ensures TradeOf(env, rfq, window, later, services).outcome == NoEligibleQuote
            <==> && (forall i :: 0 <= i < |window| ==> !BadKey(rfq.rfqId, window[i]))
                 && forall i, q :: 0 <= i < |window| && SeeQuote(env, rfq.rfqId, window[i]) == Quoted(q) ==>
                      !Meets(rfq, q)
  {
    hide SelectBest, SeeQuote, Await, ReleaseOf;
    var collected := Collected(env, rfq.rfqId, window);
    CrashesIff(env, rfq.rfqId, window);
    if collected.Some? {
      WinnerIsUnbeaten(rfq, collected.value);
      forall q: Quote {
        CollectedIff(env, rfq.rfqId, window, q);
      }
    }
  }

  // ---------------------------------------------------------------- honest sellers

  /** The flow verifies as `Signing` says. */
  ghost predicate VerifiesWith(env: Env, s: Scheme) {
    forall m: Payload, k: string :: env.verify(m, k) <==> VerifyPayload(s, m, k)
  }

  /** What the buyer's inbox holds of a message that the owner of `key` signed and sent. */
  ghost function FromSeller(s: Scheme, message: Payload, key: SecretKey, selfId: string,
                            fromPeer: Option<string>): Payload
  {
    Delivered(Signed(s, message, key), selfId, fromPeer)
  }

  lemma FromSellerVerifies(s: Scheme, message: Payload, key: SecretKey, selfId: string, fromPeer: Option<string>)
    requires Ideal(s)
    ensures var m := FromSeller(s, message, key, selfId, fromPeer);
            && VerifyPayload(s, m, s.keyHex(s.publicKey(key)))
            && "signature" in m && m["signature"].Str?
            && forall k :: k in message && k != "signature" && k != SENDER && k != FROM ==> k in m && m[k] == message[k]
  {
    hide VerifyPayload, Ideal, SignPayload;
    DeliveredVerifies(s, message, key, selfId, fromPeer);
  }

  /** A quote message by the owner of `key`, before it is signed. */
  ghost predicate QuoteBy(s: Scheme, rfqId: string, message: Payload, key: SecretKey) {
    && HasString(message, "rfq_id", rfqId) && "quote_price_atomic" in message
    && HasString(message, "seller_axl_peer_id", s.keyHex(s.publicKey(key)))
  }

  /**
   An honest quote is heard: signed, sent over the transport and well formed, it is
   collected, whatever else is in the window. If it meets the constraints, the
   buyer locks for it or for a quote that it does not beat.
   */
  lemma HonestQuoteIsHeard(s: Scheme, env: Env, rfq: Rfq, message: Payload, key: SecretKey, selfId: string,
                           fromPeer: Option<string>, window: seq<Payload>, later: seq<Payload>,
                           services: Services, q: Quote)
    requires Ideal(s) && VerifiesWith(env, s) && Validates(env) && QuoteBy(s, rfq.rfqId, message, key)
    requires FromSeller(s, message, key, selfId, fromPeer) in window
    requires env.asQuote(FromSeller(s, message, key, selfId, fromPeer)) == Some(q)
    requires forall i :: 0 <= i < |window| ==> !BadKey(rfq.rfqId, window[i])
    ensures Collected(env, rfq.rfqId, window).Some? && q in Collected(env, rfq.rfqId, window).value
    ensures Meets(rfq, q) && services.swapQuoted ==>
              exists w: Quote ::
                && RightQuote(env, rfq, window, w) && !Beats(q, w)
                && FireLock(rfq.rfqId, w.seller, w.price) in TradeOf(env, rfq, window, later, services).actions
  {
    hide VerifyPayload, Ideal, TradeOf, RightQuote, SelectBest;
    var m := FromSeller(s, message, key, selfId, fromPeer);
    FromSellerVerifies(s, message, key, selfId, fromPeer);
    var i :| 0 <= i < |window| && window[i] == m;
    assert SeeQuote(env, rfq.rfqId, window[i]) == Quoted(q);
    CrashesIff(env, rfq.rfqId, window);
    CollectedIff(env, rfq.rfqId, window, q);
    if Meets(rfq, q) && services.swapQuoted {
      LocksIff(env, rfq, window, later, services);
      LockBeats(env, rfq, window, later, services, q);
    }
  }

  lemma LockBeats(env: Env, rfq: Rfq, window: seq<Payload>, later: seq<Payload>, services: Services, q: Quote)
    requires Validates(env) && TradeOf(env, rfq, window, later, services).actions != []
    requires Collected(env, rfq.rfqId, window).Some? && q in Collected(env, rfq.rfqId, window).value
    requires Meets(rfq, q)
    ensures exists w: Quote ::
              && RightQuote(env, rfq, window, w) && !Beats(q, w)
              && FireLock(rfq.rfqId, w.seller, w.price) in TradeOf(env, rfq, window, later, services).actions
  {
    TradeIsSafe(env, rfq, window, later, services);
    var actions := TradeOf(env, rfq, window, later, services).actions;
    var w: Quote :| RightQuote(env, rfq, window, w) && actions[0] == FireLock(rfq.rfqId, w.seller, w.price);
    assert actions[0] in actions;
  }

  /**
   An honest delivery ends the wait: signed by the seller of the quote and sent over
   the transport, with the hash of its content, after messages that are passed over.
   */
  lemma HonestDeliveryArrives(s: Scheme, env: Env, q: Quote, message: Payload, key: SecretKey, selfId: string,
                              fromPeer: Option<string>, later: seq<Payload>, j: nat, d: Delivery)
    requires Ideal(s) && VerifiesWith(env, s) && Validates(env)
    requires q.peerId == s.keyHex(s.publicKey(key))
    requires HasString(message, "rfq_id", q.rfqId) && "result_hash" in message
    requires j < |later| && later[j] == FromSeller(s, message, key, selfId, fromPeer)
    requires env.asDelivery(later[j]) == Some(d) && HashMatches(env, d)
    requires forall i :: 0 <= i < j ==> PassedOver(env, q, later[i])
    ensures Await(env, q, later) == Arrived(d)
  {
    hide VerifyPayload, Ideal, Await, HashMatches;
    FromSellerVerifies(s, message, key, selfId, fromPeer);
    assert SignedDelivery(env, q, later[j]) && GoodDelivery(env, q, later[j], d);
    ArrivesIff(env, q, later, d);
  }
}
