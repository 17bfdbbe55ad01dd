/**
 The demo marketplace: seller listings with a quota, a streaming choice of the
 best listing for each request, and the quota that a served request uses up.
 */
module Playback {
  import opened Options
  import opened DescendingSort
  import Matching

  datatype ListingData = Listing(
    id: string,
    agentId: string,
    capabilities: seq<string>,
    quota: int,
    price: int,
    confidence: real,
    successRate: real,
    deliveryMs: int)
  {
    predicate Clamped() {
      quota >= 0 && price >= 1 && 0.0 <= confidence <= 1.0 && 0.0 <= successRate <= 1.0
    }
  }

  type Listing = l: ListingData | l.Clamped() witness Listing("", "", [], 0, 1, 0.0, 0.0, 0)

  // Python's `x or default` also replaces a zero.
  function OrInt(x: Option<int>, default: int): int {
    if x.Some? && x.value != 0 then x.value else default
  }

  function OrReal(x: Option<real>, default: real): real {
    if x.Some? && x.value != 0.0 then x.value else default
  }

  function Clamp(x: real): real {
    if x < 0.0 then 0.0 else if x > 1.0 then 1.0 else x
  }

  /** `_listing_from_body`: whatever numbers are posted, the listing is within bounds and can serve once. */
  function ListingFromBody(id: string, agentId: string, capabilities: seq<string>, quota: Option<int>,
                           price: Option<int>, confidence: Option<real>, successRate: Option<real>,
                           deliveryMs: Option<int>): (l: Listing)
    ensures l.quota >= 1
  {
    var q, p := OrInt(quota, 10), OrInt(price, 300_000);
    Listing(id, agentId, capabilities, if q > 1 then q else 1, if p > 1 then p else 1,
            Clamp(OrReal(confidence, 0.88)), Clamp(OrReal(successRate, 0.9)), OrInt(deliveryMs, 3200))
  }

  /** Missing or zero numbers get their defaults, the others are kept as posted, moved to the nearest bound. */
  lemma ListingIsAsPosted(id: string, agentId: string, capabilities: seq<string>, quota: Option<int>,
                          price: Option<int>, confidence: Option<real>, successRate: Option<real>,
                          deliveryMs: Option<int>)
    ensures var l := ListingFromBody(id, agentId, capabilities, quota, price, confidence, successRate, deliveryMs);
            && l.id == id && l.agentId == agentId && l.capabilities == capabilities
            && (quota == None || quota == Some(0) ==> l.quota == 10)
            && (quota.Some? && quota.value > 0 ==> l.quota == quota.value)
            && (quota.Some? && quota.value < 0 ==> l.quota == 1)
            && (price == None || price == Some(0) ==> l.price == 300_000)
            && (price.Some? && price.value > 0 ==> l.price == price.value)
            && (price.Some? && price.value < 0 ==> l.price == 1)
            && l.confidence == InUnit(confidence, 0.88) && l.successRate == InUnit(successRate, 0.9)
            && (deliveryMs == None || deliveryMs == Some(0) ==> l.deliveryMs == 3200)
            && (deliveryMs.Some? && deliveryMs.value != 0 ==> l.deliveryMs == deliveryMs.value)
  {
  }

  function InUnit(x: Option<real>, default: real): real {
    match x
    case None => default
    case Some(v) => if v == 0.0 then default else if v < 0.0 then 0.0 else if v <= 1.0 then v else 1.0
  }

  datatype Request = Request(budget: int, minReputation: real, capability: string)

  /** The request that a trace describes; what is missing or zero gets its default. */
  function RequestOf(budget: Option<int>, minReputation: Option<real>, taskType: Option<string>): Request {
    var task := if taskType.Some? && taskType.value != "" then taskType.value else "data_fetch";
    Request(OrInt(budget, 500_000), OrReal(minReputation, 0.8), if task == "data_fetch" then "market_data" else task)
  }

  /** What a request asks for when a field is given, and when it is not. */
  lemma RequestIsAsTraced(budget: Option<int>, minReputation: Option<real>, taskType: Option<string>)
    ensures var r := RequestOf(budget, minReputation, taskType);
            && (budget == None || budget == Some(0) ==> r.budget == 500_000)
            && (budget.Some? && budget.value != 0 ==> r.budget == budget.value)
            && (minReputation == None || minReputation == Some(0.0) ==> r.minReputation == 0.8)
            && (minReputation.Some? && minReputation.value != 0.0 ==> r.minReputation == minReputation.value)
            && (taskType in {None, Some(""), Some("data_fetch")} ==> r.capability == "market_data")
            && (taskType !in {None, Some(""), Some("data_fetch")} ==> taskType == Some(r.capability))
  {
  }

  datatype Status = Eligible | NoQuota | MissingCapability | PriceAboveBudget | ReputationBelowMinimum

  datatype TraceQuote = TraceQuote(listing: Listing, score: Option<real>, status: Status, selected: bool)

  predicate Serves(r: Request, l: Listing) {
    l.quota > 0 && l.price <= r.budget && l.successRate >= r.minReputation && r.capability in l.capabilities
  }

  function StatusOf(r: Request, l: Listing): (s: Status)
    ensures s == Eligible <==> Serves(r, l)
  {
    if l.quota <= 0 then NoQuota
    else if r.capability !in l.capabilities then MissingCapability
    else if l.price > r.budget then PriceAboveBudget
    else if l.successRate < r.minReputation then ReputationBelowMinimum
    else Eligible
  }

  /** A rejected listing is given the first reason that holds of it. */
  lemma ReasonHolds(r: Request, l: Listing)
    ensures match StatusOf(r, l)
            case Eligible => Serves(r, l)
            case NoQuota => l.quota == 0
            case MissingCapability => l.quota > 0 && r.capability !in l.capabilities
            case PriceAboveBudget => l.quota > 0 && r.capability in l.capabilities && l.price > r.budget
            case ReputationBelowMinimum =>
              l.quota > 0 && r.capability in l.capabilities && l.price <= r.budget && l.successRate < r.minReputation
  {
  }

  function ScoreOf(l: Listing): (s: real)
    ensures s >= 0.0
  {
    NonNegativeRatio(l.confidence * l.successRate, l.price as real);
    l.confidence * l.successRate / l.price as real
  }

  lemma NonNegativeRatio(x: real, y: real)
    requires x >= 0.0 && y > 0.0
    ensures x / y >= 0.0
  {
  }

  function QuoteOf(r: Request, l: Listing): TraceQuote {
    TraceQuote(l, if Serves(r, l) then Some(ScoreOf(l)) else None, StatusOf(r, l), false)
  }

  function QuotesOf(r: Request, listings: seq<Listing>): seq<TraceQuote> {
    seq(|listings|, i requires 0 <= i < |listings| => QuoteOf(r, listings[i]))
  }

  /** The streaming choice: a later listing takes over only with a strictly greater score. */
  function StreamBest(r: Request, listings: seq<Listing>): (best: Option<nat>)
    ensures best.Some? ==> best.value < |listings| && Serves(r, listings[best.value])
  {
    if listings == [] then None
    else
      var front, l := listings[..|listings| - 1], listings[|listings| - 1];
      var best := StreamBest(r, front);
      if Serves(r, l) && (best.None? || ScoreOf(l) > ScoreOf(front[best.value])) then Some(|front|) else best
  }

  function Marked(r: Request, listings: seq<Listing>): seq<TraceQuote> {
    var quotes, best := QuotesOf(r, listings), StreamBest(r, listings);
    if best.None? then quotes else quotes[best.value := quotes[best.value].(selected := true)]
  }

  // A rejected quote sorts as if its score were -1.
  function TraceKey(): TraceQuote -> Key {
    (q: TraceQuote) => (if q.score.Some? then q.score.value else -1.0, 0)
  }

  function Trace(r: Request, listings: seq<Listing>): seq<TraceQuote> {
    Sort(Marked(r, listings), TraceKey())
  }

  /** The first listing with this id loses one unit, and never goes below zero. */
  function Consumed(listings: seq<Listing>, id: string): seq<Listing> {
    if listings == [] then []
    else if listings[0].id == id then [Used(listings[0])] + listings[1..]
    else [listings[0]] + Consumed(listings[1..], id)
  }

  function Used(l: Listing): Listing {
    l.(quota := if l.quota > 1 then l.quota - 1 else 0)
  }

  class Marketplace {
    var listings: seq<Listing>

    constructor (listings: seq<Listing>)
      ensures this.listings == listings
    {
      this.listings := listings;
    }

    method PostListing(listing: Listing)
      modifies this
      ensures listings == [listing] + old(listings) == Next(old(listings), List(listing))
    {
      listings := [listing] + listings;
    }

    /** `_apply_seller_listings`: scores every listing, marks the best, and sorts. */
    method ApplySellerListings(r: Request) returns (trace: seq<TraceQuote>)
      ensures trace == Trace(r, listings)
    {
      var quotes: seq<TraceQuote> := [];
      var bestIndex: Option<nat> := None;
      var bestScore := 0.0; // meaningful once there is a best index
      for i := 0 to |listings|
        invariant quotes == QuotesOf(r, listings[..i])
        invariant bestIndex == StreamBest(r, listings[..i])
        invariant bestIndex.Some? ==> bestScore == ScoreOf(listings[bestIndex.value])
      {
        assert listings[..i + 1][..i] == listings[..i];
        var listing := listings[i];
        var quote := QuoteOf(r, listing);
        if quote.score.Some? && (bestIndex.None? || quote.score.value > bestScore) {
          bestScore := quote.score.value;
          bestIndex := Some(|quotes|);
        }
        quotes := quotes + [quote];
      }
      assert listings[..|listings|] == listings;
      if bestIndex.Some? {
        quotes := quotes[bestIndex.value := quotes[bestIndex.value].(selected := true)];
      }
      trace := Sort(quotes, TraceKey());
    }

    /** `_consume_selected_seller_capacity`: uses up one unit, and shows in the selected quote what is left. */
    method ConsumeSelected(trace: seq<TraceQuote>) returns (after: seq<TraceQuote>)
      modifies this
      ensures listings == match FirstSelected(trace)
                          case None => old(listings)
                          case Some(k) => Consumed(old(listings), trace[k].listing.id)
      ensures after == Refreshed(trace, listings)
    {
      after := trace;
      var selected := FirstSelected(trace);
      if selected.None? {
        return;
      }
      var k := selected.value;
      var id := trace[k].listing.id;
      for i := 0 to |listings|
        invariant listings == old(listings)
        invariant forall j :: 0 <= j < i ==> listings[j].id != id
      {
        if listings[i].id == id {
          ConsumedAt(listings, i);
          listings := listings[i := Used(listings[i])];
          ConsumedIsFound(old(listings), id);
          after := trace[k := WithQuota(trace[k], listings[i].quota)];
          return;
        }
      }
      NothingToConsume(listings, id);
    }

    /** A request, up to an uncaught exception in the trade itself (`completes` is then false). */
    method PostRequest(r: Request, completes: bool) returns (trace: seq<TraceQuote>)
      modifies this
      ensures listings == Next(old(listings), Ask(r, completes))
      ensures trace == if completes then Refreshed(Trace(r, old(listings)), listings) else Trace(r, old(listings))
    {
      trace := ApplySellerListings(r);
      WinnerLeadsTrace(r, listings);
      if completes {
        trace := ConsumeSelected(trace);
      }
    }
  }

  /** The position of the first quote that is marked as selected. */
  function FirstSelected(trace: seq<TraceQuote>): (first: Option<nat>)
    ensures first.Some? ==> first.value < |trace| && trace[first.value].selected
  {
    if trace == [] then None
    else if trace[0].selected then Some(0)
    else match FirstSelected(trace[1..])
      case None => None
      case Some(k) => Some(k + 1)
  }

  function FindListing(listings: seq<Listing>, id: string): Option<Listing> {
    if listings == [] then None
    else if listings[0].id == id then Some(listings[0])
    else FindListing(listings[1..], id)
  }

  function WithQuota(q: TraceQuote, quota: nat): TraceQuote {
    q.(listing := q.listing.(quota := quota))
  }

  /** The trace with the quota of the first listing that has the selected id, as it is now. */
  function Refreshed(trace: seq<TraceQuote>, listings: seq<Listing>): seq<TraceQuote> {
    match FirstSelected(trace)
    case None => trace
    case Some(k) =>
      match FindListing(listings, trace[k].listing.id)
      case None => trace
      case Some(l) => trace[k := WithQuota(trace[k], l.quota)]
  }

  /** Only the first listing with the id is touched. */
  lemma {:induction false} ConsumedAt(listings: seq<Listing>, i: nat)
    requires i < |listings| && forall j :: 0 <= j < i ==> listings[j].id != listings[i].id
    ensures FindListing(listings, listings[i].id) == Some(listings[i])
    ensures Consumed(listings, listings[i].id) == listings[i := Used(listings[i])]
  {
    if i > 0 {
      var rest := listings[1..];
      assert forall j :: 0 <= j < |rest| ==> rest[j] == listings[j + 1];
      ConsumedAt(rest, i - 1);
      assert listings[0].id != listings[i].id;
      assert listings[i := Used(listings[i])] == [listings[0]] + rest[i - 1 := Used(listings[i])];
    }
  }

  lemma {:induction false} NothingToConsume(listings: seq<Listing>, id: string)
    requires forall j :: 0 <= j < |listings| ==> listings[j].id != id
    ensures FindListing(listings, id).None? && Consumed(listings, id) == listings
  {
    if listings != [] {
      NothingToConsume(listings[1..], id);
    }
  }

  lemma {:induction false} ConsumedIsFound(listings: seq<Listing>, id: string)
    ensures FindListing(Consumed(listings, id), id)
         == match FindListing(listings, id)
            case None => None
            case Some(l) => Some(Used(l))
  {
    if listings != [] && listings[0].id != id {
      ConsumedIsFound(listings[1..], id);
    }
  }

  // ---------------------------------------------------------------- the streaming choice

  lemma {:induction false} StreamBestIsFirst(r: Request, listings: seq<Listing>, j: nat)
    requires j < |listings| && Serves(r, listings[j])
    ensures var best := StreamBest(r, listings);
            && best.Some?
            && ScoreOf(listings[j]) <= ScoreOf(listings[best.value])
            && (j < best.value ==> ScoreOf(listings[j]) < ScoreOf(listings[best.value]))
  {
    if j < |listings| - 1 {
      StreamBestIsFirst(r, listings[..|listings| - 1], j);
    }
  }

  lemma {:induction false} NoneSelected(trace: seq<TraceQuote>)
    requires forall i :: 0 <= i < |trace| ==> !trace[i].selected
    ensures FirstSelected(trace).None?
  {
    if trace != [] {
      NoneSelected(trace[1..]);
    }
  }

  /** The listing chosen while streaming is the one at the head of the later stable sort. */
  lemma WinnerLeadsTrace(r: Request, listings: seq<Listing>)
    ensures match StreamBest(r, listings)
            case None => FirstSelected(Trace(r, listings)).None?
            case Some(i) =>
              && Trace(r, listings) != []
              && Trace(r, listings)[0] == Marked(r, listings)[i]
              && FirstSelected(Trace(r, listings)) == Some(0)
              && Trace(r, listings)[0].listing == listings[i]
  {
    var marked, best := Marked(r, listings), StreamBest(r, listings);
    if best.Some? {
      forall j | 0 <= j < |marked|
        ensures !Above(TraceKey()(marked[j]), TraceKey()(marked[best.value]))
        ensures j < best.value ==> Above(TraceKey()(marked[best.value]), TraceKey()(marked[j]))
      {
        if Serves(r, listings[j]) {
          StreamBestIsFirst(r, listings, j);
        }
      }
      SortPutsFirstBestFirst(marked, best.value, TraceKey());
    } else {
      SortIsStable(marked, TraceKey());
      var trace := Trace(r, listings);
      forall i | 0 <= i < |trace| ensures !trace[i].selected {
        assert trace[i] in multiset(trace);
        assert trace[i] in marked;
      }
      NoneSelected(trace);
    }
  }

  /** The quotes with one score, or with none, in order. */
  function WithScore(quotes: seq<TraceQuote>, score: Option<real>): seq<TraceQuote> {
    if quotes == [] then []
    else (if quotes[0].score == score then [quotes[0]] else []) + WithScore(quotes[1..], score)
  }

  lemma {:induction false} SameScoreIsSameKey(quotes: seq<TraceQuote>, score: Option<real>)
    requires forall q :: q in quotes && q.score.Some? ==> q.score.value >= 0.0
    ensures WithScore(quotes, score)
         == if score.Some? && score.value < 0.0 then []
            else WithKey(quotes, (if score.Some? then score.value else -1.0, 0), TraceKey())
  {
    if quotes != [] {
      assert forall q :: q in quotes[1..] ==> q in quotes;
      assert quotes[0] in quotes;
      SameScoreIsSameKey(quotes[1..], score);
    }
  }

  /**
   The trace shows every listing once: with its score if it can serve and with the
   reason otherwise, the chosen one marked and no other, best scores first, rejected
   ones last, and equals in the order of the listings.
   */
  lemma TraceIsComplete(r: Request, listings: seq<Listing>)
    ensures var marked, trace := Marked(r, listings), Trace(r, listings);
            && |marked| == |listings| && multiset(trace) == multiset(marked)
            && (forall i :: 0 <= i < |listings| ==>
                  && marked[i].listing == listings[i] && marked[i].status == StatusOf(r, listings[i])
                  && marked[i].score == (if Serves(r, listings[i]) then Some(ScoreOf(listings[i])) else None)
                  && (marked[i].selected <==> StreamBest(r, listings) == Some(i)))
            && (forall i, j :: 0 <= i < j < |trace| && trace[j].score.Some? ==>
                  trace[i].score.Some? && trace[i].score.value >= trace[j].score.value)
            && forall score :: WithScore(trace, score) == WithScore(marked, score)
  {
    hide ScoreOf, Serves, StreamBest, Sort, StatusOf;
    var marked, trace := Marked(r, listings), Trace(r, listings);
    SortIsStable(marked, TraceKey());
    forall q | q in marked ensures q.score.Some? ==> q.score.value >= 0.0 {
      var i :| 0 <= i < |marked| && marked[i] == q;
    }
    forall score ensures WithScore(trace, score) == WithScore(marked, score) {
      SameScoreIsSameKey(marked, score);
      forall q | q in trace ensures q in marked {
        assert q in multiset(trace);
      }
      SameScoreIsSameKey(trace, score);
    }
    forall i, j | 0 <= i < j < |trace| && trace[j].score.Some?
      ensures trace[i].score.Some? && trace[i].score.value >= trace[j].score.value
    {
      assert trace[j] in multiset(trace);
      assert trace[j] in marked;
      assert !Above(TraceKey()(trace[j]), TraceKey()(trace[i]));
    }
  }

  /** After a served request, the head of its trace shows what is left of the selected listing. */
  lemma TraceShowsLeft(r: Request, listings: seq<Listing>, i: nat)
    requires StreamBest(r, listings) == Some(i)
    requires forall j :: 0 <= j < i ==> listings[j].id != listings[i].id
    ensures var after := Next(listings, Ask(r, true));
            && after == listings[i := Used(listings[i])]
            && after[i].quota == listings[i].quota - 1
            && Refreshed(Trace(r, listings), after) != []
            && Refreshed(Trace(r, listings), after)[0] == WithQuota(Trace(r, listings)[0], after[i].quota)
  {
    WinnerLeadsTrace(r, listings);
    ConsumedAt(listings, i);
    ConsumedIsFound(listings, listings[i].id);
    hide Trace, Marked, Consumed, StreamBest;
  }

  // ---------------------------------------------------------------- against the buyer's matching

  ghost predicate Deliverable(listings: seq<Listing>) {
    forall i :: 0 <= i < |listings| ==> listings[i].deliveryMs > 0
  }

  function AsQuote(l: Listing): Matching.Quote
    requires l.deliveryMs > 0
  {
    Matching.QuoteData("", l.agentId, l.id, l.price, l.confidence, l.successRate, l.deliveryMs)
  }

  predicate Offers(r: Request, l: Listing) {
    l.quota > 0 && r.capability in l.capabilities
  }

  /** The listings with quota and the required capability, as quotes to the buyer's own matching. */
  function Offered(r: Request, listings: seq<Listing>): seq<Matching.Quote>
    requires Deliverable(listings)
  {
    if listings == [] then []
    else
      var l := listings[|listings| - 1];
      Offered(r, listings[..|listings| - 1]) + if Offers(r, l) then [AsQuote(l)] else []
  }

  function AsRfq(r: Request): Matching.Rfq {
    Matching.Rfq("", r.budget, r.minReputation)
  }

  /** Both algorithms find no winner, or winners with the same score. */
  ghost predicate WinnersAgree(r: Request, listings: seq<Listing>)
    requires Deliverable(listings)
  {
    var best, chosen := StreamBest(r, listings), Matching.SelectBest(AsRfq(r), Offered(r, listings));
    && (best.None? <==> chosen.None?)
    && (best.Some? ==> Matching.ScoreQuote(chosen.value) == ScoreOf(listings[best.value]))
  }

  lemma {:induction false} OfferedMembers(r: Request, listings: seq<Listing>, q: Matching.Quote)
    requires Deliverable(listings)
    ensures q in Offered(r, listings)
            <==> exists i :: 0 <= i < |listings| && Offers(r, listings[i]) && AsQuote(listings[i]) == q
  {
    if listings != [] {
      var front := listings[..|listings| - 1];
      OfferedMembers(r, front, q);
      if i :| 0 <= i < |front| && Offers(r, front[i]) && AsQuote(front[i]) == q {
        assert listings[i] == front[i];
      }
    }
  }

  lemma SameScore(l: Listing)
    requires l.deliveryMs > 0 && l.successRate >= 0.01
    ensures Matching.ScoreQuote(AsQuote(l)) == ScoreOf(l)
  {
  }

  lemma MatchingSeesBest(r: Request, listings: seq<Listing>, i: nat)
    requires Deliverable(listings) && r.minReputation >= 0.01
    requires StreamBest(r, listings) == Some(i)
    ensures WinnersAgree(r, listings)
  {
    hide Matching.ScoreQuote, ScoreOf, Matching.SelectBest;
    var rfq, quotes := AsRfq(r), Offered(r, listings);
    Matching.SelectBestIsFirstMaximum(rfq, quotes);
    OfferedMembers(r, listings, AsQuote(listings[i]));
    var m :| 0 <= m < |quotes| && quotes[m] == AsQuote(listings[i]);
    assert Matching.Violation(rfq, quotes[m]).None?;
    var chosen := Matching.SelectBest(rfq, quotes).value;
    var k: nat :| Matching.Wins(rfq, quotes, k) && quotes[k] == chosen;
    assert !Above(Matching.QuoteKey(quotes[m]), Matching.QuoteKey(quotes[k]));
    OfferedMembers(r, listings, chosen);
    var j :| 0 <= j < |listings| && Offers(r, listings[j]) && AsQuote(listings[j]) == chosen;
    StreamBestIsFirst(r, listings, j);
    SameScore(listings[i]);
    SameScore(listings[j]);
  }

  lemma MatchingSeesNone(r: Request, listings: seq<Listing>)
    requires Deliverable(listings) && StreamBest(r, listings).None?
    ensures WinnersAgree(r, listings)
  {
    var rfq, quotes := AsRfq(r), Offered(r, listings);
    Matching.SelectBestIsFirstMaximum(rfq, quotes);
    if Matching.SelectBest(rfq, quotes).Some? {
      var k: nat :| Matching.Wins(rfq, quotes, k);
      OfferedMembers(r, listings, quotes[k]);
      var j :| 0 <= j < |listings| && Offers(r, listings[j]) && AsQuote(listings[j]) == quotes[k];
      StreamBestIsFirst(r, listings, j);
    }
  }

  /**
   The two winner algorithms agree on every set of listings exactly when the
   minimum reputation is at least 0.01: below that, `score_quote` lifts a lower
   success rate to 0.01 and the demo server does not.
   */
  lemma WinnersAgreeIff(minReputation: real)
    ensures (forall budget: int, capability: string, listings: seq<Listing> :: Deliverable(listings) ==>
               WinnersAgree(Request(budget, minReputation, capability), listings))
            <==> minReputation >= 0.01
  {
    if minReputation >= 0.01 {
      forall budget: int, capability: string, listings: seq<Listing> | Deliverable(listings)
        ensures WinnersAgree(Request(budget, minReputation, capability), listings)
      {
        var r := Request(budget, minReputation, capability);
        match StreamBest(r, listings) {
          case Some(i) => MatchingSeesBest(r, listings, i);
          case None => MatchingSeesNone(r, listings);
        }
      }
    } else {
      WinnersDisagreeBelow(minReputation);
    }
  }

  lemma WinnersDisagreeBelow(minReputation: real)
    requires minReputation < 0.01
    ensures exists r: Request, listings: seq<Listing> ::
              r.minReputation == minReputation && Deliverable(listings) && !WinnersAgree(r, listings)
  {
    var r := Request(1, minReputation, "market_data");
    var rate := if minReputation > 0.0 then minReputation else 0.0;
    var l := Listing("a", "a", ["market_data"], 1, 1, 1.0, rate, 1);
    var listings: seq<Listing> := [l];
    assert listings[..0] == [];
    assert StreamBest(r, listings) == Some(0);
    assert Offered(r, listings) == [AsQuote(l)];
    assert ScoreOf(l) == rate && Matching.ScoreQuote(AsQuote(l)) == 0.01;
    hide ScoreOf, Matching.ScoreQuote, Matching.SelectBest, StreamBest, Offered;
    Matching.SelectBestIsFirstMaximum(AsRfq(r), [AsQuote(l)]);
    assert !WinnersAgree(r, listings);
  }

  /** In particular they agree on every request that leaves the minimum reputation open. */
  lemma OpenRequestsAgree(budget: Option<int>, minReputation: Option<real>, task: Option<string>,
                          listings: seq<Listing>)
    requires Deliverable(listings) && (minReputation.None? || minReputation.value == 0.0)
    ensures WinnersAgree(RequestOf(budget, minReputation, task), listings)
  {
    WinnersAgreeIff(0.8);
    var r := RequestOf(budget, minReputation, task);
    assert r == Request(r.budget, 0.8, r.capability);
  }

  // ---------------------------------------------------------------- quota

  datatype Post = List(listing: Listing) | Ask(r: Request, completes: bool)

  function Next(listings: seq<Listing>, post: Post): seq<Listing> {
    match post
    case List(l) => [l] + listings
    case Ask(r, completes) =>
      var best := StreamBest(r, listings);
      if completes && best.Some? then Consumed(listings, listings[best.value].id) else listings
  }

  function Run(initial: seq<Listing>, posts: seq<Post>): seq<Listing> {
    if posts == [] then initial
    else Next(Run(initial, posts[..|posts| - 1]), posts[|posts| - 1])
  }

  /** Every listing ever published, with the quota it was published with. */
  function Published(initial: seq<Listing>, posts: seq<Post>): seq<Listing> {
    if posts == [] then initial
    else
      var front, post := posts[..|posts| - 1], posts[|posts| - 1];
      (if post.List? then [post.listing] else []) + Published(initial, front)
  }

  /** Whether a post selects the listing `id` and reaches the capacity step. */
  function ServedBy(listings: seq<Listing>, post: Post, id: string): nat {
    if post.Ask? && post.completes && StreamBest(post.r, listings).Some?
       && listings[StreamBest(post.r, listings).value].id == id then 1 else 0
  }

  /** How many requests selected the listing `id` and reached the capacity step. */
  function Served(initial: seq<Listing>, posts: seq<Post>, id: string): nat {
    if posts == [] then 0
    else
      var front, post := posts[..|posts| - 1], posts[|posts| - 1];
      Served(initial, front, id) + ServedBy(Run(initial, front), post, id)
  }

  ghost predicate DistinctIds(listings: seq<Listing>) {
    forall i, j :: 0 <= i < j < |listings| ==> listings[i].id != listings[j].id
  }

  /** The capacity step takes from the selected listing exactly when no earlier listing has its id. */
  lemma ConsumesSelectedIff(listings: seq<Listing>, i: nat)
    requires i < |listings| && listings[i].quota > 0
    ensures Consumed(listings, listings[i].id) == listings[i := Used(listings[i])]
            <==> forall j :: 0 <= j < i ==> listings[j].id != listings[i].id
  {
    var id := listings[i].id;
    if j :| 0 <= j < i && listings[j].id == id {
      var first := FirstWithId(listings, id, j);
      ConsumedAt(listings, first);
      assert listings[first := Used(listings[first])][i] == listings[i] != Used(listings[i]);
    } else {
      ConsumedAt(listings, i);
    }
  }

  /** A position with the id has a first one at or before it. */
  lemma FirstWithId(listings: seq<Listing>, id: string, j: nat) returns (first: nat)
    requires j < |listings| && listings[j].id == id
    ensures first <= j && listings[first].id == id
    ensures forall k :: 0 <= k < first ==> listings[k].id != id
  {
    first := 0;
    while listings[first].id != id
      invariant first <= j && forall k :: 0 <= k < first ==> listings[k].id != id
      decreases j - first
    {
      first := first + 1;
    }
  }

  /** Each listing holds what it was published with, less what it served. */
  ghost predicate Conserved(now: seq<Listing>, published: seq<Listing>, initial: seq<Listing>, posts: seq<Post>) {
    && |now| == |published|
    && forall i :: 0 <= i < |now| ==>
         var served := Served(initial, posts, published[i].id);
         served <= published[i].quota && now[i] == published[i].(quota := published[i].quota - served)
  }

  /** No request was served under an id that two published listings share. */
  ghost predicate SharedNeverServed(published: seq<Listing>, initial: seq<Listing>, posts: seq<Post>) {
    forall i, j :: 0 <= i < j < |published| && published[i].id == published[j].id ==>
      Served(initial, posts, published[i].id) == 0
  }

  lemma {:induction false} ServedWasPublished(initial: seq<Listing>, posts: seq<Post>, id: string)
    requires forall i :: 0 <= i < |Published(initial, posts)| ==> Published(initial, posts)[i].id != id
    ensures Served(initial, posts, id) == 0
    ensures forall i :: 0 <= i < |Run(initial, posts)| ==> Run(initial, posts)[i].id != id
  {
    if posts == [] {
      assert Run(initial, posts) == Published(initial, posts);
    } else {
      var front, post := posts[..|posts| - 1], posts[|posts| - 1];
      var before := Published(initial, front);
      assert Published(initial, posts) == (if post.List? then [post.listing] else []) + before;
      forall i | 0 <= i < |before| ensures before[i].id != id {
        assert before[i] == Published(initial, posts)[i + if post.List? then 1 else 0];
      }
      ServedWasPublished(initial, front, id);
      if post.List? {
        assert Published(initial, posts)[0] == post.listing;
        assert Run(initial, posts) == [post.listing] + Run(initial, front);
      } else {
        KeepsIds(Run(initial, front), post);
        assert Run(initial, posts) == Next(Run(initial, front), post);
      }
      forall i | 0 <= i < |Run(initial, posts)| ensures Run(initial, posts)[i].id != id {
        if post.List? && i > 0 {
          assert Run(initial, posts)[i] == Run(initial, front)[i - 1];
        } else if post.Ask? {
          assert Run(initial, posts)[i].id == Run(initial, front)[i].id;
        }
      }
    }
  }

  lemma {:induction false} ConsumedKeepsIds(listings: seq<Listing>, id: string)
    ensures |Consumed(listings, id)| == |listings|
    ensures forall i :: 0 <= i < |listings| ==> Consumed(listings, id)[i].id == listings[i].id
  {
    if listings != [] && listings[0].id != id {
      ConsumedKeepsIds(listings[1..], id);
    }
  }

  lemma KeepsIds(listings: seq<Listing>, post: Post)
    requires post.Ask?
    ensures |Next(listings, post)| == |listings|
    ensures forall i :: 0 <= i < |listings| ==> Next(listings, post)[i].id == listings[i].id
  {
    var best := StreamBest(post.r, listings);
    if best.Some? {
      ConsumedKeepsIds(listings, listings[best.value].id);
    }
  }

  /** One more post of a run. */
  lemma OneMore(initial: seq<Listing>, posts: seq<Post>, post: Post, id: string)
    ensures Run(initial, posts + [post]) == Next(Run(initial, posts), post)
    ensures Published(initial, posts + [post])
         == (if post.List? then [post.listing] else []) + Published(initial, posts)
    ensures Served(initial, posts + [post], id) == Served(initial, posts, id) + ServedBy(Run(initial, posts), post, id)
  {
    assert (posts + [post])[..|posts|] == posts;
  }

  /** One request served: the selected listing, and no other, holds one unit less. */
  lemma AskConserves(initial: seq<Listing>, posts: seq<Post>, ask: Post, published: seq<Listing>)
    requires ask.Ask? && SharedNeverServed(published, initial, posts + [ask])
    requires Conserved(Run(initial, posts), published, initial, posts)
    ensures Conserved(Run(initial, posts + [ask]), published, initial, posts + [ask])
  {
    hide Run, Published, Served, StreamBest, Consumed;
    var listings := Run(initial, posts);
    var best := StreamBest(ask.r, listings);
    forall i | 0 <= i < |listings|
      ensures Served(initial, posts + [ask], published[i].id)
           == Served(initial, posts, published[i].id) + ServedBy(listings, ask, published[i].id)
      ensures listings[i].id == published[i].id
    {
      OneMore(initial, posts, ask, published[i].id);
    }
    OneMore(initial, posts, ask, "");
    if ask.completes && best.Some? {
      var b := best.value;
      forall j | 0 <= j < |listings| && j != b ensures published[j].id != published[b].id {
      }
      ConsumesSelectedIff(listings, b);
      hide SharedNeverServed;
    }
  }

  /** One listing published: it has served nobody, and the others are untouched. */
  lemma ListConserves(initial: seq<Listing>, posts: seq<Post>, l: Listing, published: seq<Listing>)
    requires published == Published(initial, posts)
    requires SharedNeverServed([l] + published, initial, posts + [List(l)])
    requires Conserved(Run(initial, posts), published, initial, posts)
    ensures Conserved(Run(initial, posts + [List(l)]), [l] + published, initial, posts + [List(l)])
  {
    hide Run, Published, Served, StreamBest;
    var after, longer := [l] + published, posts + [List(l)];
    forall id ensures Served(initial, longer, id) == Served(initial, posts, id) {
      OneMore(initial, posts, List(l), id);
    }
    OneMore(initial, posts, List(l), l.id);
    if k :| 0 <= k < |published| && published[k].id == l.id {
      assert after[0].id == after[k + 1].id;
    } else {
      ServedWasPublished(initial, posts, l.id);
    }
    hide SharedNeverServed;
    forall i | 0 <= i < |after|
      ensures var served := Served(initial, longer, after[i].id);
              served <= after[i].quota && ([l] + Run(initial, posts))[i] == after[i].(quota := after[i].quota - served)
    {
      if i > 0 {
        assert after[i] == published[i - 1];
      }
    }
  }

  lemma {:induction false} UnsharedConserves(initial: seq<Listing>, posts: seq<Post>)
    requires SharedNeverServed(Published(initial, posts), initial, posts)
    ensures Conserved(Run(initial, posts), Published(initial, posts), initial, posts)
  {
    if posts == [] {
      assert forall id :: Served(initial, [], id) == 0;
    } else {
      var front, post := posts[..|posts| - 1], posts[|posts| - 1];
      var published, after := Published(initial, front), Published(initial, posts);
      hide Conserved, Run;
      assert posts == front + [post];
      assert SharedNeverServed(published, initial, front) by {
        var shift := if post.List? then 1 else 0;
        assert forall i :: 0 <= i < |published| ==> published[i] == after[i + shift];
        assert forall id :: Served(initial, front, id) <= Served(initial, posts, id);
      }
      UnsharedConserves(initial, front);
      if post.Ask? {
        assert after == published;
        AskConserves(initial, front, post, published);
      } else {
        assert after == [post.listing] + published && post == List(post.listing);
        ListConserves(initial, front, post.listing, published);
      }
    }
  }

  // ---------------------------------------------------------------- shared ids

  /** Every listing keeps its place and its id. */
  lemma {:induction false} PlacesStay(initial: seq<Listing>, posts: seq<Post>)
    ensures |Run(initial, posts)| == |Published(initial, posts)|
    ensures forall i :: 0 <= i < |Run(initial, posts)| ==>
              Run(initial, posts)[i].id == Published(initial, posts)[i].id
  {
    if posts != [] {
      var front, post := posts[..|posts| - 1], posts[|posts| - 1];
      PlacesStay(initial, front);
      if post.Ask? {
        KeepsIds(Run(initial, front), post);
        assert Published(initial, posts) == Published(initial, front);
      }
    }
  }

  /** The capacity step takes one unit at most, from the first listing with the id. */
  lemma {:induction false} ConsumedTakesOne(listings: seq<Listing>, id: string, i: nat)
    requires i < |listings|
    ensures |Consumed(listings, id)| == |listings|
    ensures var loss := listings[i].quota - Consumed(listings, id)[i].quota;
            && (loss == 0 || (loss == 1 && listings[i].id == id))
            && (loss == 1 ==> forall j :: 0 <= j < i ==> listings[j].id != id)
  {
    ConsumedKeepsIds(listings, id);
    if i > 0 && listings[0].id != id {
      ConsumedTakesOne(listings[1..], id, i - 1);
      assert forall j :: 0 < j < i ==> listings[j] == listings[1..][j - 1];
    }
  }

  /** Two listings that share an id lose one unit at most between them, and only if it is the id. */
  lemma PairTakesOne(listings: seq<Listing>, id: string, i: nat, j: nat)
    requires i <= j < |listings| && listings[i].id == listings[j].id
    ensures |Consumed(listings, id)| == |listings|
    ensures var after, budget := Consumed(listings, id), if listings[i].id == id then 1 else 0;
            var di, dj := listings[i].quota - after[i].quota, listings[j].quota - after[j].quota;
            di <= budget && dj <= budget && (i < j ==> di + dj <= budget)
  {
    hide Consumed;
    ConsumedTakesOne(listings, id, i);
    ConsumedTakesOne(listings, id, j);
  }

  /** Whatever requests were served under an id, no listing lost more, nor did two that share the id together. */
  ghost predicate LossesServed(now: seq<Listing>, published: seq<Listing>, i: nat, j: nat, served: nat)
    requires i < |now| == |published| && j < |now|
  {
    var di, dj := published[i].quota - now[i].quota, published[j].quota - now[j].quota;
    di <= served && dj <= served && (i < j ==> di + dj <= served)
  }

  lemma LossesAfterAsk(listings: seq<Listing>, published: seq<Listing>, post: Post, i: nat, j: nat, served: nat)
    requires post.Ask? && i <= j < |listings| == |published| && listings[i].id == listings[j].id
    requires LossesServed(listings, published, i, j, served)
    ensures |Next(listings, post)| == |listings|
    ensures LossesServed(Next(listings, post), published, i, j, served + ServedBy(listings, post, listings[i].id))
  {
    hide StreamBest, Consumed;
    var best := StreamBest(post.r, listings);
    if post.completes && best.Some? {
      PairTakesOne(listings, listings[best.value].id, i, j);
    }
  }

  lemma LossesAfterList(now: seq<Listing>, published: seq<Listing>, l: Listing, i: nat, j: nat, served: nat)
    requires i <= j <= |now| == |published|
    requires j > 0 ==> LossesServed(now, published, if i > 0 then i - 1 else j - 1, j - 1, served)
    ensures LossesServed([l] + now, [l] + published, i, j, served)
  {
  }

  lemma {:induction false} LossesAreServed(initial: seq<Listing>, posts: seq<Post>, i: nat, j: nat)
    requires i <= j < |Published(initial, posts)| == |Run(initial, posts)|
    requires Published(initial, posts)[i].id == Published(initial, posts)[j].id
    ensures LossesServed(Run(initial, posts), Published(initial, posts), i, j,
                         Served(initial, posts, Published(initial, posts)[i].id))
    decreases |posts|
  {
    hide Run, Published, Served, Next, LossesServed, ServedBy;
    if posts == [] {
      NothingYet(initial);
      NothingLost(initial, i, j);
    } else {
      var front, post := posts[..|posts| - 1], posts[|posts| - 1];
      var listings, published := Run(initial, front), Published(initial, front);
      var id := Published(initial, posts)[i].id;
      assert posts == front + [post];
      OneMore(initial, front, post, id);
      PlacesStay(initial, front);
      if post.Ask? {
        assert Published(initial, posts) == published;
        LossesAreServed(initial, front, i, j);
        LossesAfterAsk(listings, published, post, i, j, Served(initial, front, id));
      } else {
        ListedFirst(listings, post, id);
        if j > 0 {
          var k := if i > 0 then i - 1 else j - 1;
          assert published[k].id == published[j - 1].id == id;
          LossesAreServed(initial, front, k, j - 1);
        }
        LossesAfterList(listings, published, post.listing, i, j, Served(initial, front, id));
      }
    }
  }

  lemma NothingYet(initial: seq<Listing>)
    ensures Run(initial, []) == initial == Published(initial, [])
  {
  }

  lemma NothingLost(initial: seq<Listing>, i: nat, j: nat)
    requires i <= j < |initial| && initial[i].id == initial[j].id
    ensures LossesServed(initial, initial, i, j, Served(initial, [], initial[i].id))
  {
  }

  lemma ListedFirst(listings: seq<Listing>, post: Post, id: string)
    requires post.List?
    ensures Next(listings, post) == [post.listing] + listings && ServedBy(listings, post, id) == 0
  {
  }

  /**
   Quota conservation, exactly: over a run of posts the published quota of each
   listing is what is left plus what was served under its id if and only if
   nothing was ever served under an id that two listings share.
   */
  lemma QuotaConservedIff(initial: seq<Listing>, posts: seq<Post>)
    ensures Conserved(Run(initial, posts), Published(initial, posts), initial, posts)
            <==> SharedNeverServed(Published(initial, posts), initial, posts)
  {
    hide Run, Served, Published;
    var published := Published(initial, posts);
    if SharedNeverServed(published, initial, posts) {
      UnsharedConserves(initial, posts);
    } else {
      var i, j :| 0 <= i < j < |published| && published[i].id == published[j].id
                  && Served(initial, posts, published[i].id) > 0;
      PlacesStay(initial, posts);
      LossesAreServed(initial, posts, i, j);
    }
  }

  /** So it holds over every run with distinct ids. */
  lemma QuotaConserved(initial: seq<Listing>, posts: seq<Post>)
    requires DistinctIds(Published(initial, posts))
    ensures Conserved(Run(initial, posts), Published(initial, posts), initial, posts)
  {
    QuotaConservedIff(initial, posts);
  }

  /** And it fails when two listings are posted in one second, which gives them one id, and one of them is served. */
  lemma PostsOfOneSecond(a: Listing, b: Listing, r: Request)
    requires a.id == b.id && (Serves(r, a) || Serves(r, b))
    ensures var posts := [List(a)] + [List(b)] + [Ask(r, true)];
            !Conserved(Run([], posts), Published([], posts), [], posts)
  {
    hide Serves, StreamBest, Run, Published, Served, Conserved;
    var none: seq<Post>, listings: seq<Listing> := [], [b, a];
    NothingYet([]);
    OneMore([], none, List(a), b.id);
    assert none + [List(a)] == [List(a)];
    OneMore([], [List(a)], List(b), b.id);
    OneMore([], [List(a)] + [List(b)], Ask(r, true), b.id);
    StreamBestIsFirst(r, listings, if Serves(r, b) then 0 else 1);
    assert Run([], [List(a)] + [List(b)]) == listings;
    var posts := [List(a)] + [List(b)] + [Ask(r, true)];
    assert Published([], posts) == listings;
    assert listings[0].id == listings[1].id == b.id;
    QuotaConservedIff([], posts);
  }
}
