/** Quote matching: hard constraints first, then a stable descending sort by score and speed. */
module Matching {
  import opened Options
  import opened DescendingSort

  datatype QuoteData = QuoteData(
    rfqId: string,
    seller: string,
    peerId: string,
    price: int,
    confidence: real,
    successRate: real,
    deliveryMs: int)
  {
    // The field constraints of the quote schema.
    predicate InSchema() {
      price > 0 && 0.0 <= confidence <= 1.0 && 0.0 <= successRate <= 1.0 && deliveryMs > 0
    }
  }

  type Quote = q: QuoteData | q.InSchema() witness QuoteData("", "", "", 1, 0.0, 0.0, 1)

  datatype Rfq = Rfq(rfqId: string, maxPrice: int, minReputation: real)

  datatype Reason = Eligible | PriceAboveBudget | ReputationBelowMinimum

  datatype Score = NegInf | Fin(value: real)

  datatype Scored = Scored(quote: Quote, score: Score, reason: Reason)

  function Violation(rfq: Rfq, q: Quote): Option<Reason> {
    if q.price > rfq.maxPrice then Some(PriceAboveBudget)
    else if q.successRate < rfq.minReputation then Some(ReputationBelowMinimum)
    else None
  }

  function ScoreQuote(q: Quote): real {
    q.confidence * (if q.successRate > 0.01 then q.successRate else 0.01) / q.price as real
  }

  /** The sort key: score, then speed. */
  function QuoteKey(q: Quote): Key {
    (ScoreQuote(q), -q.deliveryMs)
  }

  function ScoredKey(): Scored -> Key {
    (s: Scored) => QuoteKey(s.quote)
  }

  function EligibleOf(rfq: Rfq, quotes: seq<Quote>): seq<Scored> {
    if quotes == [] then []
    else
      var q := quotes[|quotes| - 1];
      EligibleOf(rfq, quotes[..|quotes| - 1])
      + if Violation(rfq, q).None? then [Scored(q, Fin(ScoreQuote(q)), Eligible)] else []
  }

  function RejectedOf(rfq: Rfq, quotes: seq<Quote>): seq<Scored> {
    if quotes == [] then []
    else
      var q := quotes[|quotes| - 1];
      RejectedOf(rfq, quotes[..|quotes| - 1])
      + match Violation(rfq, q)
        case Some(reason) => [Scored(q, NegInf, reason)]
        case None => []
  }

  function Ranked(rfq: Rfq, quotes: seq<Quote>): seq<Scored> {
    Sort(EligibleOf(rfq, quotes), ScoredKey()) + RejectedOf(rfq, quotes)
  }

  method RankQuotes(rfq: Rfq, quotes: seq<Quote>) returns (ranked: seq<Scored>)
    ensures ranked == Ranked(rfq, quotes)
  {
    var eligible, rejected := [], [];
    for i := 0 to |quotes|
      invariant eligible == EligibleOf(rfq, quotes[..i]) && rejected == RejectedOf(rfq, quotes[..i])
    {
      assert quotes[..i + 1][..i] == quotes[..i];
      var q := quotes[i];
      var violation := Violation(rfq, q);
      if violation.Some? {
        rejected := rejected + [Scored(q, NegInf, violation.value)];
        continue;
      }
      eligible := eligible + [Scored(q, Fin(ScoreQuote(q)), Eligible)];
    }
    assert quotes[..|quotes|] == quotes;
    eligible := Sort(eligible, ScoredKey());
    ranked := eligible + rejected;
  }

  function SelectBest(rfq: Rfq, quotes: seq<Quote>): Option<Quote> {
    var ranked := Ranked(rfq, quotes);
    if ranked == [] || ranked[0].score == NegInf then None else Some(ranked[0].quote)
  }

  // ---------------------------------------------------------------- what a good quote is

  /** The hard constraints of a request. */
  predicate Meets(rfq: Rfq, q: Quote) {
    q.price <= rfq.maxPrice && q.successRate >= rfq.minReputation
  }

  /** One quote beats another: a higher score, or the same score and an earlier delivery. */
  predicate Beats(q: Quote, other: Quote) {
    ScoreQuote(q) > ScoreQuote(other) || (ScoreQuote(q) == ScoreQuote(other) && q.deliveryMs < other.deliveryMs)
  }

  // ---------------------------------------------------------------- ranking

  /** What becomes of one quote, wherever it ends up in the ranking. */
  function Annotated(rfq: Rfq, q: Quote): Scored {
    match Violation(rfq, q)
    case Some(reason) => Scored(q, NegInf, reason)
    case None => Scored(q, Fin(ScoreQuote(q)), Eligible)
  }

  function AnnotatedAll(rfq: Rfq, quotes: seq<Quote>): seq<Scored> {
    seq(|quotes|, i requires 0 <= i < |quotes| => Annotated(rfq, quotes[i]))
  }

  lemma {:induction false} SplitIsPermutation(rfq: Rfq, quotes: seq<Quote>)
    ensures multiset(EligibleOf(rfq, quotes)) + multiset(RejectedOf(rfq, quotes)) == multiset(AnnotatedAll(rfq, quotes))
  {
    if quotes != [] {
      var front, q := quotes[..|quotes| - 1], quotes[|quotes| - 1];
      SplitIsPermutation(rfq, front);
      hide ScoreQuote, Violation;
      var s := Annotated(rfq, q);
      assert AnnotatedAll(rfq, quotes) == AnnotatedAll(rfq, front) + [s];
      if Violation(rfq, q).None? {
        assert EligibleOf(rfq, quotes) == EligibleOf(rfq, front) + [s];
        assert RejectedOf(rfq, quotes) == RejectedOf(rfq, front);
      } else {
        assert EligibleOf(rfq, quotes) == EligibleOf(rfq, front);
        assert RejectedOf(rfq, quotes) == RejectedOf(rfq, front) + [s];
      }
    }
  }

  lemma {:induction false} SplitByScore(rfq: Rfq, quotes: seq<Quote>)
    ensures forall i :: 0 <= i < |EligibleOf(rfq, quotes)| ==> EligibleOf(rfq, quotes)[i].score.Fin?
    ensures forall i :: 0 <= i < |RejectedOf(rfq, quotes)| ==> RejectedOf(rfq, quotes)[i].score.NegInf?
  {
    if quotes != [] {
      SplitByScore(rfq, quotes[..|quotes| - 1]);
    }
  }

  /**
   `rank_quotes`: a permutation of the annotated input, the eligible quotes first
   and in the one stable descending order, the rejected ones after them in input
   order.
   */
  lemma RankingIsComplete(rfq: Rfq, quotes: seq<Quote>)
    ensures var ranked, n := Ranked(rfq, quotes), |EligibleOf(rfq, quotes)|;
            && multiset(ranked) == multiset(AnnotatedAll(rfq, quotes))
            && n <= |ranked| && StableSortOf(ranked[..n], EligibleOf(rfq, quotes), ScoredKey())
            && ranked[n..] == RejectedOf(rfq, quotes)
            && forall i :: 0 <= i < |ranked| ==> (ranked[i].score.Fin? <==> i < n)
  {
    hide Insert, StableSortOf;
    var eligible, rejected := EligibleOf(rfq, quotes), RejectedOf(rfq, quotes);
    var sorted := Sort(eligible, ScoredKey());
    SplitIsPermutation(rfq, quotes);
    SplitByScore(rfq, quotes);
    SortIsStable(eligible, ScoredKey());
    assert |sorted| == |multiset(sorted)| == |multiset(eligible)| == |eligible|;
    forall i | 0 <= i < |sorted| ensures sorted[i].score.Fin? {
      assert sorted[i] in multiset(sorted);
      assert sorted[i] in eligible;
    }
    assert Ranked(rfq, quotes)[..|eligible|] == sorted;
  }

  // ---------------------------------------------------------------- the winner

  /** The winner is the head of the sorted eligible quotes. */
  lemma WinnerLeads(rfq: Rfq, quotes: seq<Quote>, i: nat)
    requires FirstBest(EligibleOf(rfq, quotes), i, ScoredKey())
    ensures SelectBest(rfq, quotes) == Some(EligibleOf(rfq, quotes)[i].quote)
  {
    SortPutsFirstBestFirst(EligibleOf(rfq, quotes), i, ScoredKey());
    SplitByScore(rfq, quotes);
  }

  lemma NoWinner(rfq: Rfq, quotes: seq<Quote>)
    ensures SelectBest(rfq, quotes).None? <==> EligibleOf(rfq, quotes) == []
  {
    if EligibleOf(rfq, quotes) == [] {
      SplitByScore(rfq, quotes);
    } else {
      FirstBestExists(EligibleOf(rfq, quotes), ScoredKey());
      var i: nat :| FirstBest(EligibleOf(rfq, quotes), i, ScoredKey());
      WinnerLeads(rfq, quotes, i);
    }
  }

  /** One more quote takes over exactly when it is eligible and strictly better than the winner so far. */
  lemma AppendQuote(rfq: Rfq, quotes: seq<Quote>, q: Quote)
    ensures var best := SelectBest(rfq, quotes);
            SelectBest(rfq, quotes + [q])
            == if Meets(rfq, q) && (best.None? || Beats(q, best.value))
               then Some(q) else best
  {
    hide SelectBest, ScoreQuote;
    assert (quotes + [q])[..|quotes|] == quotes;
    var eligible, grown := EligibleOf(rfq, quotes), EligibleOf(rfq, quotes + [q]);
    NoWinner(rfq, quotes);
    NoWinner(rfq, quotes + [q]);
    if eligible == [] {
      if Violation(rfq, q).None? {
        assert FirstBest(grown, 0, ScoredKey());
        WinnerLeads(rfq, quotes + [q], 0);
      }
    } else {
      FirstBestExists(eligible, ScoredKey());
      var i: nat :| FirstBest(eligible, i, ScoredKey());
      WinnerLeads(rfq, quotes, i);
      if Violation(rfq, q).None? && Above(QuoteKey(q), QuoteKey(eligible[i].quote)) {
        assert FirstBest(grown, |eligible|, ScoredKey());
        WinnerLeads(rfq, quotes + [q], |eligible|);
      } else {
        assert FirstBest(grown, i, ScoredKey());
        WinnerLeads(rfq, quotes + [q], i);
      }
    }
  }

  /** Quote `i` meets the hard constraints, and no other that does has a better key, or an equal one earlier. */
  ghost predicate Wins(rfq: Rfq, quotes: seq<Quote>, i: nat) {
    && i < |quotes| && Violation(rfq, quotes[i]).None?
    && forall j :: 0 <= j < |quotes| && Violation(rfq, quotes[j]).None? ==>
         && !Above(QuoteKey(quotes[j]), QuoteKey(quotes[i]))
         && (j < i ==> Above(QuoteKey(quotes[i]), QuoteKey(quotes[j])))
  }

  /** `select_best` is None iff nothing is eligible, and otherwise the first lexicographic maximum. */
  lemma {:induction false} SelectBestIsFirstMaximum(rfq: Rfq, quotes: seq<Quote>)
    ensures match SelectBest(rfq, quotes)
            case None => forall i :: 0 <= i < |quotes| ==> Violation(rfq, quotes[i]).Some?
            case Some(q) => exists i: nat :: Wins(rfq, quotes, i) && quotes[i] == q
  {
    if quotes == [] {
      NoWinner(rfq, quotes);
    } else {
      var front, q := quotes[..|quotes| - 1], quotes[|quotes| - 1];
      SelectBestIsFirstMaximum(rfq, front);
      AppendQuote(rfq, front, q);
      assert quotes == front + [q];
      var best := SelectBest(rfq, quotes);
      if best != SelectBest(rfq, front) {
        assert Wins(rfq, quotes, |front|);
      } else if best.Some? {
        var i: nat :| Wins(rfq, front, i) && front[i] == best.value;
        assert Wins(rfq, quotes, i);
      }
    }
  }

  /** A larger budget and a lower minimum reputation never make the winner worse. */
  lemma LooserNeverWorse(rfq: Rfq, looser: Rfq, quotes: seq<Quote>)
    requires rfq.maxPrice <= looser.maxPrice && looser.minReputation <= rfq.minReputation
    requires SelectBest(rfq, quotes).Some?
    ensures var winner, winner' := SelectBest(rfq, quotes), SelectBest(looser, quotes);
            winner'.Some? && !Beats(winner.value, winner'.value)
  {
    SelectBestIsFirstMaximum(rfq, quotes);
    SelectBestIsFirstMaximum(looser, quotes);
    var i: nat :| Wins(rfq, quotes, i) && quotes[i] == SelectBest(rfq, quotes).value;
    assert Violation(looser, quotes[i]).None?;
  }

  /** Both parts keep the order of the input. */
  lemma {:induction false} PartsKeepOrder(rfq: Rfq, quotes: seq<Quote>, more: seq<Quote>)
    ensures EligibleOf(rfq, quotes + more) == EligibleOf(rfq, quotes) + EligibleOf(rfq, more)
    ensures RejectedOf(rfq, quotes + more) == RejectedOf(rfq, quotes) + RejectedOf(rfq, more)
    decreases |more|
  {
    hide ScoreQuote, Violation;
    if more == [] {
      assert quotes + more == quotes;
    } else {
      var front := more[..|more| - 1];
      assert (quotes + more)[..|quotes + more| - 1] == quotes + front;
      PartsKeepOrder(rfq, quotes, front);
    }
  }

  /** A quote on its own goes into one part, with its annotation. */
  lemma PartsOfOne(rfq: Rfq, q: Quote)
    ensures EligibleOf(rfq, [q]) == (if Meets(rfq, q) then [Annotated(rfq, q)] else [])
    ensures RejectedOf(rfq, [q]) == (if Meets(rfq, q) then [] else [Annotated(rfq, q)])
  {
    hide ScoreQuote;
    assert [q][..0] == [];
  }

  // ---------------------------------------------------------------- the order in plain terms

  /** What a quote scores: its confidence times its success rate, one per cent at least, for each unit of its price. */
  lemma ScoreMeans(q: Quote)
    ensures ScoreQuote(q) * q.price as real
         == if q.successRate >= 0.01 then q.confidence * q.successRate else q.confidence / 100.0
  {
    var worth := q.confidence * (if q.successRate > 0.01 then q.successRate else 0.01);
    assert worth / q.price as real * q.price as real == worth;
  }

  /** The reason and the score that a quote is annotated with. */
  lemma AnnotatedMeans(rfq: Rfq, q: Quote)
    ensures var s := Annotated(rfq, q);
            && s.quote == q && (s.reason == Eligible <==> Meets(rfq, q))
            && (s.reason == PriceAboveBudget <==> q.price > rfq.maxPrice)
            && s.score == (if Meets(rfq, q) then Fin(ScoreQuote(q)) else NegInf)
  {
  }

  /**
   `select_best` in plain terms: it is None iff no quote meets the constraints. Otherwise
   the winner meets them, no quote that meets them beats it, and of equals it is the first.
   */
  lemma WinnerIsUnbeaten(rfq: Rfq, quotes: seq<Quote>)
    ensures match SelectBest(rfq, quotes)
            case None => forall q :: q in quotes ==> !Meets(rfq, q)
            case Some(w) =>
              exists i: nat ::
                && i < |quotes| && quotes[i] == w && Meets(rfq, w)
                && forall j :: 0 <= j < |quotes| && Meets(rfq, quotes[j]) ==>
                     && !Beats(quotes[j], w) && (j < i ==> Beats(w, quotes[j]))
  {
    hide SelectBest, ScoreQuote;
    SelectBestIsFirstMaximum(rfq, quotes);
    if SelectBest(rfq, quotes).Some? {
      var i: nat :| Wins(rfq, quotes, i) && quotes[i] == SelectBest(rfq, quotes).value;
      assert Meets(rfq, quotes[i]);
    }
  }

  lemma {:induction false} EligibleScores(rfq: Rfq, quotes: seq<Quote>)
    ensures forall i :: 0 <= i < |EligibleOf(rfq, quotes)| ==>
              var s := EligibleOf(rfq, quotes)[i];
              s.score == Fin(ScoreQuote(s.quote)) && Meets(rfq, s.quote) && s.quote in quotes
  {
    hide ScoreQuote;
    if quotes != [] {
      EligibleScores(rfq, quotes[..|quotes| - 1]);
    }
  }

  /** `rank_quotes` in plain terms: no quote that meets the constraints stands behind one that it beats. */
  lemma RankedBestFirst(rfq: Rfq, quotes: seq<Quote>)
    ensures var ranked := Ranked(rfq, quotes);
            forall i, j :: 0 <= i < j < |ranked| && ranked[j].score.Fin? ==>
              && ranked[i].score == Fin(ScoreQuote(ranked[i].quote)) && Meets(rfq, ranked[i].quote)
              && !Beats(ranked[j].quote, ranked[i].quote)
  {
    hide ScoreQuote, Insert, Ranked;
    var ranked, eligible := Ranked(rfq, quotes), EligibleOf(rfq, quotes);
    RankingIsComplete(rfq, quotes);
    EligibleScores(rfq, quotes);
    var n := |eligible|;
    SortIsStable(eligible, ScoredKey());
    RankedHead(rfq, quotes);
    forall i, j | 0 <= i < j < |ranked| && ranked[j].score.Fin?
      ensures ranked[i].score == Fin(ScoreQuote(ranked[i].quote)) && Meets(rfq, ranked[i].quote)
      ensures !Beats(ranked[j].quote, ranked[i].quote)
    {
      assert ranked[i] == Sort(eligible, ScoredKey())[i] && ranked[j] == Sort(eligible, ScoredKey())[j];
      assert ranked[i] in multiset(Sort(eligible, ScoredKey()));
      assert ranked[i] in eligible;
    }
  }

  lemma RankedHead(rfq: Rfq, quotes: seq<Quote>)
    ensures |Sort(EligibleOf(rfq, quotes), ScoredKey())| == |EligibleOf(rfq, quotes)|
    ensures Ranked(rfq, quotes) == Sort(EligibleOf(rfq, quotes), ScoredKey()) + RejectedOf(rfq, quotes)
  {
    var sorted := Sort(EligibleOf(rfq, quotes), ScoredKey());
    SortIsStable(EligibleOf(rfq, quotes), ScoredKey());
    assert |sorted| == |multiset(sorted)| == |EligibleOf(rfq, quotes)|;
  }
}
