/** The identity and the reputation registry: what their calls do, and what every run of calls keeps. */
module Registries {
  import opened Evm
  import opened RatingAverage

  datatype Identity = Identity(
    nextAgentId: Uint256,
    ownerOf: map<Uint256, Address>,
    agentIdOf: map<Address, Uint256>,
    tokenURI: map<Uint256, string>)

  const NO_AGENTS := Identity(1, map[], map[], map[])

  datatype Reputation = Reputation(totalTasks: Uint64, successCount: Uint64, avgRatingBps: Uint16)

  const NO_FEEDBACK := Reputation(0, 0, 0)

  type Reputations = map<Uint256, Reputation>

  datatype Error =
    | AlreadyRegistered | NotRegistered
    | InvalidRating | AgentNotRegistered | SelfFeedback
    | Overflow

  datatype Result<+T> = Done(value: T) | Revert(error: Error)

  function OwnerOf(r: Identity, id: Uint256): Address {
    if id in r.ownerOf then r.ownerOf[id] else ZERO
  }

  function AgentIdOf(r: Identity, a: Address): Uint256 {
    if a in r.agentIdOf then r.agentIdOf[a] else 0
  }

  function ReputationOf(reps: Reputations, id: Uint256): Reputation {
    if id in reps then reps[id] else NO_FEEDBACK
  }

  function RegisterAgent(r: Identity, sender: Address, uri: string): Result<Identity> {
    if AgentIdOf(r, sender) != 0 then Revert(AlreadyRegistered)
    else if r.nextAgentId + 1 >= TWO_256 then Revert(Overflow)
    else
      var id := r.nextAgentId;
      Done(Identity(id + 1, r.ownerOf[id := sender], r.agentIdOf[sender := id], r.tokenURI[id := uri]))
  }

  function SetTokenURI(r: Identity, sender: Address, id: Uint256, uri: string): Result<Identity> {
    if OwnerOf(r, id) != sender then Revert(NotRegistered)
    else Done(r.(tokenURI := r.tokenURI[id := uri]))
  }

  /** One rating on one agent: the new average is cut to 16 bits by an unchecked cast. */
  function Rate(rep: Reputation, rating: nat): Result<Reputation> {
    if rep.totalTasks + 1 >= TWO_64 then Revert(Overflow)
    else if rating >= 4 && rep.successCount + 1 >= TWO_64 then Revert(Overflow)
    else
      Done(Reputation(rep.totalTasks + 1,
                      rep.successCount + if rating >= 4 then 1 else 0,
                      ToUint16(Blend(rep.avgRatingBps, rep.totalTasks, rating))))
  }

  function SubmitFeedback(r: Identity, reps: Reputations, sender: Address, id: Uint256,
                          rating: nat): Result<Reputations>
  {
    var owner := OwnerOf(r, id);
    if rating > 5 then Revert(InvalidRating)
    else if owner == ZERO then Revert(AgentNotRegistered)
    else if owner == sender then Revert(SelfFeedback)
    else match Rate(ReputationOf(reps, id), rating)
      case Done(rep) => Done(reps[id := rep])
      case Revert(error) => Revert(error)
  }

  // ---------------------------------------------------------------- runs

  datatype Call =
    | Register(uri: string)
    | SetURI(agentId: Uint256, uri: string)
    | Feedback(agentId: Uint256, rating: nat)

  datatype Tx = Tx(sender: Address, call: Call)

  datatype World = World(identity: Identity, reputations: Reputations)

  function Execute(w: World, tx: Tx): Result<World> {
    match tx.call
    case Register(uri) =>
      (match RegisterAgent(w.identity, tx.sender, uri)
       case Done(r) => Done(w.(identity := r))
       case Revert(error) => Revert(error))
    case SetURI(id, uri) =>
      (match SetTokenURI(w.identity, tx.sender, id, uri)
       case Done(r) => Done(w.(identity := r))
       case Revert(error) => Revert(error))
    case Feedback(id, rating) =>
      (match SubmitFeedback(w.identity, w.reputations, tx.sender, id, rating)
       case Done(reps) => Done(w.(reputations := reps))
       case Revert(error) => Revert(error))
  }

  function Next(w: World, tx: Tx): World {
    match Execute(w, tx)
    case Done(after) => after
    case Revert(_) => w
  }

  /** The registries after a run that starts with both of them empty. */
  function Run(txs: seq<Tx>): World {
    if txs == [] then World(NO_AGENTS, map[])
    else Next(Run(txs[..|txs| - 1]), txs[|txs| - 1])
  }

  ghost predicate External(txs: seq<Tx>) {
    forall i :: 0 <= i < |txs| ==> txs[i].sender != ZERO
  }

  /** The feedback calls on one agent that went through, in order. */
  function Accepted(txs: seq<Tx>, id: Uint256): seq<Tx> {
    if txs == [] then []
    else
      var front, last := txs[..|txs| - 1], txs[|txs| - 1];
      Accepted(front, id)
      + if last.call.Feedback? && last.call.agentId == id && Execute(Run(front), last).Done? then [last] else []
  }

  function Ratings(txs: seq<Tx>): seq<nat>
    requires forall i :: 0 <= i < |txs| ==> txs[i].call.Feedback?
  {
    seq(|txs|, i requires 0 <= i < |txs| => txs[i].call.rating)
  }

  // ---------------------------------------------------------------- what every run keeps

  /** Agent ids are dense, every owner has one id, and the two mappings undo each other. */
  ghost predicate Bijective(r: Identity) {
    && r.nextAgentId >= 1
    && (forall id :: id in r.ownerOf <==> 1 <= id < r.nextAgentId)
    && (forall id :: id in r.ownerOf ==>
          && r.ownerOf[id] != ZERO
          && r.ownerOf[id] in r.agentIdOf && r.agentIdOf[r.ownerOf[id]] == id)
    && (forall a :: a in r.agentIdOf ==>
          r.agentIdOf[a] in r.ownerOf && r.ownerOf[r.agentIdOf[a]] == a)
  }

  lemma {:induction false} IdentityBijective(txs: seq<Tx>)
    requires External(txs)
    ensures Bijective(Run(txs).identity)
  {
    if txs != [] {
      IdentityBijective(txs[..|txs| - 1]);
    }
  }

  /** Owners never change: a registration survives whatever runs after it. */
  lemma {:induction false} OwnersNeverChange(txs: seq<Tx>, more: seq<Tx>, id: Uint256)
    requires External(txs + more) && id in Run(txs).identity.ownerOf
    ensures OwnerOf(Run(txs + more).identity, id) == OwnerOf(Run(txs).identity, id) != ZERO
    decreases |more|
  {
    assert External(txs) by {
      assert forall i :: 0 <= i < |txs| ==> txs[i] == (txs + more)[i];
    }
    IdentityBijective(txs);
    if more == [] {
      assert txs + more == txs;
    } else {
      var front := more[..|more| - 1];
      assert (txs + more)[..|txs + more| - 1] == txs + front;
      OwnersNeverChange(txs, front, id);
      IdentityBijective(txs + front);
    }
  }

  /** A call changes the URI of one agent at most, and only its owner can make it. */
  lemma OnlyOwnerSetsURI(w: World, tx: Tx, id: Uint256)
    requires Bijective(w.identity) && tx.sender != ZERO
    ensures var after := Next(w, tx).identity;
            && (id in w.identity.tokenURI ==> id in after.tokenURI)
            && (id in after.tokenURI && (id in w.identity.tokenURI ==> after.tokenURI[id] != w.identity.tokenURI[id])
                ==> OwnerOf(after, id) == tx.sender && id in after.ownerOf)
  {
    hide SubmitFeedback;
  }

  /** What the accepted feedback of an agent says about the run. */
  ghost predicate Genuine(w: World, id: Uint256, accepted: seq<Tx>) {
    && (forall i :: 0 <= i < |accepted| ==>
          && accepted[i].call.Feedback? && accepted[i].call.agentId == id && accepted[i].call.rating <= 5
          && accepted[i].sender != OwnerOf(w.identity, id))
    && (accepted != [] ==> id in w.identity.ownerOf)
  }

  /** The stored record is the exact summary of the accepted ratings: no count and no cast is ever cut. */
  ghost predicate Summarises(rep: Reputation, ratings: seq<nat>) {
    && rep.totalTasks == |ratings|
    && rep.successCount == Successes(ratings)
    && rep.avgRatingBps == Average(ratings) <= 10_000
  }

  lemma RateSummarises(rep: Reputation, ratings: seq<nat>, rating: nat)
    requires Summarises(rep, ratings) && rating <= 5
    requires forall i :: 0 <= i < |ratings| ==> ratings[i] <= 5
    requires Rate(rep, rating).Done?
    ensures Summarises(Rate(rep, rating).value, ratings + [rating])
  {
    assert (ratings + [rating])[..|ratings|] == ratings;
    AverageBetween(ratings + [rating], 0, 5);
  }

  lemma RatingsAppend(txs: seq<Tx>, tx: Tx)
    requires forall i :: 0 <= i < |txs| ==> txs[i].call.Feedback?
    requires tx.call.Feedback?
    ensures Ratings(txs + [tx]) == Ratings(txs) + [tx.call.rating]
    ensures forall i :: 0 <= i < |txs| ==> Ratings(txs)[i] == txs[i].call.rating
  {
  }

  /** One more transaction keeps all accepted feedback genuine. */
  lemma GenuineStep(w: World, tx: Tx, id: Uint256, accepted: seq<Tx>)
    requires Bijective(w.identity) && tx.sender != ZERO && Genuine(w, id, accepted)
    ensures Genuine(Next(w, tx), id, accepted)
    ensures tx.call.Feedback? && tx.call.agentId == id && Execute(w, tx).Done? ==>
              Genuine(Next(w, tx), id, accepted + [tx])
  {
    hide Rate;
  }

  /** One more transaction changes the record of an agent only by an accepted rating of it. */
  lemma RecordStep(w: World, tx: Tx, id: Uint256)
    ensures var rep, after := ReputationOf(w.reputations, id), ReputationOf(Next(w, tx).reputations, id);
            if tx.call.Feedback? && tx.call.agentId == id && Execute(w, tx).Done?
            then tx.call.rating <= 5 && Rate(rep, tx.call.rating) == Done(after)
            else after == rep
  {
    hide Rate;
  }

  /**
   Over every run, each agent's record summarises exactly its accepted ratings;
   these were all given to a registered agent, and none by its owner.
   */
  lemma {:induction false} FeedbackIsGenuine(txs: seq<Tx>, id: Uint256)
    requires External(txs)
    ensures var w, accepted := Run(txs), Accepted(txs, id);
            Genuine(w, id, accepted) && Summarises(ReputationOf(w.reputations, id), Ratings(accepted))
    decreases |txs|
  {
    if txs != [] {
      var front, last := txs[..|txs| - 1], txs[|txs| - 1];
      var w, accepted := Run(front), Accepted(front, id);
      FeedbackIsGenuine(front, id);
      IdentityBijective(front);
      GenuineStep(w, last, id, accepted);
      RecordStep(w, last, id);
      hide Execute, Next, Bijective, Summarises, Rate, ReputationOf;
      if last.call.Feedback? && last.call.agentId == id && Execute(w, last).Done? {
        RatingsAppend(accepted, last);
        RateSummarises(ReputationOf(w.reputations, id), Ratings(accepted), last.call.rating);
      } else {
        assert Accepted(txs, id) == accepted;
      }
    }
  }

  /**
   `getReputation` after any run: the zero struct and a zero task count both tell
   that no feedback on the agent was ever accepted.
   */
  lemma ReadsZeroIffNoFeedback(txs: seq<Tx>, id: Uint256)
    requires External(txs)
    ensures var rep := ReputationOf(Run(txs).reputations, id);
            && (rep == NO_FEEDBACK <==> Accepted(txs, id) == [])
            && (rep.totalTasks == 0 <==> Accepted(txs, id) == [])
  {
    hide Run, Accepted;
    FeedbackIsGenuine(txs, id);
  }

  // ---------------------------------------------------------------- when calls succeed

  predicate Registers(w: World, tx: Tx, a: Address) {
    tx.sender == a && tx.call.Register? && Execute(w, tx).Done?
  }

  /** Whether `a` has registered in the run. */
  ghost predicate HasRegistered(txs: seq<Tx>, a: Address) {
    exists i :: 0 <= i < |txs| && Registers(Run(txs[..i]), txs[i], a)
  }

  lemma RegisteredSoFar(txs: seq<Tx>, a: Address)
    requires txs != []
    ensures var front, last := txs[..|txs| - 1], txs[|txs| - 1];
            HasRegistered(txs, a) <==> HasRegistered(front, a) || Registers(Run(front), last, a)
  {
    hide Run, Registers;
    var front, n := txs[..|txs| - 1], |txs| - 1;
    assert forall i :: 0 <= i < n ==> front[i] == txs[i] && front[..i] == txs[..i];
    if i :| 0 <= i < n && Registers(Run(front[..i]), front[i], a) {
      assert Registers(Run(txs[..i]), txs[i], a);
    }
  }

  lemma {:induction false} RegisteredIffHasId(txs: seq<Tx>, a: Address)
    requires External(txs)
    ensures HasRegistered(txs, a) <==> AgentIdOf(Run(txs).identity, a) != 0
    decreases |txs|
  {
    hide Registers, Next, Bijective;
    if txs != [] {
      var front, last := txs[..|txs| - 1], txs[|txs| - 1];
      RegisteredIffHasId(front, a);
      IdentityBijective(front);
      RegisteredSoFar(txs, a);
      IdStep(Run(front), last, a);
      hide HasRegistered, AgentIdOf;
    }
  }

  /** One more transaction gives an id to nobody but the caller of a registration that goes through. */
  lemma IdStep(w: World, tx: Tx, a: Address)
    requires Bijective(w.identity) && tx.sender != ZERO
    ensures AgentIdOf(Next(w, tx).identity, a) != 0
            <==> AgentIdOf(w.identity, a) != 0 || Registers(w, tx, a)
  {
    hide SubmitFeedback;
  }

  /**
   A registration succeeds exactly when its caller has not registered before and an
   id is left; it hands out the next id, to the caller, with its URI, and changes
   nothing else.
   */
  lemma RegistersIff(txs: seq<Tx>, a: Address, uri: string)
    requires External(txs) && a != ZERO
    ensures var before, tx := Run(txs).identity, Tx(a, Register(uri));
            var after, id := Next(Run(txs), tx).identity, before.nextAgentId;
            && (Execute(Run(txs), tx).Done? <==> !HasRegistered(txs, a) && id < MAX_UINT256)
            && (Execute(Run(txs), tx).Done? ==>
                  && after.nextAgentId == id + 1 && id !in before.ownerOf
                  && OwnerOf(after, id) == a && AgentIdOf(after, a) == id
                  && id in after.tokenURI && after.tokenURI[id] == uri
                  && (forall i :: i != id ==>
                        && OwnerOf(after, i) == OwnerOf(before, i)
                        && (i in after.tokenURI <==> i in before.tokenURI)
                        && (i in before.tokenURI ==> after.tokenURI[i] == before.tokenURI[i]))
                  && forall b :: b != a ==> AgentIdOf(after, b) == AgentIdOf(before, b))
  {
    RegisteredIffHasId(txs, a);
    IdentityBijective(txs);
    hide Run, HasRegistered, SubmitFeedback;
  }

  /** A URI is changed exactly by the owner of the agent; it then reads as was set, and no other changes. */
  lemma SetsURIIff(txs: seq<Tx>, a: Address, id: Uint256, uri: string)
    requires External(txs) && a != ZERO
    ensures var before, tx := Run(txs).identity, Tx(a, SetURI(id, uri));
            var after := Next(Run(txs), tx).identity;
            && (Execute(Run(txs), tx).Done? <==> id in before.ownerOf && before.ownerOf[id] == a)
            && (Execute(Run(txs), tx).Done? ==> id in after.tokenURI && after.tokenURI[id] == uri)
            && (forall i :: (i != id || Execute(Run(txs), tx).Revert?) ==>
                  && (i in after.tokenURI <==> i in before.tokenURI)
                  && (i in before.tokenURI ==> after.tokenURI[i] == before.tokenURI[i]))
            && after.ownerOf == before.ownerOf && after.agentIdOf == before.agentIdOf
            && after.nextAgentId == before.nextAgentId
  {
    hide Run, SubmitFeedback;
  }

  /**
   A rating is accepted exactly when it is five at most and comes from somebody other
   than the owner of a registered agent, which has not yet been rated 2^64 - 1 times.
   The reason of a refusal is the first of these that fails.
   */
  lemma RatesIff(txs: seq<Tx>, a: Address, id: Uint256, rating: nat)
    requires External(txs) && a != ZERO
    ensures var result := Execute(Run(txs), Tx(a, Feedback(id, rating)));
            var owners, times := Run(txs).identity.ownerOf, |Accepted(txs, id)|;
            && (result.Done? <==> rating <= 5 && id in owners && owners[id] != a && times + 1 < TWO_64)
            && (result.Revert? ==>
                  result.error == if rating > 5 then InvalidRating
                                  else if id !in owners then AgentNotRegistered
                                  else if owners[id] == a then SelfFeedback
                                  else Overflow)
  {
    IdentityBijective(txs);
    FeedbackIsGenuine(txs, id);
    SuccessesCount(Ratings(Accepted(txs, id)));
    hide Run, Accepted, Blend, ToUint16, RegisterAgent, SetTokenURI;
  }

  /** The client's derived `success_rate`. */
  function SuccessRate(rep: Reputation): real {
    if rep.totalTasks == 0 then 0.0 else rep.successCount as real / rep.totalTasks as real
  }

  lemma RatioInUnit(a: real, b: real)
    requires 0.0 <= a <= b && b > 0.0
    ensures 0.0 <= a / b <= 1.0 && a / b * b == a
  {
    assert a / b * b == a;
  }

  /** The accepted ratings of four or five, by position. */
  function Good(accepted: seq<Tx>): set<int> {
    set i | 0 <= i < |accepted| && accepted[i].call.Feedback? && accepted[i].call.rating >= 4
  }

  lemma GoodAreSuccesses(accepted: seq<Tx>)
    requires forall i :: 0 <= i < |accepted| ==> accepted[i].call.Feedback?
    ensures Successes(Ratings(accepted)) == |Good(accepted)| <= |accepted|
  {
    var ratings := Ratings(accepted);
    SuccessesCount(ratings);
    assert Good(accepted) == set i | 0 <= i < |ratings| && ratings[i] >= 4;
  }

  lemma RateIsShare(rep: Reputation)
    requires rep.successCount <= rep.totalTasks
    ensures 0.0 <= SuccessRate(rep) <= 1.0
    ensures SuccessRate(rep) * rep.totalTasks as real == rep.successCount as real
    ensures rep.totalTasks == 0 ==> SuccessRate(rep) == 0.0
  {
    if rep.totalTasks > 0 {
      RatioInUnit(rep.successCount as real, rep.totalTasks as real);
    }
  }

  /** Over every run the success rate is the share of fours and fives among the accepted ratings, or 0 without any. */
  lemma SuccessRateInRange(txs: seq<Tx>, id: Uint256)
    requires External(txs)
    ensures var rate, accepted := SuccessRate(ReputationOf(Run(txs).reputations, id)), Accepted(txs, id);
            && 0.0 <= rate <= 1.0
            && rate * |accepted| as real == |Good(accepted)| as real
            && (accepted == [] ==> rate == 0.0)
  {
    hide Run, Accepted, Good, ReputationOf, SuccessRate;
    FeedbackIsGenuine(txs, id);
    GoodAreSuccesses(Accepted(txs, id));
    RateIsShare(ReputationOf(Run(txs).reputations, id));
  }
}
