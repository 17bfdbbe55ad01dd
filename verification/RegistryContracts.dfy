/** The two registry contracts: storage that their external calls change in place. */
module RegistryContracts {
  import opened Evm
  import opened RatingAverage
  import opened Registries

  class AgentIdentityRegistry {
    var nextAgentId: Uint256
    var ownerOf: map<Uint256, Address>
    var agentIdOf: map<Address, Uint256>
    var tokenURI: map<Uint256, string>

    ghost function View(): Identity
      reads this
    {
      Identity(nextAgentId, ownerOf, agentIdOf, tokenURI)
    }

    constructor ()
      ensures View() == NO_AGENTS
    {
      nextAgentId, ownerOf, agentIdOf, tokenURI := 1, map[], map[], map[];
    }

    method RegisterAgent(sender: Address, uri: string) returns (result: Result<Uint256>)
      modifies this
      ensures match Registries.RegisterAgent(old(View()), sender, uri)
              case Done(r) => View() == r && result == Done(old(nextAgentId))
              case Revert(error) => View() == old(View()) && result == Revert(error)
    {
      if sender in agentIdOf && agentIdOf[sender] != 0 {
        return Revert(AlreadyRegistered);
      }
      if nextAgentId + 1 >= TWO_256 {
        return Revert(Overflow);
      }
      var agentId := nextAgentId;
      nextAgentId := nextAgentId + 1;
      ownerOf := ownerOf[agentId := sender];
      agentIdOf := agentIdOf[sender := agentId];
      tokenURI := tokenURI[agentId := uri];
      result := Done(agentId);
    }

    method SetTokenURI(sender: Address, agentId: Uint256, uri: string) returns (result: Result<()>)
      modifies this
      ensures match Registries.SetTokenURI(old(View()), sender, agentId, uri)
              case Done(r) => View() == r && result == Done(())
              case Revert(error) => View() == old(View()) && result == Revert(error)
    {
      var owner := GetOwner(agentId);
      if owner != sender {
        return Revert(NotRegistered);
      }
      tokenURI := tokenURI[agentId := uri];
      result := Done(());
    }

    method GetOwner(agentId: Uint256) returns (owner: Address)
      ensures owner == OwnerOf(View(), agentId)
    {
      owner := if agentId in ownerOf then ownerOf[agentId] else ZERO;
    }
  }

  class AgentReputationRegistry {
    const identity: AgentIdentityRegistry
    var reputation: map<Uint256, Reputation>

    constructor (identity: AgentIdentityRegistry)
      ensures reputation == map[] && this.identity == identity
    {
      this.identity := identity;
      reputation := map[];
    }

    method GetReputation(agentId: Uint256) returns (rep: Reputation)
      ensures rep == ReputationOf(reputation, agentId)
    {
      rep := if agentId in reputation then reputation[agentId] else NO_FEEDBACK;
    }

    method SubmitFeedback(sender: Address, agentId: Uint256, rating: nat) returns (result: Result<()>)
      modifies this
      ensures match Registries.SubmitFeedback(identity.View(), old(reputation), sender, agentId, rating)
              case Done(reps) => reputation == reps && result == Done(())
              case Revert(error) => reputation == old(reputation) && result == Revert(error)
    {
      if rating > 5 {
        return Revert(InvalidRating);
      }
      var owner := identity.GetOwner(agentId);
      if owner == ZERO {
        return Revert(AgentNotRegistered);
      }
      if owner == sender {
        return Revert(SelfFeedback);
      }
      hide ToUint16;
      var rep := GetReputation(agentId);
      ghost var blended := Blend(rep.avgRatingBps, rep.totalTasks, rating);
      var totalRatingBps := rep.avgRatingBps * rep.totalTasks;
      if rep.totalTasks + 1 >= TWO_64 {
        return Revert(Overflow);
      }
      rep := rep.(totalTasks := rep.totalTasks + 1);
      if rating >= 4 {
        if rep.successCount + 1 >= TWO_64 {
          return Revert(Overflow);
        }
        rep := rep.(successCount := rep.successCount + 1);
      }
      var average := (totalRatingBps + rating * 2000) / rep.totalTasks;
      assert average == blended;
      hide Blend;
      rep := rep.(avgRatingBps := ToUint16(average));
      reputation := reputation[agentId := rep];
      result := Done(());
    }
  }
}
