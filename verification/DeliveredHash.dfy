/**
 The hash that the buyer checks and the hash on the chain: the one is named in the
 delivery message, the other in the seller's confirmation of the deal.
 */
module DeliveredHash {
  import opened Evm
  import opened Options
  import opened Json
  import opened Matching
  import opened Signing
  import opened BuyerFlow
  import E = Escrow
  import H = EscrowHistory
  import S = EscrowSafety

  /** The contract on the chain, the deal of a request, and how the agents write a 32-byte word. */
  datatype Chain = Chain(self: Address, genesis: E.World, txs: seq<E.Tx>, id: Bytes32, hex: Bytes32 -> string)
  {
    /** A run that has brought the deal past its confirmation. */
    ghost predicate Confirmed() {
      && E.Genesis(self, genesis) && E.External(self, txs)
      && id in E.Run(self, genesis, txs).deals
      && Deal().state in {E.DELIVERED, E.RELEASED, E.DISPUTED}
    }

    function Deal(): E.Deal {
      E.DealAt(E.Run(self, genesis, txs).deals, id)
    }

    /** The hash that the deal holds, as the agents write it. */
    function Hash(): string {
      hex(Deal().resultHash)
    }
  }

  /** The content of a delivery has the hash that the deal holds. */
  predicate ContentOnChain(env: Env, chain: Chain, d: Delivery) {
    Lower(env.contentHash(d.content)) == Lower(chain.Hash())
  }

  /** The hash of a deal comes from one confirmation by its seller, and is never overwritten. */
  lemma HashIsTheSellers(chain: Chain)
    requires chain.Confirmed()
    ensures var log := H.Log(chain.self, chain.genesis, chain.txs, chain.id);
            && |log| >= 2 && log[1].sender == chain.Deal().seller
            && log[1].call == E.Confirm(chain.Deal().rfqId, chain.Deal().resultHash)
  {
    hide E.Run;
    H.Lifecycle(chain.self, chain.genesis, chain.txs, chain.id);
  }

  /** The contract takes any hash: whatever is delivered, a deal can be confirmed with another one. */
  lemma ConfirmTakesAnyHash(chain: Chain, now: Uint256, hash: Bytes32)
    requires E.Genesis(chain.self, chain.genesis) && E.External(chain.self, chain.txs)
    requires chain.id in E.Run(chain.self, chain.genesis, chain.txs).deals
    requires chain.Deal().state == E.LOCKED && now <= chain.Deal().deliveryDeadline
    requires now + chain.Deal().disputeDeadline < TWO_64 && chain.Deal().seller != chain.self
    ensures var later := chain.(txs := chain.txs + [E.Tx(chain.Deal().seller, now, E.Confirm(chain.id, hash))]);
            later.Confirmed() && later.Deal().resultHash == hash
  {
    hide S.Inv, S.Surplus, S.Gifts, E.Next, E.Execute;
    var tx := E.Tx(chain.Deal().seller, now, E.Confirm(chain.id, hash));
    var before := E.Run(chain.self, chain.genesis, chain.txs);
    S.GenesisInv(chain.self, chain.genesis);
    S.Solvency(chain.self, chain.genesis, chain.txs);
    ConfirmWrites(chain.self, before, tx);
    assert (chain.txs + [tx])[..|chain.txs|] == chain.txs;
    assert tx.sender != ZERO by {
      SellerIsSomebody(chain.self, before, chain.id);
    }
  }

  lemma SellerIsSomebody(self: Address, w: E.World, id: Bytes32)
    requires S.Inv(self, w) && id in w.deals
    ensures w.deals[id].seller != ZERO
  {
    assert S.WellFormed(self, w, id);
  }

  lemma ConfirmWrites(self: Address, w: E.World, tx: E.Tx)
    requires tx.call.Confirm? && tx.call.rfqId in w.deals
    requires S.Refusal(w.deals[tx.call.rfqId], tx).None?
    ensures E.Next(self, w, tx).deals
         == w.deals[tx.call.rfqId := S.Settled(w.deals[tx.call.rfqId], tx)]
  {
    hide E.Execute;
    S.CallShape(self, w, tx);
  }

  /**
   The buyer accepts an honest delivery whatever hash its seller confirmed: the content
   has the confirmed hash exactly when the message names that hash.
   */
  lemma AcceptedWhateverConfirmed(s: Scheme, env: Env, chain: Chain, q: Quote, message: Payload, key: SecretKey,
                                  selfId: string, fromPeer: Option<string>, later: seq<Payload>, j: nat, d: Delivery)
    requires Ideal(s) && VerifiesWith(env, s) && Validates(env) && chain.Confirmed()
    requires q.peerId == s.keyHex(s.publicKey(key))
    requires HasString(message, "rfq_id", q.rfqId) && "result_hash" in message
    requires j < |later| && later[j] == FromSeller(s, message, key, selfId, fromPeer)
    requires env.asDelivery(later[j]) == Some(d) && HashMatches(env, d)
    requires forall i :: 0 <= i < j ==> PassedOver(env, q, later[i])
    ensures Await(env, q, later) == Arrived(d)
    ensures var log := H.Log(chain.self, chain.genesis, chain.txs, chain.id);
            && |log| >= 2 && log[1].call.Confirm? && log[1].sender == chain.Deal().seller
            && (ContentOnChain(env, chain, d)
                <==> exists named: string :: HasString(message, "result_hash", named)
                       && Lower(named) == Lower(chain.hex(log[1].call.resultHash)))
  {
    hide Ideal, VerifyPayload, Await, E.Run, H.Log, Lower, HashMatches, EqualUpToCase;
    SameHashIff(env, d);
    HonestDeliveryArrives(s, env, q, message, key, selfId, fromPeer, later, j, d);
    HashIsTheSellers(chain);
    FromSellerVerifies(s, message, key, selfId, fromPeer);
    assert HasString(message, "result_hash", d.resultHash);
  }
}
