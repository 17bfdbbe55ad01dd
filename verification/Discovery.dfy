/**
 Peer discovery between the mock AXL nodes: a node that registers a peer it did
 not know announces itself back, once.
 */
module Discovery {
  import opened Options

  /** A node answers a registration with an announce exactly when the peer is new to it. */
  predicate Fresh<N>(known: set<N>, peer: N) {
    peer !in known
  }

  // ---------------------------------------------------------------- one node

  datatype Peer = Peer(addr: string, name: string)

  /** `addr.rstrip("/")` */
  function StripSlashes(s: string): string {
    if s != "" && s[|s| - 1] == '/' then StripSlashes(s[..|s| - 1]) else s
  }

  function Slashes(n: nat): string {
    seq(n, _ => '/')
  }

  /** What is stripped is slashes, and all that stand at the end. */
  lemma {:induction false} StripsTrailingSlashes(s: string)
    ensures var r := StripSlashes(s);
            && |r| <= |s| && s == r + Slashes(|s| - |r|)
            && (r == "" || r[|r| - 1] != '/')
  {
    if s != "" && s[|s| - 1] == '/' {
      var front := s[..|s| - 1];
      StripsTrailingSlashes(front);
      var r := StripSlashes(front);
      assert Slashes(|s| - |r|) == Slashes(|front| - |r|) + ['/'];
      assert s == front + ['/'];
    }
  }

  const MAX_ROUNDS := 15

  class AxlNode {
    const peerId: string
    const addr: string
    var peers: map<string, Peer>

    constructor (peerId: string, addr: string)
      ensures this.peerId == peerId && this.addr == addr && peers == map[]
    {
      this.peerId, this.addr, peers := peerId, addr, map[];
    }

    /** The `/register` handler: the HTTP status, and the address to announce back to, if any. */
    method Register(pid: string, addr: string, name: string) returns (status: nat, announceTo: Option<string>)
      modifies this
      ensures if pid == "" || StripSlashes(addr) == ""
              then status == 400 && announceTo == None && peers == old(peers)
              else && status == 200 && peers == old(peers)[pid := Peer(StripSlashes(addr), name)]
                   && announceTo == (if Fresh(old(peers.Keys), pid) then Some(StripSlashes(addr)) else None)
    {
      var target := StripSlashes(addr);
      if pid == "" || target == "" {
        return 400, None;
      }
      var already := pid in peers;
      peers := peers[pid := Peer(target, name)];
      status := 200;
      announceTo := if already then None else Some(target);
    }
  }

  /** Whether the post for entry `i` goes through in one of the first `rounds` rounds. */
  ghost predicate UpWithin(up: (nat, nat) -> bool, i: nat, rounds: nat) {
    exists k: nat :: k < rounds && up(k, i)
  }

  lemma NoRoundYet(up: (nat, nat) -> bool)
    ensures forall i :: !UpWithin(up, i, 0)
  {
  }

  lemma OneMoreRound(up: (nat, nat) -> bool, i: nat, round: nat)
    ensures UpWithin(up, i, round + 1) <==> UpWithin(up, i, round) || up(round, i)
    ensures up(round, i) && round < MAX_ROUNDS ==> UpWithin(up, i, MAX_ROUNDS)
  {
  }

  function Positions(n: nat): seq<nat> {
    seq(n, i => i)
  }

  /**
   `_announce_all_with_retry`, against nodes that are up in some rounds and down in
   others. The entries of the address list are told apart by their position, so an
   address listed twice can have two fates. Every entry is posted to once if it is
   up in any of the rounds, and is given up otherwise.
   */
  method AnnounceAllWithRetry(addrs: seq<string>, up: (nat, nat) -> bool)
    returns (posted: seq<nat>, remaining: seq<nat>)
    ensures multiset(posted) + multiset(remaining) == multiset(Positions(|addrs|))
    ensures forall i :: i in posted ==> UpWithin(up, i, 15)
    ensures forall i :: i in remaining ==> !UpWithin(up, i, 15)
  {
    hide UpWithin, Positions;
    posted, remaining := [], Positions(|addrs|);
    NoRoundYet(up);
    for round := 0 to MAX_ROUNDS
      invariant multiset(posted) + multiset(remaining) == multiset(Positions(|addrs|))
      invariant forall i :: i in posted ==> UpWithin(up, i, MAX_ROUNDS)
      invariant forall i :: i in remaining ==> !UpWithin(up, i, round)
    {
      var reached, stillPending := OneRound(remaining, up, round);
      posted, remaining := posted + reached, stillPending;
      if remaining == [] {
        break;
      }
    }
  }

  /** The inner loop: one post for each entry that is left. */
  method OneRound(remaining: seq<nat>, up: (nat, nat) -> bool, round: nat)
    returns (reached: seq<nat>, stillPending: seq<nat>)
    requires round < MAX_ROUNDS && forall i :: i in remaining ==> !UpWithin(up, i, round)
    ensures multiset(reached) + multiset(stillPending) == multiset(remaining)
    ensures forall i :: i in reached ==> UpWithin(up, i, MAX_ROUNDS)
    ensures forall i :: i in stillPending ==> !UpWithin(up, i, round + 1)
  {
    hide UpWithin;
    reached, stillPending := [], [];
    for n := 0 to |remaining|
      invariant multiset(reached) + multiset(stillPending) == multiset(remaining[..n])
      invariant forall i :: i in reached ==> UpWithin(up, i, MAX_ROUNDS)
      invariant forall i :: i in stillPending ==> !UpWithin(up, i, round + 1)
    {
      assert remaining[..n + 1] == remaining[..n] + [remaining[n]];
      assert remaining[n] in remaining;
      OneMoreRound(up, remaining[n], round);
      if up(round, remaining[n]) {
        reached := reached + [remaining[n]];
      } else {
        stillPending := stillPending + [remaining[n]];
      }
    }
    assert remaining[..|remaining|] == remaining;
  }

  // ---------------------------------------------------------------- the network

  /** A running node, at an address of its own. Its peer id is made of its name, so two nodes can share one. */
  type Node = nat
  type PeerId = nat

  /** A `/register` request on its way: `from` introduces itself to `to`. */
  datatype Message = Message(to: Node, from: Node)

  datatype Net = Net(
    entered: set<(Node, PeerId)>, // by `register_peer`, without a message
    learned: set<(Node, PeerId)>, // from a message
    inFlight: multiset<Message>)
  {
    /** (b, i): the registry of b holds the id i. */
    function Known(): set<(Node, PeerId)> {
      entered + learned
    }
  }

  datatype Event = Announce(m: Message) | Deliver(m: Message) | Enter(node: Node, peer: Node)

  function KnownBy(net: Net, b: Node): set<PeerId> {
    set p | p in net.Known() && p.0 == b :: p.1
  }

  function Step(ids: Node -> PeerId, net: Net, e: Event): Net {
    match e
    case Announce(m) => net.(inFlight := net.inFlight + multiset{m})
    case Deliver(m) =>
      if Fresh(KnownBy(net, m.to), ids(m.from)) then
        net.(learned := net.learned + {(m.to, ids(m.from))},
             inFlight := net.inFlight - multiset{m} + multiset{Message(m.from, m.to)})
      else net.(inFlight := net.inFlight - multiset{m})
    case Enter(node, peer) => net.(entered := net.entered + {(node, ids(peer))})
  }

  lemma FreshIsUnknown(net: Net, b: Node, i: PeerId)
    ensures Fresh(KnownBy(net, b), i) <==> (b, i) !in net.Known()
  {
    assert i in KnownBy(net, b) <==> (b, i) in net.Known();
  }

  /** A delivery is one registration, at the node it is addressed to and at no other. */
  lemma DeliveryIsRegistration(ids: Node -> PeerId, net: Net, m: Message, b: Node)
    ensures var after := Step(ids, net, Deliver(m));
            && KnownBy(after, b) == KnownBy(net, b) + (if b == m.to then {ids(m.from)} else {})
            && (m in net.inFlight ==>
                  after.inFlight + multiset{m}
                  == net.inFlight + if Fresh(KnownBy(net, m.to), ids(m.from))
                                    then multiset{Message(m.from, m.to)} else multiset{})
  {
    var after := Step(ids, net, Deliver(m));
    forall i ensures i in KnownBy(after, b) <==> i in KnownBy(net, b) || (b == m.to && i == ids(m.from)) {
      FreshIsUnknown(after, b, i);
      FreshIsUnknown(net, b, i);
      FreshIsUnknown(net, m.to, ids(m.from));
    }
  }

  /** The network after a run that starts with empty registries. */
  function Run(ids: Node -> PeerId, events: seq<Event>): Net {
    if events == [] then Net({}, {}, multiset{})
    else Step(ids, Run(ids, events[..|events| - 1]), events[|events| - 1])
  }

  /** Only messages in flight are delivered: none is made up, and none is lost. */
  predicate Possible(ids: Node -> PeerId, events: seq<Event>) {
    events == []
    || (var front, last := events[..|events| - 1], events[|events| - 1];
        Possible(ids, front) && (last.Deliver? ==> last.m in Run(ids, front).inFlight))
  }

  ghost predicate NoEntries(events: seq<Event>) {
    forall i :: 0 <= i < |events| ==> !events[i].Enter?
  }

  function Deliveries(events: seq<Event>): nat {
    if events == [] then 0
    else Deliveries(events[..|events| - 1]) + if events[|events| - 1].Deliver? then 1 else 0
  }

  function Announces(events: seq<Event>): nat {
    if events == [] then 0
    else Announces(events[..|events| - 1]) + if events[|events| - 1].Announce? then 1 else 0
  }

  /** The entries that an announce calls for: each of the two nodes under its id at the other. */
  function Links(ids: Node -> PeerId, m: Message): set<(Node, PeerId)> {
    {(m.to, ids(m.from)), (m.from, ids(m.to))}
  }

  function Linked(ids: Node -> PeerId, events: seq<Event>): set<(Node, PeerId)> {
    if events == [] then {}
    else
      var last := events[|events| - 1];
      Linked(ids, events[..|events| - 1]) + if last.Announce? then Links(ids, last.m) else {}
  }

  // ---------------------------------------------------------------- what every run keeps

  /** Node `a` is one that `b` took for the peer `i`, and knows b or is about to. */
  ghost predicate Answered(ids: Node -> PeerId, net: Net, b: Node, i: PeerId, a: Node) {
    ids(a) == i && ((a, ids(b)) in net.Known() || Message(a, b) in net.inFlight)
  }

  /**
   Whoever learned of a peer is known to a node of that id, or its announce to that
   node is still in flight.
   */
  lemma {:induction false} KnowledgeIsMutual(ids: Node -> PeerId, events: seq<Event>)
    requires Possible(ids, events)
    ensures forall p :: p in Run(ids, events).learned ==> exists a :: Answered(ids, Run(ids, events), p.0, p.1, a)
  {
    if events != [] {
      var front, last := events[..|events| - 1], events[|events| - 1];
      KnowledgeIsMutual(ids, front);
      var before, net := Run(ids, front), Run(ids, events);
      forall p | p in net.learned ensures exists a :: Answered(ids, net, p.0, p.1, a) {
        if p in before.learned {
          var a :| Answered(ids, before, p.0, p.1, a);
          AnswerStays(ids, before, last, p.0, p.1, a);
        } else {
          assert Answered(ids, net, p.0, p.1, last.m.from);
        }
      }
    }
  }

  lemma AnswerStays(ids: Node -> PeerId, net: Net, e: Event, b: Node, i: PeerId, a: Node)
    requires Answered(ids, net, b, i, a)
    ensures Answered(ids, Step(ids, net, e), b, i, a)
  {
    if e == Deliver(Message(a, b)) {
      FreshIsUnknown(net, a, ids(b));
    }
  }

  /** Nothing is learned, or on its way, that no announce of the run has linked. */
  lemma {:induction false} KnowledgeIsLinked(ids: Node -> PeerId, events: seq<Event>)
    requires Possible(ids, events)
    ensures Run(ids, events).learned <= Linked(ids, events)
    ensures forall m :: m in Run(ids, events).inFlight ==> Links(ids, m) <= Linked(ids, events)
  {
    if events != [] {
      KnowledgeIsLinked(ids, events[..|events| - 1]);
      var last := events[|events| - 1];
      if last.Deliver? {
        assert Links(ids, Message(last.m.from, last.m.to)) == Links(ids, last.m);
      }
    }
  }

  /** The nodes of an announce: it is known to its target, or on its way there. */
  ghost predicate Carried(ids: Node -> PeerId, net: Net, m: Message) {
    (m.to, ids(m.from)) in net.Known() || m in net.inFlight
  }

  lemma CarriedStays(ids: Node -> PeerId, net: Net, e: Event, m: Message)
    requires Carried(ids, net, m)
    ensures Carried(ids, Step(ids, net, e), m)
  {
    if e == Deliver(m) {
      FreshIsUnknown(net, m.to, ids(m.from));
    }
  }

  lemma {:induction false} AnnouncesAreCarried(ids: Node -> PeerId, events: seq<Event>, m: Message)
    requires Announce(m) in events
    ensures Carried(ids, Run(ids, events), m)
  {
    var front, last := events[..|events| - 1], events[|events| - 1];
    if Announce(m) in front {
      AnnouncesAreCarried(ids, front, m);
      CarriedStays(ids, Run(ids, front), last, m);
    } else {
      assert events == front + [last];
    }
  }

  lemma {:induction false} LinkedByAnnounce(ids: Node -> PeerId, events: seq<Event>, p: (Node, PeerId))
    requires p in Linked(ids, events)
    ensures exists m :: Announce(m) in events && p in Links(ids, m)
  {
    var front, last := events[..|events| - 1], events[|events| - 1];
    assert events == front + [last];
    if p in Linked(ids, front) {
      LinkedByAnnounce(ids, front, p);
      var m :| Announce(m) in front && p in Links(ids, m);
      assert Announce(m) in events;
    } else {
      assert last == Announce(last.m) && last in events;
    }
  }

  /** Each delivery uses up one message, and one more is sent for each new piece of knowledge. */
  lemma {:induction false} MessagesAreCounted(ids: Node -> PeerId, events: seq<Event>)
    requires Possible(ids, events)
    ensures Deliveries(events) + |Run(ids, events).inFlight| == Announces(events) + |Run(ids, events).learned|
  {
    if events != [] {
      var front, last := events[..|events| - 1], events[|events| - 1];
      MessagesAreCounted(ids, front);
      if last.Deliver? {
        FreshIsUnknown(Run(ids, front), last.m.to, ids(last.m.from));
      }
    }
  }

  lemma {:induction false} LinksAreFew(ids: Node -> PeerId, events: seq<Event>)
    ensures |Linked(ids, events)| <= 2 * Announces(events)
  {
    if events != [] {
      var front, last := events[..|events| - 1], events[|events| - 1];
      LinksAreFew(ids, front);
      if last.Announce? {
        var a, b := (last.m.to, ids(last.m.from)), (last.m.from, ids(last.m.to));
        assert Linked(ids, events) == Linked(ids, front) + {a} + {b};
      }
    }
  }

  lemma SubsetSize<T>(a: set<T>, b: set<T>)
    requires a <= b
    ensures |a| <= |b|
  {
    assert b == a + (b - a);
  }

  /**
   The handshake ends, whatever the schedule, the names and the entries made by
   hand: at most three deliveries for each announce.
   */
  lemma HandshakeEnds(ids: Node -> PeerId, events: seq<Event>)
    requires Possible(ids, events)
    ensures Deliveries(events) <= Announces(events) + |Run(ids, events).learned|
    ensures Deliveries(events) <= 3 * Announces(events)
  {
    MessagesAreCounted(ids, events);
    KnowledgeIsLinked(ids, events);
    LinksAreFew(ids, events);
    SubsetSize(Run(ids, events).learned, Linked(ids, events));
  }

  // ---------------------------------------------------------------- once nothing is in flight

  predicate Knows(ids: Node -> PeerId, net: Net, b: Node, a: Node) {
    (b, ids(a)) in net.Known()
  }

  ghost predicate Symmetric(ids: Node -> PeerId, net: Net) {
    forall a, b :: Knows(ids, net, a, b) ==> Knows(ids, net, b, a)
  }

  ghost predicate DistinctIds(ids: Node -> PeerId) {
    forall a, b :: a != b ==> ids(a) != ids(b)
  }

  lemma {:induction false} NothingEntered(ids: Node -> PeerId, events: seq<Event>)
    requires NoEntries(events)
    ensures Run(ids, events).entered == {}
  {
    if events != [] {
      NothingEntered(ids, events[..|events| - 1]);
    }
  }

  /** Between nodes of distinct ids, what one learned of another is mutual once nothing is in flight. */
  lemma LearnedIsMutual(ids: Node -> PeerId, events: seq<Event>, b: Node, a: Node)
    requires Possible(ids, events) && Run(ids, events).inFlight == multiset{} && DistinctIds(ids)
    requires (b, ids(a)) in Run(ids, events).learned
    ensures Knows(ids, Run(ids, events), a, b)
  {
    hide Run, Possible;
    KnowledgeIsMutual(ids, events);
    var p := (b, ids(a));
    var x :| Answered(ids, Run(ids, events), p.0, p.1, x);
  }

  /**
   Once nothing is in flight, the registries are the same for every schedule: two
   nodes know each other, both ways, exactly when one of them announced itself to
   the other.
   */
  lemma QuietNetworkIsSymmetric(ids: Node -> PeerId, events: seq<Event>)
    requires Possible(ids, events) && Run(ids, events).inFlight == multiset{}
    requires DistinctIds(ids) && NoEntries(events)
    ensures Run(ids, events).Known() == Linked(ids, events)
    ensures Symmetric(ids, Run(ids, events))
  {
    hide Run, Possible, Linked, DistinctIds;
    NothingEntered(ids, events);
    KnowledgeIsLinked(ids, events);
    var net := Run(ids, events);
    forall p | p in Linked(ids, events) ensures p in net.Known() {
      LinkedByAnnounce(ids, events, p);
      var m :| Announce(m) in events && p in Links(ids, m);
      AnnouncesAreCarried(ids, events, m);
      LearnedIsMutual(ids, events, m.to, m.from);
    }
    forall a: Node, b: Node | Knows(ids, net, a, b) ensures Knows(ids, net, b, a) {
      LearnedIsMutual(ids, events, a, b);
    }
  }

  predicate Enters(ids: Node -> PeerId, e: Event, b: Node, i: PeerId) {
    e.Enter? && e.node == b && ids(e.peer) == i
  }

  predicate Tells(ids: Node -> PeerId, e: Event, b: Node, i: PeerId) {
    Enters(ids, e, b, i) || (e.Deliver? && e.m.to == b && ids(e.m.from) == i)
  }

  ghost predicate Told(ids: Node -> PeerId, events: seq<Event>, b: Node, i: PeerId) {
    exists k :: 0 <= k < |events| && Tells(ids, events[k], b, i)
  }

  ghost predicate Entered(ids: Node -> PeerId, events: seq<Event>, b: Node, i: PeerId) {
    exists k :: 0 <= k < |events| && Enters(ids, events[k], b, i)
  }

  /** The first event of the run that tells b of the peer i is an entry by hand. */
  ghost predicate EnteredFirst(ids: Node -> PeerId, events: seq<Event>, b: Node, i: PeerId) {
    exists k :: 0 <= k < |events| && Enters(ids, events[k], b, i)
                && forall j :: 0 <= j < k ==> !Tells(ids, events[j], b, i)
  }

  lemma ToldSoFar(ids: Node -> PeerId, events: seq<Event>, b: Node, i: PeerId)
    requires events != []
    ensures var front, last := events[..|events| - 1], events[|events| - 1];
            && (Told(ids, events, b, i) <==> Told(ids, front, b, i) || Tells(ids, last, b, i))
            && (Entered(ids, events, b, i) <==> Entered(ids, front, b, i) || Enters(ids, last, b, i))
            && (EnteredFirst(ids, events, b, i)
                <==> EnteredFirst(ids, front, b, i) || (!Told(ids, front, b, i) && Enters(ids, last, b, i)))
  {
    hide Tells, Enters;
    var front, n := events[..|events| - 1], |events| - 1;
    assert forall k :: 0 <= k < n ==> front[k] == events[k];
    if k :| 0 <= k < n && Tells(ids, front[k], b, i) {
      assert Tells(ids, events[k], b, i);
    }
    if k :| 0 <= k < n && Enters(ids, front[k], b, i) {
      assert Enters(ids, events[k], b, i);
    }
    if k :| 0 <= k < n && Enters(ids, front[k], b, i) && forall j :: 0 <= j < k ==> !Tells(ids, front[j], b, i) {
      assert Enters(ids, events[k], b, i);
    }
    if !Told(ids, front, b, i) && Enters(ids, events[n], b, i) {
      assert forall j :: 0 <= j < n ==> !Tells(ids, front[j], b, i);
    }
  }

  /** How each entry of a registry came about. */
  lemma {:induction false} EntriesTellTheirOrigin(ids: Node -> PeerId, events: seq<Event>, b: Node, i: PeerId)
    ensures var net := Run(ids, events);
            && ((b, i) in net.Known() <==> Told(ids, events, b, i))
            && ((b, i) in net.entered <==> Entered(ids, events, b, i))
            && ((b, i) in net.entered && (b, i) !in net.learned <==> EnteredFirst(ids, events, b, i))
  {
    if events != [] {
      var front, last := events[..|events| - 1], events[|events| - 1];
      EntriesTellTheirOrigin(ids, front, b, i);
      ToldSoFar(ids, events, b, i);
      if last.Deliver? {
        FreshIsUnknown(Run(ids, front), last.m.to, ids(last.m.from));
      }
    }
  }

  /** A message was announced, or it answers an entry that its sender learned. */
  ghost predicate Prompted(ids: Node -> PeerId, events: seq<Event>, m: Message) {
    Announce(m) in events || (m.from, ids(m.to)) in Run(ids, events).learned
  }

  ghost predicate LearnedBy(ids: Node -> PeerId, events: seq<Event>, b: Node, i: PeerId, a: Node) {
    ids(a) == i && Prompted(ids, events, Message(b, a))
  }

  lemma PromptedStays(ids: Node -> PeerId, events: seq<Event>, m: Message)
    requires events != [] && Prompted(ids, events[..|events| - 1], m)
    ensures Prompted(ids, events, m)
  {
    assert events == events[..|events| - 1] + [events[|events| - 1]];
  }

  /** No message comes from nowhere: each one in flight was prompted, and so was the one behind each learned entry. */
  lemma {:induction false} MessagesArePrompted(ids: Node -> PeerId, events: seq<Event>)
    requires Possible(ids, events)
    ensures forall m :: m in Run(ids, events).inFlight ==> Prompted(ids, events, m)
    ensures forall p :: p in Run(ids, events).learned ==> exists a :: LearnedBy(ids, events, p.0, p.1, a)
  {
    if events != [] {
      var front, last := events[..|events| - 1], events[|events| - 1];
      MessagesArePrompted(ids, front);
      assert events == front + [last];
      forall m | m in Run(ids, events).inFlight ensures Prompted(ids, events, m) {
        if m in Run(ids, front).inFlight {
          PromptedStays(ids, events, m);
        }
      }
      forall p | p in Run(ids, events).learned ensures exists a :: LearnedBy(ids, events, p.0, p.1, a) {
        if p in Run(ids, front).learned {
          var a :| LearnedBy(ids, front, p.0, p.1, a);
          PromptedStays(ids, events, Message(p.0, a));
          assert LearnedBy(ids, events, p.0, p.1, a);
        } else {
          PromptedStays(ids, events, last.m);
          assert last.m == Message(p.0, last.m.from);
          assert LearnedBy(ids, events, p.0, p.1, last.m.from);
        }
      }
    }
  }

  /**
   Entries made by hand can stop an announce back, as they make a peer known. The
   quiet network is symmetric exactly when for each peer that a node got by hand,
   before any message of it, the entry was made on the other side too or the node
   announced itself there.
   */
  lemma EntriesSymmetricIff(ids: Node -> PeerId, events: seq<Event>)
    requires Possible(ids, events) && Run(ids, events).inFlight == multiset{} && DistinctIds(ids)
    ensures Symmetric(ids, Run(ids, events))
            <==> forall a, b :: EnteredFirst(ids, events, a, ids(b)) ==>
                   Entered(ids, events, b, ids(a)) || Announce(Message(b, a)) in events
  {
    hide Run, Possible, Entered, EnteredFirst, Told;
    var net := Run(ids, events);
    forall a: Node, b: Node | EnteredFirst(ids, events, a, ids(b))
      ensures Knows(ids, net, b, a) <==> Entered(ids, events, b, ids(a)) || Announce(Message(b, a)) in events
      ensures Knows(ids, net, a, b)
    {
      EntriesTellTheirOrigin(ids, events, a, ids(b));
      EnteredIsMutualIff(ids, events, a, b);
    }
    forall a: Node, b: Node | Knows(ids, net, a, b) && !EnteredFirst(ids, events, a, ids(b))
      ensures Knows(ids, net, b, a)
    {
      EntriesTellTheirOrigin(ids, events, a, ids(b));
      LearnedIsMutual(ids, events, a, b);
    }
  }

  /** Of a node it got by hand, another learns only by its own announce or by hand. */
  lemma EnteredIsMutualIff(ids: Node -> PeerId, events: seq<Event>, a: Node, b: Node)
    requires Possible(ids, events) && Run(ids, events).inFlight == multiset{} && DistinctIds(ids)
    requires EnteredFirst(ids, events, a, ids(b))
    ensures Knows(ids, Run(ids, events), b, a)
            <==> Entered(ids, events, b, ids(a)) || Announce(Message(b, a)) in events
  {
    hide Run, Possible, Entered, EnteredFirst, Told;
    var net, p := Run(ids, events), (b, ids(a));
    EntriesTellTheirOrigin(ids, events, a, ids(b));
    EntriesTellTheirOrigin(ids, events, b, ids(a));
    if p in net.learned {
      MessagesArePrompted(ids, events);
      var x :| LearnedBy(ids, events, p.0, p.1, x);
      assert x == a;
    }
    if Announce(Message(b, a)) in events {
      AnnouncesAreCarried(ids, events, Message(b, a));
    }
  }

  /** One more event of a run. */
  lemma OneMore(ids: Node -> PeerId, events: seq<Event>, e: Event)
    ensures Run(ids, events + [e]) == Step(ids, Run(ids, events), e)
    ensures Possible(ids, events + [e])
            <==> Possible(ids, events) && (e.Deliver? ==> e.m in Run(ids, events).inFlight)
  {
    assert (events + [e])[..|events|] == events;
  }

  /** One announce, and the deliveries that it leads to between two nodes that do not know each other. */
  function Handshake(a: Node, b: Node): seq<Event> {
    [Announce(Message(b, a)), Deliver(Message(b, a)), Deliver(Message(a, b)), Deliver(Message(b, a))]
  }

  lemma HandshakeCompletes(ids: Node -> PeerId, a: Node, b: Node)
    requires a != b
    ensures Possible(ids, Handshake(a, b))
    ensures Run(ids, Handshake(a, b)) == Net({}, {(b, ids(a)), (a, ids(b))}, multiset{})
  {
    hide Run, Possible;
    var hello, back := Message(b, a), Message(a, b);
    var e1, e2 := [Announce(hello)], [Announce(hello), Deliver(hello)];
    var e3 := [Announce(hello), Deliver(hello), Deliver(back)];
    EmptyRun(ids);
    OneMore(ids, [], Announce(hello));
    assert [] + [Announce(hello)] == e1;
    assert Run(ids, e1) == Net({}, {}, multiset{hello});
    OneMore(ids, e1, Deliver(hello));
    assert e1 + [Deliver(hello)] == e2;
    FreshIsUnknown(Run(ids, e1), b, ids(a));
    assert Run(ids, e2) == Net({}, {(b, ids(a))}, multiset{back});
    OneMore(ids, e2, Deliver(back));
    assert e2 + [Deliver(back)] == e3;
    FreshIsUnknown(Run(ids, e2), a, ids(b));
    assert Run(ids, e3) == Net({}, {(b, ids(a)), (a, ids(b))}, multiset{hello});
    OneMore(ids, e3, Deliver(hello));
    assert e3 + [Deliver(hello)] == Handshake(a, b);
    FreshIsUnknown(Run(ids, e3), b, ids(a));
  }

  /** Two nodes of one id: the second to announce itself to a third is never announced back to. */
  lemma NamesakeIsNotAnswered(ids: Node -> PeerId, a: Node, namesake: Node)
    requires a != namesake && ids(a) == ids(namesake)
    ensures exists events ::
              && Possible(ids, events) && NoEntries(events) && Run(ids, events).inFlight == multiset{}
              && !Symmetric(ids, Run(ids, events))
  {
    hide Run, Possible;
    var b := a + namesake + 1;
    var again := Message(b, namesake);
    var first := Handshake(a, b);
    var second := first + [Announce(again)];
    var third := second + [Deliver(again)];
    HandshakeCompletes(ids, a, b);
    OneMore(ids, first, Announce(again));
    OneMore(ids, second, Deliver(again));
    FreshIsUnknown(Run(ids, second), b, ids(namesake));
    var net := Run(ids, third);
    assert net == Net({}, {(b, ids(a)), (a, ids(b))}, multiset{});
    assert Knows(ids, net, b, namesake) && !Knows(ids, net, namesake, b);
    assert NoEntries(third) && Possible(ids, third);
  }

  lemma EmptyRun(ids: Node -> PeerId)
    ensures Run(ids, []) == Net({}, {}, multiset{}) && Possible(ids, [])
  {
  }

  /** A node entered by hand announces itself in vain: it is known already, and never announced back to. */
  lemma EntryStopsAnswer(ids: Node -> PeerId, a: Node, b: Node)
    requires a != b
    ensures var events := [Enter(a, b), Announce(Message(a, b)), Deliver(Message(a, b))];
            && Possible(ids, events) && Run(ids, events).inFlight == multiset{}
            && Knows(ids, Run(ids, events), a, b) && !Knows(ids, Run(ids, events), b, a)
  {
    hide Run, Possible;
    var hello := Message(a, b);
    EmptyRun(ids);
    OneMore(ids, [], Enter(a, b));
    assert [] + [Enter(a, b)] == [Enter(a, b)];
    OneMore(ids, [Enter(a, b)], Announce(hello));
    assert [Enter(a, b)] + [Announce(hello)] == [Enter(a, b), Announce(hello)];
    OneMore(ids, [Enter(a, b), Announce(hello)], Deliver(hello));
    assert [Enter(a, b), Announce(hello)] + [Deliver(hello)] == [Enter(a, b), Announce(hello), Deliver(hello)];
    FreshIsUnknown(Run(ids, [Enter(a, b), Announce(hello)]), a, ids(b));
  }

  /**
   Mutual discovery needs distinct names, and nothing else: every quiet run of
   messages leaves symmetric registries exactly when no two nodes share an id.
   */
  lemma SymmetricIffDistinctIds(ids: Node -> PeerId)
    ensures (forall events :: Possible(ids, events) && NoEntries(events) && Run(ids, events).inFlight == multiset{}
                              ==> Symmetric(ids, Run(ids, events)))
            <==> DistinctIds(ids)
  {
    hide Run, Possible, Symmetric;
    if DistinctIds(ids) {
      forall events | Possible(ids, events) && NoEntries(events) && Run(ids, events).inFlight == multiset{}
        ensures Symmetric(ids, Run(ids, events))
      {
        QuietNetworkIsSymmetric(ids, events);
      }
    } else {
      var a, b :| a != b && ids(a) == ids(b);
      NamesakeIsNotAnswered(ids, a, b);
    }
  }
}
