/** How exchanging chains breaks the supply law: a reward that is pending when a chain is adopted can be mined twice. */
module PeerRewards {
  import opened Options
  import opened Ledger
  import opened LedgerProperties
  import opened PeerSync
  import opened PeerNetwork

  /** The server mines, the client connects and adopts the server's chain, its pending reward included, mines and
      broadcasts; the server adopts that chain, its own reward still pending, and mines again. */
  function Exchange(s: Session, a: Address, b: Address): seq<Event> {
    Meeting(s, a) + [Local(s.client, MineNext(b)), Broadcast(s.client), ServerReceives(s), Local(s.server, MineNext(a))]
  }

  function Meeting(s: Session, a: Address): seq<Event> {
    [Local(s.server, MineNext(a))] + Handshake(s)
  }

  function Handshake(s: Session): seq<Event> {
    [Connect(s), ServerReceives(s), ServerReceives(s), ClientReceives(s), ClientReceives(s)]
  }

  function Reward(c: Config, miner: Address): Transaction {
    Transaction(None, miner, c.reward)
  }

  lemma InitialLedger(c: Config, l: Ledger)
    requires Initialized(c, [], l)
    ensures |l.chain| == 1 && l.chain[0].transactions == [] && l.pending == []
  {
    MinedIsSound(c.format, c.difficulty, Block(0, l.chain[0].time, None, None, [], 0), l.chain[0]);
  }

  /** Mining records the pending transactions in one more block. */
  lemma MiningRecords(c: Config, l: Ledger, miner: Address, n: Ledger)
    requires Step(c, l, MineNext(miner), n)
    ensures |n.chain| == |l.chain| + 1 && n.pending == [Reward(c, miner)]
    ensures forall x :: Balance(n.chain, x) == Balance(l.chain, x) + Net(l.pending, x)
  {
    MinedIsSound(c.format, c.difficulty, NextBlock(l, n.chain[|l.chain|].time), n.chain[|l.chain|]);
    forall x ensures Balance(n.chain, x) == Balance(l.chain, x) + Net(l.pending, x) {
      BalanceExtends(l.chain, n.chain, x);
    }
  }

  /** A broadcast over a quiet session reaches the server as the client's ledger. */
  lemma BroadcastAdopts(c: Config, n0: Network, n1: Network, n2: Network, s: Session)
    requires Quiet(n0, s) && s.client in n0.nodes && s.server in n0.nodes
    requires Next(c, n0, Broadcast(s.client), n1) && Next(c, n1, ServerReceives(s), n2)
    ensures n2.nodes == n0.nodes[s.server := Adopt(c.format, n0.nodes[s.server], n0.nodes[s.client])]
  {
    assert n1.toServer[s] == [Chain(n0.nodes[s.client])];
  }

  lemma MeetingSteps(c: Config, nets: seq<Network>, s: Session, a: Address)
    requires |nets| == 7 && PeerNetwork.Run(c, nets, Meeting(s, a))
    ensures Next(c, nets[0], Local(s.server, MineNext(a)), nets[1]) && Next(c, nets[1], Connect(s), nets[2])
    ensures Next(c, nets[2], ServerReceives(s), nets[3]) && Next(c, nets[3], ServerReceives(s), nets[4])
    ensures Next(c, nets[4], ClientReceives(s), nets[5]) && Next(c, nets[5], ClientReceives(s), nets[6])
  {
    var events := Meeting(s, a);
    assert Next(c, nets[0], events[0], nets[0 + 1]) && Next(c, nets[1], events[1], nets[1 + 1]);
    assert Next(c, nets[2], events[2], nets[2 + 1]) && Next(c, nets[3], events[3], nets[3 + 1]);
    assert Next(c, nets[4], events[4], nets[4 + 1]) && Next(c, nets[5], events[5], nets[5 + 1]);
  }

  /** A connection with nothing in between. */
  lemma HandshakeOf(c: Config, n0: Network, n1: Network, n2: Network, n3: Network, n4: Network, n5: Network, s: Session)
    requires SoundNetwork(c, n0) && s.client != s.server && s !in n0.synched && Next(c, n0, Connect(s), n1)
    requires Next(c, n1, ServerReceives(s), n2) && Next(c, n2, ServerReceives(s), n3)
    requires Next(c, n3, ClientReceives(s), n4) && Next(c, n4, ClientReceives(s), n5)
    ensures Quiet(n5, s) && s.client in n0.nodes && s.server in n0.nodes && s.client in n5.nodes && s.server in n5.nodes
    ensures Agree(n0.nodes[s.client], n0.nodes[s.server], n5.nodes[s.client], n5.nodes[s.server])
  {
    HandshakeAgrees(c, n0, s);
  }

  /** The server mines from its first block, and the client has its first block only. */
  lemma FirstMining(c: Config, net: Network, next: Network, s: Session, a: Address)
    requires s.client != s.server && Start(c, net) && Next(c, net, Local(s.server, MineNext(a)), next)
    requires s.client in next.nodes
    ensures s !in next.synched && next.nodes[s.client].pending == [] && |next.nodes[s.client].chain| == 1
    ensures var l := next.nodes[s.server];
      |l.chain| == 2 && l.pending == [Reward(c, a)] && forall x :: Balance(l.chain, x) == 0
  {
    var l := net.nodes[s.server];
    InitialLedger(c, l);
    InitialLedger(c, net.nodes[s.client]);
    MiningRecords(c, l, a, next.nodes[s.server]);
    forall x ensures Balance(l.chain, x) == 0 { BalanceExtends([], l.chain, x); }
  }

  /** The first six events: both stand by the server's two blocks, and both have its reward pending. */
  lemma AfterMeeting(c: Config, nets: seq<Network>, s: Session, a: Address)
    requires s.client != s.server && |nets| == 7 && PeerNetwork.Run(c, nets, Meeting(s, a)) && Start(c, nets[0])
    ensures Quiet(nets[6], s) && s.client in nets[6].nodes && s.server in nets[6].nodes && SoundNetwork(c, nets[6])
    ensures var l := nets[6].nodes[s.server];
      nets[6].nodes[s.client] == l && |l.chain| == 2 && l.pending == [Reward(c, a)] && forall x :: Balance(l.chain, x) == 0
  {
    MeetingSteps(c, nets, s, a);
    EveryNodeStaysSound(c, nets, Meeting(s, a), 1);
    EveryNodeStaysSound(c, nets, Meeting(s, a), 6);
    FirstMining(c, nets[0], nets[1], s, a);
    HandshakeOf(c, nets[1], nets[2], nets[3], nets[4], nets[5], nets[6], s);
    assert [Reward(c, a)] + [] == [Reward(c, a)];
  }

  lemma NetOfOne(t: Transaction, x: Address)
    ensures Net([t], x) == Delta(t, x)
  {
    NetAppend([], t, x);
    assert [] + [t] == [t];
  }

  lemma NetOfTwo(t: Transaction, u: Transaction, x: Address)
    ensures Net([t] + [u], x) == Delta(t, x) + Delta(u, x)
  {
    NetOfOne(t, x);
    NetAppend([t], u, x);
  }

  /** The last four events, from two equal ledgers with the server's reward pending. */
  lemma AfterMeetingAgain(c: Config, n0: Network, n1: Network, n2: Network, n3: Network, n4: Network, s: Session,
                          a: Address, b: Address)
    requires s.client != s.server && Quiet(n0, s) && s.client in n0.nodes && s.server in n0.nodes && SoundNetwork(c, n0)
    requires n0.nodes[s.client] == n0.nodes[s.server] && n0.nodes[s.server].pending == [Reward(c, a)]
    requires Next(c, n0, Local(s.client, MineNext(b)), n1) && Next(c, n1, Broadcast(s.client), n2)
    requires Next(c, n2, ServerReceives(s), n3) && Next(c, n3, Local(s.server, MineNext(a)), n4)
    ensures s.server in n4.nodes && |n4.nodes[s.server].chain| == |n0.nodes[s.server].chain| + 2
    ensures var before, after := n0.nodes[s.server].chain, n4.nodes[s.server].chain;
      forall x :: Balance(after, x) == Balance(before, x) + 2 * Delta(Reward(c, a), x) + Delta(Reward(c, b), x)
  {
    MiningRecords(c, n0.nodes[s.client], b, n1.nodes[s.client]);
    KeepsNetwork(c, n0, Local(s.client, MineNext(b)), n1);
    BroadcastAdopts(c, n1, n2, n3, s);
    assert n3.nodes[s.server] == Ledger(n1.nodes[s.client].chain, [Reward(c, b)] + [Reward(c, a)]);
    MiningRecords(c, n3.nodes[s.server], a, n4.nodes[s.server]);
    forall x
      ensures Net([Reward(c, a)], x) == Delta(Reward(c, a), x)
      ensures Net([Reward(c, b)] + [Reward(c, a)], x) == Delta(Reward(c, b), x) + Delta(Reward(c, a), x)
    {
      NetOfOne(Reward(c, a), x);
      NetOfTwo(Reward(c, b), Reward(c, a), x);
    }
  }

  lemma LastFour(c: Config, nets: seq<Network>, s: Session, a: Address, b: Address)
    requires PeerNetwork.Run(c, nets, Exchange(s, a, b))
    ensures |nets| == 11
    ensures Next(c, nets[6], Local(s.client, MineNext(b)), nets[7]) && Next(c, nets[7], Broadcast(s.client), nets[8])
    ensures Next(c, nets[8], ServerReceives(s), nets[9]) && Next(c, nets[9], Local(s.server, MineNext(a)), nets[10])
  {
    var events := Exchange(s, a, b);
    assert Next(c, nets[6], events[6], nets[6 + 1]) && Next(c, nets[7], events[7], nets[7 + 1]);
    assert Next(c, nets[8], events[8], nets[8 + 1]) && Next(c, nets[9], events[9], nets[9 + 1]);
  }

  /** In every run of these ten events: three minings, four blocks, and three rewards on the chain, where one
      ledger by itself would have recorded two. */
  lemma RewardPaidTwice(c: Config, nets: seq<Network>, s: Session, a: Address, b: Address)
    requires s.client != s.server && a != b && a != None && b != None
    requires PeerNetwork.Run(c, nets, Exchange(s, a, b)) && Start(c, nets[0])
    ensures s.server in nets[10].nodes
    ensures var l := nets[10].nodes[s.server];
      |l.chain| == 4 && Balance(l.chain, a) == 2 * c.reward && Balance(l.chain, b) == c.reward
      && Balance(l.chain, None) == -3 * c.reward
  {
    var events := Exchange(s, a, b);
    assert events[0..6] == Meeting(s, a);
    RunBetween(c, nets, events, 0, 6);
    AfterMeeting(c, nets[0..7], s, a);
    LastFour(c, nets, s, a, b);
    AfterMeetingAgain(c, nets[6], nets[7], nets[8], nets[9], nets[10], s, a, b);
  }

  // ----- such runs exist -----

  /** With no zeros to find, the first nonce tried is good. */
  function MinedAtOnce(c: Config, b: Block): Block {
    var next := b.(nonce := b.nonce + 1);
    next.(hash := Some(Hash(c.format, next)))
  }

  function MineAtOnce(c: Config, l: Ledger, miner: Address): Ledger
    requires l.chain != []
  {
    Ledger(l.chain + [MinedAtOnce(c, NextBlock(l, 0))], [Reward(c, miner)])
  }

  lemma MineAtOnceIsAStep(c: Config, l: Ledger, miner: Address)
    requires c.difficulty == 0 && l.chain != []
    ensures Step(c, l, MineNext(miner), MineAtOnce(c, l, miner))
  {
  }

  function FirstLedger(c: Config): Ledger {
    Ledger([MinedAtOnce(c, Block(0, 0, None, None, [], 0))], [])
  }

  function TwoNodes(c: Config, s: Session): Network {
    Network(map[s.client := FirstLedger(c), s.server := FirstLedger(c)], map[], map[], {})
  }

  function AfterMining(c: Config, net: Network, n: NodeId, miner: Address): Network
    requires n in net.nodes && net.nodes[n].chain != []
  {
    net.(nodes := net.nodes[n := MineAtOnce(c, net.nodes[n], miner)])
  }

  lemma MiningHappens(c: Config, net: Network, n: NodeId, miner: Address)
    requires c.difficulty == 0 && SoundNetwork(c, net) && n in net.nodes
    ensures var next := AfterMining(c, net, n, miner); Next(c, net, Local(n, MineNext(miner)), next) && SoundNetwork(c, next)
  {
    MineAtOnceIsAStep(c, net.nodes[n], miner);
    KeepsNetwork(c, net, Local(n, MineNext(miner)), AfterMining(c, net, n, miner));
  }

  lemma TwoNodesStart(c: Config, s: Session)
    requires c.difficulty == 0
    ensures Start(c, TwoNodes(c, s)) && SoundNetwork(c, TwoNodes(c, s))
  {
    var b := Block(0, 0, None, None, [], 0);
    assert Mined(c.format, 0, b, MinedAtOnce(c, b));
    StartIsSound(c, TwoNodes(c, s));
  }

  lemma HandshakeHappens(c: Config, net: Network, s: Session) returns (nets: seq<Network>)
    requires SoundNetwork(c, net) && s.client in net.nodes && s.server in net.nodes
    requires s.client != s.server && s !in net.toServer && s !in net.synched
    ensures |nets| == 6 && nets[0] == net && PeerNetwork.Run(c, nets, Handshake(s))
  {
    HandshakeAgrees(c, net, s);
    var n1 := AfterConnect(net, s);
    var n2 := AfterServer(c, n1, s);
    var n3 := AfterServer(c, n2, s);
    var n4 := AfterClient(c, n3, s);
    nets := [net, n1, n2, n3, n4, AfterClient(c, n4, s)];
    FiveSteps(c, nets, Handshake(s));
  }

  lemma FiveSteps(c: Config, nets: seq<Network>, events: seq<Event>)
    requires |nets| == 6 && |events| == 5
    requires Next(c, nets[0], events[0], nets[1]) && Next(c, nets[1], events[1], nets[2])
    requires Next(c, nets[2], events[2], nets[3]) && Next(c, nets[3], events[3], nets[4])
    requires Next(c, nets[4], events[4], nets[5])
    ensures PeerNetwork.Run(c, nets, events)
  {
    forall i | 0 <= i < 5 ensures Next(c, nets[i], events[i], nets[i + 1]) {
      assert i == 0 || i == 1 || i == 2 || i == 3 || i == 4;
    }
  }

  lemma RunOneFirst(c: Config, net: Network, e: Event, nets: seq<Network>, events: seq<Event>)
    requires PeerNetwork.Run(c, nets, events) && Next(c, net, e, nets[0])
    ensures PeerNetwork.Run(c, [net] + nets, [e] + events)
  {
    forall i | 0 <= i < |[e] + events| ensures Next(c, ([net] + nets)[i], ([e] + events)[i], ([net] + nets)[i + 1]) {
      if i > 0 { assert Next(c, nets[i - 1], events[i - 1], nets[i - 1 + 1]); }
    }
  }

  lemma FirstMiningHappens(c: Config, s: Session, a: Address) returns (n0: Network, n1: Network)
    requires c.difficulty == 0
    ensures Start(c, n0) && Next(c, n0, Local(s.server, MineNext(a)), n1) && SoundNetwork(c, n1)
    ensures s.client in n1.nodes && s.server in n1.nodes && s !in n1.toServer && s !in n1.synched
  {
    n0 := TwoNodes(c, s);
    TwoNodesStart(c, s);
    MiningHappens(c, n0, s.server, a);
    n1 := AfterMining(c, n0, s.server, a);
  }

  lemma MeetingHappens(c: Config, s: Session, a: Address) returns (nets: seq<Network>)
    requires c.difficulty == 0 && s.client != s.server
    ensures |nets| == 7 && PeerNetwork.Run(c, nets, Meeting(s, a)) && Start(c, nets[0])
  {
    var n0, n1 := FirstMiningHappens(c, s, a);
    var met := HandshakeHappens(c, n1, s);
    RunOneFirst(c, n0, Local(s.server, MineNext(a)), met, Handshake(s));
    nets := [n0] + met;
  }

  lemma RunOneMore(c: Config, nets: seq<Network>, events: seq<Event>, e: Event, next: Network)
    requires PeerNetwork.Run(c, nets, events) && Next(c, nets[|events|], e, next)
    ensures PeerNetwork.Run(c, nets + [next], events + [e])
  {
    forall i | 0 <= i < |events + [e]| ensures Next(c, (nets + [next])[i], (events + [e])[i], (nets + [next])[i + 1]) {
      if i < |events| { assert Next(c, nets[i], events[i], nets[i + 1]); }
    }
  }

  /** Between any two nodes, for any two miners: with no zeros to find there is such a run. */
  lemma ExchangeHappens(c: Config, s: Session, a: Address, b: Address) returns (nets: seq<Network>)
    requires c.difficulty == 0 && s.client != s.server
    ensures PeerNetwork.Run(c, nets, Exchange(s, a, b)) && Start(c, nets[0])
  {
    var met := MeetingHappens(c, s, a);
    AfterMeeting(c, met, s, a);
    var n6 := met[6];
    MiningHappens(c, n6, s.client, b);
    var n7 := AfterMining(c, n6, s.client, b);
    var n8 := AfterBroadcast(n7, s.client);
    KeepsNetwork(c, n7, Broadcast(s.client), n8);
    var n9 := AfterServer(c, n8, s);
    KeepsNetwork(c, n8, ServerReceives(s), n9);
    MiningHappens(c, n9, s.server, a);
    var n10 := AfterMining(c, n9, s.server, a);
    RunOneMore(c, met, Meeting(s, a), Local(s.client, MineNext(b)), n7);
    RunOneMore(c, met + [n7], Meeting(s, a) + [Local(s.client, MineNext(b))], Broadcast(s.client), n8);
    RunOneMore(c, met + [n7] + [n8], Meeting(s, a) + [Local(s.client, MineNext(b))] + [Broadcast(s.client)],
               ServerReceives(s), n9);
    RunOneMore(c, met + [n7] + [n8] + [n9],
               Meeting(s, a) + [Local(s.client, MineNext(b))] + [Broadcast(s.client)] + [ServerReceives(s)],
               Local(s.server, MineNext(a)), n10);
    nets := met + [n7] + [n8] + [n9] + [n10];
    assert Exchange(s, a, b) == Meeting(s, a) + [Local(s.client, MineNext(b))] + [Broadcast(s.client)]
      + [ServerReceives(s)] + [Local(s.server, MineNext(a))];
  }
}
