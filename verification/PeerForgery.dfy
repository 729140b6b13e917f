/** Nodes among messages from anybody: what travels can be replaced by anything at any time. */
module PeerForgery {
  import opened Options
  import opened Ledger
  import opened LedgerProperties
  import opened PeerSync
  import opened PeerNetwork

  /** An event of the network, or somebody putting other messages in place of those on their way. */
  datatype OpenEvent =
    | Regular(event: Event)
    | ToServerForged(session: Session, messages: seq<Message>)
    | ToClientForged(session: Session, messages: seq<Message>)

  ghost predicate OpenNext(c: Config, net: Network, e: OpenEvent, next: Network) {
    match e
    case Regular(event) => Next(c, net, event, next)
    case ToServerForged(s, messages) => next == net.(toServer := net.toServer[s := messages])
    case ToClientForged(s, messages) => next == net.(toClient := net.toClient[s := messages])
  }

  ghost predicate OpenRun(c: Config, nets: seq<Network>, events: seq<OpenEvent>) {
    && |nets| == |events| + 1
    && forall i :: 0 <= i < |events| ==> OpenNext(c, nets[i], events[i], nets[i + 1])
  }

  /** Every node stands by a chain with a genesis block whose further blocks carry their own hash and name the hash of the
      block before. */
  predicate ValidNodes(c: Config, net: Network) {
    forall n :: n in net.nodes ==> net.nodes[n].chain != [] && IsValid(c.format, net.nodes[n].chain)
  }

  /** Whatever ledger is received: the chain stood by afterwards is valid if it was before, an invalid one received
      changes nothing, and neither does one that is not longer. */
  lemma OnlyValidChainsAreAdopted(f: Format, local: Ledger, received: Ledger)
    ensures IsValid(f, local.chain) ==> IsValid(f, Adopt(f, local, received).chain)
    ensures !IsValid(f, received.chain) || |received.chain| <= |local.chain| ==> Adopt(f, local, received) == local
    ensures IsValid(f, received.chain) && |received.chain| > |local.chain| ==>
      Adopt(f, local, received) == Ledger(received.chain, received.pending + local.pending)
  {
  }

  lemma OnTextKeepsValid(c: Config, local: Ledger, message: Message)
    requires local.chain != [] && IsValid(c.format, local.chain)
    ensures var after := OnText(c.format, local, message);
      after.chain != [] && IsValid(c.format, after.chain) && |local.chain| <= |after.chain|
  {
    if message.Chain? { OnlyValidChainsAreAdopted(c.format, local, message.ledger); }
  }

  /** A mined block goes behind a valid chain whatever else that chain looks like. */
  lemma StepKeepsValid(c: Config, l: Ledger, op: Op, n: Ledger)
    requires l.chain != [] && IsValid(c.format, l.chain) && Step(c, l, op, n)
    ensures n.chain != [] && IsValid(c.format, n.chain) && |l.chain| <= |n.chain|
  {
    if op.MineNext? {
      var last := |l.chain|;
      MinedIsSound(c.format, c.difficulty, NextBlock(l, n.chain[last].time), n.chain[last]);
      forall i | 1 <= i < |n.chain| ensures Linked(c.format, n.chain, i) {
        assert n.chain[i - 1] == l.chain[i - 1];
        if i < last { assert n.chain[i] == l.chain[i] && Linked(c.format, l.chain, i); }
      }
    }
  }

  lemma OpenStepKeepsValid(c: Config, net: Network, e: OpenEvent, next: Network)
    requires ValidNodes(c, net) && OpenNext(c, net, e, next)
    ensures ValidNodes(c, next) && NeverShorter(net, next)
  {
    match e
    case Regular(event) => RegularKeepsValid(c, net, event, next);
    case ToServerForged(_, _) =>
    case ToClientForged(_, _) =>
  }

  lemma RegularKeepsValid(c: Config, net: Network, e: Event, next: Network)
    requires ValidNodes(c, net) && Next(c, net, e, next)
    ensures ValidNodes(c, next) && NeverShorter(net, next)
  {
    match e
    case Local(n, op) => StepKeepsValid(c, net.nodes[n], op, next.nodes[n]);
    case Broadcast(_) =>
    case Connect(_) =>
    case ServerReceives(s) => OnTextKeepsValid(c, net.nodes[s.server], net.toServer[s][0]);
    case ClientReceives(s) => OnTextKeepsValid(c, net.nodes[s.client], net.toClient[s][0]);
  }

  /** Whatever is forged: in every run from initialised nodes on every node's chain stays valid and never gets shorter. */
  lemma {:induction false} EveryChainStaysValid(c: Config, nets: seq<Network>, events: seq<OpenEvent>, i: nat)
    requires OpenRun(c, nets, events) && Start(c, nets[0]) && i < |nets|
    ensures ValidNodes(c, nets[i]) && (i > 0 ==> NeverShorter(nets[i - 1], nets[i]))
  {
    if i == 0 {
      StartIsSound(c, nets[0]);
      forall n | n in nets[0].nodes ensures nets[0].nodes[n].chain != [] && IsValid(c.format, nets[0].nodes[n].chain) {
        assert Sound(c, nets[0].nodes[n].chain);
      }
    } else {
      EveryChainStaysValid(c, nets, events, i - 1);
      assert OpenNext(c, nets[i - 1], events[i - 1], nets[i - 1 + 1]);
      OpenStepKeepsValid(c, nets[i - 1], events[i - 1], nets[i]);
    }
  }
}
