/** Any number of nodes that mine, connect, broadcast and receive in any order: what every run keeps,
    what a handshake achieves, and what an adoption forgets. */
module PeerNetwork {
  import opened Options
  import opened Ledger
  import opened LedgerProperties
  import opened PeerSync

  type NodeId = nat

  /** One connection, from a client node to a server node. */
  datatype Session = Session(client: NodeId, server: NodeId)

  datatype Network = Network(
    nodes: map<NodeId, Ledger>,
    toServer: map<Session, seq<Message>>,
    toClient: map<Session, seq<Message>>,
    synched: set<Session>)

  datatype Event =
    | Local(node: NodeId, op: Op)
    | Broadcast(node: NodeId)
    | Connect(session: Session)
    | ServerReceives(session: Session)
    | ClientReceives(session: Session)

  /** Can the event happen, and what does it lead to? Mining leaves the mined block open. */
  ghost predicate Next(c: Config, net: Network, e: Event, next: Network) {
    match e
    case Local(n, op) =>
      && n in net.nodes && n in next.nodes
      && Step(c, net.nodes[n], op, next.nodes[n])
      && next == net.(nodes := net.nodes[n := next.nodes[n]])
    case Broadcast(n) => n in net.nodes && next == AfterBroadcast(net, n)
    case Connect(s) =>
      s.client in net.nodes && s.server in net.nodes && s !in net.toServer && next == AfterConnect(net, s)
    case ServerReceives(s) =>
      && s.server in net.nodes && s in net.toServer && s in net.toClient && net.toServer[s] != []
      && next == AfterServer(c, net, s)
    case ClientReceives(s) =>
      && s.client in net.nodes && s in net.toClient && net.toClient[s] != []
      && next == AfterClient(c, net, s)
  }

  function AfterBroadcast(net: Network, n: NodeId): Network
    requires n in net.nodes
  {
    net.(toServer := map s | s in net.toServer ::
      if s.client == n then net.toServer[s] + [Chain(net.nodes[n])] else net.toServer[s])
  }

  function AfterConnect(net: Network, s: Session): Network
    requires s.client in net.nodes
  {
    net.(toServer := net.toServer[s := [HiServer, Chain(net.nodes[s.client])]], toClient := net.toClient[s := []])
  }

  function AfterServer(c: Config, net: Network, s: Session): Network
    requires s.server in net.nodes && s in net.toServer && s in net.toClient && net.toServer[s] != []
  {
    var message := net.toServer[s][0];
    var ledger := OnText(c.format, net.nodes[s.server], message);
    var reply := Reply(ledger, message, s in net.synched);
    Network(
      net.nodes[s.server := ledger],
      net.toServer[s := net.toServer[s][1..]],
      if reply.Some? then net.toClient[s := net.toClient[s] + [reply.value]] else net.toClient,
      if message.Chain? then net.synched + {s} else net.synched)
  }

  function AfterClient(c: Config, net: Network, s: Session): Network
    requires s.client in net.nodes && s in net.toClient && net.toClient[s] != []
  {
    net.(nodes := net.nodes[s.client := OnText(c.format, net.nodes[s.client], net.toClient[s][0])],
         toClient := net.toClient[s := net.toClient[s][1..]])
  }

  // ----- what every run keeps -----

  ghost predicate SoundMessages(c: Config, ms: seq<Message>) {
    forall i :: 0 <= i < |ms| && ms[i].Chain? ==> Sound(c, ms[i].ledger.chain)
  }

  /** Every chain a node holds or a message carries is sound. */
  ghost predicate SoundNetwork(c: Config, net: Network) {
    && (forall n :: n in net.nodes ==> Sound(c, net.nodes[n].chain))
    && (forall s :: s in net.toServer ==> SoundMessages(c, net.toServer[s]))
    && (forall s :: s in net.toClient ==> SoundMessages(c, net.toClient[s]))
  }

  /** A node never goes back to a shorter chain. */
  predicate NeverShorter(net: Network, next: Network) {
    forall n :: n in net.nodes ==> n in next.nodes && |net.nodes[n].chain| <= |next.nodes[n].chain|
  }

  lemma OnTextIsSound(c: Config, local: Ledger, message: Message)
    requires Sound(c, local.chain) && (message.Chain? ==> Sound(c, message.ledger.chain))
    ensures Sound(c, OnText(c.format, local, message).chain)
    ensures |local.chain| <= |OnText(c.format, local, message).chain|
  {
  }

  lemma AppendSound(c: Config, ms: seq<Message>, m: Message)
    requires SoundMessages(c, ms) && (m.Chain? ==> Sound(c, m.ledger.chain))
    ensures SoundMessages(c, ms + [m]) && (ms != [] ==> SoundMessages(c, ms[1..]))
  {
  }

  lemma LocalKeeps(c: Config, net: Network, n: NodeId, op: Op, next: Network)
    requires SoundNetwork(c, net) && Next(c, net, Local(n, op), next)
    ensures SoundNetwork(c, next) && NeverShorter(net, next)
  {
    StepKeepsSound(c, net.nodes[n], op, next.nodes[n]);
  }

  lemma ServerKeeps(c: Config, net: Network, s: Session, next: Network)
    requires SoundNetwork(c, net) && Next(c, net, ServerReceives(s), next)
    ensures SoundNetwork(c, next) && NeverShorter(net, next)
  {
    var message := net.toServer[s][0];
    OnTextIsSound(c, net.nodes[s.server], message);
    AppendSound(c, net.toServer[s], HiServer);
    var ledger := OnText(c.format, net.nodes[s.server], message);
    var reply := Reply(ledger, message, s in net.synched);
    if reply.Some? { AppendSound(c, net.toClient[s], reply.value); }
  }

  lemma ClientKeeps(c: Config, net: Network, s: Session, next: Network)
    requires SoundNetwork(c, net) && Next(c, net, ClientReceives(s), next)
    ensures SoundNetwork(c, next) && NeverShorter(net, next)
  {
    OnTextIsSound(c, net.nodes[s.client], net.toClient[s][0]);
    AppendSound(c, net.toClient[s], HiServer);
  }

  lemma SendKeeps(c: Config, net: Network, e: Event, next: Network)
    requires SoundNetwork(c, net) && Next(c, net, e, next) && (e.Broadcast? || e.Connect?)
    ensures SoundNetwork(c, next) && NeverShorter(net, next)
  {
    if e.Broadcast? {
      forall s | s in next.toServer ensures SoundMessages(c, next.toServer[s]) {
        AppendSound(c, net.toServer[s], Chain(net.nodes[e.node]));
      }
    } else {
      AppendSound(c, [HiServer], Chain(net.nodes[e.session.client]));
      assert [HiServer] + [Chain(net.nodes[e.session.client])] == [HiServer, Chain(net.nodes[e.session.client])];
    }
  }

  ghost predicate Run(c: Config, nets: seq<Network>, events: seq<Event>) {
    && |nets| == |events| + 1
    && forall i :: 0 <= i < |events| ==> Next(c, nets[i], events[i], nets[i + 1])
  }

  /** Nodes that each initialised a chain of their own, and no connection yet. */
  ghost predicate Start(c: Config, net: Network) {
    && net.toServer == map[] && net.toClient == map[] && net.synched == {}
    && forall n :: n in net.nodes ==> Initialized(c, [], net.nodes[n])
  }

  lemma StartIsSound(c: Config, net: Network)
    requires Start(c, net)
    ensures SoundNetwork(c, net)
  {
    forall n | n in net.nodes ensures Sound(c, net.nodes[n].chain) {
      var l := net.nodes[n];
      assert LedgerProperties.Run(c, [], [l], []);
      EveryStateIsSound(c, [], [l], [], 0);
    }
  }

  lemma {:induction false} EveryNodeStaysSound(c: Config, nets: seq<Network>, events: seq<Event>, i: nat)
    requires Run(c, nets, events) && Start(c, nets[0]) && i < |nets|
    ensures SoundNetwork(c, nets[i]) && (i > 0 ==> NeverShorter(nets[i - 1], nets[i]))
  {
    if i == 0 {
      StartIsSound(c, nets[0]);
    } else {
      EveryNodeStaysSound(c, nets, events, i - 1);
      assert Next(c, nets[i - 1], events[i - 1], nets[i]);
      KeepsNetwork(c, nets[i - 1], events[i - 1], nets[i]);
    }
  }

  // ----- one adoption -----

  function Occurrences(txs: seq<Transaction>, t: Transaction): nat {
    multiset(txs)[t]
  }

  function Recorded(chain: seq<Block>, t: Transaction): nat {
    if chain == [] then 0
    else Recorded(chain[..|chain| - 1], t) + Occurrences(chain[|chain| - 1].transactions, t)
  }

  /** Every copy of a transaction a node knows of, mined or pending. */
  function Copies(l: Ledger, t: Transaction): nat {
    Recorded(l.chain, t) + Occurrences(l.pending, t)
  }

  lemma {:induction false} RecordedConcat(a: seq<Block>, b: seq<Block>, t: Transaction)
    ensures Recorded(a + b, t) == Recorded(a, t) + Recorded(b, t)
  {
    if b == [] {
      assert a + b == a;
    } else {
      assert (a + b)[..|a + b| - 1] == a + b[..|b| - 1];
      RecordedConcat(a, b[..|b| - 1], t);
    }
  }

  /** Where the copies of a transaction come from after an adoption, when the two chains share their first `k`
      blocks: from those, from the sender's further blocks, and from both pending lists. The receiver's own
      further blocks are forgotten. */
  lemma AdoptionForgetsLocalBlocks(f: Format, local: Ledger, received: Ledger, k: nat, t: Transaction)
    requires k <= |local.chain| && k <= |received.chain| && local.chain[..k] == received.chain[..k]
    ensures var after := Adopt(f, local, received);
      if Adopts(f, local, received) then
        && multiset(after.pending) == multiset(received.pending) + multiset(local.pending)
        && Copies(after, t) == Recorded(local.chain[..k], t) + Recorded(received.chain[k..], t)
             + Occurrences(received.pending, t) + Occurrences(local.pending, t)
        && Copies(after, t) == Copies(received, t) + Copies(local, t)
             - Recorded(local.chain[..k], t) - Recorded(local.chain[k..], t)
      else after == local
  {
    RecordedConcat(received.chain[..k], received.chain[k..], t);
    RecordedConcat(local.chain[..k], local.chain[k..], t);
    assert received.chain == received.chain[..k] + received.chain[k..];
    assert local.chain == local.chain[..k] + local.chain[k..];
  }

  /** What an adoption duplicates: whatever the received chain or its pending list already holds of the receiver's
      pending transactions is counted again. The receiver's copies stay the same exactly when the sender knew
      of as many as the receiver's own chain records. */
  lemma AdoptionDuplicates(f: Format, local: Ledger, received: Ledger, t: Transaction)
    requires Adopts(f, local, received)
    ensures var after := Adopt(f, local, received);
      && Copies(after, t) == Copies(received, t) + Occurrences(local.pending, t)
      && (Copies(after, t) == Copies(local, t) <==> Copies(received, t) == Recorded(local.chain, t))
  {
    assert multiset(received.pending + local.pending) == multiset(received.pending) + multiset(local.pending);
  }

  // ----- the handshake -----

  /** Connecting, with no other event until the reply is in: both peers end with chains as long as the
      longer of the two, the same chain if one was longer, and the side that adopted has both pending
      lists. Nothing is left on the way, and the session has been sent the chain. */
  lemma HandshakeAgrees(c: Config, net: Network, s: Session)
    requires SoundNetwork(c, net) && s.client in net.nodes && s.server in net.nodes
    requires s.client != s.server && s !in net.toServer && s !in net.synched
    ensures var n1 := AfterConnect(net, s);
      && Next(c, net, Connect(s), n1)
      && var n2 := AfterServer(c, n1, s);
      && Next(c, n1, ServerReceives(s), n2)
      && Next(c, n2, ServerReceives(s), AfterServer(c, n2, s))
      && var n3 := AfterServer(c, n2, s);
      && Next(c, n3, ClientReceives(s), AfterClient(c, n3, s))
      && var n4 := AfterClient(c, n3, s);
      && Next(c, n4, ClientReceives(s), AfterClient(c, n4, s))
      && Agree(net.nodes[s.client], net.nodes[s.server],
               AfterClient(c, n4, s).nodes[s.client], AfterClient(c, n4, s).nodes[s.server])
      && Quiet(AfterClient(c, n4, s), s)
  {
  }

  predicate Quiet(net: Network, s: Session) {
    s in net.toServer && s in net.toClient && net.toServer[s] == [] && net.toClient[s] == [] && s in net.synched
  }

  predicate Agree(client: Ledger, server: Ledger, client2: Ledger, server2: Ledger) {
    && |client2.chain| == |server2.chain| == (if |client.chain| < |server.chain| then |server.chain| else |client.chain|)
    && (|client.chain| > |server.chain| ==>
          client2 == client && server2 == Ledger(client.chain, client.pending + server.pending))
    && (|client.chain| < |server.chain| ==>
          server2 == server && client2 == Ledger(server.chain, server.pending + client.pending))
    && (|client.chain| == |server.chain| ==> client2 == client && server2 == server)
  }

  // ----- a handshake among everything else -----

  ghost predicate Carries(c: Config, m: Message, length: nat) {
    m.Chain? && IsValid(c.format, m.ledger.chain) && length <= |m.ledger.chain|
  }

  function Longest(a: nat, b: nat): nat { if a < b then b else a }

  /** Where the handshake of a session stands after the server has received `p` of its messages and the
      client `q` of the replies, when the chains had length `a` and `b` at the connection. */
  ghost predicate Progress(c: Config, net: Network, s: Session, a: nat, b: nat, p: nat, q: nat) {
    && SoundNetwork(c, net)
    && s.client in net.nodes && s.server in net.nodes && s in net.toServer && s in net.toClient
    && a <= |net.nodes[s.client].chain| && b <= |net.nodes[s.server].chain|
    && ToServer(c, net.toServer[s], a, p)
    && (s in net.synched <==> p >= 2)
    && ToClient(c, net.toClient[s], Longest(a, b), p, q)
    && (p >= 2 ==> Longest(a, b) <= |net.nodes[s.server].chain|)
    && (q >= 2 ==> Longest(a, b) <= |net.nodes[s.client].chain|)
  }

  ghost predicate ToServer(c: Config, ms: seq<Message>, a: nat, p: nat) {
    && (p == 0 ==> |ms| >= 2 && ms[0] == HiServer && Carries(c, ms[1], a))
    && (p == 1 ==> |ms| >= 1 && Carries(c, ms[0], a))
    && (p >= 2 ==> forall i :: 0 <= i < |ms| ==> ms[i].Chain?)
    && (p == 1 ==> forall i :: 1 <= i < |ms| ==> ms[i].Chain?)
    && (p == 0 ==> forall i :: 2 <= i < |ms| ==> ms[i].Chain?)
  }

  ghost predicate ToClient(c: Config, ms: seq<Message>, longest: nat, p: nat, q: nat) {
    var replies := if p >= 2 then 2 else p;
    && q <= replies && |ms| == replies - q
    && (q == 0 && p >= 1 ==> ms[0] == HiClient)
    && (p >= 2 && q <= 1 ==> Carries(c, ms[1 - q], longest))
  }

  function Received(s: Session, e: Event): nat { if e == ServerReceives(s) then 1 else 0 }

  function Answered(s: Session, e: Event): nat { if e == ClientReceives(s) then 1 else 0 }

  lemma ConnectStarts(c: Config, net: Network, s: Session)
    requires SoundNetwork(c, net) && s.client in net.nodes && s.server in net.nodes && s !in net.synched
    ensures s !in net.toServer ==>
      Progress(c, AfterConnect(net, s), s, |net.nodes[s.client].chain|, |net.nodes[s.server].chain|, 0, 0)
  {
    if s !in net.toServer { SendKeeps(c, net, Connect(s), AfterConnect(net, s)); }
  }

  lemma KeepsNetwork(c: Config, net: Network, e: Event, next: Network)
    requires SoundNetwork(c, net) && Next(c, net, e, next)
    ensures SoundNetwork(c, next) && NeverShorter(net, next)
  {
    match e
    case Local(n, op) => LocalKeeps(c, net, n, op, next);
    case Broadcast(_) => SendKeeps(c, net, e, next);
    case Connect(_) => SendKeeps(c, net, e, next);
    case ServerReceives(s) => ServerKeeps(c, net, s, next);
    case ClientReceives(s) => ClientKeeps(c, net, s, next);
  }

  /** Whatever happens next, the handshake stands where its own two kinds of events have brought it. */
  lemma ProgressStep(c: Config, net: Network, e: Event, next: Network, s: Session, a: nat, b: nat, p: nat, q: nat)
    requires Progress(c, net, s, a, b, p, q) && Next(c, net, e, next)
    ensures Progress(c, next, s, a, b, p + Received(s, e), q + Answered(s, e))
  {
    KeepsNetwork(c, net, e, next);
    if e == ServerReceives(s) {
      ServerProgress(c, net, next, s, a, b, p, q);
    } else if e == ClientReceives(s) {
      ClientProgress(c, net, next, s, a, b, p, q);
    } else {
      OthersKeepQueues(c, net, e, next, s);
      OthersProgress(c, net, next, s, a, b, p, q);
    }
  }

  /** The queues of a session as they were, or with a chain appended to what the server will receive. */
  predicate QueuesKept(net: Network, next: Network, s: Session)
    requires s in net.toServer && s in net.toClient
  {
    && s in next.toServer && s in next.toClient && next.toClient[s] == net.toClient[s]
    && (s in next.synched <==> s in net.synched)
    && (next.toServer[s] == net.toServer[s]
        || (s.client in net.nodes && next.toServer[s] == net.toServer[s] + [Chain(net.nodes[s.client])]))
  }

  lemma OthersProgress(c: Config, net: Network, next: Network, s: Session, a: nat, b: nat, p: nat, q: nat)
    requires Progress(c, net, s, a, b, p, q) && SoundNetwork(c, next) && NeverShorter(net, next)
    requires QueuesKept(net, next, s)
    ensures Progress(c, next, s, a, b, p, q)
  {
    assert ToServer(c, next.toServer[s], a, p);
  }

  /** Only its own two kinds of events take messages of a session or mark it; the rest may only append
      chains to what the server will receive. */
  lemma OthersKeepQueues(c: Config, net: Network, e: Event, next: Network, s: Session)
    requires Next(c, net, e, next) && s in net.toServer && s in net.toClient
    requires e != ServerReceives(s) && e != ClientReceives(s)
    ensures QueuesKept(net, next, s)
  {
  }

  lemma ServerProgress(c: Config, net: Network, next: Network, s: Session, a: nat, b: nat, p: nat, q: nat)
    requires Progress(c, net, s, a, b, p, q) && Next(c, net, ServerReceives(s), next)
    requires SoundNetwork(c, next) && NeverShorter(net, next)
    ensures Progress(c, next, s, a, b, p + 1, q)
  {
    var message := net.toServer[s][0];
    var ledger := OnText(c.format, net.nodes[s.server], message);
    assert next.nodes[s.server] == ledger;
    ShiftToServer(c, net.toServer[s], a, p);
    assert ToServer(c, next.toServer[s], a, p + 1);
    if p <= 1 {
      assert next.toClient[s] == net.toClient[s] + [Reply(ledger, message, false).value];
    }
    assert ToClient(c, next.toClient[s], Longest(a, b), p + 1, q);
  }

  lemma ShiftToServer(c: Config, ms: seq<Message>, a: nat, p: nat)
    requires ms != [] && ToServer(c, ms, a, p)
    ensures ToServer(c, ms[1..], a, p + 1)
    ensures if p == 0 then ms[0] == HiServer else ms[0].Chain?
    ensures p == 1 ==> Carries(c, ms[0], a)
  {
  }

  lemma ClientProgress(c: Config, net: Network, next: Network, s: Session, a: nat, b: nat, p: nat, q: nat)
    requires Progress(c, net, s, a, b, p, q) && Next(c, net, ClientReceives(s), next)
    requires SoundNetwork(c, next) && NeverShorter(net, next)
    ensures Progress(c, next, s, a, b, p, q + 1)
  {
    var message := net.toClient[s][0];
    assert next.nodes[s.client] == OnText(c.format, net.nodes[s.client], message);
    assert q <= 1 && p > q;
    if q == 1 {
      assert Carries(c, message, Longest(a, b));
    }
    assert ToClient(c, next.toClient[s], Longest(a, b), p, q + 1);
  }

  function CountEvents(events: seq<Event>, e: Event): nat {
    if events == [] then 0 else CountEvents(events[..|events| - 1], e) + if events[|events| - 1] == e then 1 else 0
  }

  lemma CountOneMore(events: seq<Event>, n: nat, e: Event)
    requires 0 < n <= |events|
    ensures CountEvents(events[..n], e) == CountEvents(events[..n - 1], e) + if events[n - 1] == e then 1 else 0
  {
    assert events[..n][..n - 1] == events[..n - 1];
  }

  lemma {:induction false} HandshakeAt(c: Config, nets: seq<Network>, events: seq<Event>, s: Session, n: nat)
    requires Run(c, nets, events) && 0 < n <= |events| && events[0] == Connect(s)
    requires SoundNetwork(c, nets[0]) && s !in nets[0].synched && s.client in nets[0].nodes && s.server in nets[0].nodes
    ensures Progress(c, nets[n], s, |nets[0].nodes[s.client].chain|, |nets[0].nodes[s.server].chain|,
                     CountEvents(events[..n], ServerReceives(s)), CountEvents(events[..n], ClientReceives(s)))
  {
    assert Next(c, nets[n - 1], events[n - 1], nets[n]);
    CountOneMore(events, n, ServerReceives(s));
    CountOneMore(events, n, ClientReceives(s));
    if n == 1 {
      ConnectStarts(c, nets[0], s);
    } else {
      HandshakeAt(c, nets, events, s, n - 1);
      ProgressStep(c, nets[n - 1], events[n - 1], nets[n], s, |nets[0].nodes[s.client].chain|, |nets[0].nodes[s.server].chain|,
                   CountEvents(events[..n - 1], ServerReceives(s)), CountEvents(events[..n - 1], ClientReceives(s)));
    }
  }

  /** In every run, whatever is mined, broadcast and received in between: once the server has received
      the two messages of a connection and the client the two replies, both have chains at least as long
      as the longer one was at the connection. */
  lemma HandshakeCatchesUp(c: Config, nets: seq<Network>, events: seq<Event>, s: Session)
    requires Run(c, nets, events) && events != [] && events[0] == Connect(s)
    requires SoundNetwork(c, nets[0]) && s !in nets[0].synched
    ensures s.client in nets[0].nodes && s.server in nets[0].nodes
    ensures Progress(c, nets[|events|], s, |nets[0].nodes[s.client].chain|, |nets[0].nodes[s.server].chain|,
                     CountEvents(events, ServerReceives(s)), CountEvents(events, ClientReceives(s)))
  {
    assert Next(c, nets[0], events[0], nets[1]);
    HandshakeAt(c, nets, events, s, |events|);
    assert events[..|events|] == events;
  }

  /** Read at the end: both replies in, both chains have caught up. */
  lemma HandshakeDone(c: Config, nets: seq<Network>, events: seq<Event>, s: Session)
    requires Run(c, nets, events) && events != [] && events[0] == Connect(s)
    requires SoundNetwork(c, nets[0]) && s !in nets[0].synched
    requires CountEvents(events, ServerReceives(s)) >= 2 && CountEvents(events, ClientReceives(s)) >= 2
    ensures var a, z := nets[0].nodes, nets[|events|].nodes;
      && s.client in a && s.server in a && s.client in z && s.server in z
      && Longest(|a[s.client].chain|, |a[s.server].chain|) <= |z[s.client].chain|
      && Longest(|a[s.client].chain|, |a[s.server].chain|) <= |z[s.server].chain|
  {
    HandshakeCatchesUp(c, nets, events, s);
  }

  /** A session that has been sent the chain is connected. */
  lemma {:induction false} SynchedAreConnected(c: Config, nets: seq<Network>, events: seq<Event>, i: nat)
    requires Run(c, nets, events) && Start(c, nets[0]) && i < |nets|
    ensures nets[i].synched <= nets[i].toServer.Keys
  {
    if i > 0 {
      SynchedAreConnected(c, nets, events, i - 1);
      assert Next(c, nets[i - 1], events[i - 1], nets[i]);
      StaysConnected(c, nets[i - 1], events[i - 1], nets[i]);
    }
  }

  lemma StaysConnected(c: Config, net: Network, e: Event, next: Network)
    requires Next(c, net, e, next) && net.synched <= net.toServer.Keys
    ensures next.synched <= next.toServer.Keys
  {
  }

  lemma RunBetween(c: Config, nets: seq<Network>, events: seq<Event>, i: nat, j: nat)
    requires Run(c, nets, events) && i <= j <= |events|
    ensures Run(c, nets[i..j + 1], events[i..j])
  {
    forall k | 0 <= k < j - i ensures Next(c, nets[i..j + 1][k], events[i..j][k], nets[i..j + 1][k + 1]) {
      assert Next(c, nets[i + k], events[i + k], nets[i + k + 1]);
    }
  }

  /** From the initialised nodes on, every connection of every run catches up once both replies are in. */
  lemma EveryHandshakeIsDone(c: Config, nets: seq<Network>, events: seq<Event>, s: Session, i: nat, j: nat)
    requires Run(c, nets, events) && Start(c, nets[0]) && i < j <= |events| && events[i] == Connect(s)
    requires CountEvents(events[i..j], ServerReceives(s)) >= 2 && CountEvents(events[i..j], ClientReceives(s)) >= 2
    ensures var a, z := nets[i].nodes, nets[j].nodes;
      && s.client in a && s.server in a && s.client in z && s.server in z
      && Longest(|a[s.client].chain|, |a[s.server].chain|) <= |z[s.client].chain|
      && Longest(|a[s.client].chain|, |a[s.server].chain|) <= |z[s.server].chain|
  {
    SynchedAreConnected(c, nets, events, i);
    EveryNodeStaysSound(c, nets, events, i);
    assert Next(c, nets[i], events[i], nets[i + 1]);
    RunBetween(c, nets, events, i, j);
    HandshakeDone(c, nets[i..j + 1], events[i..j], s);
  }
}
