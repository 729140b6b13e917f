/** Nodes exchanging chains: a node adopts a received chain when it is valid and strictly longer, and
    keeps its own pending transactions next to the received ones. */
module PeerSync {
  import opened Options
  import opened Ledger
  import opened Blockchain

  datatype Message = HiServer | HiClient | Chain(ledger: Ledger)

  predicate Adopts(f: Format, local: Ledger, received: Ledger) {
    IsValid(f, received.chain) && |received.chain| > |local.chain|
  }

  function Adopt(f: Format, local: Ledger, received: Ledger): Ledger {
    if Adopts(f, local, received) then Ledger(received.chain, received.pending + local.pending) else local
  }

  function OnText(f: Format, local: Ledger, message: Message): Ledger {
    if message.Chain? then Adopt(f, local, message.ledger) else local
  }

  /** What the server answers, given its ledger after the message and whether this session has already
      been sent the chain. */
  function Reply(after: Ledger, message: Message, synched: bool): Option<Message> {
    match message
    case HiServer => Some(HiClient)
    case HiClient => None
    case Chain(_) => if synched then None else Some(Chain(after))
  }

  /** Rebuilds the objects of a received chain; none of them is shared with the receiver. */
  method Deserialize(config: Config, l: Ledger) returns (b: BlockchainObject)
    requires GoodConfig(config)
    ensures fresh(b) && fresh(b.pendingTransactions) && (forall k :: k in b.chain ==> fresh(k) && fresh(k.transactions))
    ensures b.Valid() && b.config == config && b.View() == l
  {
    b := new BlockchainObject(config);
    b.pendingTransactions.items := l.pending;
    for i := 0 to |l.chain|
      invariant fresh(b) && fresh(b.pendingTransactions) && b.Valid() && b.config == config
      invariant forall k :: k in b.chain ==> fresh(k) && fresh(k.transactions)
      invariant b.pendingTransactions.items == l.pending
      invariant |b.chain| == i && forall j :: 0 <= j < i ==> b.chain[j].View() == l.chain[j]
    {
      var txs := new TransactionList();
      txs.items := l.chain[i].transactions;
      var block := new BlockObject(l.chain[i].time, l.chain[i].previousHash, txs);
      block.index, block.hash, block.nonce := l.chain[i].index, l.chain[i].hash, l.chain[i].nonce;
      b.chain := b.chain + [block];
    }
    assert b.View().chain == l.chain;
  }

  /** The process: the chain it currently stands by. */
  class Node {
    var chainCoin: BlockchainObject

    ghost predicate Valid()
      reads this, chainCoin, chainCoin.chain
    {
      chainCoin.Valid()
    }

    ghost function View(): Ledger
      reads this, chainCoin, chainCoin.chain, chainCoin.pendingTransactions, set b | b in chainCoin.chain :: b.transactions
    {
      chainCoin.View()
    }

    constructor (chainCoin: BlockchainObject)
      requires chainCoin.Valid()
      ensures Valid() && this.chainCoin == chainCoin
    {
      this.chainCoin := chainCoin;
    }

    /** The adoption rule, the same in the server's and the client's handler. */
    method Receive(received: Ledger)
      requires Valid()
      modifies this
      ensures Valid() && chainCoin.config == old(chainCoin.config)
      ensures View() == Adopt(chainCoin.config.format, old(View()), received)
      ensures View() == if IsValid(chainCoin.config.format, received.chain) && |received.chain| > old(|View().chain|)
                        then Ledger(received.chain, received.pending + old(View()).pending) else old(View())
      ensures old(IsValid(chainCoin.config.format, View().chain)) ==> IsValid(chainCoin.config.format, View().chain)
    {
      var newChain := Deserialize(chainCoin.config, received);
      var valid := newChain.CheckValid();
      if valid && |newChain.chain| > |chainCoin.chain| {
        var newTransactions := new TransactionList();
        newTransactions.items := newChain.pendingTransactions.items + chainCoin.pendingTransactions.items;
        newChain.pendingTransactions := newTransactions;
        chainCoin := newChain;
        assert View().chain == received.chain;
      }
    }
  }

  class P2PServer {
    /** Has this session been sent the chain? Each session has its own handler. */
    var chainSynched: bool

    constructor ()
      ensures !chainSynched
    {
      chainSynched := false;
    }

    method OnMessage(node: Node, message: Message) returns (reply: Option<Message>)
      requires node.Valid()
      modifies this, node
      ensures node.Valid() && node.chainCoin.config == old(node.chainCoin.config)
      ensures node.View() == OnText(node.chainCoin.config.format, old(node.View()), message)
      ensures reply == Reply(node.View(), message, old(chainSynched))
      ensures chainSynched == (old(chainSynched) || message.Chain?)
    {
      reply := None;
      match message
      case HiServer => reply := Some(HiClient);
      case HiClient =>
      case Chain(received) =>
        node.Receive(received);
        if !chainSynched {
          var ledger := node.chainCoin.Serialize();
          reply := Some(Chain(ledger));
          chainSynched := true;
        }
    }
  }

  class P2PClient {
    var connected: set<string>

    constructor ()
      ensures connected == {}
    {
      connected := {};
    }

    /** What a connection sends at once; a server already connected to is left alone. */
    method Connect(node: Node, url: string) returns (sent: seq<Message>)
      requires node.Valid()
      modifies this
      ensures connected == old(connected) + {url}
      ensures sent == if url in old(connected) then [] else [HiServer, Chain(node.View())]
    {
      if url in connected { return []; }
      var ledger := node.chainCoin.Serialize();
      sent := [HiServer, Chain(ledger)];
      connected := connected + {url};
    }

    method OnMessage(node: Node, message: Message)
      requires node.Valid()
      modifies node
      ensures node.Valid() && node.chainCoin.config == old(node.chainCoin.config)
      ensures node.View() == OnText(node.chainCoin.config.format, old(node.View()), message)
    {
      if message.Chain? { node.Receive(message.ledger); }
    }
  }
}
