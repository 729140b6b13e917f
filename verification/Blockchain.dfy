/** The blockchain objects. A mined block keeps the very list object that was pending; what protects it
    from later transactions is that the chain never goes on using that list. */
module Blockchain {
  import opened Options
  import opened Ledger

  class TransactionList {
    var items: seq<Transaction>

    constructor ()
      ensures items == []
    {
      items := [];
    }

    method Add(t: Transaction)
      modifies this
      ensures items == old(items) + [t]
    {
      items := items + [t];
    }
  }

  class BlockObject {
    var index: int
    var time: int
    var previousHash: Option<string>
    var hash: Option<string>
    const transactions: TransactionList
    var nonce: int

    function View(): Block
      reads this, transactions
    {
      Block(index, time, previousHash, hash, transactions.items, nonce)
    }

    function CalculateHash(f: Format): (h: string)
      reads this, transactions
      ensures forall m :: h == Hash(f, View().(hash := m))
    {
      Hash(f, View())
    }

    constructor (time: int, previousHash: Option<string>, transactions: TransactionList)
      ensures this.transactions == transactions
      ensures View() == Block(0, time, previousHash, None, transactions.items, 0)
    {
      index, nonce := 0, 0;
      this.time, this.previousHash, this.transactions := time, previousHash, transactions;
      hash := None;
    }

    /** Counts the nonce up until the hash starts with zeros. `found` is some good nonce ahead: that there
        is one is a fact about the digest that mining relies on. A hash too short for the prefix is an error. */
    method Mine(c: Config, ghost found: int)
      requires GoodConfig(c) && (hash.Some? ==> c.difficulty <= |hash.value|)
      requires !HasPrefix(c.difficulty, View()) ==> nonce < found && Good(c.format, c.difficulty, View(), found)
      modifies this
      ensures MinedFrom(c.format, c.difficulty, old(View()), View())
    {
      ghost var before := View();
      while hash.None? || hash.value[..c.difficulty] != seq(c.difficulty, _ => '0')
        invariant before.nonce <= nonce && (HasPrefix(c.difficulty, before) || nonce <= found)
        invariant View() == before.(nonce := nonce, hash := hash)
        invariant nonce == before.nonce ==> hash == before.hash
        invariant nonce > before.nonce ==> hash == Some(Hash(c.format, before.(nonce := nonce)))
        invariant HasPrefix(c.difficulty, before) ==> nonce == before.nonce
        invariant forall n :: before.nonce < n < nonce ==> !Good(c.format, c.difficulty, before, n)
        invariant nonce == found > before.nonce ==> hash.Some? && ZeroPrefix(hash.value, c.difficulty)
        invariant |Hash(c.format, before.(nonce := nonce))| == DIGEST_LENGTH
        decreases found - nonce
      {
        if hash.Some? { PrefixOfZeros(c, hash.value); }
        nonce := nonce + 1;
        hash := Some(CalculateHash(c.format));
      }
      PrefixOfZeros(c, hash.value);
    }
  }

  /** The loop's test on the first characters is the zero prefix. */
  lemma PrefixOfZeros(c: Config, h: string)
    requires c.difficulty <= |h|
    ensures ZeroPrefix(h, c.difficulty) <==> h[..c.difficulty] == seq(c.difficulty, _ => '0')
  {
    assert forall i :: 0 <= i < c.difficulty ==> h[..c.difficulty][i] == h[i];
  }

  lemma MiningStep(c: Config, l: Ledger, miner: Address, now: int, mined: Block, n: Ledger)
    requires l.chain != [] && Mined(c.format, c.difficulty, NextBlock(l, now), mined)
    requires n == Ledger(l.chain + [mined], [] + [Transaction(None, miner, c.reward)])
    ensures Step(c, l, MineNext(miner), n) && mined.time == now
  {
  }

  class BlockchainObject {
    const config: Config
    var pendingTransactions: TransactionList
    var chain: seq<BlockObject>

    /** No block holds the list that is still open for transactions. */
    ghost predicate Valid()
      reads this, chain
    {
      && GoodConfig(config)
      && forall b :: b in chain ==> b.transactions != pendingTransactions
    }

    ghost function View(): (l: Ledger)
      reads this, chain, pendingTransactions, set b | b in chain :: b.transactions
      ensures |l.chain| == |chain| && forall i :: 0 <= i < |chain| ==> l.chain[i] == chain[i].View()
      ensures l.pending == pendingTransactions.items
    {
      Ledger(seq(|chain|, i requires 0 <= i < |chain| reads this, chain, set b | b in chain :: b.transactions
                          => chain[i].View()),
             pendingTransactions.items)
    }

    constructor (config: Config)
      requires GoodConfig(config)
      ensures Valid() && this.config == config && chain == [] && fresh(pendingTransactions)
      ensures View() == Ledger([], [])
    {
      this.config := config;
      pendingTransactions := new TransactionList();
      chain := [];
    }

    method InitializeChain(now: int, ghost found: int)
      requires Valid()
      requires 0 < found && Good(config.format, config.difficulty, Block(0, now, None, None, pendingTransactions.items, 0), found)
      modifies this
      ensures Valid() && fresh(pendingTransactions) && |chain| == 1 && fresh(chain[0])
      ensures Initialized(config, old(pendingTransactions.items), View()) && View().chain[0].time == now
      ensures View().chain[0].index == 0 && View().chain[0].previousHash == None
      ensures View().chain[0].transactions == old(pendingTransactions.items) && View().pending == []
    {
      chain := [];
      var genesis := CreateGenesisBlock(now, found);
      chain := chain + [genesis];
    }

    method CreateGenesisBlock(now: int, ghost found: int) returns (b: BlockObject)
      requires Valid()
      requires 0 < found && Good(config.format, config.difficulty, Block(0, now, None, None, pendingTransactions.items, 0), found)
      modifies this
      ensures fresh(b) && fresh(pendingTransactions) && pendingTransactions != b.transactions
      ensures b.transactions == old(pendingTransactions) && pendingTransactions.items == [] && chain == old(chain)
      ensures Mined(config.format, config.difficulty, Block(0, now, None, None, old(pendingTransactions.items), 0), b.View())
    {
      b := new BlockObject(now, None, pendingTransactions);
      b.Mine(config, found);
      pendingTransactions := new TransactionList();
    }

    method CreateTransaction(t: Transaction)
      requires Valid()
      modifies pendingTransactions
      ensures Valid() && Step(config, old(View()), Create(t), View())
      ensures View().pending == old(View().pending) + [t] && View().chain == old(View().chain)
    {
      pendingTransactions.Add(t);
      assert forall i :: 0 <= i < |chain| ==> chain[i].View() == old(chain[i].View());
      assert View().chain == old(View().chain);
    }

    /** Mines what is pending into the next block and opens a new list with the miner's reward. */
    method ProcessPendingTransactions(miner: Address, now: int, ghost found: int)
      requires Valid() && chain != []
      requires 0 < found && Good(config.format, config.difficulty, NextBlock(View(), now), found)
      modifies this
      ensures Valid() && fresh(pendingTransactions)
      ensures |chain| == |old(chain)| + 1 && chain[..|old(chain)|] == old(chain) && fresh(chain[|old(chain)|])
      ensures Step(config, old(View()), MineNext(miner), View())
      ensures View().chain[|old(chain)|].time == now
      ensures View().chain[|old(chain)|].transactions == old(View().pending)
      ensures View().pending == [Transaction(None, miner, config.reward)]
    {
      ghost var before, start := View(), NextBlock(View(), now);
      var block := new BlockObject(now, chain[|chain| - 1].hash, pendingTransactions);
      assert block.View().(index := chain[|chain| - 1].index + 1, previousHash := chain[|chain| - 1].hash) == start;
      AddBlock(block, found);
      assert Mined(config.format, config.difficulty, start, block.View());
      ghost var mined := block.View();
      pendingTransactions := new TransactionList();
      assert View() == Ledger(before.chain + [mined], []);
      CreateTransaction(Transaction(None, miner, config.reward));
      MiningStep(config, before, miner, now, mined, View());
    }

    /** A block of any origin is linked behind the latest one; one that is in the chain already changes there too. */
    method AddBlock(block: BlockObject, ghost found: int)
      requires GoodConfig(config) && chain != []
      requires block.hash.Some? ==> config.difficulty <= |block.hash.value|
      requires !HasPrefix(config.difficulty, block.View()) ==>
        block.nonce < found && Good(config.format, config.difficulty, NextOf(chain[|chain| - 1].View(), block.View()), found)
      modifies this`chain, block
      ensures chain == old(chain) + [block]
      ensures forall i :: 0 <= i < old(|chain|) && chain[i] != block ==> chain[i].View() == old(chain[i].View())
      ensures block !in old(chain) ==> View().chain == old(View().chain) + [block.View()]
      ensures MinedFrom(config.format, config.difficulty, old(NextOf(chain[|chain| - 1].View(), block.View())), block.View())
    {
      var latest := chain[|chain| - 1];
      block.index := latest.index + 1;
      block.previousHash := latest.hash;
      block.Mine(config, found);
      chain := chain + [block];
    }

    /** What is sent of a chain: its content, none of its objects. */
    method Serialize() returns (l: Ledger)
      requires Valid()
      ensures l == View()
    {
      var blocks: seq<Block> := [];
      for i := 0 to |chain|
        invariant blocks == View().chain[..i]
      {
        blocks := blocks + [chain[i].View()];
      }
      l := Ledger(blocks, pendingTransactions.items);
    }

    method CheckValid() returns (r: bool)
      requires Valid()
      ensures r <==> IsValid(config.format, View().chain)
    {
      var i := 1;
      while i < |chain|
        invariant 1 <= i && (i <= |chain| || chain == [])
        invariant forall k :: 1 <= k < i && k < |chain| ==> Linked(config.format, View().chain, k)
      {
        var current, previous := chain[i], chain[i - 1];
        assert !Linked(config.format, View().chain, i)
          <==> current.hash != Some(Hash(config.format, current.View())) || current.previousHash != previous.hash;
        if current.hash != Some(current.CalculateHash(config.format)) { return false; }
        if current.previousHash != previous.hash { return false; }
        i := i + 1;
      }
      r := true;
    }

    method GetBalance(a: Address) returns (balance: int)
      requires Valid()
      ensures balance == Balance(View().chain, a)
    {
      balance := 0;
      for i := 0 to |chain|
        invariant balance == Balance(View().chain[..i], a)
      {
        var txs := chain[i].transactions.items;
        ghost var before := balance;
        for j := 0 to |txs|
          invariant balance == before + Net(txs[..j], a)
        {
          assert txs[..j + 1][..j] == txs[..j];
          if txs[j].from == a { balance := balance - txs[j].amount; }
          if txs[j].to == a { balance := balance + txs[j].amount; }
        }
        assert txs[..|txs|] == txs;
        assert View().chain[..i + 1][..i] == View().chain[..i];
      }
      assert View().chain[..|chain|] == View().chain;
    }
  }
}
