/** What every run of a ledger keeps, where the money is, and what the hashes protect. */
module LedgerProperties {
  import opened Options
  import opened Ledger

  // ----- every run -----

  /** Stronger than `IsValid`: every block, genesis included, is at its index and carries its own
      zero-prefixed hash. */
  ghost predicate Sound(c: Config, chain: seq<Block>) {
    && chain != [] && IsValid(c.format, chain)
    && forall i :: 0 <= i < |chain| ==> SoundBlock(c, chain, i)
  }

  ghost predicate SoundBlock(c: Config, chain: seq<Block>, i: nat)
    requires i < |chain|
  {
    && chain[i].index == i
    && chain[i].hash == Some(Hash(c.format, chain[i]))
    && ZeroPrefix(chain[i].hash.value, c.difficulty)
  }

  lemma MinedIsSound(f: Format, difficulty: nat, b: Block, m: Block)
    requires Mined(f, difficulty, b, m)
    ensures m.hash == Some(Hash(f, m)) && ZeroPrefix(m.hash.value, difficulty)
    ensures m.index == b.index && m.previousHash == b.previousHash && m.transactions == b.transactions
  {
  }

  lemma StepKeepsSound(c: Config, l: Ledger, op: Op, n: Ledger)
    requires Sound(c, l.chain) && Step(c, l, op, n)
    ensures Sound(c, n.chain)
  {
    if op.MineNext? {
      var last := |l.chain|;
      MinedIsSound(c.format, c.difficulty, NextBlock(l, n.chain[last].time), n.chain[last]);
      forall i | 0 <= i < |n.chain| ensures SoundBlock(c, n.chain, i) && (i > 0 ==> Linked(c.format, n.chain, i)) {
        if i < last {
          assert n.chain[i] == l.chain[i];
          assert SoundBlock(c, l.chain, i);
          if i > 0 { assert n.chain[i - 1] == l.chain[i - 1] && Linked(c.format, l.chain, i); }
        } else {
          assert n.chain[i - 1] == l.chain[i - 1] && SoundBlock(c, l.chain, i - 1);
        }
      }
    }
  }

  /** A run: the ledger before and after every operation, from the initialised chain on. */
  ghost predicate Run(c: Config, pending: seq<Transaction>, ledgers: seq<Ledger>, ops: seq<Op>) {
    && |ledgers| == |ops| + 1
    && Initialized(c, pending, ledgers[0])
    && forall i :: 0 <= i < |ops| ==> Step(c, ledgers[i], ops[i], ledgers[i + 1])
  }

  lemma {:induction false} EveryStateIsSound(c: Config, pending: seq<Transaction>, ledgers: seq<Ledger>, ops: seq<Op>, i: nat)
    requires Run(c, pending, ledgers, ops) && i < |ledgers|
    ensures Sound(c, ledgers[i].chain)
  {
    if i == 0 {
      var l := ledgers[0];
      MinedIsSound(c.format, c.difficulty, Block(0, l.chain[0].time, None, None, pending, 0), l.chain[0]);
    } else {
      EveryStateIsSound(c, pending, ledgers, ops, i - 1);
      StepKeepsSound(c, ledgers[i - 1], ops[i - 1], ledgers[i]);
    }
  }

  predicate Zeros(h: string, n: nat) { n <= |h| && forall i :: 0 <= i < n ==> h[i] == '0' }

  /** Every hash of every state starts with as many zeros as the difficulty asks for. */
  lemma EveryHashHasZeros(c: Config, pending: seq<Transaction>, ledgers: seq<Ledger>, ops: seq<Op>, i: nat, k: nat)
    requires Run(c, pending, ledgers, ops) && i < |ledgers| && k < |ledgers[i].chain|
    ensures ledgers[i].chain[k].hash.Some? && Zeros(ledgers[i].chain[k].hash.value, c.difficulty)
  {
    EveryStateIsSound(c, pending, ledgers, ops, i);
    assert SoundBlock(c, ledgers[i].chain, k);
  }

  /** What mining does: nothing to a block whose hash starts with the zeros; to any other, the first nonce past its own
      for which the digest of its text does, and that digest as its hash. */
  lemma MiningFindsTheFirst(f: Format, difficulty: nat, b: Block, m: Block)
    requires MinedFrom(f, difficulty, b, m)
    ensures b.hash.Some? && Zeros(b.hash.value, difficulty) ==> m == b
    ensures !(b.hash.Some? && Zeros(b.hash.value, difficulty)) ==>
      && b.nonce < m.nonce && m.hash == Some(Hash(f, b.(nonce := m.nonce))) && Zeros(m.hash.value, difficulty)
      && m == b.(nonce := m.nonce, hash := m.hash)
      && forall n :: b.nonce < n < m.nonce ==> !Zeros(Hash(f, b.(nonce := n)), difficulty)
  {
    forall h ensures ZeroPrefix(h, difficulty) <==> Zeros(h, difficulty) {}
    forall n | b.nonce < n < m.nonce && !HasPrefix(difficulty, b) ensures !Zeros(Hash(f, b.(nonce := n)), difficulty) {
      assert !Good(f, difficulty, b, n);
    }
  }

  /** A mined block never changes again: every later chain of the run extends it. */
  lemma {:induction false} ChainsOnlyGrow(c: Config, pending: seq<Transaction>, ledgers: seq<Ledger>, ops: seq<Op>, i: nat, j: nat)
    requires Run(c, pending, ledgers, ops) && i <= j < |ledgers|
    ensures ledgers[i].chain <= ledgers[j].chain
  {
    if i < j {
      ChainsOnlyGrow(c, pending, ledgers, ops, i, j - 1);
      assert Step(c, ledgers[j - 1], ops[j - 1], ledgers[j]);
    }
  }

  /** Adding a block of any origin keeps a chain valid exactly when mining had to work on it, or the zero-prefixed
      hash it came with is its own once it is linked. */
  lemma AddedBlockIsValidExactly(c: Config, chain: seq<Block>, b: Block, m: Block)
    requires chain != [] && IsValid(c.format, chain)
    requires MinedFrom(c.format, c.difficulty, NextOf(chain[|chain| - 1], b), m)
    ensures IsValid(c.format, chain + [m])
      <==> !HasPrefix(c.difficulty, b) || b.hash == Some(Hash(c.format, NextOf(chain[|chain| - 1], b)))
  {
    var last, longer := |chain|, chain + [m];
    assert longer[last] == m && longer[last - 1] == chain[last - 1];
    if m.hash == Some(Hash(c.format, m)) {
      forall i | 1 <= i < |longer| ensures Linked(c.format, longer, i) {
        if i < last { assert Linked(c.format, chain, i) && longer[i] == chain[i] && longer[i - 1] == chain[i - 1]; }
      }
    } else {
      assert !Linked(c.format, longer, last);
    }
  }

  // ----- conservation -----

  predicate Mentions(addresses: set<Address>, txs: seq<Transaction>) {
    forall t :: t in txs ==> t.from in addresses && t.to in addresses
  }

  predicate MentionsAll(addresses: set<Address>, chain: seq<Block>) {
    forall b :: b in chain ==> Mentions(addresses, b.transactions)
  }

  /** The balances of a set of addresses added up. */
  ghost function Holdings(chain: seq<Block>, addresses: set<Address>): int {
    if addresses == {} then 0
    else
      var a :| a in addresses;
      Balance(chain, a) + Holdings(chain, addresses - {a})
  }

  /** What a list of transactions moves into a set of addresses. */
  function Inflow(txs: seq<Transaction>, addresses: set<Address>): int {
    if txs == [] then 0
    else
      var t := txs[|txs| - 1];
      Inflow(txs[..|txs| - 1], addresses)
      + (if t.to in addresses then t.amount else 0) - (if t.from in addresses then t.amount else 0)
  }

  function ChainInflow(chain: seq<Block>, addresses: set<Address>): int {
    if chain == [] then 0
    else ChainInflow(chain[..|chain| - 1], addresses) + Inflow(chain[|chain| - 1].transactions, addresses)
  }

  lemma {:induction false} InflowSplits(txs: seq<Transaction>, addresses: set<Address>, a: Address)
    requires a in addresses
    ensures Inflow(txs, addresses) == Net(txs, a) + Inflow(txs, addresses - {a})
  {
    if txs != [] { InflowSplits(txs[..|txs| - 1], addresses, a); }
  }

  lemma {:induction false} ChainInflowSplits(chain: seq<Block>, addresses: set<Address>, a: Address)
    requires a in addresses
    ensures ChainInflow(chain, addresses) == Balance(chain, a) + ChainInflow(chain, addresses - {a})
  {
    if chain != [] {
      ChainInflowSplits(chain[..|chain| - 1], addresses, a);
      InflowSplits(chain[|chain| - 1].transactions, addresses, a);
    }
  }

  lemma {:induction false} NothingFlowsIntoNobody(chain: seq<Block>)
    ensures ChainInflow(chain, {}) == 0
  {
    if chain != [] {
      NothingFlowsIntoNobody(chain[..|chain| - 1]);
      NoInflow(chain[|chain| - 1].transactions);
    }
  }

  lemma {:induction false} NoInflow(txs: seq<Transaction>)
    ensures Inflow(txs, {}) == 0
  {
    if txs != [] { NoInflow(txs[..|txs| - 1]); }
  }

  lemma {:induction false} HoldingsAreInflow(chain: seq<Block>, addresses: set<Address>)
    ensures Holdings(chain, addresses) == ChainInflow(chain, addresses)
  {
    if addresses == {} {
      NothingFlowsIntoNobody(chain);
    } else {
      var a :| a in addresses && Holdings(chain, addresses) == Balance(chain, a) + Holdings(chain, addresses - {a});
      HoldingsAreInflow(chain, addresses - {a});
      ChainInflowSplits(chain, addresses, a);
    }
  }

  lemma {:induction false} ClosedInflow(txs: seq<Transaction>, addresses: set<Address>)
    requires Mentions(addresses, txs)
    ensures Inflow(txs, addresses) == 0
  {
    if txs != [] { ClosedInflow(txs[..|txs| - 1], addresses); }
  }

  lemma {:induction false} ClosedChainInflow(chain: seq<Block>, addresses: set<Address>)
    requires MentionsAll(addresses, chain)
    ensures ChainInflow(chain, addresses) == 0
  {
    if chain != [] {
      ClosedChainInflow(chain[..|chain| - 1], addresses);
      ClosedInflow(chain[|chain| - 1].transactions, addresses);
    }
  }

  /** Over any chain at all, the balances of all the addresses it mentions, null included, cancel out. */
  lemma BalancesCancel(chain: seq<Block>, addresses: set<Address>)
    requires MentionsAll(addresses, chain)
    ensures Holdings(chain, addresses) == 0
  {
    HoldingsAreInflow(chain, addresses);
    ClosedChainInflow(chain, addresses);
  }

  // ----- the supply -----

  /** Only mining pays from the null address: users and miners are somebody. */
  predicate ByUsers(ops: seq<Op>) {
    forall op :: op in ops ==>
      if op.Create? then op.transaction.from != None && op.transaction.to != None else op.miner != None
  }

  function Minings(ops: seq<Op>): nat {
    if ops == [] then 0 else Minings(ops[..|ops| - 1]) + if ops[|ops| - 1].MineNext? then 1 else 0
  }

  lemma NetAppend(txs: seq<Transaction>, t: Transaction, a: Address)
    ensures Net(txs + [t], a) == Net(txs, a) + Delta(t, a)
  {
    assert (txs + [t])[..|txs|] == txs;
  }

  /** After k minings the network has paid k - 1 rewards, and one more is pending. */
  predicate Paid(reward: int, l: Ledger, k: nat) {
    && Net(l.pending, None) == (if k > 0 then -reward else 0)
    && Balance(l.chain, None) == (if k > 0 then -(reward * (k - 1)) else 0)
  }

  lemma CreateKeepsPaid(c: Config, l: Ledger, t: Transaction, n: Ledger, k: nat)
    requires Paid(c.reward, l, k) && Step(c, l, Create(t), n) && t.from != None && t.to != None
    ensures Paid(c.reward, n, k)
  {
    NetAppend(l.pending, t, None);
  }

  lemma MiningPays(c: Config, l: Ledger, miner: Address, n: Ledger, k: nat)
    requires Paid(c.reward, l, k) && Step(c, l, MineNext(miner), n) && miner != None
    ensures Paid(c.reward, n, k + 1)
  {
    NetAppend([], Transaction(None, miner, c.reward), None);
    assert [] + [Transaction(None, miner, c.reward)] == n.pending;
    MinedIsSound(c.format, c.difficulty, NextBlock(l, n.chain[|l.chain|].time), n.chain[|l.chain|]);
    BalanceExtends(l.chain, n.chain, None);
    assert k > 0 ==> c.reward * k == c.reward * (k - 1) + c.reward;
  }

  lemma BalanceExtends(chain: seq<Block>, longer: seq<Block>, a: Address)
    requires |longer| == |chain| + 1 && longer[..|chain|] == chain
    ensures Balance(longer, a) == Balance(chain, a) + Net(longer[|chain|].transactions, a)
  {
  }

  lemma NothingPaidYet(c: Config, l: Ledger)
    requires Initialized(c, [], l)
    ensures Paid(c.reward, l, 0)
  {
    MinedIsSound(c.format, c.difficulty, Block(0, l.chain[0].time, None, None, [], 0), l.chain[0]);
    BalanceExtends([], l.chain, None);
  }

  lemma RunPrefix(c: Config, pending: seq<Transaction>, ledgers: seq<Ledger>, ops: seq<Op>)
    requires Run(c, pending, ledgers, ops) && ops != [] && ByUsers(ops)
    ensures Run(c, pending, ledgers[..|ops|], ops[..|ops| - 1]) && ByUsers(ops[..|ops| - 1])
    ensures Step(c, ledgers[|ops| - 1], ops[|ops| - 1], ledgers[|ops|])
  {
  }

  lemma {:induction false} NetworkPays(c: Config, ledgers: seq<Ledger>, ops: seq<Op>)
    requires Run(c, [], ledgers, ops) && ByUsers(ops)
    ensures Paid(c.reward, ledgers[|ops|], Minings(ops))
    decreases |ops|
  {
    if ops == [] {
      NothingPaidYet(c, ledgers[0]);
    } else {
      var n := |ops| - 1;
      RunPrefix(c, [], ledgers, ops);
      NetworkPays(c, ledgers[..n + 1], ops[..n]);
      assert ops[n] in ops;
      match ops[n]
      case Create(t) => CreateKeepsPaid(c, ledgers[n], t, ledgers[n + 1], Minings(ops[..n]));
      case MineNext(miner) => MiningPays(c, ledgers[n], miner, ledgers[n + 1], Minings(ops[..n]));
    }
  }

  lemma HoldingsOfTheOthers(chain: seq<Block>, addresses: set<Address>)
    requires None in addresses && MentionsAll(addresses, chain)
    ensures Holdings(chain, addresses - {None}) == -Balance(chain, None)
  {
    ClosedChainInflow(chain, addresses);
    ChainInflowSplits(chain, addresses, None);
    HoldingsAreInflow(chain, addresses - {None});
  }

  /** After k >= 1 minings, the balances of everybody but the network add up to k - 1 rewards. */
  lemma SupplyIsOneRewardBehind(c: Config, ledgers: seq<Ledger>, ops: seq<Op>, addresses: set<Address>)
    requires Run(c, [], ledgers, ops) && ByUsers(ops) && Minings(ops) > 0
    requires None in addresses && MentionsAll(addresses, ledgers[|ops|].chain)
    ensures Holdings(ledgers[|ops|].chain, addresses - {None}) == c.reward * (Minings(ops) - 1)
  {
    NetworkPays(c, ledgers, ops);
    HoldingsOfTheOthers(ledgers[|ops|].chain, addresses);
  }
}
