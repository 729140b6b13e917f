/** Where every transaction of a run is, in order, and what the balances make of it. */
module LedgerHistory {
  import opened Options
  import opened Ledger
  import opened LedgerProperties

  /** The transactions of a chain, block after block. */
  function MinedTransactions(chain: seq<Block>): seq<Transaction> {
    if chain == [] then [] else MinedTransactions(chain[..|chain| - 1]) + chain[|chain| - 1].transactions
  }

  /** What the operations bring in: each created transaction, and the reward of each mining to its miner. */
  function Entered(c: Config, ops: seq<Op>): seq<Transaction> {
    if ops == [] then []
    else
      Entered(c, ops[..|ops| - 1])
      + match ops[|ops| - 1] case Create(t) => [t] case MineNext(miner) => [Transaction(None, miner, c.reward)]
  }

  lemma MinedOneMore(chain: seq<Block>, longer: seq<Block>)
    requires |longer| == |chain| + 1 && longer[..|chain|] == chain
    ensures MinedTransactions(longer) == MinedTransactions(chain) + longer[|chain|].transactions
  {
  }

  /** Nothing is lost, added or reordered by a step. */
  lemma StepEnters(c: Config, l: Ledger, op: Op, n: Ledger)
    requires Step(c, l, op, n)
    ensures MinedTransactions(n.chain) + n.pending == MinedTransactions(l.chain) + l.pending
      + match op case Create(t) => [t] case MineNext(miner) => [Transaction(None, miner, c.reward)]
    ensures |n.chain| == |l.chain| + if op.MineNext? then 1 else 0
  {
    if op.MineNext? {
      MinedIsSound(c.format, c.difficulty, NextBlock(l, n.chain[|l.chain|].time), n.chain[|l.chain|]);
      MinedOneMore(l.chain, n.chain);
    }
  }

  lemma StartsWith(c: Config, pending: seq<Transaction>, l: Ledger)
    requires Initialized(c, pending, l)
    ensures MinedTransactions(l.chain) + l.pending == pending && |l.chain| == 1
  {
    MinedIsSound(c.format, c.difficulty, Block(0, l.chain[0].time, None, None, pending, 0), l.chain[0]);
    MinedOneMore([], l.chain);
  }

  /** In every run: the blocks one after the other, and then the pending list, hold exactly what was pending at the
      start and what came in since, in that order; every mining added one block. */
  lemma {:induction false} History(c: Config, pending: seq<Transaction>, ledgers: seq<Ledger>, ops: seq<Op>, n: nat)
    requires Run(c, pending, ledgers, ops) && n <= |ops|
    ensures MinedTransactions(ledgers[n].chain) + ledgers[n].pending == pending + Entered(c, ops[..n])
    ensures |ledgers[n].chain| == 1 + Minings(ops[..n])
  {
    if n == 0 {
      StartsWith(c, pending, ledgers[0]);
    } else {
      History(c, pending, ledgers, ops, n - 1);
      assert ops[..n][..n - 1] == ops[..n - 1];
      assert Step(c, ledgers[n - 1], ops[n - 1], ledgers[n - 1 + 1]);
      StepEnters(c, ledgers[n - 1], ops[n - 1], ledgers[n]);
    }
  }

  /** No transaction is lost or made up: each is there as often as it was pending at first, created and paid out. */
  lemma NothingIsLost(c: Config, pending: seq<Transaction>, ledgers: seq<Ledger>, ops: seq<Op>)
    requires Run(c, pending, ledgers, ops)
    ensures var l := ledgers[|ops|];
      multiset(MinedTransactions(l.chain)) + multiset(l.pending) == multiset(pending) + multiset(Entered(c, ops))
  {
    History(c, pending, ledgers, ops, |ops|);
    assert ops[..|ops|] == ops;
    var l := ledgers[|ops|];
    assert multiset(MinedTransactions(l.chain) + l.pending) == multiset(MinedTransactions(l.chain)) + multiset(l.pending);
    assert multiset(pending + Entered(c, ops)) == multiset(pending) + multiset(Entered(c, ops));
  }

  lemma EnteredConcat(c: Config, a: seq<Op>, b: seq<Op>)
    ensures Entered(c, a + b) == Entered(c, a) + Entered(c, b)
  {
    if b == [] {
      assert a + b == a;
    } else {
      assert (a + b)[..|a + b| - 1] == a + b[..|b| - 1];
      EnteredConcat(c, a, b[..|b| - 1]);
    }
  }

  /** Pending is what came in since the last mining, its reward first. */
  lemma {:induction false} PendingSinceTheLastMining(c: Config, pending: seq<Transaction>, ledgers: seq<Ledger>, ops: seq<Op>,
                                                     k: nat, n: nat)
    requires Run(c, pending, ledgers, ops) && k < n <= |ops| && ops[k].MineNext?
    requires forall i :: k < i < n ==> ops[i].Create?
    ensures ledgers[n].pending == Entered(c, ops[k..n])
  {
    assert Step(c, ledgers[n - 1], ops[n - 1], ledgers[n - 1 + 1]);
    assert ops[k..n][..n - k - 1] == ops[k..n - 1] && ops[k..n][n - k - 1] == ops[n - 1];
    if n > k + 1 {
      PendingSinceTheLastMining(c, pending, ledgers, ops, k, n - 1);
    } else {
      assert ops[k..n - 1] == [];
    }
  }

  // ----- balances -----

  lemma NetOne(t: Transaction, a: Address)
    ensures Net([t], a) == (if t.to == a then t.amount else 0) - (if t.from == a then t.amount else 0)
  {
    assert [t][..0] == [];
  }

  lemma {:induction false} NetConcat(x: seq<Transaction>, y: seq<Transaction>, a: Address)
    ensures Net(x + y, a) == Net(x, a) + Net(y, a)
  {
    if y == [] {
      assert x + y == x;
    } else {
      assert (x + y)[..|x + y| - 1] == x + y[..|y| - 1];
      NetConcat(x, y[..|y| - 1], a);
    }
  }

  lemma {:induction false} BalanceIsNet(chain: seq<Block>, a: Address)
    ensures Balance(chain, a) == Net(MinedTransactions(chain), a)
  {
    if chain != [] {
      BalanceIsNet(chain[..|chain| - 1], a);
      NetConcat(MinedTransactions(chain[..|chain| - 1]), chain[|chain| - 1].transactions, a);
    }
  }

  /** A balance is what all that came in moves to the address, less what is still pending. */
  lemma BalanceOfARun(c: Config, pending: seq<Transaction>, ledgers: seq<Ledger>, ops: seq<Op>, a: Address)
    requires Run(c, pending, ledgers, ops)
    ensures var l := ledgers[|ops|]; Balance(l.chain, a) == Net(pending, a) + Net(Entered(c, ops), a) - Net(l.pending, a)
  {
    var l := ledgers[|ops|];
    History(c, pending, ledgers, ops, |ops|);
    assert ops[..|ops|] == ops;
    BalanceIsNet(l.chain, a);
    NetConcat(MinedTransactions(l.chain), l.pending, a);
    NetConcat(pending, Entered(c, ops), a);
  }

  /** A user's transaction, mined: the receiver has gained the amount and the sender has lost it. */
  lemma TransferIsCounted(c: Config, ledgers: seq<Ledger>, t: Transaction, miner: Address, a: Address)
    requires Run(c, [], ledgers, [Create(t), MineNext(miner)])
    ensures MinedTransactions(ledgers[2].chain) == [t] && ledgers[2].pending == [Transaction(None, miner, c.reward)]
    ensures Balance(ledgers[2].chain, a) == (if t.to == a then t.amount else 0) - (if t.from == a then t.amount else 0)
  {
    var ops := [Create(t), MineNext(miner)];
    var reward := Transaction(None, miner, c.reward);
    assert Step(c, ledgers[1], ops[1], ledgers[1 + 1]);
    History(c, [], ledgers, ops, 2);
    assert ops[..2] == [Create(t)] + [MineNext(miner)];
    EnteredConcat(c, [Create(t)], [MineNext(miner)]);
    EnteredOne(c, Create(t));
    EnteredOne(c, MineNext(miner));
    LastAside(MinedTransactions(ledgers[2].chain), [t], reward);
    BalanceIsNet(ledgers[2].chain, a);
    NetOne(t, a);
  }

  lemma EnteredOne(c: Config, op: Op)
    ensures Entered(c, [op]) == match op case Create(t) => [t] case MineNext(miner) => [Transaction(None, miner, c.reward)]
  {
    assert [op][..0] == [];
  }

  lemma LastAside(x: seq<Transaction>, y: seq<Transaction>, t: Transaction)
    requires x + [t] == [] + (y + [t])
    ensures x == y
  {
    assert x == (x + [t])[..|x|] && y == (y + [t])[..|y|];
  }
}
