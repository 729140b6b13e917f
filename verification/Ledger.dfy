/** Blocks, chains and balances as values: what the blockchain objects hold, and what their checks say. */
module Ledger {
  import opened Options

  /** An address is null for the network that pays rewards. */
  type Address = Option<string>

  datatype Transaction = Transaction(from: Address, to: Address, amount: int)

  datatype Block = Block(index: int, time: int, previousHash: Option<string>, hash: Option<string>,
                         transactions: seq<Transaction>, nonce: int)

  /** The parts of hashing this model does not look into: how a time stamp, a list of transactions and a
      number are printed, and the digest of a text. */
  datatype Format = Format(stamp: int -> string, json: seq<Transaction> -> string, number: int -> string,
                           digest: string -> string)

  const DIGEST_LENGTH := 44

  /** What a digest looks like, and the empty text of a missing hash: seven-bit characters, none of them
      a separator or a bracket. */
  predicate Plain(s: string) {
    forall ch :: ch in s ==> ch != '-' && ch != '[' && ch < 128 as char
  }

  ghost predicate GoodFormat(f: Format) {
    && (forall t :: '[' !in f.stamp(t))
    && (forall txs :: |f.json(txs)| > 0 && f.json(txs)[0] == '[')
    && (forall p :: |f.digest(p)| == DIGEST_LENGTH && Plain(f.digest(p)))
  }

  /** Two texts with one digest. A digest of bounded length must have some, so what follows only asks
      that the texts at hand are not among them. */
  predicate Collide(f: Format, p: string, q: string) {
    p != q && f.digest(p) == f.digest(q)
  }

  function Text(hash: Option<string>): string {
    if hash.Some? then hash.value else ""
  }

  /** `Encoding.ASCII`: every other character becomes a question mark. */
  function Ascii(s: string): (r: string)
    ensures |r| == |s| && forall i :: 0 <= i < |s| ==> r[i] == if s[i] < 128 as char then s[i] else '?'
  {
    seq(|s|, i requires 0 <= i < |s| => if s[i] < 128 as char then s[i] else '?')
  }

  /** The text that is hashed. The index is not part of it. */
  function Preimage(f: Format, b: Block): string {
    f.stamp(b.time) + "-" + Text(b.previousHash) + "-" + f.json(b.transactions) + "-" + f.number(b.nonce)
  }

  function HashedText(f: Format, b: Block): string {
    Ascii(Preimage(f, b))
  }

  function Hash(f: Format, b: Block): string {
    f.digest(HashedText(f, b))
  }

  predicate ZeroPrefix(h: string, difficulty: nat) {
    difficulty <= |h| && forall i :: 0 <= i < difficulty ==> h[i] == '0'
  }

  /** Does a nonce give the block a hash with the zero prefix? */
  predicate Good(f: Format, difficulty: nat, b: Block, nonce: int) {
    ZeroPrefix(Hash(f, b.(nonce := nonce)), difficulty)
  }

  /** Mining a block: the first good nonce past the block's own. */
  ghost predicate Mined(f: Format, difficulty: nat, b: Block, m: Block) {
    && b.nonce < m.nonce && Good(f, difficulty, b, m.nonce)
    && (forall n :: b.nonce < n < m.nonce ==> !Good(f, difficulty, b, n))
    && m == b.(nonce := m.nonce, hash := Some(Hash(f, b.(nonce := m.nonce))))
  }

  /** A hash that already has the prefix; mining leaves such a block as it is, whatever it contains. */
  predicate HasPrefix(difficulty: nat, b: Block) {
    b.hash.Some? && ZeroPrefix(b.hash.value, difficulty)
  }

  ghost predicate MinedFrom(f: Format, difficulty: nat, b: Block, m: Block) {
    if HasPrefix(difficulty, b) then m == b else Mined(f, difficulty, b, m)
  }

  /** `IsValid`: the genesis block itself is not checked. */
  predicate Linked(f: Format, chain: seq<Block>, i: nat)
    requires 0 < i < |chain|
  {
    chain[i].hash == Some(Hash(f, chain[i])) && chain[i].previousHash == chain[i - 1].hash
  }

  predicate IsValid(f: Format, chain: seq<Block>) {
    forall i :: 1 <= i < |chain| ==> Linked(f, chain, i)
  }

  function Delta(t: Transaction, a: Address): int {
    (if t.to == a then t.amount else 0) - (if t.from == a then t.amount else 0)
  }

  function Net(txs: seq<Transaction>, a: Address): int {
    if txs == [] then 0 else Net(txs[..|txs| - 1], a) + Delta(txs[|txs| - 1], a)
  }

  function Balance(chain: seq<Block>, a: Address): int {
    if chain == [] then 0 else Balance(chain[..|chain| - 1], a) + Net(chain[|chain| - 1].transactions, a)
  }

  // ----- a node's ledger and its steps -----

  datatype Ledger = Ledger(chain: seq<Block>, pending: seq<Transaction>)

  datatype Config = Config(format: Format, difficulty: nat, reward: int)

  ghost predicate GoodConfig(c: Config) {
    GoodFormat(c.format) && c.difficulty <= DIGEST_LENGTH
  }

  datatype Op = Create(transaction: Transaction) | MineNext(miner: Address)

  ghost predicate Initialized(c: Config, pending: seq<Transaction>, l: Ledger) {
    && |l.chain| == 1 && l.pending == []
    && Mined(c.format, c.difficulty, Block(0, l.chain[0].time, None, None, pending, 0), l.chain[0])
  }

  /** A block linked behind the latest one. */
  function NextOf(latest: Block, b: Block): Block {
    b.(index := latest.index + 1, previousHash := latest.hash)
  }

  /** The block a mining step starts from. */
  function NextBlock(l: Ledger, time: int): Block
    requires l.chain != []
  {
    var latest := l.chain[|l.chain| - 1];
    Block(latest.index + 1, time, latest.hash, None, l.pending, 0)
  }

  ghost predicate Step(c: Config, l: Ledger, op: Op, n: Ledger) {
    match op
    case Create(t) => n == l.(pending := l.pending + [t])
    case MineNext(miner) =>
      && l.chain != [] && |n.chain| == |l.chain| + 1 && n.chain[..|l.chain|] == l.chain
      && Mined(c.format, c.difficulty, NextBlock(l, n.chain[|l.chain|].time), n.chain[|l.chain|])
      && n.pending == [Transaction(None, miner, c.reward)]
  }
}
