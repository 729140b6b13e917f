/** What the hashes of a valid chain pin down, and what they leave open to change. */
module TamperEvidence {
  import opened Ledger
  import opened Options

  /** Two hashed texts that read the same name the same previous hash: the first bracket ends the time
      stamp and the previous hash, and the last separator before it but one divides them. */
  lemma TextTellsPreviousHash(s1: string, v1: string, j1: string, s2: string, v2: string, j2: string)
    requires '[' !in s1 && '[' !in s2 && Plain(v1) && Plain(v2)
    requires j1 != "" && j1[0] == '[' && j2 != "" && j2[0] == '['
    requires s1 + "-" + v1 + "-" + j1 == s2 + "-" + v2 + "-" + j2
    ensures s1 == s2 && v1 == v2 && j1 == j2
  {
    var p1, p2 := s1 + "-" + v1 + "-", s2 + "-" + v2 + "-";
    assert p1 + j1 == p2 + j2;
    BracketAfter(p1, j1);
    BracketAfter(p2, j2);
    assert p1 == (p1 + j1)[..|p1|] == (p2 + j2)[..|p2|] == p2;
    if |s1| < |s2| { SeparatorInHash(s1, v1, s2, v2); }
    if |s2| < |s1| { SeparatorInHash(s2, v2, s1, v1); }
    assert s1 == p1[..|s1|] && s2 == p2[..|s2|];
    assert v1 == p1[|s1| + 1..|p1| - 1] && v2 == p2[|s2| + 1..|p2| - 1];
    assert j1 == (p1 + j1)[|p1|..] && j2 == (p2 + j2)[|p2|..];
  }

  function FirstBracket(s: string): nat {
    if s == "" || s[0] == '[' then 0 else 1 + FirstBracket(s[1..])
  }

  lemma {:induction false} BracketAfter(p: string, j: string)
    requires '[' !in p && j != "" && j[0] == '['
    ensures FirstBracket(p + j) == |p|
  {
    if p == "" {
      assert p + j == j;
    } else {
      assert p[0] in p && forall ch :: ch in p[1..] ==> ch in p;
      BracketAfter(p[1..], j);
      assert (p + j)[1..] == p[1..] + j;
    }
  }

  lemma SeparatorInHash(s1: string, v1: string, s2: string, v2: string)
    requires |s1| < |s2| && s1 + "-" + v1 + "-" == s2 + "-" + v2 + "-"
    ensures !Plain(v1)
  {
    var at := |s2| - |s1| - 1;
    assert (s2 + "-" + v2 + "-")[|s2|] == '-';
    assert (s1 + "-" + v1 + "-")[|s2|] == v1[at];
    assert v1[at] in v1;
  }

  lemma AsciiConcat(a: string, b: string)
    ensures Ascii(a + b) == Ascii(a) + Ascii(b)
  {
  }

  lemma AsciiPlain(v: string)
    requires Plain(v)
    ensures Ascii(v) == v
  {
    forall i | 0 <= i < |v| ensures Ascii(v)[i] == v[i] { assert v[i] in v; }
  }

  lemma AsciiKeepsBracketsOut(s: string)
    requires '[' !in s
    ensures '[' !in Ascii(s)
  {
    forall i | 0 <= i < |s| ensures Ascii(s)[i] != '[' { assert s[i] in s; }
  }

  /** The hashed text of a block in its parts. */
  lemma PreimageParts(f: Format, b: Block)
    requires GoodFormat(f) && Plain(Text(b.previousHash))
    ensures var rest := f.json(b.transactions) + "-" + f.number(b.nonce);
      && HashedText(f, b) == Ascii(f.stamp(b.time)) + "-" + Text(b.previousHash) + "-" + Ascii(rest)
      && Ascii(rest) != "" && Ascii(rest)[0] == '[' && '[' !in Ascii(f.stamp(b.time))
  {
    var s, v, rest := f.stamp(b.time), Text(b.previousHash), f.json(b.transactions) + "-" + f.number(b.nonce);
    assert Preimage(f, b) == s + "-" + v + "-" + rest;
    AsciiConcat(s + "-" + v + "-", rest);
    AsciiConcat(s + "-" + v, "-");
    AsciiConcat(s + "-", v);
    AsciiConcat(s, "-");
    AsciiPlain(v);
    AsciiKeepsBracketsOut(s);
    assert Ascii("-") == "-";
  }

  /** Without a collision, equal hashes mean equal hashed texts, and those name the same previous hash. */
  lemma SameHashSamePrevious(f: Format, a: Block, b: Block)
    requires GoodFormat(f) && Hash(f, a) == Hash(f, b) && !Collide(f, HashedText(f, a), HashedText(f, b))
    requires Plain(Text(a.previousHash)) && Plain(Text(b.previousHash))
    ensures HashedText(f, a) == HashedText(f, b) && Text(a.previousHash) == Text(b.previousHash)
  {
    PreimageParts(f, a);
    PreimageParts(f, b);
    TextTellsPreviousHash(
      Ascii(f.stamp(a.time)), Text(a.previousHash), Ascii(f.json(a.transactions) + "-" + f.number(a.nonce)),
      Ascii(f.stamp(b.time)), Text(b.previousHash), Ascii(f.json(b.transactions) + "-" + f.number(b.nonce)));
  }

  lemma HashesArePlain(f: Format, chain: seq<Block>, i: nat)
    requires GoodFormat(f) && IsValid(f, chain) && 0 < i < |chain|
    ensures Plain(Text(chain[i].hash))
  {
    assert Linked(f, chain, i);
  }

  /** No two blocks at one position of the two chains, from 1 on, have colliding texts. */
  predicate NoCollision(f: Format, a: seq<Block>, b: seq<Block>)
    requires |a| == |b|
  {
    forall i :: 1 <= i < |a| ==> !Collide(f, HashedText(f, a[i]), HashedText(f, b[i]))
  }

  /** Two valid chains of one length with the same last hash agree on the hash and the hashed text of every
      block but the genesis block, whatever those two are. */
  lemma {:induction false} LastHashPinsTheChain(f: Format, a: seq<Block>, b: seq<Block>, i: nat)
    requires GoodFormat(f) && IsValid(f, a) && IsValid(f, b)
    requires 0 < i < |a| == |b| && NoCollision(f, a, b)
    requires a[|a| - 1].hash == b[|b| - 1].hash
    ensures a[i].hash == b[i].hash && HashedText(f, a[i]) == HashedText(f, b[i])
    decreases |a| - i
  {
    assert Linked(f, a, i) && Linked(f, b, i);
    if i + 1 < |a| {
      LastHashPinsTheChain(f, a, b, i + 1);
      PreviousHashesAgree(f, a, b, i);
    }
    assert !Collide(f, HashedText(f, a[i]), HashedText(f, b[i]));
  }

  lemma PreviousHashesAgree(f: Format, a: seq<Block>, b: seq<Block>, i: nat)
    requires GoodFormat(f) && IsValid(f, a) && IsValid(f, b)
    requires i + 1 < |a| == |b| && NoCollision(f, a, b) && a[i + 1].hash == b[i + 1].hash
    requires i == 0 ==> Plain(Text(a[0].hash)) && Plain(Text(b[0].hash))
    ensures Text(a[i].hash) == Text(b[i].hash)
  {
    assert Linked(f, a, i + 1) && Linked(f, b, i + 1);
    if i > 0 {
      HashesArePlain(f, a, i);
      HashesArePlain(f, b, i);
    }
    SameHashSamePrevious(f, a[i + 1], b[i + 1]);
  }

  /** The genesis blocks, which nobody checks, carry the same hash too when both hashes look like digests. */
  lemma LastHashPinsTheGenesis(f: Format, a: seq<Block>, b: seq<Block>)
    requires GoodFormat(f) && IsValid(f, a) && IsValid(f, b)
    requires 1 < |a| == |b| && NoCollision(f, a, b)
    requires a[|a| - 1].hash == b[|b| - 1].hash
    requires Plain(Text(a[0].hash)) && Plain(Text(b[0].hash))
    ensures Text(a[0].hash) == Text(b[0].hash)
  {
    LastHashPinsTheChain(f, a, b, 1);
    PreviousHashesAgree(f, a, b, 0);
  }

  /** When one of the two genesis hashes looks like a digest, the other is the same exactly when it does too. */
  lemma GenesisIsPinnedExactly(f: Format, a: seq<Block>, b: seq<Block>)
    requires GoodFormat(f) && IsValid(f, a) && IsValid(f, b)
    requires 1 < |a| == |b| && NoCollision(f, a, b)
    requires a[|a| - 1].hash == b[|b| - 1].hash
    requires Plain(Text(a[0].hash))
    ensures Text(a[0].hash) == Text(b[0].hash) <==> Plain(Text(b[0].hash))
  {
    if Plain(Text(b[0].hash)) { LastHashPinsTheGenesis(f, a, b); }
  }

  /** A genesis hash that reads the same in ASCII can be put in its place, in the genesis block and in the block
      behind it, and every hash of the chain stays as it is. */
  lemma GenesisHashCanChange(f: Format, a: seq<Block>, hash: string)
    requires IsValid(f, a) && 1 < |a| && Ascii(hash) == Ascii(Text(a[0].hash))
    ensures var b := a[0 := a[0].(hash := Some(hash))][1 := a[1].(previousHash := Some(hash))];
      IsValid(f, b) && b[|b| - 1].hash == a[|a| - 1].hash && NoCollision(f, a, b) && Text(b[0].hash) == hash
  {
    var b := a[0 := a[0].(hash := Some(hash))][1 := a[1].(previousHash := Some(hash))];
    assert Linked(f, a, 1);
    SameAsciiSameText(f, a[1], hash);
    forall i | 1 <= i < |b| ensures Linked(f, b, i) { assert Linked(f, a, i); }
  }

  lemma SameAsciiSameText(f: Format, b: Block, hash: string)
    requires Ascii(hash) == Ascii(Text(b.previousHash))
    ensures HashedText(f, b.(previousHash := Some(hash))) == HashedText(f, b)
  {
    var s, rest, c := f.stamp(b.time) + "-", "-" + f.json(b.transactions) + "-" + f.number(b.nonce), b.(previousHash := Some(hash));
    assert Preimage(f, b) == s + Text(b.previousHash) + rest && Preimage(f, c) == s + hash + rest;
    AsciiConcat(s + Text(b.previousHash), rest);
    AsciiConcat(s, Text(b.previousHash));
    AsciiConcat(s + hash, rest);
    AsciiConcat(s, hash);
  }

  /** Whatever the format: two valid chains with the same last hash whose genesis hashes are a question mark and any
      one character outside ASCII. */
  lemma TwoGenesisHashes(f: Format, ch: char) returns (a: seq<Block>, b: seq<Block>)
    requires ch >= 128 as char
    ensures |a| == |b| == 2 && IsValid(f, a) && IsValid(f, b) && NoCollision(f, a, b) && a[1].hash == b[1].hash
    ensures Text(a[0].hash) == "?" && Text(b[0].hash) == [ch] && Plain("?") && !Plain([ch])
  {
    var next := Block(1, 0, Some("?"), None, [], 0);
    a := [Block(0, 0, None, Some("?"), [], 0), next.(hash := Some(Hash(f, next)))];
    assert Preimage(f, a[1]) == Preimage(f, next);
    assert Linked(f, a, 1);
    assert Ascii([ch]) == "?" == Ascii("?");
    GenesisHashCanChange(f, a, [ch]);
    b := a[0 := a[0].(hash := Some([ch]))][1 := a[1].(previousHash := Some([ch]))];
    assert ch in [ch];
  }

  // ----- what a change gets away with -----

  /** Replacing one block, and keeping its hash and previous hash, passes the check exactly when the
      hashed text still reads the same or collides with the old one. */
  lemma ReplacedBlockPassesExactly(f: Format, chain: seq<Block>, i: nat, b: Block)
    requires IsValid(f, chain) && 0 < i < |chain|
    requires b.hash == chain[i].hash && b.previousHash == chain[i].previousHash
    ensures IsValid(f, chain[i := b])
      <==> HashedText(f, b) == HashedText(f, chain[i]) || Collide(f, HashedText(f, b), HashedText(f, chain[i]))
  {
    var changed := chain[i := b];
    assert Linked(f, chain, i);
    if Hash(f, b) == Hash(f, chain[i]) {
      forall j | 1 <= j < |changed| ensures Linked(f, changed, j) { assert Linked(f, chain, j); }
    } else {
      assert !Linked(f, changed, i);
    }
  }

  lemma {:induction false} BracketBehind(s: string, rest: string)
    requires '[' !in s
    ensures FirstBracket(s + rest) == |s| + FirstBracket(rest)
  {
    if s == "" {
      assert s + rest == rest;
    } else {
      assert s[0] in s && forall ch :: ch in s[1..] ==> ch in s;
      BracketBehind(s[1..], rest);
      assert (s + rest)[1..] == s[1..] + rest;
    }
  }

  lemma {:induction false} BracketBefore(w: string, j1: string, j2: string)
    requires j1 != "" && j1[0] == '[' && j2 != "" && j2[0] == '['
    ensures FirstBracket(w + j1) == FirstBracket(w + j2)
  {
    if w == "" {
      assert w + j1 == j1 && w + j2 == j2;
    } else {
      BracketBefore(w[1..], j1, j2);
      assert (w + j1)[1..] == w[1..] + j1 && (w + j2)[1..] == w[1..] + j2;
    }
  }

  /** Around one and the same middle, whatever it is, two texts that read the same have the same two ends. */
  lemma SameEnds(s1: string, w: string, j1: string, s2: string, j2: string)
    requires '[' !in s1 && '[' !in s2
    requires j1 != "" && j1[0] == '[' && j2 != "" && j2[0] == '['
    requires s1 + (w + j1) == s2 + (w + j2)
    ensures s1 == s2 && j1 == j2
  {
    BracketBehind(s1, w + j1);
    BracketBehind(s2, w + j2);
    BracketBefore(w, j1, j2);
    assert s1 == (s1 + (w + j1))[..|s1|] && s2 == (s2 + (w + j2))[..|s2|];
    assert w + j1 == (s1 + (w + j1))[|s1|..] && w + j2 == (s2 + (w + j2))[|s2|..];
    assert j1 == (w + j1)[|w|..] && j2 == (w + j2)[|w|..];
  }

  function Rest(f: Format, b: Block): string { f.json(b.transactions) + "-" + f.number(b.nonce) }

  lemma HashedTextParts(f: Format, b: Block)
    requires GoodFormat(f)
    ensures HashedText(f, b) == Ascii(f.stamp(b.time)) + (Ascii("-" + Text(b.previousHash) + "-") + Ascii(Rest(f, b)))
    ensures Ascii(Rest(f, b)) != "" && Ascii(Rest(f, b))[0] == '[' && '[' !in Ascii(f.stamp(b.time))
  {
    var s, w, rest := f.stamp(b.time), "-" + Text(b.previousHash) + "-", Rest(f, b);
    assert Preimage(f, b) == s + (w + rest);
    AsciiConcat(s, w + rest);
    AsciiConcat(w, rest);
    AsciiKeepsBracketsOut(s);
  }

  /** What the hash of a block protects besides the previous hash, short of a collision: the printed time stamp, and
      the printed transactions and nonce together, each up to characters outside ASCII. Nothing else. */
  lemma ProtectedExactly(f: Format, chain: seq<Block>, i: nat, b: Block)
    requires GoodFormat(f) && IsValid(f, chain) && 0 < i < |chain|
    requires b.hash == chain[i].hash && b.previousHash == chain[i].previousHash
    requires !Collide(f, HashedText(f, b), HashedText(f, chain[i]))
    ensures IsValid(f, chain[i := b]) <==>
      Ascii(f.stamp(b.time)) == Ascii(f.stamp(chain[i].time)) && Ascii(Rest(f, b)) == Ascii(Rest(f, chain[i]))
  {
    ReplacedBlockPassesExactly(f, chain, i, b);
    HashedTextParts(f, b);
    HashedTextParts(f, chain[i]);
    if HashedText(f, b) == HashedText(f, chain[i]) {
      SameEnds(Ascii(f.stamp(b.time)), Ascii("-" + Text(b.previousHash) + "-"), Ascii(Rest(f, b)),
               Ascii(f.stamp(chain[i].time)), Ascii(Rest(f, chain[i])));
    }
  }

  /** The index of a block is not protected, and neither is a character outside ASCII. */
  lemma UnprotectedChanges(f: Format, chain: seq<Block>, i: nat, index: int, txs: seq<Transaction>)
    requires IsValid(f, chain) && 0 < i < |chain|
    requires Ascii(f.json(txs)) == Ascii(f.json(chain[i].transactions))
    ensures IsValid(f, chain[i := chain[i].(index := index)])
    ensures IsValid(f, chain[i := chain[i].(transactions := txs)])
  {
    var b, c := chain[i], chain[i].(transactions := txs);
    assert Preimage(f, b.(index := index)) == Preimage(f, b);
    ReplacedBlockPassesExactly(f, chain, i, b.(index := index));
    var front := f.stamp(b.time) + "-" + Text(b.previousHash) + "-";
    AsciiConcat(front + f.json(b.transactions), "-" + f.number(b.nonce));
    AsciiConcat(front, f.json(b.transactions));
    AsciiConcat(front + f.json(txs), "-" + f.number(b.nonce));
    AsciiConcat(front, f.json(txs));
    assert Preimage(f, b) == front + f.json(b.transactions) + ("-" + f.number(b.nonce));
    assert Preimage(f, c) == front + f.json(txs) + ("-" + f.number(b.nonce));
    ReplacedBlockPassesExactly(f, chain, i, c);
  }

  /** Everything in the genesis block but its hash can change. */
  lemma GenesisPassesExactly(f: Format, chain: seq<Block>, b: Block)
    requires IsValid(f, chain) && |chain| > 1
    ensures IsValid(f, chain[0 := b]) <==> b.hash == chain[0].hash
  {
    var changed := chain[0 := b];
    assert Linked(f, chain, 1);
    if b.hash == chain[0].hash {
      forall j | 1 <= j < |changed| ensures Linked(f, changed, j) { assert Linked(f, chain, j); }
    } else {
      assert !Linked(f, changed, 1);
    }
  }
}
