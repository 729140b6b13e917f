/** Which documents parse, what the dictionary then holds, and why tidy names never collide. */
module ConfigurationProperties {
  import opened Options
  import opened ConfigurationParser

  function KeyOf(f: Folding, visit: Visit): string
    requires visit.Leaf?
  {
    Fold(f, Join(visit.path))
  }

  /** Only supported tokens, and no two leaves under keys that differ at most in case. */
  predicate Parseable(f: Folding, visits: seq<Visit>) {
    && (forall i :: 0 <= i < |visits| ==> visits[i].Leaf?)
    && (forall i, j :: 0 <= i < j < |visits| ==> KeyOf(f, visits[i]) != KeyOf(f, visits[j]))
  }

  ghost function Keys(f: Folding, visits: seq<Visit>): set<string> {
    set i | 0 <= i < |visits| && visits[i].Leaf? :: KeyOf(f, visits[i])
  }

  predicate HasEntry(f: Folding, visit: Visit, d: Dictionary) {
    visit.Leaf? && KeyOf(f, visit) in d && d[KeyOf(f, visit)] == (Join(visit.path), visit.text)
  }

  /** The dictionary of the leaves: one entry each, and nothing more. */
  ghost predicate Holds(f: Folding, visits: seq<Visit>, d: Dictionary) {
    && |d| == |visits| && d.Keys == Keys(f, visits)
    && forall i :: 0 <= i < |visits| ==> HasEntry(f, visits[i], d)
  }

  /** After any prefix of the walk: filled exactly when the prefix is parseable, and then holding it. */
  lemma {:induction false} AddAllExactly(f: Folding, visits: seq<Visit>)
    ensures AddAll(f, map[], visits).Filled? <==> Parseable(f, visits)
    ensures AddAll(f, map[], visits).Filled? ==> Holds(f, visits, AddAll(f, map[], visits).dictionary)
    decreases |visits|
  {
    if visits != [] {
      var n := |visits| - 1;
      var front, last := visits[..n], visits[n];
      AddAllExactly(f, front);
      assert visits == front + [last];
      AddAllSplits(f, map[], front, [last]);
      var before := AddAll(f, map[], front);
      if before.Filled? {
        AddOne(f, before.dictionary, last);
        AddStep(f, front, before.dictionary, last);
      } else {
        if Parseable(f, visits) { ParseablePrefix(f, front, last); }
      }
    }
  }

  lemma AddOne(f: Folding, d: Dictionary, visit: Visit)
    ensures AddAll(f, d, [visit]) == Add(f, d, visit)
  {
    assert [visit][1..] == [];
  }

  lemma ParseablePrefix(f: Folding, front: seq<Visit>, last: Visit)
    requires Parseable(f, front + [last])
    ensures Parseable(f, front)
  {
    var visits := front + [last];
    assert forall i :: 0 <= i < |front| ==> front[i] == visits[i];
  }

  lemma AddStep(f: Folding, front: seq<Visit>, d: Dictionary, last: Visit)
    requires Parseable(f, front) && Holds(f, front, d)
    ensures Add(f, d, last).Filled? <==> Parseable(f, front + [last])
    ensures Add(f, d, last).Filled? ==> Holds(f, front + [last], Add(f, d, last).dictionary)
  {
    var visits := front + [last];
    assert visits[|front|] == last;
    if last.Leaf? {
      if KeyOf(f, last) in d {
        var i :| 0 <= i < |front| && front[i].Leaf? && KeyOf(f, last) == KeyOf(f, front[i]);
        assert visits[i] == front[i];
      } else {
        GrowParseable(f, front, last);
        GrowHolds(f, front, d, last, d[KeyOf(f, last) := (Join(last.path), last.text)]);
      }
    }
  }

  lemma GrowParseable(f: Folding, front: seq<Visit>, last: Visit)
    requires Parseable(f, front) && last.Leaf? && KeyOf(f, last) !in Keys(f, front)
    ensures Parseable(f, front + [last])
  {
  }

  lemma GrowHolds(f: Folding, front: seq<Visit>, d: Dictionary, last: Visit, grown: Dictionary)
    requires Holds(f, front, d) && last.Leaf? && KeyOf(f, last) !in d
    requires grown == d[KeyOf(f, last) := (Join(last.path), last.text)]
    ensures Holds(f, front + [last], grown)
  {
    var visits := front + [last];
    KeysGrow(f, front, last);
    assert grown.Keys == d.Keys + {KeyOf(f, last)};
    forall i | 0 <= i < |front| ensures HasEntry(f, visits[i], grown) {
      assert visits[i] == front[i] && HasEntry(f, front[i], d) && KeyOf(f, front[i]) != KeyOf(f, last);
    }
  }

  lemma KeysGrow(f: Folding, front: seq<Visit>, last: Visit)
    requires last.Leaf?
    ensures Keys(f, front + [last]) == Keys(f, front) + {KeyOf(f, last)}
  {
    var visits := front + [last];
    assert visits[|front|] == last && forall i :: 0 <= i < |front| ==> visits[i] == front[i];
  }

  /** A document parses exactly when every token in it is supported and no two leaf paths, joined, are
      equal ignoring case; the dictionary then has one entry for every leaf. */
  lemma ParsesExactly(f: Folding, document: seq<Member>)
    ensures var visits := MemberVisits([], document);
      && (Parsed(f, Some(document)).Filled? <==> Parseable(f, visits))
      && (Parsed(f, Some(document)).Filled? ==> Holds(f, visits, Parsed(f, Some(document)).dictionary))
  {
    AddAllExactly(f, MemberVisits([], document));
  }

  /** The error of a document that does not parse is that of the first visit that breaks it. */
  lemma {:induction false} FirstFailureIsReported(f: Folding, visits: seq<Visit>) returns (i: nat)
    requires AddAll(f, map[], visits).Failed?
    ensures i < |visits| && Parseable(f, visits[..i]) && !Parseable(f, visits[..i + 1])
    ensures AddAll(f, map[], visits).error
      == if visits[i].Leaf? then DuplicateKey(Join(visits[i].path)) else InvalidFormat
    decreases |visits|
  {
    var n := |visits| - 1;
    var front := visits[..n];
    assert visits == front + [visits[n]];
    AddAllSplits(f, map[], front, [visits[n]]);
    if AddAll(f, map[], front).Failed? {
      i := FirstFailureIsReported(f, front);
      assert front[..i] == visits[..i] && front[..i + 1] == visits[..i + 1];
    } else {
      i := n;
      LastFails(f, front, visits[n]);
      assert visits[..n + 1] == visits;
    }
  }

  lemma LastFails(f: Folding, front: seq<Visit>, last: Visit)
    requires AddAll(f, map[], front).Filled? && AddAll(f, map[], front + [last]).Failed?
    ensures Parseable(f, front) && !Parseable(f, front + [last])
    ensures AddAll(f, map[], front + [last]).error
      == if last.Leaf? then DuplicateKey(Join(last.path)) else InvalidFormat
  {
    AddAllExactly(f, front);
    AddAllExactly(f, front + [last]);
    AddAllSplits(f, map[], front, [last]);
    AddOne(f, AddAll(f, map[], front).dictionary, last);
  }

  // ----- tidy names -----

  /** Case folding leaves the separator alone, in both directions, and tells digits apart. */
  ghost predicate GoodFolding(f: Folding) {
    && (forall c :: f(c) == ':' <==> c == ':')
    && (forall c, d :: '0' <= c <= '9' && '0' <= d <= '9' && f(c) == f(d) ==> c == d)
  }

  predicate ColonFree(name: string) { ':' !in name }

  predicate DistinctNames(f: Folding, members: seq<Member>) {
    forall i, j :: 0 <= i < j < |members| ==> Fold(f, members[i].name) != Fold(f, members[j].name)
  }

  /** No name in the token has a colon, and no two siblings' names differ only in case. */
  predicate Tidy(f: Folding, token: Token)
    decreases token, 0
  {
    match token
    case Object(properties) => TidyMembers(f, properties)
    case Array(items) => forall i :: 0 <= i < |items| ==> Tidy(f, items[i])
    case Value(_, _) => true
  }

  predicate TidyMembers(f: Folding, members: seq<Member>)
    decreases members, 1
  {
    && DistinctNames(f, members)
    && forall i :: 0 <= i < |members| ==> ColonFree(members[i].name) && Tidy(f, members[i].value)
  }

  function FoldPath(f: Folding, path: seq<string>): (r: seq<string>)
    ensures |r| == |path| && forall i :: 0 <= i < |path| ==> r[i] == Fold(f, path[i])
  {
    seq(|path|, i requires 0 <= i < |path| => Fold(f, path[i]))
  }

  predicate ColonFreePath(path: seq<string>) {
    forall i :: 0 <= i < |path| ==> ColonFree(path[i])
  }

  lemma {:induction false} FoldJoin(f: Folding, path: seq<string>)
    requires GoodFolding(f)
    ensures Fold(f, Join(path)) == Join(FoldPath(f, path))
  {
    if |path| > 1 {
      FoldJoin(f, path[1..]);
      assert FoldPath(f, path)[1..] == FoldPath(f, path[1..]);
      assert Fold(f, path[0] + ":" + Join(path[1..])) == Fold(f, path[0]) + ":" + Fold(f, Join(path[1..]));
    }
  }

  lemma FoldColonFree(f: Folding, name: string)
    requires GoodFolding(f) && ColonFree(name)
    ensures ColonFree(Fold(f, name))
  {
    forall i | 0 <= i < |name| ensures Fold(f, name)[i] != ':' { assert name[i] in name; }
  }

  /** Names without colons can be read off the joined path. */
  lemma {:induction false} JoinIsInjective(p: seq<string>, q: seq<string>)
    requires p != [] && q != [] && ColonFreePath(p) && ColonFreePath(q) && Join(p) == Join(q)
    ensures p == q
    decreases |p| + |q|
  {
    HeadOfJoin(p);
    HeadOfJoin(q);
    if |p| > 1 {
      TailOfJoin(p, q);
      JoinIsInjective(p[1..], q[1..]);
      assert p == [p[0]] + p[1..] && q == [q[0]] + q[1..];
    }
  }

  function Head(s: string): string {
    if s == "" || s[0] == ':' then "" else [s[0]] + Head(s[1..])
  }

  lemma {:induction false} HeadBefore(name: string, rest: string)
    requires ColonFree(name) && (rest == "" || rest[0] == ':')
    ensures Head(name + rest) == name
  {
    if name == "" {
      assert name + rest == rest;
    } else {
      assert name[0] in name && forall c :: c in name[1..] ==> c in name;
      HeadBefore(name[1..], rest);
      assert (name + rest)[1..] == name[1..] + rest;
    }
  }

  lemma HeadOfJoin(p: seq<string>)
    requires p != [] && ColonFreePath(p)
    ensures Head(Join(p)) == p[0] && (|Join(p)| == |p[0]| <==> |p| == 1)
  {
    var rest := if |p| == 1 then "" else ":" + Join(p[1..]);
    assert Join(p) == p[0] + rest;
    HeadBefore(p[0], rest);
  }

  lemma TailOfJoin(p: seq<string>, q: seq<string>)
    requires |p| > 1 && |q| > 1 && p[0] == q[0] && Join(p) == Join(q)
    ensures Join(p[1..]) == Join(q[1..])
  {
    assert Join(p[1..]) == Join(p)[|p[0]| + 1..];
    assert Join(q[1..]) == Join(q)[|q[0]| + 1..];
  }

  lemma {:induction false} DecimalIsDigits(n: nat)
    ensures Decimal(n) != "" && forall c :: c in Decimal(n) ==> '0' <= c <= '9'
  {
    if n >= 10 { DecimalIsDigits(n / 10); }
  }

  lemma {:induction false} DecimalIsInjective(f: Folding, m: nat, n: nat)
    requires GoodFolding(f) && Fold(f, Decimal(m)) == Fold(f, Decimal(n))
    ensures m == n
  {
    var a, b := Decimal(m), Decimal(n);
    DecimalIsDigits(m);
    DecimalIsDigits(n);
    assert |a| == |b| by { assert |Fold(f, a)| == |Fold(f, b)|; }
    var last := |a| - 1;
    assert f(a[last]) == Fold(f, a)[last] == Fold(f, b)[last] == f(b[last]);
    assert a[last] in a && b[last] in b;
    assert m % 10 == n % 10;
    DecimalLength(m);
    DecimalLength(n);
    if m >= 10 {
      assert a[..last] == Decimal(m / 10) && b[..last] == Decimal(n / 10);
      assert Fold(f, a[..last]) == Fold(f, a)[..last] == Fold(f, b)[..last] == Fold(f, b[..last]);
      DecimalIsInjective(f, m / 10, n / 10);
    }
  }

  lemma DecimalLength(n: nat)
    ensures |Decimal(n)| == 1 <==> n < 10
  {
    if n >= 10 { DecimalIsDigits(n / 10); }
  }

  // ----- paths of a tidy token -----

  /** The leaf paths run through `path` and have no colon in them. */
  predicate Below(path: seq<string>, visits: seq<Visit>) {
    forall i :: 0 <= i < |visits| && visits[i].Leaf? ==> path <= visits[i].path && ColonFreePath(visits[i].path)
  }

  predicate DistinctPaths(f: Folding, visits: seq<Visit>) {
    forall i, j :: 0 <= i < j < |visits| && visits[i].Leaf? && visits[j].Leaf? ==>
      FoldPath(f, visits[i].path) != FoldPath(f, visits[j].path)
  }

  /** Each leaf path continues `path` with one of the names. */
  predicate Through(f: Folding, path: seq<string>, names: set<string>, visits: seq<Visit>) {
    forall i :: 0 <= i < |visits| && visits[i].Leaf? ==>
      && |visits[i].path| > |path| && path <= visits[i].path && ColonFreePath(visits[i].path)
      && Fold(f, visits[i].path[|path|]) in names
  }

  /** Adding the visits of one more sibling, under a name not seen yet. */
  lemma OneMoreSibling(f: Folding, path: seq<string>, names: set<string>, before: seq<Visit>, name: string, more: seq<Visit>)
    requires Through(f, path, names, before) && DistinctPaths(f, before)
    requires Below(path + [name], more) && DistinctPaths(f, more)
    requires Fold(f, name) !in names
    ensures Through(f, path, names + {Fold(f, name)}, before + more) && DistinctPaths(f, before + more)
  {
    forall j | 0 <= j < |more| && more[j].Leaf? ensures |more[j].path| > |path| && path <= more[j].path && more[j].path[|path|] == name {
      assert (path + [name])[|path|] == name;
    }
    var all := before + more;
    forall i, j | 0 <= i < j < |all| && all[i].Leaf? && all[j].Leaf?
      ensures FoldPath(f, all[i].path) != FoldPath(f, all[j].path)
    {
      if i < |before| <= j {
        assert FoldPath(f, all[i].path)[|path|] in names && FoldPath(f, all[j].path)[|path|] == Fold(f, name);
      } else if |before| <= i {
        assert all[i] == more[i - |before|] && all[j] == more[j - |before|];
      }
    }
  }

  ghost function MemberNames(f: Folding, members: seq<Member>): set<string> {
    set i | 0 <= i < |members| :: Fold(f, members[i].name)
  }

  ghost function IndexNames(f: Folding, n: nat): set<string> {
    set i | 0 <= i < n :: Fold(f, Decimal(i))
  }

  lemma {:induction false} TidyToken(f: Folding, path: seq<string>, token: Token)
    requires GoodFolding(f) && Tidy(f, token) && ColonFreePath(path)
    ensures Below(path, Visits(path, token)) && DistinctPaths(f, Visits(path, token))
    decreases token, 0
  {
    match token
    case Object(properties) => TidyObject(f, path, properties);
    case Array(items) => TidyArray(f, path, items);
    case Value(_, _) =>
  }

  lemma {:induction false} TidyObject(f: Folding, path: seq<string>, members: seq<Member>)
    requires GoodFolding(f) && TidyMembers(f, members) && ColonFreePath(path)
    ensures Through(f, path, MemberNames(f, members), MemberVisits(path, members))
    ensures DistinctPaths(f, MemberVisits(path, members))
    decreases members, 1
  {
    if members != [] {
      var n := |members| - 1;
      var front, last := members[..n], members[n];
      TidyObject(f, path, front);
      TidyToken(f, path + [last.name], last.value);
      assert Fold(f, last.name) !in MemberNames(f, front);
      OneMoreSibling(f, path, MemberNames(f, front), MemberVisits(path, front), last.name, Visits(path + [last.name], last.value));
      assert MemberNames(f, members) == MemberNames(f, front) + {Fold(f, last.name)} by {
        assert forall i :: 0 <= i < n ==> front[i] == members[i];
      }
    }
  }

  lemma {:induction false} TidyArray(f: Folding, path: seq<string>, items: seq<Token>)
    requires GoodFolding(f) && (forall i :: 0 <= i < |items| ==> Tidy(f, items[i])) && ColonFreePath(path)
    ensures Through(f, path, IndexNames(f, |items|), ItemVisits(path, items))
    ensures DistinctPaths(f, ItemVisits(path, items))
    decreases items, 1
  {
    if items != [] {
      var n := |items| - 1;
      TidyArray(f, path, items[..n]);
      DecimalIsDigits(n);
      TidyToken(f, path + [Decimal(n)], items[n]);
      forall i | 0 <= i < n ensures Fold(f, Decimal(i)) != Fold(f, Decimal(n)) {
        if Fold(f, Decimal(i)) == Fold(f, Decimal(n)) { DecimalIsInjective(f, i, n); }
      }
      OneMoreSibling(f, path, IndexNames(f, n), ItemVisits(path, items[..n]), Decimal(n), Visits(path + [Decimal(n)], items[n]));
      assert IndexNames(f, |items|) == IndexNames(f, n) + {Fold(f, Decimal(n))};
    }
  }

  /** Names without colons, distinct among siblings ignoring case, never raise "Duplicate key": such a
      document parses exactly when every token in it is supported, and the only error it can have is that one
      is not. */
  lemma TidyNamesNeverCollide(f: Folding, document: seq<Member>)
    requires GoodFolding(f) && TidyMembers(f, document)
    ensures Parsed(f, Some(document)).Filled?
      <==> forall i :: 0 <= i < |MemberVisits([], document)| ==> MemberVisits([], document)[i].Leaf?
    ensures Parsed(f, Some(document)).Failed? ==> Parsed(f, Some(document)).error == InvalidFormat
  {
    var visits := MemberVisits([], document);
    ParsesExactly(f, document);
    TidyKeysDiffer(f, document);
    if Parsed(f, Some(document)).Failed? {
      var i := FirstFailureIsReported(f, visits);
      if visits[i].Leaf? { OneMoreLeaf(f, visits, i); }
    }
  }

  /** No two leaves of a tidy document have keys equal ignoring case. */
  lemma TidyKeysDiffer(f: Folding, document: seq<Member>)
    requires GoodFolding(f) && TidyMembers(f, document)
    ensures KeysDistinct(f, MemberVisits([], document))
  {
    var visits := MemberVisits([], document);
    TidyObject(f, [], document);
    forall i, j | 0 <= i < j < |visits| && visits[i].Leaf? && visits[j].Leaf?
      ensures KeyOf(f, visits[i]) != KeyOf(f, visits[j])
    {
      KeysDiffer(f, visits[i].path, visits[j].path);
    }
  }

  predicate KeysDistinct(f: Folding, visits: seq<Visit>) {
    forall i, j :: 0 <= i < j < |visits| && visits[i].Leaf? && visits[j].Leaf? ==>
      KeyOf(f, visits[i]) != KeyOf(f, visits[j])
  }

  lemma OneMoreLeaf(f: Folding, visits: seq<Visit>, i: nat)
    requires KeysDistinct(f, visits) && i < |visits| && Parseable(f, visits[..i]) && visits[i].Leaf?
    ensures Parseable(f, visits[..i + 1])
  {
    assert forall j :: 0 <= j < i ==> visits[..i + 1][j] == visits[..i][j];
  }

  lemma KeysDiffer(f: Folding, p: seq<string>, q: seq<string>)
    requires GoodFolding(f) && p != [] && q != [] && ColonFreePath(p) && ColonFreePath(q)
    requires FoldPath(f, p) != FoldPath(f, q)
    ensures Fold(f, Join(p)) != Fold(f, Join(q))
  {
    FoldJoin(f, p);
    FoldJoin(f, q);
    forall i | 0 <= i < |p| ensures ColonFree(FoldPath(f, p)[i]) { FoldColonFree(f, p[i]); }
    forall i | 0 <= i < |q| ensures ColonFree(FoldPath(f, q)[i]) { FoldColonFree(f, q[i]); }
    if Join(FoldPath(f, p)) == Join(FoldPath(f, q)) { JoinIsInjective(FoldPath(f, p), FoldPath(f, q)); }
  }

  /** A colon in a name can collide with nesting: `{"a:b": x, "a": {"b": y}}` is rejected. */
  lemma ColonCollides(f: Folding, x: string, y: string, document: seq<Member>)
    requires document == [Member("a:b", Value(String, x)), Member("a", Object([Member("b", Value(String, y))]))]
    ensures Parsed(f, Some(document)) == Failed(DuplicateKey("a:b"))
  {
    var first, second := Leaf(["a:b"], x), Leaf(["a", "b"], y);
    CollidingVisits(x, y, document);
    assert Join(["a", "b"]) == "a:b" by { assert ["a", "b"][1..] == ["b"]; }
    AddOne(f, map[], first);
    assert [first, second] == [first] + [second];
    AddAllSplits(f, map[], [first], [second]);
    AddOne(f, Add(f, map[], first).dictionary, second);
  }

  lemma OneMember(path: seq<string>, members: seq<Member>, m: Member)
    ensures MemberVisits(path, members + [m]) == MemberVisits(path, members) + Visits(path + [m.name], m.value)
  {
    assert (members + [m])[..|members|] == members;
  }

  lemma CollidingVisits(x: string, y: string, document: seq<Member>)
    requires document == [Member("a:b", Value(String, x)), Member("a", Object([Member("b", Value(String, y))]))]
    ensures MemberVisits([], document) == [Leaf(["a:b"], x), Leaf(["a", "b"], y)]
  {
    var inner, outer := Member("b", Value(String, y)), Member("a:b", Value(String, x));
    OneMember(["a"], [], inner);
    assert [] + [inner] == [inner] && ["a"] + ["b"] == ["a", "b"];
    OneMember([], [], outer);
    assert [] + [outer] == [outer] && [] + ["a:b"] == ["a:b"];
    OneMember([], [outer], document[1]);
    assert [outer] + [document[1]] == document && [] + ["a"] == ["a"];
  }
}
