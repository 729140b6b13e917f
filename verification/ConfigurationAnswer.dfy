/** What a document parses to, said by following paths through it: by member names, and by numerals into arrays. */
module ConfigurationAnswer {
  import opened Options
  import opened ConfigurationParser
  import opened ConfigurationProperties

  /** The decimal numeral of a number: digits without a leading zero. */
  predicate IsNumeral(s: string, n: nat) {
    s != "" && (forall c :: c in s ==> '0' <= c <= '9') && (|s| > 1 ==> s[0] != '0') && NumeralValue(s) == n
  }

  function NumeralValue(s: string): int {
    if s == "" then 0 else 10 * NumeralValue(s[..|s| - 1]) + (s[|s| - 1] as int - '0' as int)
  }

  /** A token is reached from another by the names and numerals of a path. */
  ghost predicate Reaches(token: Token, path: seq<string>, target: Token)
    decreases |path|
  {
    if path == [] then token == target
    else
      match token
      case Object(properties) =>
        exists k :: 0 <= k < |properties| && properties[k].name == path[0] && Reaches(properties[k].value, path[1..], target)
      case Array(items) =>
        exists k :: 0 <= k < |items| && IsNumeral(path[0], k) && Reaches(items[k], path[1..], target)
      case Value(_, _) => false
  }

  /** The types whose values become entries. */
  predicate Stored(t: TokenType) {
    t == Integer || t == Float || t == String || t == Boolean || t == Bytes || t == Raw || t == Null
  }

  /** What a reached value is to the walk. */
  function VisitOf(path: seq<string>, t: TokenType, text: string): Visit {
    if Stored(t) then Leaf(path, text) else Unsupported
  }

  /** A value of one of the seven types is one entry to the walk, any other value an error. */
  lemma ValueIsVisited(path: seq<string>, t: TokenType, text: string)
    ensures Visits(path, Value(t, text))
      == if t in {Integer, Float, String, Boolean, Bytes, Raw, Null} then [Leaf(path, text)] else [Unsupported]
  {
  }

  // ----- numerals -----

  lemma {:induction false} DecimalIsNumeral(n: nat)
    ensures IsNumeral(Decimal(n), n) && (n > 0 ==> Decimal(n)[0] != '0')
  {
    DecimalIsDigits(n);
    if n >= 10 {
      DecimalIsNumeral(n / 10);
      var front := Decimal(n / 10);
      assert Decimal(n)[..|front|] == front;
    } else {
      assert Decimal(n)[..0] == "";
    }
  }

  lemma {:induction false} NumeralIsPositive(s: string)
    requires s != "" && (forall c :: c in s ==> '0' <= c <= '9')
    ensures NumeralValue(s) >= 0 && (s[0] != '0' ==> NumeralValue(s) > 0)
    ensures |s| > 1 && s[0] != '0' ==> NumeralValue(s) >= 10
  {
    var last := |s| - 1;
    assert s[last] in s;
    if last > 0 {
      assert s[..last][0] == s[0] && forall c :: c in s[..last] ==> c in s;
      NumeralIsPositive(s[..last]);
    } else {
      assert s[..last] == "";
    }
  }

  lemma {:induction false} NumeralIsDecimal(s: string, n: nat)
    requires IsNumeral(s, n)
    ensures s == Decimal(n)
  {
    var last := |s| - 1;
    var front, d := s[..last], s[last] as int - '0' as int;
    assert s[last] in s && s == front + [s[last]];
    if last == 0 {
      assert front == "";
    } else {
      assert front[0] == s[0] && forall c :: c in front ==> c in s;
      NumeralIsPositive(front);
      NumeralIsDecimal(front, NumeralValue(front));
      assert n / 10 == NumeralValue(front) && n % 10 == d;
    }
  }

  // ----- the walk meets what is reached -----

  lemma {:induction false} VisitIsReached(path: seq<string>, token: Token, i: nat)
    returns (rest: seq<string>, t: TokenType, text: string)
    requires i < |Visits(path, token)|
    ensures Reaches(token, rest, Value(t, text)) && Visits(path, token)[i] == VisitOf(path + rest, t, text)
    decreases token, 0
  {
    match token
    case Object(properties) => rest, t, text := MemberVisitIsReached(path, properties, i);
    case Array(items) => rest, t, text := ItemVisitIsReached(path, items, i);
    case Value(kind, value) =>
      rest, t, text := [], kind, value;
      assert path + [] == path;
  }

  lemma {:induction false} MemberVisitIsReached(path: seq<string>, members: seq<Member>, i: nat)
    returns (rest: seq<string>, t: TokenType, text: string)
    requires i < |MemberVisits(path, members)|
    ensures Reaches(Object(members), rest, Value(t, text)) && MemberVisits(path, members)[i] == VisitOf(path + rest, t, text)
    decreases members, 1
  {
    var n := |members| - 1;
    var front, last := MemberVisits(path, members[..n]), members[n];
    if i < |front| {
      rest, t, text := MemberVisitIsReached(path, members[..n], i);
      MoreMembersReach(members, n, rest, Value(t, text));
    } else {
      var below;
      below, t, text := VisitIsReached(path + [last.name], last.value, i - |front|);
      rest := [last.name] + below;
      assert rest[1..] == below && path + [last.name] + below == path + rest;
    }
  }

  lemma MoreMembersReach(members: seq<Member>, n: nat, rest: seq<string>, target: Token)
    requires n <= |members| && Reaches(Object(members[..n]), rest, target) && target.Value?
    ensures Reaches(Object(members), rest, target)
  {
    var k :| 0 <= k < n && members[..n][k].name == rest[0] && Reaches(members[..n][k].value, rest[1..], target);
    assert members[k].name == rest[0] && Reaches(members[k].value, rest[1..], target);
  }

  lemma {:induction false} ItemVisitIsReached(path: seq<string>, items: seq<Token>, i: nat)
    returns (rest: seq<string>, t: TokenType, text: string)
    requires i < |ItemVisits(path, items)|
    ensures Reaches(Array(items), rest, Value(t, text)) && ItemVisits(path, items)[i] == VisitOf(path + rest, t, text)
    decreases items, 1
  {
    var n := |items| - 1;
    var front := ItemVisits(path, items[..n]);
    if i < |front| {
      rest, t, text := ItemVisitIsReached(path, items[..n], i);
      MoreItemsReach(items, n, rest, Value(t, text));
    } else {
      var below;
      below, t, text := VisitIsReached(path + [Decimal(n)], items[n], i - |front|);
      rest := [Decimal(n)] + below;
      DecimalIsNumeral(n);
      assert rest[1..] == below && path + [Decimal(n)] + below == path + rest;
    }
  }

  lemma MoreItemsReach(items: seq<Token>, n: nat, rest: seq<string>, target: Token)
    requires n <= |items| && Reaches(Array(items[..n]), rest, target) && target.Value?
    ensures Reaches(Array(items), rest, target)
  {
    var k :| 0 <= k < n && IsNumeral(rest[0], k) && Reaches(items[..n][k], rest[1..], target);
    assert Reaches(items[k], rest[1..], target);
  }

  // ----- what is reached is met -----

  lemma Onward(path: seq<string>, rest: seq<string>)
    requires rest != []
    ensures path + [rest[0]] + rest[1..] == path + rest
  {
  }

  lemma {:induction false} ReachedIsVisited(path: seq<string>, token: Token, rest: seq<string>, t: TokenType, text: string)
    requires Reaches(token, rest, Value(t, text))
    ensures VisitOf(path + rest, t, text) in Visits(path, token)
    decreases |rest|
  {
    if rest == [] {
      assert path + [] == path;
    } else {
      match token
      case Object(properties) =>
        var k :| 0 <= k < |properties| && properties[k].name == rest[0] && Reaches(properties[k].value, rest[1..], Value(t, text));
        ReachedIsVisited(path + [rest[0]], properties[k].value, rest[1..], t, text);
        Onward(path, rest);
        MemberIsVisited(path, properties, k, VisitOf(path + rest, t, text));
      case Array(items) =>
        var k :| 0 <= k < |items| && IsNumeral(rest[0], k) && Reaches(items[k], rest[1..], Value(t, text));
        NumeralIsDecimal(rest[0], k);
        ReachedIsVisited(path + [rest[0]], items[k], rest[1..], t, text);
        Onward(path, rest);
        ItemIsVisited(path, items, k, VisitOf(path + rest, t, text));
    }
  }

  lemma {:induction false} MemberIsVisited(path: seq<string>, members: seq<Member>, k: nat, visit: Visit)
    requires k < |members| && visit in Visits(path + [members[k].name], members[k].value)
    ensures visit in MemberVisits(path, members)
  {
    var n := |members| - 1;
    if k < n { MemberIsVisited(path, members[..n], k, visit); }
  }

  lemma {:induction false} ItemIsVisited(path: seq<string>, items: seq<Token>, k: nat, visit: Visit)
    requires k < |items| && visit in Visits(path + [Decimal(k)], items[k])
    ensures visit in ItemVisits(path, items)
  {
    var n := |items| - 1;
    if k < n { ItemIsVisited(path, items[..n], k, visit); }
  }

  // ----- the answer -----

  /** The entry of a joined path. */
  predicate Entry(f: Folding, d: Dictionary, path: seq<string>, text: string) {
    Fold(f, Join(path)) in d && d[Fold(f, Join(path))] == (Join(path), text)
  }

  ghost predicate ComesFrom(f: Folding, document: seq<Member>, d: Dictionary, key: string) {
    exists path, t, text ::
      Reaches(Object(document), path, Value(t, text)) && Fold(f, Join(path)) == key && Entry(f, d, path, text)
  }

  lemma ReachedIsStored(f: Folding, document: seq<Member>, path: seq<string>, t: TokenType, text: string)
    requires Parsed(f, Some(document)).Filled? && Reaches(Object(document), path, Value(t, text))
    ensures Stored(t) && Entry(f, Parsed(f, Some(document)).dictionary, path, text)
  {
    var visits := MemberVisits([], document);
    ParsesExactly(f, document);
    ReachedIsVisited([], Object(document), path, t, text);
    assert [] + path == path;
    var i :| 0 <= i < |visits| && visits[i] == VisitOf(path, t, text);
    HeldVisit(f, visits, Parsed(f, Some(document)).dictionary, i);
  }

  lemma HeldVisit(f: Folding, visits: seq<Visit>, d: Dictionary, i: nat)
    requires Parseable(f, visits) && Holds(f, visits, d) && i < |visits|
    ensures visits[i].Leaf? && Entry(f, d, visits[i].path, visits[i].text)
  {
    assert HasEntry(f, visits[i], d);
  }

  lemma EntryIsReached(f: Folding, document: seq<Member>, key: string)
    requires Parsed(f, Some(document)).Filled? && key in Parsed(f, Some(document)).dictionary
    ensures ComesFrom(f, document, Parsed(f, Some(document)).dictionary, key)
  {
    var visits, d := MemberVisits([], document), Parsed(f, Some(document)).dictionary;
    ParsesExactly(f, document);
    var i :| 0 <= i < |visits| && visits[i].Leaf? && KeyOf(f, visits[i]) == key;
    var path, t, text := MemberVisitIsReached([], document, i);
    assert [] + path == path;
    HeldVisit(f, visits, d, i);
  }

  /** A document that parses has nothing but values of the seven types to reach, and its dictionary holds exactly their
      texts under the joined paths. */
  lemma ParsedHoldsWhatIsReached(f: Folding, document: seq<Member>)
    requires Parsed(f, Some(document)).Filled?
    ensures var d := Parsed(f, Some(document)).dictionary;
      && (forall path, t, text :: Reaches(Object(document), path, Value(t, text)) ==> Stored(t) && Entry(f, d, path, text))
      && (forall key :: key in d ==> ComesFrom(f, document, d, key))
  {
    forall path, t, text | Reaches(Object(document), path, Value(t, text))
      ensures Stored(t) && Entry(f, Parsed(f, Some(document)).dictionary, path, text)
    {
      ReachedIsStored(f, document, path, t, text);
    }
    forall key | key in Parsed(f, Some(document)).dictionary
      ensures ComesFrom(f, document, Parsed(f, Some(document)).dictionary, key)
    {
      EntryIsReached(f, document, key);
    }
  }

  /** A value of any other type keeps a document from parsing. */
  lemma OtherTypesAreRefused(f: Folding, document: seq<Member>, path: seq<string>, t: TokenType, text: string)
    requires Reaches(Object(document), path, Value(t, text)) && !Stored(t)
    ensures Parsed(f, Some(document)).Failed?
  {
    if Parsed(f, Some(document)).Filled? { ReachedIsStored(f, document, path, t, text); }
  }

  /** The format error is only reported when such a value is there, at the end of a walk that broke nothing before. */
  lemma FormatErrorMeansOtherType(f: Folding, document: seq<Member>) returns (path: seq<string>, t: TokenType, text: string)
    requires Parsed(f, Some(document)) == Failed(InvalidFormat)
    ensures Reaches(Object(document), path, Value(t, text)) && !Stored(t)
  {
    var visits := MemberVisits([], document);
    var i := FirstFailureIsReported(f, visits);
    path, t, text := MemberVisitIsReached([], document, i);
  }

  /** A duplicate is only reported of a joined path that reaches a stored value. */
  lemma DuplicateIsReached(f: Folding, document: seq<Member>) returns (path: seq<string>, t: TokenType, text: string)
    requires Parsed(f, Some(document)).Failed? && Parsed(f, Some(document)).error.DuplicateKey?
    ensures Reaches(Object(document), path, Value(t, text)) && Stored(t)
    ensures Parsed(f, Some(document)).error == DuplicateKey(Join(path))
  {
    var visits := MemberVisits([], document);
    var i := FirstFailureIsReported(f, visits);
    path, t, text := MemberVisitIsReached([], document, i);
    assert [] + path == path;
  }

  /** Members are visited in document order: what the first of them come to decides. */
  lemma FirstMembersDecide(f: Folding, document: seq<Member>, n: nat)
    requires n <= |document| && Parsed(f, Some(document[..n])).Failed?
    ensures Parsed(f, Some(document)) == Parsed(f, Some(document[..n]))
  {
    MemberVisitsFrom([], document, n);
    FailureStays(f, map[], MemberVisits([], document[..n]), MemberVisits([], document));
  }

  /** And so are the items of an array, here the only member of a document. */
  lemma FirstItemsDecide(f: Folding, name: string, items: seq<Token>, n: nat)
    requires n <= |items| && Parsed(f, Some([Member(name, Array(items[..n]))])).Failed?
    ensures Parsed(f, Some([Member(name, Array(items))])) == Parsed(f, Some([Member(name, Array(items[..n]))]))
  {
    OnlyMember(name, Array(items));
    OnlyMember(name, Array(items[..n]));
    ItemVisitsFrom([name], items, n);
    FailureStays(f, map[], ItemVisits([name], items[..n]), ItemVisits([name], items));
  }

  lemma OnlyMember(name: string, token: Token)
    ensures MemberVisits([], [Member(name, token)]) == Visits([name], token)
  {
    OneMember([], [], Member(name, token));
    assert [] + [Member(name, token)] == [Member(name, token)] && [] + [name] == [name];
    assert [] + Visits([name], token) == Visits([name], token);
  }

  /** With names that are colon-free and distinct among siblings ignoring case: the format error, exactly when a value of
      another type is reached. */
  lemma TidyDocumentExactly(f: Folding, document: seq<Member>)
    requires GoodFolding(f) && TidyMembers(f, document)
    ensures Parsed(f, Some(document)) == Failed(InvalidFormat) <==> ReachesOther(document)
    ensures Parsed(f, Some(document)).Filled? <==> !ReachesOther(document)
  {
    TidyNamesNeverCollide(f, document);
    if Parsed(f, Some(document)).Failed? {
      var path, t, text := FormatErrorMeansOtherType(f, document);
      assert ReachesOther(document);
    } else {
      ParsedHoldsWhatIsReached(f, document);
    }
  }

  ghost predicate ReachesOther(document: seq<Member>) {
    exists path, t, text :: Reaches(Object(document), path, Value(t, text)) && !Stored(t)
  }

  /** `{"port": 8080}` is stored, and `{"when": <a date>}` is not. */
  lemma PortIsStored(f: Folding, text: string)
    ensures Parsed(f, Some([Member("port", Value(Integer, text))])) == Filled(map[Fold(f, "port") := ("port", text)])
    ensures Parsed(f, Some([Member("when", Value(Date, text))])) == Failed(InvalidFormat)
  {
    OnlyMember("port", Value(Integer, text));
    OnlyMember("when", Value(Date, text));
    AddOne(f, map[], Leaf(["port"], text));
    AddOne(f, map[], Unsupported);
  }
}
