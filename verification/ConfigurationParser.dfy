/** A JSON document walked into a flat configuration: a stack of names, the path they spell, and a
    dictionary whose keys ignore case. */
module ConfigurationParser {
  import opened Options

  datatype TokenType =
    | Integer | Float | String | Boolean | Bytes | Raw | Null
    | Date | Guid | Uri | TimeSpan | Comment | Undefined | Constructor | Property | NoType

  /** A token as the walk sees it: an object, an array, or anything else with its printed value. */
  datatype Token =
    | Object(properties: seq<Member>)
    | Array(items: seq<Token>)
    | Value(tokenType: TokenType, text: string)

  datatype Member = Member(name: string, value: Token)

  datatype Error = InvalidFormat | DuplicateKey(key: string)

  /** Folding a character to the form in which keys are compared. */
  type Folding = char -> char

  predicate Supported(t: TokenType) {
    t in {Integer, Float, String, Boolean, Bytes, Raw, Null}
  }

  function Fold(f: Folding, key: string): (r: string)
    ensures |r| == |key| && forall i :: 0 <= i < |key| ==> r[i] == f(key[i])
  {
    seq(|key|, i requires 0 <= i < |key| => f(key[i]))
  }

  /** `ConfigurationPath.Combine`. */
  function Join(path: seq<string>): string {
    if path == [] then ""
    else if |path| == 1 then path[0]
    else path[0] + ":" + Join(path[1..])
  }

  /** `int.ToString`. */
  function Decimal(n: nat): string {
    if n < 10 then [('0' as int + n) as char] else Decimal(n / 10) + [('0' as int + n % 10) as char]
  }

  /** What a walk meets, in order: a leaf with its path and text, or a token it does not support. */
  datatype Visit = Leaf(path: seq<string>, text: string) | Unsupported

  function Visits(path: seq<string>, token: Token): seq<Visit>
    decreases token, 0
  {
    match token
    case Object(properties) => MemberVisits(path, properties)
    case Array(items) => ItemVisits(path, items)
    case Value(t, text) => if Supported(t) then [Leaf(path, text)] else [Unsupported]
  }

  function MemberVisits(path: seq<string>, members: seq<Member>): seq<Visit>
    decreases members, 1
  {
    if members == [] then []
    else
      var last := members[|members| - 1];
      MemberVisits(path, members[..|members| - 1]) + Visits(path + [last.name], last.value)
  }

  function ItemVisits(path: seq<string>, items: seq<Token>): seq<Visit>
    decreases items, 1
  {
    if items == [] then []
    else
      var last := |items| - 1;
      ItemVisits(path, items[..last]) + Visits(path + [Decimal(last)], items[last])
  }

  /** The dictionary: under each folded key, the key as it was added and its value. */
  type Dictionary = map<string, (string, string)>

  datatype Outcome = Filled(dictionary: Dictionary) | Failed(error: Error)

  function Add(f: Folding, d: Dictionary, visit: Visit): Outcome {
    match visit
    case Unsupported => Failed(InvalidFormat)
    case Leaf(path, text) =>
      var key := Join(path);
      if Fold(f, key) in d then Failed(DuplicateKey(key)) else Filled(d[Fold(f, key) := (key, text)])
  }

  /** The visits acted on in order, up to the first that fails. */
  function AddAll(f: Folding, d: Dictionary, visits: seq<Visit>): Outcome
    decreases |visits|
  {
    if visits == [] then Filled(d)
    else
      var first := Add(f, d, visits[0]);
      if first.Failed? then first else AddAll(f, first.dictionary, visits[1..])
  }

  /** Parsing a document: no document leaves the dictionary empty. */
  function Parsed(f: Folding, document: Option<seq<Member>>): Outcome {
    if document.None? then Filled(map[]) else AddAll(f, map[], MemberVisits([], document.value))
  }

  function Result(entries: Dictionary, error: Option<Error>): Outcome {
    if error.Some? then Failed(error.value) else Filled(entries)
  }

  /** Every visit that does not fail has put everything it met into the dictionary, and leaves the stack
      and the cached path as they were. */
  class Parser {
    const fold: Folding
    var context: seq<string>
    var currentPath: string
    var entries: Dictionary

    constructor (fold: Folding)
      ensures this.fold == fold && context == [] && currentPath == "" && entries == map[]
    {
      this.fold := fold;
      context, currentPath, entries := [], "", map[];
    }

    /** The cached path is the one the stack spells. */
    ghost predicate Valid()
      reads this
    {
      currentPath == Join(context)
    }

    method Parse(document: Option<seq<Member>>) returns (error: Option<Error>)
      requires Valid() && context == [] && entries == map[]
      modifies this
      ensures Parsed(fold, document) == Result(entries, error)
      ensures error.None? ==> Valid() && context == []
    {
      error := None;
      if document.Some? {
        error := VisitObject(document.value);
      }
    }

    method EnterContext(name: string)
      requires Valid()
      modifies `context, `currentPath
      ensures Valid() && context == old(context) + [name]
    {
      context := context + [name];
      currentPath := Join(context);
    }

    method ExitContext()
      requires Valid() && context != []
      modifies `context, `currentPath
      ensures Valid() && context == old(context)[..|old(context)| - 1]
    {
      context := context[..|context| - 1];
      currentPath := Join(context);
    }

    method VisitObject(properties: seq<Member>) returns (error: Option<Error>)
      requires Valid()
      modifies this
      ensures AddAll(fold, old(entries), MemberVisits(old(context), properties)) == Result(entries, error)
      ensures error.None? ==> Valid() && context == old(context)
      decreases properties, 1
    {
      ghost var path, start := context, entries;
      error := None;
      for i := 0 to |properties|
        invariant Valid() && context == path
        invariant error == None && AddAll(fold, start, MemberVisits(path, properties[..i])) == Filled(entries)
      {
        MemberStep(fold, start, path, properties, i, entries);
        EnterContext(properties[i].name);
        error := VisitToken(properties[i].value);
        if error.Some? { return; }
        ExitContext();
      }
      assert properties[..|properties|] == properties;
    }

    method VisitToken(token: Token) returns (error: Option<Error>)
      requires Valid()
      modifies this
      ensures AddAll(fold, old(entries), Visits(old(context), token)) == Result(entries, error)
      ensures error.None? ==> Valid() && context == old(context)
      decreases token, 0
    {
      match token
      case Object(properties) => error := VisitObject(properties);
      case Array(items) => error := VisitArray(items);
      case Value(t, text) =>
        if Supported(t) { error := VisitPrimitive(text); } else { error := Some(InvalidFormat); }
    }

    method VisitArray(items: seq<Token>) returns (error: Option<Error>)
      requires Valid()
      modifies this
      ensures AddAll(fold, old(entries), ItemVisits(old(context), items)) == Result(entries, error)
      ensures error.None? ==> Valid() && context == old(context)
      decreases items, 1
    {
      ghost var path, start := context, entries;
      error := None;
      for i := 0 to |items|
        invariant Valid() && context == path
        invariant error == None && AddAll(fold, start, ItemVisits(path, items[..i])) == Filled(entries)
      {
        ItemStep(fold, start, path, items, i, entries);
        EnterContext(Decimal(i));
        error := VisitToken(items[i]);
        if error.Some? { return; }
        ExitContext();
      }
      assert items[..|items|] == items;
    }

    method VisitPrimitive(text: string) returns (error: Option<Error>)
      requires Valid()
      modifies `entries
      ensures AddAll(fold, old(entries), [Leaf(old(context), text)]) == Result(entries, error)
    {
      var key := currentPath;
      if Fold(fold, key) in entries { return Some(DuplicateKey(key)); }
      entries := entries[Fold(fold, key) := (key, text)];
      error := None;
    }
  }

  lemma {:induction false} AddAllSplits(f: Folding, d: Dictionary, a: seq<Visit>, b: seq<Visit>)
    ensures AddAll(f, d, a + b) ==
      var first := AddAll(f, d, a); if first.Failed? then first else AddAll(f, first.dictionary, b)
    decreases |a|
  {
    if a == [] {
      assert a + b == b;
    } else {
      assert (a + b)[1..] == a[1..] + b;
      var first := Add(f, d, a[0]);
      if first.Filled? { AddAllSplits(f, first.dictionary, a[1..], b); }
    }
  }

  lemma FailureStays(f: Folding, d: Dictionary, a: seq<Visit>, whole: seq<Visit>)
    requires a <= whole && AddAll(f, d, a).Failed?
    ensures AddAll(f, d, whole) == AddAll(f, d, a)
  {
    assert whole == a + whole[|a|..];
    AddAllSplits(f, d, a, whole[|a|..]);
  }

  lemma {:induction false} MemberVisitsFrom(path: seq<string>, members: seq<Member>, i: nat)
    requires i <= |members|
    ensures MemberVisits(path, members[..i]) <= MemberVisits(path, members)
  {
    if i < |members| {
      var front := members[..|members| - 1];
      MemberVisitsFrom(path, front, i);
      assert front[..i] == members[..i];
    } else {
      assert members[..i] == members;
    }
  }

  lemma {:induction false} ItemVisitsFrom(path: seq<string>, items: seq<Token>, i: nat)
    requires i <= |items|
    ensures ItemVisits(path, items[..i]) <= ItemVisits(path, items)
  {
    if i < |items| {
      var front := items[..|items| - 1];
      ItemVisitsFrom(path, front, i);
      assert front[..i] == items[..i];
    } else {
      assert items[..i] == items;
    }
  }

  /** One more member: its visits come after those before it, and a failure in them is the object's. */
  lemma MemberStep(f: Folding, start: Dictionary, path: seq<string>, members: seq<Member>, i: nat, d: Dictionary)
    requires i < |members| && AddAll(f, start, MemberVisits(path, members[..i])) == Filled(d)
    ensures var outcome := AddAll(f, d, Visits(path + [members[i].name], members[i].value));
      && AddAll(f, start, MemberVisits(path, members[..i + 1])) == outcome
      && (outcome.Failed? ==> AddAll(f, start, MemberVisits(path, members)) == outcome)
  {
    assert members[..i + 1][..i] == members[..i];
    AddAllSplits(f, start, MemberVisits(path, members[..i]), Visits(path + [members[i].name], members[i].value));
    MemberVisitsFrom(path, members, i + 1);
    if AddAll(f, start, MemberVisits(path, members[..i + 1])).Failed? {
      FailureStays(f, start, MemberVisits(path, members[..i + 1]), MemberVisits(path, members));
    }
  }

  lemma ItemStep(f: Folding, start: Dictionary, path: seq<string>, items: seq<Token>, i: nat, d: Dictionary)
    requires i < |items| && AddAll(f, start, ItemVisits(path, items[..i])) == Filled(d)
    ensures var outcome := AddAll(f, d, Visits(path + [Decimal(i)], items[i]));
      && AddAll(f, start, ItemVisits(path, items[..i + 1])) == outcome
      && (outcome.Failed? ==> AddAll(f, start, ItemVisits(path, items)) == outcome)
  {
    assert items[..i + 1][..i] == items[..i];
    AddAllSplits(f, start, ItemVisits(path, items[..i]), Visits(path + [Decimal(i)], items[i]));
    ItemVisitsFrom(path, items, i + 1);
    if AddAll(f, start, ItemVisits(path, items[..i + 1])).Failed? {
      FailureStays(f, start, ItemVisits(path, items[..i + 1]), ItemVisits(path, items));
    }
  }
}
