/** The cash register: greedy change-making over a drawer that loses unavailable pieces as it
    meets them, and the cap on how many pieces of one type may be handed out. */
module Cashier {
  import opened Options

  datatype MoneyType = Unknown | BankNote | Coin

  /** A note or coin, its face value in cents. Two pieces are equal when both are. */
  datatype Money = Money(value: int, moneyType: MoneyType)

  datatype Outcome =
    | Change(pieces: seq<Money>)
    | InvalidPurchaseValue
    | InvalidCustomerValue
    | NoPieceFits        // the null dereference on an amount no remaining piece fits
    | InvalidChangeMoney // more than MAX_MONEY_TYPE_ITEMS_COUNT pieces of one type

  const MAX_MONEY_TYPE_ITEMS_COUNT := 50

  const FULL_DRAWER: seq<Money> := [
    Money(1, Coin), Money(5, Coin), Money(10, Coin), Money(25, Coin), Money(50, Coin), Money(100, Coin),
    Money(200, BankNote), Money(500, BankNote), Money(1000, BankNote), Money(2000, BankNote),
    Money(5000, BankNote), Money(10000, BankNote)]

  predicate Ascending(drawer: seq<Money>) {
    forall i, j :: 0 <= i < j < |drawer| ==> drawer[i].value < drawer[j].value
  }

  function Sum(pieces: seq<Money>): int {
    if pieces == [] then 0 else pieces[0].value + Sum(pieces[1..])
  }

  function CountType(pieces: seq<Money>, t: MoneyType): nat {
    if pieces == [] then 0
    else (if pieces[0].moneyType == t then 1 else 0) + CountType(pieces[1..], t)
  }

  predicate WithinCap(pieces: seq<Money>) {
    forall t :: CountType(pieces, t) <= MAX_MONEY_TYPE_ITEMS_COUNT
  }

  /** The pieces of the unavailable list, if one was given. */
  function Listed(unavailable: Option<seq<Money>>): set<Money> {
    if unavailable.None? then {} else set m | m in unavailable.value
  }

  lemma ListedExactly(unavailable: Option<seq<Money>>, m: Money)
    ensures m in Listed(unavailable) <==> unavailable.Some? && m in unavailable.value
  {
  }

  /** The drawer with the pieces of `gone` taken out. */
  function Without(drawer: seq<Money>, gone: set<Money>): (r: seq<Money>)
    ensures forall m :: m in r ==> m in drawer && m !in gone
  {
    if drawer == [] then []
    else
      var rest := Without(drawer[..|drawer| - 1], gone);
      var last := drawer[|drawer| - 1];
      if last in gone then rest else rest + [last]
  }

  /** Nothing else is taken out. */
  lemma {:induction false} WithoutExactly(drawer: seq<Money>, gone: set<Money>, m: Money)
    ensures m in Without(drawer, gone) <==> m in drawer && m !in gone
  {
    if drawer != [] {
      var front, last := drawer[..|drawer| - 1], drawer[|drawer| - 1];
      WithoutExactly(front, gone, m);
      assert drawer == front + [last];
    }
  }

  /** The first piece, from the end of the drawer, that does not exceed the amount. */
  function FirstOption(drawer: seq<Money>, amount: int): (r: Option<Money>)
    ensures r.Some? ==> r.value in drawer && r.value.value <= amount
    ensures r.None? ==> forall m :: m in drawer ==> amount < m.value
  {
    if drawer == [] then None
    else
      var last := drawer[|drawer| - 1];
      if last.value <= amount then Some(last) else FirstOption(drawer[..|drawer| - 1], amount)
  }

  predicate Positive(drawer: seq<Money>) {
    forall m :: m in drawer ==> 0 < m.value
  }

  /** Greedy change from a drawer that never changes; `None` when some amount is left over. */
  function Greedy(drawer: seq<Money>, amount: int): Option<seq<Money>>
    requires Positive(drawer)
    decreases amount
  {
    if amount == 0 then Some([])
    else
      var first := FirstOption(drawer, amount);
      if first.None? then None
      else if amount < 0 then None
      else
        var rest := Greedy(drawer, amount - first.value.value);
        if rest.None? then None else Some([first.value] + rest.value)
  }

  /** What a purchase returns from an untouched drawer, with no reference to earlier purchases. */
  function ChangeFor(full: seq<Money>, unavailable: Option<seq<Money>>, purchase: int, paid: int): Outcome
    requires Positive(full)
  {
    if purchase <= 0 then InvalidPurchaseValue
    else if paid <= 0 then InvalidCustomerValue
    else Settle(Greedy(Without(full, Listed(unavailable)), paid - purchase))
  }

  function Settle(change: Option<seq<Money>>): Outcome {
    if change.None? then NoPieceFits
    else if WithinCap(change.value) then Change(change.value)
    else InvalidChangeMoney
  }

  /** Taking out more pieces, none of which is the one found, does not change what is found. */
  lemma {:induction false} PruningKeepsFirstOption(drawer: seq<Money>, gone: set<Money>, more: set<Money>, amount: int)
    requires gone <= more
    ensures var lazy, eager := FirstOption(Without(drawer, gone), amount), FirstOption(Without(drawer, more), amount);
      (lazy.None? ==> eager.None?) && (lazy.Some? && lazy.value !in more ==> eager == lazy)
  {
    if drawer != [] {
      var front, last := drawer[..|drawer| - 1], drawer[|drawer| - 1];
      PruningKeepsFirstOption(front, gone, more, amount);
      assert last !in gone ==> Without(drawer, gone)[..|Without(drawer, gone)| - 1] == Without(front, gone);
      assert last !in more ==> Without(drawer, more)[..|Without(drawer, more)| - 1] == Without(front, more);
    }
  }

  predicate Distinct(drawer: seq<Money>) {
    forall i, j :: 0 <= i < j < |drawer| ==> drawer[i] != drawer[j]
  }

  lemma {:induction false} WithoutKeepsDistinct(drawer: seq<Money>, a: set<Money>)
    requires Distinct(drawer)
    ensures Distinct(Without(drawer, a))
  {
    if drawer != [] {
      WithoutKeepsDistinct(drawer[..|drawer| - 1], a);
    }
  }

  /** Pruning in two goes is pruning in one. */
  lemma {:induction false} WithoutTwice(drawer: seq<Money>, a: set<Money>, b: set<Money>)
    ensures Without(Without(drawer, a), b) == Without(drawer, a + b)
  {
    if drawer != [] {
      var front, last := drawer[..|drawer| - 1], drawer[|drawer| - 1];
      WithoutTwice(front, a, b);
      if last !in a {
        assert Without(drawer, a)[..|Without(drawer, a)| - 1] == Without(front, a);
      }
    }
  }

  lemma {:induction false} NothingToTakeOut(drawer: seq<Money>, gone: set<Money>)
    requires forall m :: m in drawer ==> m !in gone
    ensures Without(drawer, gone) == drawer
  {
    if drawer != [] {
      NothingToTakeOut(drawer[..|drawer| - 1], gone);
    }
  }

  /** A drawer without its i-th piece. */
  function DropAt(drawer: seq<Money>, i: nat): seq<Money>
    requires i < |drawer|
  {
    var front, last := drawer[..|drawer| - 1], drawer[|drawer| - 1];
    if i == |front| then front else DropAt(front, i) + [last]
  }

  lemma {:induction false} DropAtBySlices(drawer: seq<Money>, i: nat)
    requires i < |drawer|
    ensures DropAt(drawer, i) == drawer[..i] + drawer[i + 1..]
  {
    if i + 1 < |drawer| {
      var front, last := drawer[..|drawer| - 1], drawer[|drawer| - 1];
      DropAtBySlices(front, i);
      assert front[i + 1..] + [last] == drawer[i + 1..];
    } else {
      assert drawer[i + 1..] == [];
    }
  }

  lemma {:induction false} TakeOutOne(drawer: seq<Money>, i: nat)
    requires i < |drawer| && Distinct(drawer)
    ensures Without(drawer, {drawer[i]}) == DropAt(drawer, i)
  {
    var front, last := drawer[..|drawer| - 1], drawer[|drawer| - 1];
    if i < |front| {
      assert front[i] == drawer[i] != last;
      TakeOutOne(front, i);
    } else {
      NothingToTakeOut(front, {last});
    }
  }

  /** One turn of the loop on a lazily pruned drawer, seen from the drawer pruned in one go. */
  lemma LazyStep(full: seq<Money>, pruned: set<Money>, listed: set<Money>, change: int, first: Option<Money>)
    requires pruned <= listed && Positive(full) && Distinct(full) && change != 0
    requires first == FirstOption(Without(full, pruned), change)
    ensures first.None? ==> Greedy(Without(full, listed), change).None?
    ensures first.Some? && first.value in listed ==>
      && Distinct(Without(full, pruned)) && first.value in Without(full, pruned)
      && Without(Without(full, pruned), {first.value}) == Without(full, pruned + {first.value})
    ensures first.Some? && first.value !in listed ==>
      && 0 < first.value.value <= change
      && Greedy(Without(full, listed), change)
         == Prepend([first.value], Greedy(Without(full, listed), change - first.value.value))
  {
    PruningKeepsFirstOption(full, pruned, listed, change);
    if first.Some? {
      if first.value in listed {
        WithoutKeepsDistinct(full, pruned);
        WithoutTwice(full, pruned, {first.value});
      } else {
        GreedyStep(Without(full, listed), change, first.value);
      }
    }
  }

  lemma GreedyStep(available: seq<Money>, change: int, first: Money)
    requires Positive(available) && change != 0 && FirstOption(available, change) == Some(first)
    ensures 0 < first.value <= change
    ensures Greedy(available, change) == Prepend([first], Greedy(available, change - first.value))
  {
  }

  /** `IList<T>.Remove` on a drawer, which never holds a piece twice. */
  method Remove(drawer: seq<Money>, piece: Money) returns (r: seq<Money>)
    requires Distinct(drawer)
    ensures r == Without(drawer, {piece})
    ensures |r| == if piece in drawer then |drawer| - 1 else |drawer|
  {
    var i := 0;
    while i < |drawer| && drawer[i] != piece
      invariant 0 <= i <= |drawer| && piece !in drawer[..i]
    {
      i := i + 1;
    }
    if i < |drawer| {
      r := drawer[..i] + drawer[i + 1..];
      DropAtBySlices(drawer, i);
      TakeOutOne(drawer, i);
    } else {
      r := drawer;
      NothingToTakeOut(drawer, {piece});
    }
  }

  lemma AscendingIsDistinct(drawer: seq<Money>)
    requires Ascending(drawer)
    ensures Distinct(drawer)
  {
  }

  lemma FullDrawerShape(full: seq<Money>)
    requires full == FULL_DRAWER
    ensures Positive(full) && Ascending(full)
  {
    assert 0 < full[0].value < full[1].value < full[2].value < full[3].value < full[4].value < full[5].value;
    assert full[5].value < full[6].value < full[7].value < full[8].value < full[9].value < full[10].value < full[11].value;
  }

  /** What a register keeps true: its drawer is the full one without some of the listed pieces. */
  ghost predicate InStep(drawer: seq<Money>, full: seq<Money>, pruned: set<Money>, listed: set<Money>) {
    Positive(full) && Distinct(full) && pruned <= listed && drawer == Without(full, pruned)
  }

  /** Whatever drawer a register starts with, pruning nothing leaves it whole. */
  lemma NothingPruned(full: seq<Money>, listed: set<Money>)
    requires Positive(full) && Ascending(full)
    ensures InStep(full, full, {}, listed)
  {
    AscendingIsDistinct(full);
    NothingToTakeOut(full, {});
  }

  class Register {
    /** What is left in the drawer; it survives from one purchase to the next. */
    var drawer: seq<Money>
    const unavailable: Option<seq<Money>>
    /** The drawer as it was filled, and what has been pruned from it since. */
    ghost const full: seq<Money>
    ghost var pruned: set<Money>

    ghost predicate Valid()
      reads this
    {
      InStep(drawer, full, pruned, Listed(unavailable))
    }

    constructor (unavailable: Option<seq<Money>>)
      ensures Valid() && full == FULL_DRAWER && this.unavailable == unavailable && drawer == FULL_DRAWER
    {
      this.unavailable := unavailable;
      drawer := FULL_DRAWER;
      full := FULL_DRAWER;
      pruned := {};
      new;
      FullDrawerShape(full);
      NothingPruned(full, Listed(unavailable));
    }

    predicate IsUnavailable(piece: Money)
      ensures IsUnavailable(piece) <==> unavailable.Some? && piece in unavailable.value
    {
      unavailable.Some? && piece in unavailable.value
    }

    /** Change for a purchase. Whatever earlier purchases pruned from the drawer, the outcome is
        the one a fresh register with the same unavailable list would give. */
    method GetChangeMoney(purchase: int, paid: int) returns (r: Outcome)
      requires Valid()
      modifies this
      ensures Valid()
      ensures r == ChangeFor(full, unavailable, purchase, paid)
    {
      if purchase <= 0 { return InvalidPurchaseValue; }
      if paid <= 0 { return InvalidCustomerValue; }
      var pieces := Dispense(paid - purchase);
      if pieces.None? { return NoPieceFits; }
      var ok := CheckMaxQuantityByMoneyType(pieces.value);
      r := if ok then Change(pieces.value) else InvalidChangeMoney;
    }

    /** The loop of the private overload: pick, prune or hand out, until nothing is owed.
        `None` is the null dereference. */
    method Dispense(amount: int) returns (r: Option<seq<Money>>)
      requires Valid()
      modifies this
      ensures Valid()
      ensures r == Greedy(Without(full, Listed(unavailable)), amount)
    {
      var change := amount;
      var pieces: seq<Money> := [];
      ghost var available := Without(full, Listed(unavailable));
      ghost var whole := Greedy(available, amount);
      PrependNothing(whole);
      while change != 0
        invariant Valid()
        invariant whole == Prepend(pieces, Greedy(available, change))
        decreases if change < 0 then 0 else change, |drawer|
      {
        var first := FirstOption(drawer, change);
        LazyStep(full, pruned, Listed(unavailable), change, first);
        if first.None? { return None; }
        if IsUnavailable(first.value) {
          drawer := Remove(drawer, first.value);
          pruned := pruned + {first.value};
        } else {
          PrependOne(pieces, first.value, Greedy(available, change - first.value.value));
          pieces := pieces + [first.value];
          change := change - first.value.value;
        }
      }
      PrependNothing(Some(pieces));
      r := Some(pieces);
    }
  }

  lemma PrependNothing(pieces: Option<seq<Money>>)
    ensures Prepend([], pieces) == pieces
    ensures pieces.Some? ==> Prepend(pieces.value, Some([])) == pieces
  {
    if pieces.Some? {
      assert [] + pieces.value == pieces.value == pieces.value + [];
    }
  }

  function Prepend(pieces: seq<Money>, rest: Option<seq<Money>>): Option<seq<Money>> {
    if rest.None? then None else Some(pieces + rest.value)
  }

  lemma PrependOne(pieces: seq<Money>, piece: Money, rest: Option<seq<Money>>)
    ensures Prepend(pieces, Prepend([piece], rest)) == Prepend(pieces + [piece], rest)
  {
    if rest.Some? {
      assert pieces + ([piece] + rest.value) == pieces + [piece] + rest.value;
    }
  }

  lemma {:induction false} CountTypeAppend(pieces: seq<Money>, piece: Money, t: MoneyType)
    ensures CountType(pieces + [piece], t) == CountType(pieces, t) + if piece.moneyType == t then 1 else 0
  {
    if pieces != [] {
      assert (pieces + [piece])[1..] == pieces[1..] + [piece];
      CountTypeAppend(pieces[1..], piece, t);
    }
  }

  /** Groups the pieces by type and rejects when one group is too large. */
  method CheckMaxQuantityByMoneyType(pieces: seq<Money>) returns (ok: bool)
    ensures ok <==> WithinCap(pieces)
  {
    var counts: map<MoneyType, nat> := map[];
    for i := 0 to |pieces|
      invariant forall t :: CountType(pieces[..i], t) == if t in counts then counts[t] else 0
    {
      var t := pieces[i].moneyType;
      counts := counts[t := 1 + if t in counts then counts[t] else 0];
      assert pieces[..i + 1] == pieces[..i] + [pieces[i]];
      forall u { CountTypeAppend(pieces[..i], pieces[i], u); }
    }
    assert pieces[..|pieces|] == pieces;
    var left := counts.Keys;
    while left != {}
      invariant left <= counts.Keys
      invariant forall t :: t in counts && t !in left ==> counts[t] <= MAX_MONEY_TYPE_ITEMS_COUNT
      decreases |left|
    {
      var t :| t in left;
      if counts[t] > MAX_MONEY_TYPE_ITEMS_COUNT { return false; }
      left := left - {t};
    }
    ok := true;
  }
}
