/** What a purchase returns, said of the drawer, the unavailable list and the pieces themselves. */
module CashierAnswer {
  import opened Options
  import opened Cashier
  import opened CashierProperties

  /** In the drawer and not on the list. */
  predicate Available(full: seq<Money>, unavailable: Option<seq<Money>>, m: Money) {
    m in full && !(unavailable.Some? && m in unavailable.value)
  }

  /** The largest available piece that does not exceed an amount. */
  predicate Largest(full: seq<Money>, unavailable: Option<seq<Money>>, left: int, m: Money) {
    && Available(full, unavailable, m) && m.value <= left
    && forall n :: n in full && Available(full, unavailable, n) && n.value <= left ==> n.value <= m.value
  }

  /** Pieces that add up to an amount, each the largest one available for what those before it leave. */
  predicate LargestFirst(full: seq<Money>, unavailable: Option<seq<Money>>, owed: int, pieces: seq<Money>) {
    && Sum(pieces) == owed
    && forall i :: 0 <= i < |pieces| ==> Largest(full, unavailable, owed - Sum(pieces[..i]), pieces[i])
  }

  /** At most fifty coins, fifty notes and fifty pieces of no known type. */
  ghost predicate FiftyOfEach(pieces: seq<Money>) {
    forall t :: |OfType(pieces, t)| <= 50
  }

  ghost function OfType(pieces: seq<Money>, t: MoneyType): set<nat> {
    set i | 0 <= i < |pieces| && pieces[i].moneyType == t
  }

  lemma OneMoreOfType(pieces: seq<Money>, n: nat, t: MoneyType)
    requires |pieces| == n + 1
    ensures OfType(pieces, t) == OfType(pieces[..n], t) + if pieces[n].moneyType == t then {n} else {}
  {
  }

  lemma {:induction false} CountIsSize(pieces: seq<Money>, t: MoneyType)
    ensures CountType(pieces, t) == |OfType(pieces, t)|
  {
    if pieces == [] {
      assert OfType(pieces, t) == {};
    } else {
      var n := |pieces| - 1;
      assert pieces == pieces[..n] + [pieces[n]];
      CountTypeAppend(pieces[..n], pieces[n], t);
      CountIsSize(pieces[..n], t);
      OneMoreOfType(pieces, n, t);
    }
  }

  lemma CapIsFifty(pieces: seq<Money>)
    ensures WithinCap(pieces) <==> FiftyOfEach(pieces)
  {
    forall t ensures CountType(pieces, t) == |OfType(pieces, t)| { CountIsSize(pieces, t); }
  }

  /** What a piece in front leaves. */
  lemma SumAfter(first: Money, rest: seq<Money>, i: nat)
    requires i <= |rest|
    ensures Sum(([first] + rest)[..i + 1]) == first.value + Sum(rest[..i])
  {
    assert ([first] + rest)[..i + 1] == [first] + rest[..i];
    assert ([first] + rest[..i])[1..] == rest[..i];
  }

  lemma OneMoreInFront(full: seq<Money>, unavailable: Option<seq<Money>>, owed: int, first: Money, rest: seq<Money>)
    requires Largest(full, unavailable, owed, first)
    ensures LargestFirst(full, unavailable, owed - first.value, rest) <==> LargestFirst(full, unavailable, owed, [first] + rest)
  {
    var pieces := [first] + rest;
    assert pieces[1..] == rest && pieces[..0] == [];
    forall i | 0 <= i < |rest| ensures owed - Sum(pieces[..i + 1]) == owed - first.value - Sum(rest[..i]) && pieces[i + 1] == rest[i] {
      SumAfter(first, rest, i);
    }
    if LargestFirst(full, unavailable, owed, pieces) {
      forall i | 0 <= i < |rest| ensures Largest(full, unavailable, owed - first.value - Sum(rest[..i]), rest[i]) {
        assert Largest(full, unavailable, owed - Sum(pieces[..i + 1]), pieces[i + 1]);
      }
    }
    if LargestFirst(full, unavailable, owed - first.value, rest) {
      forall i | 0 <= i < |pieces| ensures Largest(full, unavailable, owed - Sum(pieces[..i]), pieces[i]) {
        if i > 0 { assert Largest(full, unavailable, owed - first.value - Sum(rest[..i - 1]), rest[i - 1]); }
      }
    }
  }

  /** The piece picked is the largest one available, and no other piece is. */
  lemma PickedIsLargest(full: seq<Money>, unavailable: Option<seq<Money>>, left: int, m: Money)
    requires Ascending(full)
    ensures FirstOption(Without(full, Listed(unavailable)), left) == Some(m) <==> Largest(full, unavailable, left, m)
  {
    var first := FirstOption(Without(full, Listed(unavailable)), left);
    if first == Some(m) { PickedIsOne(full, unavailable, left, m); }
    if Largest(full, unavailable, left, m) {
      NoneLarger(full, unavailable, left, m);
      PickedIsOne(full, unavailable, left, first.value);
      SameValueSamePiece(full, m, first.value);
    }
  }

  lemma NoneLarger(full: seq<Money>, unavailable: Option<seq<Money>>, left: int, n: Money)
    requires Ascending(full) && n in full && Available(full, unavailable, n) && n.value <= left
    ensures var first := FirstOption(Without(full, Listed(unavailable)), left); first.Some? && n.value <= first.value.value
  {
    WithoutKeepsAscending(full, Listed(unavailable));
    WithoutExactly(full, Listed(unavailable), n);
    FirstOptionIsLargest(Without(full, Listed(unavailable)), left, n);
  }

  lemma PickedIsOne(full: seq<Money>, unavailable: Option<seq<Money>>, left: int, m: Money)
    requires Ascending(full) && FirstOption(Without(full, Listed(unavailable)), left) == Some(m)
    ensures Largest(full, unavailable, left, m)
  {
    WithoutExactly(full, Listed(unavailable), m);
    forall n | n in full && Available(full, unavailable, n) && n.value <= left ensures n.value <= m.value {
      NoneLarger(full, unavailable, left, n);
    }
  }

  lemma SameValueSamePiece(full: seq<Money>, m: Money, n: Money)
    requires Ascending(full) && m in full && n in full && m.value == n.value
    ensures m == n
  {
    var i, j :| 0 <= i < |full| && 0 <= j < |full| && full[i] == m && full[j] == n;
    assert i == j;
  }

  lemma {:induction false} GreedyIsLargestFirst(full: seq<Money>, unavailable: Option<seq<Money>>, owed: int, pieces: seq<Money>)
    requires Positive(full) && Ascending(full)
    ensures Greedy(Without(full, Listed(unavailable)), owed) == Some(pieces) <==> LargestFirst(full, unavailable, owed, pieces)
    decreases |pieces|
  {
    var available := Without(full, Listed(unavailable));
    if pieces == [] {
      NothingOwed(available, owed);
    } else {
      var first, rest := pieces[0], pieces[1..];
      assert pieces == [first] + rest && pieces[..0] == [];
      PickedIsLargest(full, unavailable, owed, first);
      if Largest(full, unavailable, owed, first) {
        GreedyIsLargestFirst(full, unavailable, owed - first.value, rest);
        OneMoreInFront(full, unavailable, owed, first, rest);
        FirstIsPicked(available, owed, first, rest);
      } else {
        OthersAreNotPicked(available, owed, first, rest);
      }
    }
  }

  lemma NothingOwed(available: seq<Money>, owed: int)
    requires Positive(available)
    ensures Greedy(available, owed) == Some([]) <==> owed == 0
  {
  }

  lemma FirstIsPicked(available: seq<Money>, owed: int, first: Money, rest: seq<Money>)
    requires Positive(available) && FirstOption(available, owed) == Some(first)
    ensures Greedy(available, owed) == Some([first] + rest) <==> Greedy(available, owed - first.value) == Some(rest)
  {
    if Greedy(available, owed - first.value).Some? {
      assert ([first] + rest)[1..] == rest;
      assert ([first] + Greedy(available, owed - first.value).value)[1..] == Greedy(available, owed - first.value).value;
    }
  }

  lemma OthersAreNotPicked(available: seq<Money>, owed: int, first: Money, rest: seq<Money>)
    requires Positive(available) && FirstOption(available, owed) != Some(first)
    ensures Greedy(available, owed) != Some([first] + rest)
  {
    if Greedy(available, owed) == Some([first] + rest) { assert ([first] + rest)[0] == first; }
  }

  /** A change is handed out exactly when the two arguments are positive and it adds up to what is owed, each piece
      the largest one in the drawer, not on the list, that fits what is still owed, with at most fifty of a type. */
  lemma ChangeExactly(full: seq<Money>, unavailable: Option<seq<Money>>, purchase: int, paid: int, pieces: seq<Money>)
    requires Positive(full) && Ascending(full)
    ensures ChangeFor(full, unavailable, purchase, paid) == Change(pieces)
      <==> 0 < purchase && 0 < paid && LargestFirst(full, unavailable, paid - purchase, pieces) && FiftyOfEach(pieces)
  {
    GreedyIsLargestFirst(full, unavailable, paid - purchase, pieces);
    CapIsFifty(pieces);
  }

  ghost predicate SomeLargestFirst(full: seq<Money>, unavailable: Option<seq<Money>>, owed: int) {
    exists pieces :: LargestFirst(full, unavailable, owed, pieces)
  }

  lemma GreedyFailsExactly(full: seq<Money>, unavailable: Option<seq<Money>>, owed: int)
    requires Positive(full) && Ascending(full)
    ensures Greedy(Without(full, Listed(unavailable)), owed).None? <==> !SomeLargestFirst(full, unavailable, owed)
  {
    var change := Greedy(Without(full, Listed(unavailable)), owed);
    if change.Some? { GreedyIsLargestFirst(full, unavailable, owed, change.value); }
    if pieces :| LargestFirst(full, unavailable, owed, pieces) { GreedyIsLargestFirst(full, unavailable, owed, pieces); }
  }

  /** The null dereference happens exactly when no pieces add up to what is owed in this way. */
  lemma NothingFitsExactly(full: seq<Money>, unavailable: Option<seq<Money>>, purchase: int, paid: int)
    requires Positive(full) && Ascending(full)
    ensures ChangeFor(full, unavailable, purchase, paid) == NoPieceFits
      <==> 0 < purchase && 0 < paid && !SomeLargestFirst(full, unavailable, paid - purchase)
  {
    GreedyFailsExactly(full, unavailable, paid - purchase);
    SettleCases(Greedy(Without(full, Listed(unavailable)), paid - purchase));
  }

  /** And the cap rejects them exactly when there are more than fifty of a type. */
  lemma RejectedExactly(full: seq<Money>, unavailable: Option<seq<Money>>, purchase: int, paid: int, pieces: seq<Money>)
    requires Positive(full) && Ascending(full) && 0 < purchase && 0 < paid
    requires LargestFirst(full, unavailable, paid - purchase, pieces)
    ensures ChangeFor(full, unavailable, purchase, paid) == InvalidChangeMoney <==> !FiftyOfEach(pieces)
  {
    GreedyIsLargestFirst(full, unavailable, paid - purchase, pieces);
    SettledAs(full, unavailable, purchase, paid, pieces);
  }

  lemma SettledAs(full: seq<Money>, unavailable: Option<seq<Money>>, purchase: int, paid: int, pieces: seq<Money>)
    requires Positive(full) && 0 < purchase && 0 < paid
    requires Greedy(Without(full, Listed(unavailable)), paid - purchase) == Some(pieces)
    ensures ChangeFor(full, unavailable, purchase, paid) == InvalidChangeMoney <==> !FiftyOfEach(pieces)
  {
    SettledByTheCap(pieces);
  }

  lemma SettledByTheCap(pieces: seq<Money>)
    ensures Settle(Some(pieces)) == InvalidChangeMoney <==> !FiftyOfEach(pieces)
    ensures Settle(Some(pieces)) == Change(pieces) <==> FiftyOfEach(pieces)
  {
    CapIsFifty(pieces);
  }

  /** No listed piece is ever handed out. */
  lemma ListedIsNeverHandedOut(full: seq<Money>, listed: seq<Money>, purchase: int, paid: int, pieces: seq<Money>)
    requires Positive(full) && Ascending(full) && ChangeFor(full, Some(listed), purchase, paid) == Change(pieces)
    ensures forall m :: m in pieces ==> m in full && m !in listed
  {
    ChangeExactly(full, Some(listed), purchase, paid, pieces);
    forall m | m in pieces ensures m in full && m !in listed {
      var i :| 0 <= i < |pieces| && pieces[i] == m;
      assert Largest(full, Some(listed), paid - purchase - Sum(pieces[..i]), pieces[i]);
    }
  }

  /** 5.00 is owed and the note of 5.00 is on the list: 2.00, 2.00 and 1.00. */
  lemma FiveIsOnTheList(full: seq<Money>)
    requires full == FULL_DRAWER
    ensures Positive(full)
    ensures ChangeFor(full, Some([Money(500, BankNote)]), 500, 1000)
      == Change([Money(200, BankNote), Money(200, BankNote), Money(100, Coin)])
  {
    FullDrawerShape(full);
    FiveIsListed(full);
  }

  lemma FiveIsListed(full: seq<Money>)
    requires |full| == 12 && Positive(full) && Ascending(full) && full[8].value == 1000
    requires full[5] == Money(100, Coin) && full[6] == Money(200, BankNote) && full[7] == Money(500, BankNote)
    ensures ChangeFor(full, Some([Money(500, BankNote)]), 500, 1000)
      == Change([Money(200, BankNote), Money(200, BankNote), Money(100, Coin)])
  {
    var listed, pieces := Some([Money(500, BankNote)]), [Money(200, BankNote), Money(200, BankNote), Money(100, Coin)];
    SumsOfThree(pieces);
    LargestAt(full, listed.value, 500, 6);
    LargestAt(full, listed.value, 300, 6);
    LargestAt(full, listed.value, 100, 5);
    FewPieces(pieces);
    ChangeExactly(full, listed, 500, 1000, pieces);
  }

  lemma SumsOfThree(pieces: seq<Money>)
    requires |pieces| == 3
    ensures Sum(pieces[..0]) == 0 && Sum(pieces[..1]) == pieces[0].value
    ensures Sum(pieces[..2]) == pieces[0].value + pieces[1].value
    ensures Sum(pieces) == pieces[0].value + pieces[1].value + pieces[2].value
  {
    var a, b, c := pieces[0], pieces[1], pieces[2];
    assert pieces == [a, b, c] && pieces[..2] == [a, b] && pieces[..1] == [a];
    assert [a, b, c][1..] == [b, c] && [b, c][1..] == [c] && [c][1..] == [];
    assert [a, b][1..] == [b] && [b][1..] == [] && [a][1..] == [];
    assert Sum([c]) == c.value && Sum([b]) == b.value && Sum([a]) == a.value;
  }

  /** The next larger piece does not fit, or it is on the list and the one after it does not fit. */
  lemma LargestAt(full: seq<Money>, listed: seq<Money>, left: int, k: nat)
    requires Ascending(full) && k + 2 < |full| && full[k] !in listed && full[k].value <= left < full[k + 2].value
    requires left < full[k + 1].value || full[k + 1] in listed
    ensures Largest(full, Some(listed), left, full[k])
  {
    forall n | n in full && Available(full, Some(listed), n) && n.value <= left ensures n.value <= full[k].value {
      var j :| 0 <= j < |full| && full[j] == n;
    }
  }

  lemma FewPieces(pieces: seq<Money>)
    requires |pieces| <= 50
    ensures FiftyOfEach(pieces)
  {
    forall t ensures |OfType(pieces, t)| <= 50 { CountIsSize(pieces, t); CountAtMost(pieces, t); }
  }

  lemma {:induction false} CountAtMost(pieces: seq<Money>, t: MoneyType)
    ensures CountType(pieces, t) <= |pieces|
  {
    if pieces != [] { CountAtMost(pieces[1..], t); }
  }
}
