/** What the register's change is worth: exact sums, and exactly which amounts it fails on. */
module CashierProperties {
  import opened Options
  import opened Cashier
  import opened Denominations

  predicate NonIncreasing(pieces: seq<Money>) {
    forall i, j :: 0 <= i < j < |pieces| ==> pieces[j].value <= pieces[i].value
  }

  lemma {:induction false} WithoutKeepsAscending(drawer: seq<Money>, gone: set<Money>)
    requires Ascending(drawer)
    ensures Ascending(Without(drawer, gone))
  {
    if drawer != [] {
      var front, last := drawer[..|drawer| - 1], drawer[|drawer| - 1];
      WithoutKeepsAscending(front, gone);
      forall m | m in Without(front, gone) ensures m.value < last.value {
        assert m in front;
      }
    }
  }

  /** In an ascending drawer the piece picked is the largest that fits. */
  lemma {:induction false} FirstOptionIsLargest(drawer: seq<Money>, amount: int, piece: Money)
    requires Ascending(drawer) && piece in drawer && piece.value <= amount
    ensures FirstOption(drawer, amount).Some? && piece.value <= FirstOption(drawer, amount).value.value
  {
    if drawer[|drawer| - 1].value > amount {
      FirstOptionIsLargest(drawer[..|drawer| - 1], amount, piece);
    }
  }

  lemma {:induction false} GreedyIsExact(drawer: seq<Money>, amount: int)
    requires Positive(drawer) && Ascending(drawer) && Greedy(drawer, amount).Some?
    ensures var pieces := Greedy(drawer, amount).value;
      && 0 <= amount && Sum(pieces) == amount && NonIncreasing(pieces)
      && (forall m :: m in pieces ==> m in drawer && m.value <= amount)
    decreases amount
  {
    if amount != 0 {
      var first := FirstOption(drawer, amount).value;
      GreedyIsExact(drawer, amount - first.value);
      var rest := Greedy(drawer, amount - first.value).value;
      forall m | m in rest ensures m.value <= first.value {
        FirstOptionIsLargest(drawer, amount, m);
      }
      LargestInFront(first, rest);
    }
  }

  lemma LargestInFront(first: Money, rest: seq<Money>)
    requires NonIncreasing(rest) && forall m :: m in rest ==> m.value <= first.value
    ensures NonIncreasing([first] + rest) && Sum([first] + rest) == first.value + Sum(rest)
  {
    assert ([first] + rest)[1..] == rest;
  }

  lemma QuotientAndRest(x: int, u: int, q: int, r: int)
    requires 0 <= r < u && x == u * q + r
    ensures x / u == q && x % u == r
  {
    var d := x / u - q;
    assert u * d == r - x % u by { assert x == u * (x / u) + x % u; }
    SmallMultipleIsZero(u, d);
  }

  lemma SmallMultipleIsZero(u: int, d: int)
    requires -u < u * d < u
    ensures d == 0
  {
  }

  lemma DivideStep(x: nat, u: nat)
    requires 0 < u
    ensures x < u ==> x / u == 0 && x % u == x
    ensures u <= x ==> x / u == 1 + (x - u) / u && x % u == (x - u) % u
  {
    if x < u {
      QuotientAndRest(x, u, 0, x);
    } else {
      var q, r := (x - u) / u, (x - u) % u;
      assert x - u == u * q + r;
      assert u * (q + 1) == u * q + u;
      QuotientAndRest(x, u, q + 1, r);
    }
  }

  // ----- the full drawer -----

  ghost function Faces(drawer: seq<Money>): (f: seq<nat>)
    requires Positive(drawer)
    ensures |f| == |drawer| && forall i :: 0 <= i < |f| ==> f[i] == drawer[i].value
  {
    seq(|drawer|, i requires 0 <= i < |drawer| => assert drawer[i] in drawer; drawer[i].value)
  }

  /** The twelve pieces the register starts with: six coins, then six notes. */
  ghost predicate IsFull(drawer: seq<Money>) {
    && Positive(drawer) && Ascending(drawer)
    && FullSystem(Faces(drawer))
    && forall k :: 0 <= k < 12 ==> drawer[k].moneyType == if k < 6 then Coin else BankNote
  }

  lemma FullDrawerIsFull(drawer: seq<Money>)
    requires drawer == FULL_DRAWER
    ensures IsFull(drawer)
  {
    FullDrawerShape(drawer);
  }

  /** Exact, largest piece first, and made of available pieces only. */
  predicate IsExactChange(full: seq<Money>, listed: set<Money>, owed: int, pieces: seq<Money>) {
    && Sum(pieces) == owed && NonIncreasing(pieces)
    && forall m :: m in pieces ==> m in full && m !in listed
  }

  lemma GreedyIsExactChange(full: seq<Money>, listed: set<Money>, owed: int)
    requires Positive(full) && Ascending(full) && Greedy(Without(full, listed), owed).Some?
    ensures IsExactChange(full, listed, owed, Greedy(Without(full, listed), owed).value)
  {
    WithoutKeepsAscending(full, listed);
    GreedyIsExact(Without(full, listed), owed);
  }

  /** Every change a register hands out. */
  lemma ChangeIsExact(full: seq<Money>, unavailable: Option<seq<Money>>, purchase: int, paid: int, pieces: seq<Money>)
    requires Positive(full) && Ascending(full) && ChangeFor(full, unavailable, purchase, paid) == Change(pieces)
    ensures IsExactChange(full, Listed(unavailable), paid - purchase, pieces) && WithinCap(pieces)
  {
    ChangeIsGreedy(full, unavailable, purchase, paid, pieces);
    GreedyIsExactChange(full, Listed(unavailable), paid - purchase);
  }

  lemma ChangeIsGreedy(full: seq<Money>, unavailable: Option<seq<Money>>, purchase: int, paid: int, pieces: seq<Money>)
    requires Positive(full) && ChangeFor(full, unavailable, purchase, paid) == Change(pieces)
    ensures Greedy(Without(full, Listed(unavailable)), paid - purchase) == Some(pieces) && WithinCap(pieces)
  {
  }

  /** The amounts greedy pays from what is available: the multiples of the smallest piece, when it divides
      all others; otherwise the next piece is two and a half times as large, all further ones are multiples of
      that one, and what it leaves over must be none, one or two of the smallest. */
  predicate CanPay(available: seq<Money>, owed: int)
    requires Positive(available)
  {
    if owed <= 0 || available == [] then owed == 0
    else
      assert available[0] in available;
      var u := available[0].value;
      if AllMultiples(available, u) then owed % u == 0
      else owed % (5 * u / 2) in {0, u, 2 * u}
  }

  predicate AllMultiples(drawer: seq<Money>, u: int)
    requires u > 0
  {
    forall m :: m in drawer ==> m.value % u == 0
  }

  /** When no change comes back: the two argument errors, and exactly the amounts that cannot be paid. */
  lemma ChangeFailsExactly(full: seq<Money>, unavailable: Option<seq<Money>>, purchase: int, paid: int)
    requires IsFull(full)
    ensures var r, available := ChangeFor(full, unavailable, purchase, paid), Without(full, Listed(unavailable));
      && (r.InvalidPurchaseValue? <==> purchase <= 0)
      && (r.InvalidCustomerValue? <==> 0 < purchase && paid <= 0)
      && (r.NoPieceFits? <==> 0 < purchase && 0 < paid && !CanPay(available, paid - purchase))
  {
    WhenGreedyPays(full, Listed(unavailable), paid - purchase);
    NoChangeExactly(full, unavailable, purchase, paid);
  }

  predicate GreedyPays(available: seq<Money>, owed: int)
    requires Positive(available)
  {
    Greedy(available, owed).Some? <==> CanPay(available, owed)
  }

  lemma NoChangeExactly(full: seq<Money>, unavailable: Option<seq<Money>>, purchase: int, paid: int)
    requires Positive(full) && GreedyPays(Without(full, Listed(unavailable)), paid - purchase)
    ensures var r, available := ChangeFor(full, unavailable, purchase, paid), Without(full, Listed(unavailable));
      && (r.InvalidPurchaseValue? <==> purchase <= 0)
      && (r.InvalidCustomerValue? <==> 0 < purchase && paid <= 0)
      && (r.NoPieceFits? <==> 0 < purchase && 0 < paid && !CanPay(available, paid - purchase))
  {
    SettleCases(Greedy(Without(full, Listed(unavailable)), paid - purchase));
  }

  lemma SettleCases(change: Option<seq<Money>>)
    ensures var r := Settle(change); r.NoPieceFits? <==> change.None?
    ensures !Settle(change).InvalidPurchaseValue? && !Settle(change).InvalidCustomerValue?
  {
  }

  lemma WhenGreedyPays(full: seq<Money>, listed: set<Money>, owed: int)
    requires IsFull(full)
    ensures GreedyPays(Without(full, listed), owed)
  {
    WithoutKeepsAscending(full, listed);
    GreedyPaysExactly(full, Without(full, listed), owed);
  }

  lemma GreedyPaysExactly(full: seq<Money>, available: seq<Money>, owed: int)
    requires IsFull(full) && Positive(available) && Ascending(available) && forall m :: m in available ==> m in full
    ensures Greedy(available, owed).Some? <==> CanPay(available, owed)
  {
    if 0 < owed && available != [] {
      var smallest := available[0];
      assert smallest in available;
      if AllMultiples(available, smallest.value) {
        GreedyPaysMultiples(available, owed, smallest);
      } else {
        var next := TheOddOne(full, available);
        PaysTwosAndFives(available, owed, smallest.value, next);
      }
    }
  }

  lemma PaysTwosAndFives(available: seq<Money>, owed: int, u: int, next: Money)
    requires Positive(available) && Ascending(available) && available != [] && available[0].value == u
    requires u % 2 == 0 && 0 < u && next in available && next.value == 5 * (u / 2) && TwosAndFives(available, u / 2)
    ensures Greedy(available, owed).Some? <==> 0 <= owed && owed % (5 * u / 2) in {0, u, 2 * u}
  {
    var v := u / 2;
    assert u == 2 * v && 5 * u / 2 == 5 * v && 2 * u == 4 * v;
    GreedyPaysTwosAndFives(available, owed, v, available[0], next);
  }

  lemma MinusMultiple(x: int, y: int, u: int)
    requires 0 < u && y % u == 0
    ensures (x - y) % u == x % u
  {
    var p, q := x / u, y / u;
    assert x - y == u * (p - q) + x % u;
    QuotientAndRest(x - y, u, p - q, x % u);
  }

  /** `good` tells one amount what it tells the amount left after the piece greedy takes from it, holds of 0, and
      fails where no piece fits. */
  ghost predicate Follows(drawer: seq<Money>, good: int -> bool) {
    forall x :: FollowsAt(drawer, good, x)
  }

  predicate FollowsAt(drawer: seq<Money>, good: int -> bool, x: int) {
    var first := FirstOption(drawer, x);
    if x <= 0 then good(x) <==> x == 0
    else if first.None? then !good(x)
    else good(x) <==> good(x - first.value.value)
  }

  lemma {:induction false} GreedyFollows(drawer: seq<Money>, amount: int, good: int -> bool)
    requires Positive(drawer) && Follows(drawer, good)
    ensures Greedy(drawer, amount).Some? <==> good(amount)
    decreases amount
  {
    assert FollowsAt(drawer, good, amount);
    if 0 < amount && FirstOption(drawer, amount).Some? {
      GreedyStep(drawer, amount, FirstOption(drawer, amount).value);
      GreedyFollows(drawer, amount - FirstOption(drawer, amount).value.value, good);
    }
  }

  predicate IsMultiple(amount: int, u: int)
    requires 0 < u
  {
    0 <= amount && amount % u == 0
  }

  lemma MultipleFollows(drawer: seq<Money>, u: int, smallest: Money, good: int -> bool, x: int)
    requires 0 < u && Positive(drawer) && smallest in drawer && smallest.value == u && AllMultiples(drawer, u)
    requires forall y :: good(y) <==> IsMultiple(y, u)
    ensures FollowsAt(drawer, good, x)
  {
    assert good(x) <==> IsMultiple(x, u);
    var first := FirstOption(drawer, x);
    if x == 0 || (0 < x && first.None?) {
      QuotientAndRest(x, u, 0, x);
    } else if 0 < x {
      assert good(x - first.value.value) <==> IsMultiple(x - first.value.value, u);
      MinusMultiple(x, first.value.value, u);
    }
  }

  lemma GreedyPaysMultiples(drawer: seq<Money>, amount: int, smallest: Money)
    requires Positive(drawer) && smallest in drawer && AllMultiples(drawer, smallest.value)
    ensures Greedy(drawer, amount).Some? <==> IsMultiple(amount, smallest.value)
  {
    var u := smallest.value;
    var good := (x: int) => IsMultiple(x, u);
    forall x ensures FollowsAt(drawer, good, x) { MultipleFollows(drawer, u, smallest, good, x); }
    GreedyFollows(drawer, amount, good);
  }

  /** Pieces of 2v and 5v, and beyond them only multiples of 5v. */
  predicate TwosAndFives(drawer: seq<Money>, v: int)
    requires v > 0
  {
    forall m :: m in drawer ==> m.value == 2 * v || m.value % (5 * v) == 0
  }

  /** What pieces of 5v and more leave over is none, one or two of 2v. */
  predicate LeavesTwos(amount: int, v: int)
    requires v > 0
  {
    0 <= amount && amount % (5 * v) in {0, 2 * v, 4 * v}
  }

  lemma NothingLeaves(amount: int, v: int)
    requires 0 < v && amount <= 0
    ensures LeavesTwos(amount, v) <==> amount == 0
  {
    if amount == 0 { QuotientAndRest(0, 5 * v, 0, 0); }
  }

  lemma TooLittleForTwo(amount: int, v: int)
    requires 0 < amount < 2 * v
    ensures !LeavesTwos(amount, v)
  {
    QuotientAndRest(amount, 5 * v, 0, amount);
  }

  /** The piece greedy takes is a multiple of 5v, or it is 2v and 5v does not fit. */
  lemma FirstIsTwoOrMultiple(drawer: seq<Money>, amount: int, v: int, five: Money, first: Money)
    requires Ascending(drawer) && 0 < v && TwosAndFives(drawer, v)
    requires five in drawer && five.value == 5 * v && FirstOption(drawer, amount) == Some(first)
    ensures first.value <= amount && (first.value % (5 * v) == 0 || (first.value == 2 * v && amount < 5 * v))
  {
    if five.value <= amount { FirstOptionIsLargest(drawer, amount, five); }
  }

  lemma TwosFollow(drawer: seq<Money>, v: int, two: Money, five: Money, good: int -> bool, x: int)
    requires Ascending(drawer) && 0 < v && TwosAndFives(drawer, v)
    requires two in drawer && two.value == 2 * v && five in drawer && five.value == 5 * v
    requires forall m :: m in drawer ==> 0 < m.value
    requires forall y :: good(y) <==> LeavesTwos(y, v)
    ensures FollowsAt(drawer, good, x)
  {
    assert good(x) <==> LeavesTwos(x, v);
    var first := FirstOption(drawer, x);
    if x <= 0 {
      NothingLeaves(x, v);
    } else if first.None? {
      TooLittleForTwo(x, v);
    } else {
      assert good(x - first.value.value) <==> LeavesTwos(x - first.value.value, v);
      FirstIsTwoOrMultiple(drawer, x, v, five, first.value);
      TakeOne(x, first.value.value, v);
    }
  }

  lemma GreedyPaysTwosAndFives(drawer: seq<Money>, amount: int, v: int, two: Money, five: Money)
    requires Positive(drawer) && Ascending(drawer) && 0 < v && TwosAndFives(drawer, v)
    requires two in drawer && two.value == 2 * v && five in drawer && five.value == 5 * v
    ensures Greedy(drawer, amount).Some? <==> LeavesTwos(amount, v)
  {
    var good := (x: int) => LeavesTwos(x, v);
    forall x ensures FollowsAt(drawer, good, x) { TwosFollow(drawer, v, two, five, good, x); }
    GreedyFollows(drawer, amount, good);
  }

  lemma TakeOne(amount: int, w: int, v: int)
    requires 0 < v && 0 < w <= amount && (w % (5 * v) == 0 || (w == 2 * v && amount < 5 * v))
    ensures LeavesTwos(amount - w, v) <==> LeavesTwos(amount, v)
  {
    if w % (5 * v) == 0 {
      MinusMultiple(amount, w, 5 * v);
    } else {
      QuotientAndRest(amount, 5 * v, 0, amount);
      QuotientAndRest(amount - w, 5 * v, 0, amount - w);
    }
  }

  predicate IsFace(w: int) {
    w in {1, 5, 10, 25, 50, 100, 200, 500, 1000, 2000, 5000, 10000}
  }

  lemma FullHasFaces(full: seq<Money>, m: Money)
    requires IsFull(full) && m in full
    ensures IsFace(m.value)
  {
    var k :| 0 <= k < 12 && full[k] == m;
    assert Faces(full)[k] == m.value;
    assert k == 0 || k == 1 || k == 2 || k == 3 || k == 4 || k == 5 || k == 6 || k == 7 || k == 8 || k == 9 || k == 10 || k == 11;
  }

  /** A face value divides every larger one, except that 10, 200 and 2000 do not divide the value two and a half
      times as large; that one divides all the larger ones. */
  lemma FaceDivides(u: int, w: int)
    requires IsFace(u) && IsFace(w) && u < w
    ensures w % u == 0 || (u in {10, 200, 2000} && w == 5 * (u / 2))
    ensures u in {10, 200, 2000} ==> u % 2 == 0 && w % (5 * (u / 2)) == 0
  {
    if u == 1 || u == 5 {
    } else if u == 10 || u == 25 {
    } else if u == 50 || u == 100 {
    } else if u == 200 || u == 500 {
    } else {
    }
  }

  lemma SmallestFirst(available: seq<Money>, m: Money)
    requires Ascending(available) && m in available
    ensures m == available[0] || available[0].value < m.value
  {
  }

  /** What breaks divisibility by the smallest piece is the piece two and a half times as large. */
  lemma TheOddOne(full: seq<Money>, available: seq<Money>) returns (odd: Money)
    requires IsFull(full) && Positive(available) && Ascending(available) && available != []
    requires forall m :: m in available ==> m in full
    requires 0 < available[0].value && !AllMultiples(available, available[0].value)
    ensures var u := available[0].value;
      u % 2 == 0 && odd in available && odd.value == 5 * (u / 2) && TwosAndFives(available, u / 2)
  {
    assert available[0] in available;
    odd :| odd in available && odd.value % available[0].value != 0;
    OddValue(full, available, odd);
    OthersAreFives(full, available);
  }

  lemma OddValue(full: seq<Money>, available: seq<Money>, odd: Money)
    requires IsFull(full) && Ascending(available) && (forall m :: m in available ==> m in full)
    requires odd in available && 0 < available[0].value && odd.value % available[0].value != 0
    ensures available[0].value in {10, 200, 2000} && odd.value == 5 * (available[0].value / 2)
  {
    SmallestFirst(available, odd);
    FullHasFaces(full, available[0]);
    FullHasFaces(full, odd);
    if odd.value == available[0].value { QuotientAndRest(odd.value, odd.value, 1, 0); }
    FaceDivides(available[0].value, odd.value);
  }

  lemma OthersAreFives(full: seq<Money>, available: seq<Money>)
    requires IsFull(full) && Ascending(available) && available != []
    requires forall m :: m in available ==> m in full
    requires available[0].value in {10, 200, 2000}
    ensures TwosAndFives(available, available[0].value / 2)
  {
    var u := available[0].value;
    FullHasFaces(full, available[0]);
    forall m | m in available ensures m.value == 2 * (u / 2) || m.value % (5 * (u / 2)) == 0 {
      SmallestFirst(available, m);
      FullHasFaces(full, m);
      if m != available[0] { FaceDivides(u, m.value); }
    }
  }

  predicate MadeOf(pieces: seq<Money>, available: seq<Money>) {
    forall m :: m in pieces ==> m in available
  }

  /** Every amount the available pieces could pay is paid exactly when the smallest of them divides all others,
      that is, unless 10 is the smallest and 25 available, 200 and 500, or 2000 and 5000. */
  lemma PayableIsPaidExactly(full: seq<Money>, listed: set<Money>, available: seq<Money>)
    requires IsFull(full) && available == Without(full, listed) && available != []
    requires 0 < available[0].value
    ensures (forall pieces :: MadeOf(pieces, available) ==> Greedy(available, Sum(pieces)).Some?)
      <==> AllMultiples(available, available[0].value)
  {
    var smallest := available[0];
    assert smallest in available;
    WithoutKeepsAscending(full, listed);
    if AllMultiples(available, smallest.value) {
      forall pieces | MadeOf(pieces, available) ensures Greedy(available, Sum(pieces)).Some? {
        SumOfMultiples(pieces, available, smallest.value);
        GreedyPaysMultiples(available, Sum(pieces), smallest);
      }
    } else {
      ThreeSmallestAreMissed(full, available);
      assert MadeOf([smallest, smallest, smallest], available);
    }
  }

  lemma {:induction false} SumOfMultiples(pieces: seq<Money>, available: seq<Money>, u: int)
    requires 0 < u && MadeOf(pieces, available) && Positive(available) && AllMultiples(available, u)
    ensures 0 <= Sum(pieces) && Sum(pieces) % u == 0
  {
    if pieces == [] {
      QuotientAndRest(0, u, 0, 0);
    } else {
      assert pieces[0] in pieces && forall m :: m in pieces[1..] ==> m in pieces;
      SumOfMultiples(pieces[1..], available, u);
      MinusMultiple(Sum(pieces), pieces[0].value, u);
    }
  }

  lemma SumOfThree(t: Money)
    ensures Sum([t, t, t]) == 3 * t.value
  {
    assert [t, t, t][1..] == [t, t] && [t, t][1..] == [t] && [t][1..] == [];
    assert Sum([t]) == t.value;
    assert Sum([t, t]) == 2 * t.value;
  }

  /** Three of the smallest pieces are half of it more than the next one. */
  lemma ThreeSmallestAreMissed(full: seq<Money>, available: seq<Money>)
    requires IsFull(full) && Positive(available) && Ascending(available) && available != []
    requires forall m :: m in available ==> m in full
    requires 0 < available[0].value && !AllMultiples(available, available[0].value)
    ensures Greedy(available, Sum([available[0], available[0], available[0]])).None?
  {
    var t := available[0];
    var v := t.value / 2;
    var next := TheOddOne(full, available);
    SumOfThree(t);
    QuotientAndRest(6 * v, 5 * v, 1, v);
    GreedyPaysTwosAndFives(available, 6 * v, v, t, next);
  }

  /** Without the two smallest coins greedy can get stuck on an amount the drawer could pay:
      30 cents is three coins of 10, but greedy starts with 25. */
  lemma GreedyCanMissAPayableAmount(full: seq<Money>, available: seq<Money>, ten: Money)
    requires IsFull(full) && available == Without(full, {full[0], full[1]}) && ten == full[2]
    ensures Greedy(available, 30) == None
    ensures ten in available && Sum([ten, ten, ten]) == 30
  {
    assert full[2].value == Faces(full)[2] && full[3].value == Faces(full)[3] && full[4].value == Faces(full)[4];
    WithoutSmallest(full, available);
    assert available[0] == full[2] && available[1] == full[3] && available[2] == full[4];
    WithoutKeepsAscending(full, {full[0], full[1]});
    StuckOnThirty(available);
  }

  lemma StuckOnThirty(large: seq<Money>)
    requires |large| > 2 && large[0].value == 10 && large[1].value == 25 && large[2].value == 50
    requires Positive(large) && Ascending(large)
    ensures Greedy(large, 30) == None
    ensures Sum([large[0], large[0], large[0]]) == 30
  {
    var t := large[0];
    SumOfThree(t);
    FirstOptionAt(large, 1, 30);
    assert FirstOption(large, 5).None?;
    assert Greedy(large, 5) == None;
  }

  lemma WithoutSmallest(drawer: seq<Money>, available: seq<Money>)
    requires |drawer| > 2 && Ascending(drawer) && available == Without(drawer, {drawer[0], drawer[1]})
    ensures available == drawer[2..]
  {
    assert drawer[0].value < drawer[1].value;
    WithoutFirstTwo(drawer[0], drawer[1], drawer[2..]);
    assert [drawer[0], drawer[1]] + drawer[2..] == drawer;
  }

  lemma WithoutFirstTwo(a: Money, b: Money, large: seq<Money>)
    requires a !in large && b !in large
    ensures Without([a, b] + large, {a, b}) == large
  {
    WithoutSplit([a, b], large, {a, b});
    AllTakenOut([a, b], {a, b});
    NothingToTakeOut(large, {a, b});
  }

  lemma {:induction false} AllTakenOut(drawer: seq<Money>, gone: set<Money>)
    requires forall m :: m in drawer ==> m in gone
    ensures Without(drawer, gone) == []
  {
    if drawer != [] {
      AllTakenOut(drawer[..|drawer| - 1], gone);
    }
  }

  lemma {:induction false} WithoutSplit(a: seq<Money>, b: seq<Money>, gone: set<Money>)
    ensures Without(a + b, gone) == Without(a, gone) + Without(b, gone)
  {
    if b == [] {
      assert a + b == a;
    } else {
      var front := b[..|b| - 1];
      assert (a + b)[..|a + b| - 1] == a + front;
      WithoutSplit(a, front, gone);
    }
  }

  lemma {:induction false} FirstOptionAt(drawer: seq<Money>, k: nat, amount: int)
    requires Ascending(drawer) && k < |drawer| && drawer[k].value <= amount
    requires k + 1 < |drawer| ==> amount < drawer[k + 1].value
    ensures FirstOption(drawer, amount) == Some(drawer[k])
  {
    if k + 1 < |drawer| {
      FirstOptionAt(drawer[..|drawer| - 1], k, amount);
    }
  }
}
