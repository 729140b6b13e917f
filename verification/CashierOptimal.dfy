/** When the register's change has the fewest pieces. */
module CashierOptimal {
  import opened Options
  import opened Cashier
  import opened CashierProperties
  import opened Denominations

  // ----- drawers whose values are a system -----

  ghost predicate SystemDrawer(drawer: seq<Money>) {
    Positive(drawer) && Ascending(drawer) && System(Faces(drawer))
  }

  lemma FullIsASystemDrawer(full: seq<Money>)
    requires IsFull(full)
    ensures SystemDrawer(full) && |full| == 12
  {
    FullIsASystem(Faces(full));
  }

  /** The index of the largest denomination that fits. */
  lemma {:induction false} TopIndex(f: seq<nat>, l: nat, x: nat) returns (k: nat)
    requires System(f) && l < |f| && f[0] <= x && (l + 1 < |f| ==> x < f[l + 1])
    ensures k < |f| && f[k] <= x && (k + 1 < |f| ==> x < f[k + 1])
  {
    if f[l] <= x { k := l; } else { k := TopIndex(f, l - 1, x); }
  }

  lemma TopStep(drawer: seq<Money>, x: nat) returns (k: nat)
    requires SystemDrawer(drawer) && 0 < drawer[0].value <= x
    ensures k < |drawer| && Faces(drawer)[k] <= x && (k + 1 < |drawer| ==> x < Faces(drawer)[k + 1])
    ensures Greedy(drawer, x) == Prepend([drawer[k]], Greedy(drawer, x - Faces(drawer)[k]))
  {
    k := TopIndex(Faces(drawer), |drawer| - 1, x);
    FirstOptionAt(drawer, k, x);
    GreedyStep(drawer, x, drawer[k]);
  }

  lemma {:induction false} GreedyLength(drawer: seq<Money>, x: nat)
    requires SystemDrawer(drawer) && Greedy(drawer, x).Some?
    ensures |Greedy(drawer, x).value| == Pieces(Faces(drawer), |drawer| - 1, x)
  {
    if x == 0 {
      NoPiecesForZero(Faces(drawer), |drawer| - 1);
    } else {
      var k := LengthStep(drawer, x);
      GreedyLength(drawer, x - Faces(drawer)[k]);
    }
  }

  /** The largest piece that fits is one piece of the change and one of the count. */
  lemma LengthStep(drawer: seq<Money>, x: nat) returns (k: nat)
    requires SystemDrawer(drawer) && 0 < x && Greedy(drawer, x).Some?
    ensures k < |drawer| && 0 < Faces(drawer)[k] <= x
    ensures OneMore(Greedy(drawer, x), Greedy(drawer, x - Faces(drawer)[k]))
    ensures Pieces(Faces(drawer), |drawer| - 1, x) == 1 + Pieces(Faces(drawer), |drawer| - 1, x - Faces(drawer)[k])
  {
    SomePieceFits(drawer, x);
    k := TopStep(drawer, x);
    TakeTop(Faces(drawer), |drawer| - 1, k, x);
    PrependLength(drawer[k], Greedy(drawer, x - Faces(drawer)[k]));
  }

  predicate OneMore(change: Option<seq<Money>>, rest: Option<seq<Money>>)
    requires change.Some?
  {
    rest.Some? && |change.value| == 1 + |rest.value|
  }

  lemma PrependLength(first: Money, rest: Option<seq<Money>>)
    ensures Prepend([first], rest).Some? <==> rest.Some?
    ensures rest.Some? ==> |Prepend([first], rest).value| == 1 + |rest.value|
  {
  }

  lemma SomePieceFits(drawer: seq<Money>, x: nat)
    requires SystemDrawer(drawer) && 0 < x && Greedy(drawer, x).Some?
    ensures 0 < drawer[0].value <= x
  {
    var first := FirstOption(drawer, x).value;
    assert drawer[0] in drawer;
    SmallestFirst(drawer, first);
  }

  lemma {:induction false} IndicesOf(drawer: seq<Money>, pieces: seq<Money>) returns (choice: seq<nat>)
    requires Positive(drawer) && MadeOf(pieces, drawer)
    ensures |choice| == |pieces| && forall i :: 0 <= i < |choice| ==> choice[i] < |drawer|
    ensures Total(Faces(drawer), choice) == Sum(pieces)
  {
    choice := [];
    if pieces != [] {
      var rest := IndicesOf(drawer, pieces[1..]);
      assert pieces[0] in drawer;
      var j :| 0 <= j < |drawer| && drawer[j] == pieces[0];
      choice := [j] + rest;
      assert choice[1..] == rest;
    }
  }

  lemma GreedyIsShortest(drawer: seq<Money>, pieces: seq<Money>)
    requires SystemDrawer(drawer) && MadeOf(pieces, drawer) && Greedy(drawer, Sum(pieces)).Some?
    ensures |Greedy(drawer, Sum(pieces)).value| <= |pieces|
  {
    var choice := IndicesOf(drawer, pieces);
    GreedyLength(drawer, Sum(pieces));
    PiecesIsMinimal(Faces(drawer), choice);
  }

  /** With nothing unavailable the change is exact, and no other choice of pieces from the drawer
      that pays the same amount is shorter. */
  lemma GreedyIsOptimal(full: seq<Money>, amount: int, other: seq<Money>)
    requires IsFull(full)
    requires 0 <= amount == Sum(other) && MadeOf(other, full)
    ensures Greedy(full, amount).Some? && Sum(Greedy(full, amount).value) == amount
    ensures |Greedy(full, amount).value| <= |other|
  {
    FullIsASystemDrawer(full);
    GreedyPaysExactly(full, full, amount);
    forall m | m in full ensures m.value % full[0].value == 0 { assert full[0].value == Faces(full)[0]; }
    GreedyIsExact(full, amount);
    GreedyIsShortest(full, other);
  }

  // ----- when pieces are unavailable -----

  predicate Has(available: seq<Money>, w: int) { exists m :: m in available && m.value == w }

  /** A five above a two needs the one between them, or its half, to be fair. */
  predicate Apart(available: seq<Money>) {
    && (Has(available, 10) && Has(available, 25) ==> Has(available, 5))
    && (Has(available, 200) && Has(available, 500) ==> Has(available, 50) || Has(available, 100))
    && (Has(available, 2000) && Has(available, 5000) ==> Has(available, 500) || Has(available, 1000))
  }

  /** Greedy pays what the pieces pay, and with no more of them. */
  predicate Fewest(available: seq<Money>, pieces: seq<Money>)
    requires Positive(available)
  {
    Greedy(available, Sum(pieces)).Some? && |Greedy(available, Sum(pieces)).value| <= |pieces|
  }

  lemma Neighbour(available: seq<Money>, k: nat, m: Money)
    requires Ascending(available) && 1 <= k < |available| && m in available && m.value < available[k - 1].value
    ensures k >= 2 && m.value <= available[k - 2].value
  {
    var i :| 0 <= i < |available| && available[i] == m;
  }

  /** Two neighbouring values of what is left of the full drawer. */
  lemma ApartSteps(full: seq<Money>, available: seq<Money>, k: nat)
    requires IsFull(full) && Positive(available) && Ascending(available) && MadeOf(available, full) && Apart(available)
    requires 1 <= k < |available|
    ensures Above(Faces(available), k)
  {
    var a, b := available[k - 1], available[k];
    assert a in available && b in available;
    FullHasFaces(full, a);
    FullHasFaces(full, b);
    FaceDivides(a.value, b.value);
    if b.value % a.value != 0 {
      var m := Between(available, a.value);
      Neighbour(available, k, m);
      assert available[k - 2] in available;
      FullHasFaces(full, available[k - 2]);
      FaceBelow(available[k - 2].value, m.value, a.value);
    }
  }

  lemma Between(available: seq<Money>, a: int) returns (m: Money)
    requires Apart(available) && a in {10, 200, 2000} && Has(available, a) && Has(available, 5 * (a / 2))
    ensures m in available && m.value < a
    ensures m.value == a / 2 || (a > 10 && m.value == a / 4)
  {
    if Has(available, a / 2) {
      m :| m in available && m.value == a / 2;
    } else {
      m :| m in available && m.value == a / 4;
    }
  }

  lemma FaceBelow(w: int, m: int, a: int)
    requires IsFace(w) && a in {10, 200, 2000} && m <= w < a
    requires m == a / 2 || (a > 10 && m == a / 4)
    ensures a == 2 * w || a == 4 * w
  {
  }

  lemma ApartIsASystem(full: seq<Money>, available: seq<Money>)
    requires IsFull(full) && Positive(available) && Ascending(available) && MadeOf(available, full) && Apart(available)
    requires available != []
    ensures SystemDrawer(available)
  {
    var f := Faces(available);
    forall i | 0 <= i < |f| ensures 0 < f[i] { assert available[i] in available; }
    forall k | 1 <= k < |f| ensures Above(f, k) {
      ApartSteps(full, available, k);
    }
  }

  /** Nothing between means the smallest piece divides all others. */
  lemma ApartDivides(full: seq<Money>, available: seq<Money>)
    requires IsFull(full) && Positive(available) && Ascending(available) && MadeOf(available, full) && Apart(available)
    requires available != [] && 0 < available[0].value
    ensures AllMultiples(available, available[0].value)
  {
    forall odd | odd in available ensures odd.value % available[0].value == 0 {
      if odd.value % available[0].value != 0 {
        OddValue(full, available, odd);
        assert available[0] in available;
        var m := Between(available, available[0].value);
        SmallestFirst(available, m);
      }
    }
  }

  // ----- why it must be so -----

  lemma {:induction false} SumBound(pieces: seq<Money>, v: nat)
    requires forall m :: m in pieces ==> 4 * m.value <= v
    ensures 4 * Sum(pieces) <= Times(v, |pieces|)
  {
    if pieces != [] {
      assert pieces[0] in pieces && forall m :: m in pieces[1..] ==> m in pieces;
      SumBound(pieces[1..], v);
    }
  }

  function Times(v: nat, n: nat): nat {
    if n == 0 then 0 else v + Times(v, n - 1)
  }

  lemma FourOrMore(pieces: seq<Money>, v: nat)
    requires 0 < v == Sum(pieces) && forall m :: m in pieces ==> 4 * m.value <= v
    ensures |pieces| >= 4
  {
    SumBound(pieces, v);
    assert Times(v, 0) == 0 && Times(v, 1) == v && Times(v, 2) == 2 * v && Times(v, 3) == 3 * v;
  }

  lemma FarBelow(w: int, v: int)
    requires IsFace(w) && v in {5, 100, 1000} && w <= v && w != v && (v > 5 ==> 2 * w != v)
    ensures 4 * w <= v
  {
  }

  /** Without v and its half, greedy needs four pieces or more for v. */
  lemma HalfIsCostly(full: seq<Money>, available: seq<Money>, v: int)
    requires IsFull(full) && Positive(available) && Ascending(available) && MadeOf(available, full)
    requires v in {5, 100, 1000} && !Has(available, v) && (v > 5 ==> !Has(available, v / 2))
    requires Greedy(available, v).Some?
    ensures |Greedy(available, v).value| >= 4
  {
    var pieces := Greedy(available, v).value;
    GreedyIsExact(available, v);
    forall m | m in pieces ensures 4 * m.value <= v {
      FullHasFaces(full, m);
      FarBelow(m.value, v);
    }
    FourOrMore(pieces, v);
  }

  lemma FaceOfFive(w: int, v: int)
    requires IsFace(w) && v in {5, 100, 1000} && 5 * v <= w <= 6 * v
    ensures w == 5 * v
  {
  }

  lemma FiveFirst(full: seq<Money>, available: seq<Money>, v: int, five: Money) returns (first: Money)
    requires IsFull(full) && Ascending(available) && MadeOf(available, full)
    requires v in {5, 100, 1000} && five in available && five.value == 5 * v
    ensures FirstOption(available, 6 * v) == Some(first) && first.value == 5 * v
  {
    FirstOptionIsLargest(available, 6 * v, five);
    first := FirstOption(available, 6 * v).value;
    FullHasFaces(full, first);
    FaceOfFive(first.value, v);
  }

  /** Three of 2v: greedy takes 5v, and then has v to pay. */
  lemma ThreeTwosAreCostly(full: seq<Money>, available: seq<Money>, v: int, two: Money, five: Money)
    requires IsFull(full) && Positive(available) && Ascending(available) && MadeOf(available, full)
    requires v in {5, 100, 1000} && !Has(available, v) && (v > 5 ==> !Has(available, v / 2))
    requires two in available && two.value == 2 * v && five in available && five.value == 5 * v
    ensures MadeOf([two, two, two], available) && !Fewest(available, [two, two, two])
  {
    SumOfThree(two);
    var first := FiveFirst(full, available, v, five);
    GreedyStep(available, 6 * v, first);
    PrependLength(first, Greedy(available, v));
    if Greedy(available, v).Some? { HalfIsCostly(full, available, v); }
  }

  lemma NotApartIsNotFewest(full: seq<Money>, available: seq<Money>) returns (pieces: seq<Money>)
    requires IsFull(full) && Positive(available) && Ascending(available) && MadeOf(available, full) && !Apart(available)
    ensures MadeOf(pieces, available) && !Fewest(available, pieces)
  {
    var v := if Has(available, 10) && Has(available, 25) && !Has(available, 5) then 5
             else if Has(available, 200) && Has(available, 500) && !Has(available, 50) && !Has(available, 100) then 100
             else 1000;
    var two :| two in available && two.value == 2 * v;
    var five :| five in available && five.value == 5 * v;
    ThreeTwosAreCostly(full, available, v, two, five);
    pieces := [two, two, two];
  }

  /** For every unavailable list: whatever the available pieces can pay is paid, and with the fewest of them, exactly
      when 10 and 25 leave 5 available too, 200 and 500 leave 50 or 100, and 2000 and 5000 leave 500 or 1000. */
  lemma FewestPiecesExactly(full: seq<Money>, listed: set<Money>, available: seq<Money>)
    requires IsFull(full) && available == Without(full, listed)
    ensures (forall pieces :: MadeOf(pieces, available) ==> Fewest(available, pieces)) <==> Apart(available)
  {
    WithoutKeepsAscending(full, listed);
    if Apart(available) {
      forall pieces | MadeOf(pieces, available) ensures Fewest(available, pieces) {
        ApartIsFewest(full, available, pieces);
      }
    } else {
      var pieces := NotApartIsNotFewest(full, available);
    }
  }

  lemma ApartIsFewest(full: seq<Money>, available: seq<Money>, pieces: seq<Money>)
    requires IsFull(full) && Positive(available) && Ascending(available) && MadeOf(available, full) && Apart(available)
    requires MadeOf(pieces, available)
    ensures Fewest(available, pieces)
  {
    if pieces != [] {
      assert pieces[0] in available && available[0] in available;
      ApartDivides(full, available);
      SumOfMultiples(pieces, available, available[0].value);
      GreedyPaysMultiples(available, Sum(pieces), available[0]);
      ApartIsASystem(full, available);
      GreedyIsShortest(available, pieces);
    }
  }
}
