/** When the cap on pieces of one type rejects a change. */
module CashierCap {
  import opened Options
  import opened Cashier
  import opened CashierProperties

  // ----- whatever is unavailable -----

  /** How many pieces of a type an amount takes from a drawer: it is divided by each value in turn, largest
      first, and what is left over goes on to the next. */
  function Due(drawer: seq<Money>, t: MoneyType, x: nat): nat
    requires Positive(drawer)
  {
    if drawer == [] then 0
    else
      var front, last := drawer[..|drawer| - 1], drawer[|drawer| - 1];
      assert last in drawer;
      (if last.moneyType == t then x / last.value else 0) + Due(front, t, x % last.value)
  }

  /** A piece that does not fit is passed over for good. */
  lemma {:induction false} LargestDoesNotFit(drawer: seq<Money>, x: nat)
    requires Positive(drawer) && drawer != [] && x < drawer[|drawer| - 1].value
    ensures Greedy(drawer, x) == Greedy(drawer[..|drawer| - 1], x)
    decreases x
  {
    var first := FirstOption(drawer, x);
    if x != 0 && first.Some? { LargestDoesNotFit(drawer, x - first.value.value); }
  }

  lemma CountTypePrepend(first: Money, rest: Option<seq<Money>>, t: MoneyType)
    requires rest.Some?
    ensures Prepend([first], rest).Some?
    ensures CountType(Prepend([first], rest).value, t) == CountType(rest.value, t) + if first.moneyType == t then 1 else 0
  {
    assert ([first] + rest.value)[1..] == rest.value;
  }

  /** Greedy change holds of each type exactly what the divisions give. */
  lemma {:induction false} GreedyByDivision(drawer: seq<Money>, x: nat, t: MoneyType)
    requires Positive(drawer) && Greedy(drawer, x).Some?
    ensures CountType(Greedy(drawer, x).value, t) == Due(drawer, t, x)
    decreases |drawer|, x
  {
    if drawer != [] {
      var front, last := drawer[..|drawer| - 1], drawer[|drawer| - 1];
      assert last in drawer;
      DivideStep(x, last.value);
      if last.value <= x {
        GreedyStep(drawer, x, last);
        GreedyByDivision(drawer, x - last.value, t);
        CountTypePrepend(last, Greedy(drawer, x - last.value), t);
      } else {
        LargestDoesNotFit(drawer, x);
        GreedyByDivision(front, x, t);
      }
    }
  }

  /** Coins and notes only. */
  predicate NoneUnknown(drawer: seq<Money>) {
    forall m :: m in drawer ==> m.moneyType != Unknown
  }

  lemma {:induction false} NothingUnknownDue(drawer: seq<Money>, x: nat)
    requires Positive(drawer) && NoneUnknown(drawer)
    ensures Due(drawer, Unknown, x) == 0
  {
    if drawer != [] {
      assert drawer[|drawer| - 1] in drawer;
      NothingUnknownDue(drawer[..|drawer| - 1], x % drawer[|drawer| - 1].value);
    }
  }

  /** The divisions give more than fifty coins or more than fifty notes. */
  predicate TooMany(available: seq<Money>, owed: nat)
    requires Positive(available)
  {
    Due(available, Coin, owed) > MAX_MONEY_TYPE_ITEMS_COUNT || Due(available, BankNote, owed) > MAX_MONEY_TYPE_ITEMS_COUNT
  }

  lemma CapOnAvailable(available: seq<Money>, owed: nat)
    requires Positive(available) && Greedy(available, owed).Some? && NoneUnknown(available)
    ensures WithinCap(Greedy(available, owed).value) <==> !TooMany(available, owed)
  {
    GreedyByDivision(available, owed, Coin);
    GreedyByDivision(available, owed, BankNote);
    GreedyByDivision(available, owed, Unknown);
    NothingUnknownDue(available, owed);
    var r := Greedy(available, owed).value;
    forall t: MoneyType ensures t == Coin || t == BankNote || CountType(r, t) == 0 {
      assert t == Unknown || t == Coin || t == BankNote;
    }
  }

  /** For every unavailable list: the cap fires exactly on the amounts that can be paid but take too many pieces
      of one type, and change comes back exactly on those that take no more. */
  lemma CapFiresExactly(full: seq<Money>, unavailable: Option<seq<Money>>, purchase: int, paid: int)
    requires IsFull(full)
    ensures CapIsExact(full, unavailable, purchase, paid)
  {
    WhenGreedyPays(full, Listed(unavailable), paid - purchase);
    CoinsAndNotes(full, Listed(unavailable));
    CapOnOutcome(full, unavailable, purchase, paid);
  }

  predicate CapIsExact(full: seq<Money>, unavailable: Option<seq<Money>>, purchase: int, paid: int)
    requires Positive(full)
  {
    var r, available, owed := ChangeFor(full, unavailable, purchase, paid), Without(full, Listed(unavailable)), paid - purchase;
    var payable := 0 < purchase && 0 < paid && 0 <= owed && CanPay(available, owed);
    && (r.InvalidChangeMoney? <==> payable && TooMany(available, owed))
    && (r.Change? <==> payable && !TooMany(available, owed))
  }

  lemma CapOnOutcome(full: seq<Money>, unavailable: Option<seq<Money>>, purchase: int, paid: int)
    requires Positive(full) && NoneUnknown(Without(full, Listed(unavailable)))
    requires GreedyPays(Without(full, Listed(unavailable)), paid - purchase)
    ensures CapIsExact(full, unavailable, purchase, paid)
  {
    SettledExactly(Without(full, Listed(unavailable)), paid - purchase);
  }

  lemma CoinsAndNotes(full: seq<Money>, listed: set<Money>)
    requires IsFull(full)
    ensures NoneUnknown(Without(full, listed))
  {
  }

  lemma SettledExactly(available: seq<Money>, owed: int)
    requires Positive(available) && NoneUnknown(available) && GreedyPays(available, owed)
    ensures var r, payable := Settle(Greedy(available, owed)), 0 <= owed && CanPay(available, owed);
      && (r.InvalidChangeMoney? <==> payable && TooMany(available, owed))
      && (r.Change? <==> payable && !TooMany(available, owed))
  {
    if 0 <= owed && CanPay(available, owed) { CapOnAvailable(available, owed); }
  }

  // ----- with nothing unavailable -----

  lemma DueAt(drawer: seq<Money>, k: nat, t: MoneyType, x: nat)
    requires k < |drawer| && Positive(drawer) && 0 < drawer[k].value
    requires Positive(drawer[..k]) && Positive(drawer[..k + 1])
    ensures Due(drawer[..k + 1], t, x)
      == (if drawer[k].moneyType == t then x / drawer[k].value else 0) + Due(drawer[..k], t, x % drawer[k].value)
  {
    assert drawer[..k + 1][..k] == drawer[..k];
  }

  lemma {:induction false} NoneOfType(drawer: seq<Money>, t: MoneyType, x: nat)
    requires Positive(drawer) && forall m :: m in drawer ==> m.moneyType != t
    ensures Due(drawer, t, x) == 0
  {
    if drawer != [] {
      assert drawer[|drawer| - 1] in drawer;
      NoneOfType(drawer[..|drawer| - 1], t, x % drawer[|drawer| - 1].value);
    }
  }

  lemma FullValue(full: seq<Money>, k: nat)
    requires IsFull(full) && k < 12
    ensures |full| == 12 && full[k].value == Faces(full)[k] && 0 < full[k].value
    ensures Positive(full[..k]) && Positive(full[..k + 1])
  {
    assert full[k] in full;
  }

  /** The number of notes greedy hands out for a change, as six divisions. */
  function NotesDue(x: nat): nat {
    var a := x % 10000;
    var b := a % 5000;
    var c := b % 2000;
    var d := c % 1000;
    x / 10000 + a / 5000 + b / 2000 + c / 1000 + d / 500 + (d % 500) / 200
  }

  /** What the notes leave for the coins. */
  function LeftForCoins(x: nat): (y: nat)
    ensures y < 200
  {
    x % 10000 % 5000 % 2000 % 1000 % 500 % 200
  }

  lemma NotesAreDue(full: seq<Money>, x: nat)
    requires IsFull(full)
    ensures Due(full, BankNote, x) == NotesDue(x)
    ensures Positive(full[..6]) && Due(full, Coin, x) == Due(full[..6], Coin, LeftForCoins(x))
  {
    assert full[..12] == full;
    LargeNotes(full, BankNote, x);
    SmallNotes(full, BankNote, x % 10000 % 5000 % 2000);
    LargeNotes(full, Coin, x);
    SmallNotes(full, Coin, x % 10000 % 5000 % 2000);
    FullValue(full, 6);
    NoneOfType(full[..6], BankNote, LeftForCoins(x));
  }

  lemma LargeNotes(full: seq<Money>, t: MoneyType, x: nat)
    requires IsFull(full)
    ensures Positive(full[..12]) && Positive(full[..9])
    ensures Due(full[..12], t, x) == Due(full[..9], t, x % 10000 % 5000 % 2000)
      + if t == BankNote then x / 10000 + x % 10000 / 5000 + x % 10000 % 5000 / 2000 else 0
  {
    FullValue(full, 11);
    FullValue(full, 10);
    FullValue(full, 9);
    DueAt(full, 11, t, x);
    DueAt(full, 10, t, x % 10000);
    DueAt(full, 9, t, x % 10000 % 5000);
  }

  lemma SmallNotes(full: seq<Money>, t: MoneyType, c: nat)
    requires IsFull(full)
    ensures Positive(full[..9]) && Positive(full[..6])
    ensures Due(full[..9], t, c) == Due(full[..6], t, c % 1000 % 500 % 200)
      + if t == BankNote then c / 1000 + c % 1000 / 500 + c % 1000 % 500 / 200 else 0
  {
    FullValue(full, 8);
    FullValue(full, 7);
    FullValue(full, 6);
    DueAt(full, 8, t, c);
    DueAt(full, 7, t, c % 1000);
    DueAt(full, 6, t, c % 1000 % 500);
  }

  lemma LargeCoins(full: seq<Money>, y: nat)
    requires IsFull(full)
    ensures Positive(full[..6]) && Positive(full[..3])
    ensures Due(full[..6], Coin, y)
      == y / 100 + y % 100 / 50 + y % 100 % 50 / 25 + Due(full[..3], Coin, y % 100 % 50 % 25)
  {
    FullValue(full, 5);
    FullValue(full, 4);
    FullValue(full, 3);
    DueAt(full, 5, Coin, y);
    DueAt(full, 4, Coin, y % 100);
    DueAt(full, 3, Coin, y % 100 % 50);
  }

  lemma SmallCoins(full: seq<Money>, z: nat)
    requires IsFull(full)
    ensures Positive(full[..3]) && Due(full[..3], Coin, z) == z / 10 + z % 10 / 5 + z % 10 % 5
  {
    FullValue(full, 2);
    FullValue(full, 1);
    FullValue(full, 0);
    DueAt(full, 2, Coin, z);
    DueAt(full, 1, Coin, z % 10);
    DueAt(full, 0, Coin, z % 10 % 5);
  }

  lemma FewCoins(full: seq<Money>, y: nat)
    requires IsFull(full) && y < 200
    ensures Positive(full[..6]) && Due(full[..6], Coin, y) <= 9
  {
    LargeCoins(full, y);
    SmallCoins(full, y % 100 % 50 % 25);
    FewSmallCoins(y % 100 % 50 % 25);
  }

  lemma FewSmallCoins(z: nat)
    requires z < 25
    ensures z / 10 + z % 10 / 5 + z % 10 % 5 <= 6
  {
  }

  lemma CapOnPayable(full: seq<Money>, unavailable: Option<seq<Money>>, purchase: int, paid: int)
    requires Positive(full) && CapIsExact(full, unavailable, purchase, paid)
    requires 0 < purchase <= paid && Without(full, Listed(unavailable)) == full && CanPay(full, paid - purchase)
    ensures var r := ChangeFor(full, unavailable, purchase, paid);
      && (r.InvalidChangeMoney? <==> TooMany(full, paid - purchase))
      && (r.Change? <==> !TooMany(full, paid - purchase))
  {
  }

  lemma FullIsTooMany(full: seq<Money>, owed: nat)
    requires IsFull(full)
    ensures Due(full, Coin, owed) <= 9
    ensures TooMany(full, owed) <==> NotesDue(owed) > MAX_MONEY_TYPE_ITEMS_COUNT
  {
    NotesAreDue(full, owed);
    FewCoins(full, LeftForCoins(owed));
  }

  lemma FullPaysAll(full: seq<Money>, owed: nat)
    requires IsFull(full)
    ensures CanPay(full, owed)
  {
    assert full[0].value == Faces(full)[0];
  }

  /** With nothing unavailable everything can be paid, and the cap alone decides. */
  lemma OnlyTheCap(full: seq<Money>, unavailable: Option<seq<Money>>, purchase: int, paid: int)
    requires IsFull(full) && Listed(unavailable) == {} && 0 < purchase <= paid
    ensures var r := ChangeFor(full, unavailable, purchase, paid);
      && (r.InvalidChangeMoney? <==> TooMany(full, paid - purchase))
      && (r.Change? <==> !TooMany(full, paid - purchase))
  {
    NothingToTakeOut(full, Listed(unavailable));
    CapFiresExactly(full, unavailable, purchase, paid);
    FullPaysAll(full, paid - purchase);
    CapOnPayable(full, unavailable, purchase, paid);
  }

  /** With nothing unavailable: the cap never fires for coins, and it fires exactly when more than
      50 notes are due by the six divisions. */
  lemma FullDrawerCap(full: seq<Money>, unavailable: Option<seq<Money>>, purchase: int, paid: int)
    requires IsFull(full) && Listed(unavailable) == {}
    requires 0 < purchase <= paid
    ensures Due(full, Coin, paid - purchase) <= 9
    ensures var r := ChangeFor(full, unavailable, purchase, paid);
      && (r.InvalidChangeMoney? <==> NotesDue(paid - purchase) > MAX_MONEY_TYPE_ITEMS_COUNT)
      && (r.Change? <==> NotesDue(paid - purchase) <= MAX_MONEY_TYPE_ITEMS_COUNT)
  {
    FullIsTooMany(full, paid - purchase);
    OnlyTheCap(full, unavailable, purchase, paid);
  }

  lemma DivideWithRest(x: nat, u: nat)
    requires 0 < u
    ensures x == u * (x / u) + x % u && 0 <= x % u < u
  {
  }

  lemma NotesFromTwenty(b: nat)
    requires b < 5000
    ensures var c := b % 2000;
      var n := b / 2000 + c / 1000 + c % 1000 / 500 + c % 1000 % 500 / 200;
      n <= 5 && (b < 3900 ==> n <= 4)
  {
    var c := b % 2000;
    DivideWithRest(b, 2000);
    DivideWithRest(c, 1000);
    DivideWithRest(c % 1000, 500);
    DivideWithRest(c % 1000 % 500, 200);
  }

  lemma FewNotesBelow(r: nat)
    requires r < 10000
    ensures NotesDue(r) <= 6 && (r < 8900 ==> NotesDue(r) <= 5)
  {
    DivideWithRest(r, 5000);
    QuotientAndRest(r, 10000, 0, r);
    NotesFromTwenty(r % 5000);
  }

  lemma NotesOfTenThousands(x: nat)
    ensures NotesDue(x) == x / 10000 + NotesDue(x % 10000)
  {
    DivideWithRest(x, 10000);
    QuotientAndRest(x % 10000, 10000, 0, x % 10000);
  }

  lemma FortyFiveAndFive(x: nat, q: nat, r: nat)
    requires x == 10000 * q + r && r < 10000 && x < 458900
    ensures q <= 44 || (q == 45 && r < 8900)
  {
  }

  /** 45 notes of 100 leave less than 89.00 and so at most five more. */
  lemma FiftyNotes(x: nat)
    requires x < 458900
    ensures NotesDue(x) <= 50
  {
    NotesOfTenThousands(x);
    DivideWithRest(x, 10000);
    FewNotesBelow(x % 10000);
    FortyFiveAndFive(x, x / 10000, x % 10000);
  }

  lemma FiftyOneNotes()
    ensures NotesDue(458900) == 51
  {
    assert 458900 / 10000 == 45 && 458900 % 10000 == 8900;
    assert 8900 / 5000 == 1 && 8900 % 5000 == 3900;
    assert 3900 / 2000 == 1 && 3900 % 2000 == 1900;
    assert 1900 / 1000 == 1 && 1900 % 1000 == 900;
    assert 900 / 500 == 1 && 900 % 500 == 400 && 400 / 200 == 2;
  }

  /** 4589.00 is the smallest change the cap rejects. */
  lemma SmallestRejectedChange(full: seq<Money>, unavailable: Option<seq<Money>>, purchase: int, paid: int)
    requires IsFull(full) && Listed(unavailable) == {}
    requires 0 < purchase <= paid
    ensures paid - purchase < 458900 ==> ChangeFor(full, unavailable, purchase, paid).Change?
    ensures paid - purchase == 458900 ==> ChangeFor(full, unavailable, purchase, paid) == InvalidChangeMoney
  {
    FullDrawerCap(full, unavailable, purchase, paid);
    if paid - purchase < 458900 { FiftyNotes(paid - purchase); }
    FiftyOneNotes();
  }
}
