/** Coin systems in which one more piece in an amount never costs more than one more piece in its greedy
    payment: the full drawer is one, and so is most of what is left of it when pieces are unavailable. */
module Denominations {

  /** Ascending values, each a multiple of the one before or a five above a two. */
  ghost predicate System(f: seq<nat>) {
    && f != [] && (forall i :: 0 <= i < |f| ==> 0 < f[i])
    && forall k :: 1 <= k < |f| ==> Above(f, k)
  }

  /** What a value has to be to the one before. */
  predicate Above(f: seq<nat>, k: nat)
    requires 1 <= k < |f|
  {
    0 < f[k - 1] < f[k] && (f[k] % f[k - 1] == 0 || TwoFive(f, k))
  }

  /** Two and a half times the value before, half of which is the value before that, or two of it. */
  predicate TwoFive(f: seq<nat>, k: nat)
    requires k < |f|
  {
    k >= 2 && 2 * f[k] == 5 * f[k - 1] && (f[k - 1] == 2 * f[k - 2] || f[k - 1] == 4 * f[k - 2])
  }

  lemma {:induction false} Ascends(f: seq<nat>, i: nat, j: nat)
    requires System(f) && i <= j < |f|
    ensures f[i] <= f[j] && (i < j ==> f[i] < f[j])
  {
    if 0 < j {
      assert Above(f, j);
      Ascends(f, if i < j then i else i - 1, j - 1);
    }
  }

  /** How many pieces the denominations up to the k-th need for an amount, largest first; what is less than the
      smallest of them is left over. */
  function Pieces(f: seq<nat>, k: nat, x: nat): nat
    requires k < |f| && forall i :: 0 <= i < |f| ==> 0 < f[i]
    decreases k, x
  {
    if f[k] <= x then 1 + Pieces(f, k, x - f[k])
    else if k == 0 then 0
    else Pieces(f, k - 1, x)
  }

  lemma {:induction false} Whole(f: seq<nat>, k: nat, q: nat, s: nat)
    requires System(f) && k < |f|
    ensures Pieces(f, k, q * f[k] + s) == q + Pieces(f, k, s)
  {
    if q > 0 {
      assert q * f[k] == (q - 1) * f[k] + f[k];
      assert (q - 1) * f[k] >= 0;
      Whole(f, k, q - 1, s);
    }
  }

  /** An amount `r` under one piece `k` that one more piece `j` would carry past it, to `t` behind it, loses no
      pieces when the two are swapped: the carry never costs. */
  lemma {:induction false} Carry(f: seq<nat>, k: nat, j: nat, r: nat, t: nat)
    requires System(f) && j < k < |f| && f[k] + t == r + f[j] && r < f[k]
    ensures Pieces(f, k - 1, t) <= Pieces(f, k - 1, r)
    decreases k, 2
  {
    assert Above(f, k);
    if f[k] % f[k - 1] == 0 {
      CarryMultiple(f, k, j, r, t);
    } else if f[k - 1] == 2 * f[k - 2] {
      CarryTwoFive(f, k, j, r, t, f[k - 2]);
    } else {
      CarryFourTen(f, k, j, r, t, f[k - 2]);
    }
  }

  /** The same with pieces up to the k-th, `j` possibly being `k` itself. */
  lemma Swap(f: seq<nat>, k: nat, j: nat, r: nat, t: nat)
    requires System(f) && j <= k < |f| && f[k] + t == r + f[j] && r < f[k]
    ensures Pieces(f, k, t) <= Pieces(f, k, r)
    decreases k, 3
  {
    if j < k {
      Ascends(f, j, k);
      Carry(f, k, j, r, t);
    }
  }

  lemma CarryMultiple(f: seq<nat>, k: nat, j: nat, r: nat, t: nat)
    requires System(f) && j < k < |f| && f[k] + t == r + f[j] && r < f[k] && f[k] % f[k - 1] == 0 && f[k - 1] < f[k]
    ensures Pieces(f, k - 1, t) <= Pieces(f, k - 1, r)
    decreases k, 1
  {
    var m := OneLess(f[k], f[k - 1]);
    Ascends(f, j, k - 1);
    var s := r - m * f[k - 1];
    Whole(f, k - 1, m, s);
    Swap(f, k - 1, j, s, t);
  }

  /** A proper multiple is some whole number of times the value, and once more. */
  lemma OneLess(w: nat, u: nat) returns (m: nat)
    requires 0 < u < w && w % u == 0
    ensures w == m * u + u
  {
    m := w / u - 1;
    assert w == u * (w / u) == u * m + u;
  }

  /** The value before is 2v, and v itself comes before that. */
  lemma CarryTwoFive(f: seq<nat>, k: nat, j: nat, r: nat, t: nat, v: nat)
    requires System(f) && 2 <= k < |f| && j < k && f[k] == 5 * v && f[k - 1] == 2 * v && f[k - 2] == v
    requires f[k] + t == r + f[j] && r < f[k]
    ensures Pieces(f, k - 1, t) <= Pieces(f, k - 1, r)
    decreases k, 1
  {
    if j < k - 1 {
      Ascends(f, j, k - 2);
      Swap(f, k - 2, j, r - 4 * v, t);
      FourOnTop(f, k - 1, v, r - 4 * v, t);
    } else {
      OneOrTwoTwos(f, k - 1, v, r);
    }
  }

  lemma FourOnTop(f: seq<nat>, k: nat, v: nat, s: nat, t: nat)
    requires System(f) && 1 <= k < |f| && f[k] == 2 * v && f[k - 1] == v && s < v && t < v
    requires Pieces(f, k - 1, t) <= Pieces(f, k - 1, s)
    ensures Pieces(f, k, t) <= Pieces(f, k, 4 * v + s)
  {
    BelowTwo(f, k, v, s);
    BelowTwo(f, k, v, t);
  }

  lemma OneOrTwoTwos(f: seq<nat>, k: nat, v: nat, r: nat)
    requires System(f) && 1 <= k < |f| && f[k] == 2 * v && f[k - 1] == v && 3 * v <= r < 5 * v
    ensures Pieces(f, k, r - 3 * v) <= Pieces(f, k, r)
  {
    BelowTwo(f, k, v, if 4 * v <= r then r - 4 * v else r - 3 * v);
  }

  lemma BelowTwo(f: seq<nat>, k: nat, v: nat, s: nat)
    requires System(f) && 1 <= k < |f| && f[k] == 2 * v && f[k - 1] == v && s < v
    ensures Pieces(f, k, s) == Pieces(f, k - 1, s)
    ensures Pieces(f, k, v + s) == 1 + Pieces(f, k - 1, s)
    ensures Pieces(f, k, 3 * v + s) == 2 + Pieces(f, k - 1, s)
    ensures Pieces(f, k, 4 * v + s) == 2 + Pieces(f, k - 1, s)
  {
    assert Pieces(f, k - 1, v + s) == 1 + Pieces(f, k - 1, s);
    assert Pieces(f, k, 4 * v + s) == 1 + Pieces(f, k, 2 * v + s);
    assert Pieces(f, k, 3 * v + s) == 1 + Pieces(f, k, v + s);
  }

  /** The value before is 4w, and w comes before that: half of 4w takes two pieces. */
  lemma CarryFourTen(f: seq<nat>, k: nat, j: nat, r: nat, t: nat, w: nat)
    requires System(f) && 2 <= k < |f| && j < k && f[k] == 10 * w && f[k - 1] == 4 * w && f[k - 2] == w
    requires f[k] + t == r + f[j] && r < f[k]
    ensures Pieces(f, k - 1, t) <= Pieces(f, k - 1, r)
    decreases k, 1
  {
    if j < k - 1 {
      Ascends(f, j, k - 2);
      Swap(f, k - 2, j, r - 9 * w, t);
      NineOnTop(f, k - 1, w, r - 9 * w, t);
    } else {
      TwoOrThreeFours(f, k - 1, w, r);
    }
  }

  lemma NineOnTop(f: seq<nat>, k: nat, w: nat, s: nat, t: nat)
    requires System(f) && 1 <= k < |f| && f[k] == 4 * w && f[k - 1] == w && s < w && t < w
    requires Pieces(f, k - 1, t) <= Pieces(f, k - 1, s)
    ensures Pieces(f, k, t) <= Pieces(f, k, 9 * w + s)
  {
    BelowFour(f, k, w, s);
    BelowFour(f, k, w, t);
  }

  lemma BelowFour(f: seq<nat>, k: nat, w: nat, s: nat)
    requires System(f) && 1 <= k < |f| && f[k] == 4 * w && f[k - 1] == w && s < w
    ensures Pieces(f, k, s) == Pieces(f, k - 1, s)
    ensures Pieces(f, k, 9 * w + s) == 3 + Pieces(f, k - 1, s)
  {
    assert Pieces(f, k, 9 * w + s) == 1 + Pieces(f, k, 5 * w + s);
    assert Pieces(f, k, 5 * w + s) == 1 + Pieces(f, k, w + s);
    assert Pieces(f, k - 1, w + s) == 1 + Pieces(f, k - 1, s);
  }

  lemma TwoOrThreeFours(f: seq<nat>, k: nat, w: nat, r: nat)
    requires System(f) && 1 <= k < |f| && f[k] == 4 * w && f[k - 1] == w && 6 * w <= r < 10 * w
    ensures Pieces(f, k, r - 6 * w) <= Pieces(f, k, r)
  {
    if r < 8 * w {
      assert Pieces(f, k, r) == 1 + Pieces(f, k - 1, r - 4 * w);
      assert Pieces(f, k - 1, r - 4 * w) == 1 + Pieces(f, k - 1, r - 5 * w);
      assert Pieces(f, k - 1, r - 5 * w) == 1 + Pieces(f, k - 1, r - 6 * w);
    } else {
      assert Pieces(f, k, r) == 1 + Pieces(f, k, r - 4 * w);
      assert Pieces(f, k, r - 4 * w) == 1 + Pieces(f, k - 1, r - 8 * w);
      assert Pieces(f, k - 1, r - 6 * w) == 1 + Pieces(f, k - 1, r - 7 * w);
      assert Pieces(f, k - 1, r - 7 * w) == 1 + Pieces(f, k - 1, r - 8 * w);
    }
  }

  /** One more piece in the amount costs at most one more piece in the count. */
  lemma {:induction false} OneMorePiece(f: seq<nat>, k: nat, j: nat, x: nat)
    requires System(f) && j <= k < |f|
    ensures Pieces(f, k, x + f[j]) <= Pieces(f, k, x) + 1
    decreases k, x
  {
    Ascends(f, j, k);
    if f[k] <= x {
      OneMorePiece(f, k, j, x - f[k]);
    } else if f[k] <= x + f[j] {
      if j < k { Carry(f, k, j, x, x + f[j] - f[k]); }
    } else {
      OneMorePiece(f, k - 1, j, x);
    }
  }

  function Total(f: seq<nat>, choice: seq<nat>): nat
    requires forall i :: 0 <= i < |choice| ==> choice[i] < |f|
  {
    if choice == [] then 0 else f[choice[0]] + Total(f, choice[1..])
  }

  lemma {:induction false} NoPiecesForZero(f: seq<nat>, k: nat)
    requires System(f) && k < |f|
    ensures Pieces(f, k, 0) == 0
  {
    if k > 0 { NoPiecesForZero(f, k - 1); }
  }

  /** No choice of pieces is shorter than the greedy count for the amount it pays. */
  lemma {:induction false} PiecesIsMinimal(f: seq<nat>, choice: seq<nat>)
    requires System(f) && forall i :: 0 <= i < |choice| ==> choice[i] < |f|
    ensures Pieces(f, |f| - 1, Total(f, choice)) <= |choice|
  {
    if choice == [] {
      NoPiecesForZero(f, |f| - 1);
    } else {
      PiecesIsMinimal(f, choice[1..]);
      OneMorePiece(f, |f| - 1, choice[0], Total(f, choice[1..]));
    }
  }

  /** Taking the largest piece that fits takes one off the count. */
  lemma {:induction false} TakeTop(f: seq<nat>, l: nat, k: nat, x: nat)
    requires System(f) && k <= l < |f| && f[k] <= x && (k + 1 < |f| ==> x < f[k + 1])
    ensures Pieces(f, l, x) == 1 + Pieces(f, l, x - f[k])
  {
    if k < l {
      Ascends(f, k + 1, l);
      TakeTop(f, l - 1, k, x);
    }
  }

  // ----- the twelve values -----

  /** The face values of the full drawer, in cents. */
  predicate FullSystem(f: seq<nat>) {
    && |f| == 12
    && f[0] == 1 && f[1] == 5 && f[2] == 10 && f[3] == 25 && f[4] == 50 && f[5] == 100
    && f[6] == 200 && f[7] == 500 && f[8] == 1000 && f[9] == 2000 && f[10] == 5000 && f[11] == 10000
  }

  lemma FullIsASystem(f: seq<nat>)
    requires FullSystem(f)
    ensures System(f)
  {
    forall k | 1 <= k < |f| ensures Above(f, k) {
      assert k == 1 || k == 2 || k == 3 || k == 4 || k == 5 || k == 6 || k == 7 || k == 8 || k == 9 || k == 10 || k == 11;
    }
  }
}
