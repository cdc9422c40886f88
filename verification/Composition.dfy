/** Weighted composition of a ranked list from two categories, over exact reals. */
module Composition {
  import opened Wrappers

  datatype Band = SIMPLE | STANDARD | COMPLEX

  /** A ranked item; `isPw` says that its payload type is pattern or warning. */
  datatype Item = Item(id: int, isPw: bool)

  /** The pattern/warning weight and the weight of everything else. */
  function Weights(band: Band): (real, real) {
    match band
    case SIMPLE => (0.3, 1.0)
    case STANDARD => (1.0, 1.0)
    case COMPLEX => (2.0, 0.6)
  }

  /** The items of one category, in rank order. */
  function Only(items: seq<Item>, isPw: bool): seq<Item> {
    if items == [] then []
    else (if items[0].isPw == isPw then [items[0]] else []) + Only(items[1..], isPw)
  }

  /** `int(x)`: towards zero. */
  function Truncate(x: real): int { if x >= 0.0 then x.Floor else -(-x).Floor }

  /** Rounded share of the slots, at least one and no more than there are. */
  function Slots(total: nat, share: real, available: nat): (n: nat)
    requires available > 0
    ensures 1 <= n <= available
  {
    Max(1, Min(Truncate(total as real * share + 0.5), available))
  }

  // ----------------------------------------------------------------- interleaving

  /** Nearest integer, halves upwards. */
  function Round(x: real): int { (x + 0.5).Floor }

  /** `n` times the share, as the running balance accumulates it. */
  function Ideal(n: nat, share: real): real { if n == 0 then 0.0 else Ideal(n - 1, share) + share }

  lemma {:induction false} IdealIsProduct(n: nat, share: real)
    ensures Ideal(n, share) == n as real * share
  {
    if n > 0 { IdealIsProduct(n - 1, share); }
  }

  function CountPw(s: seq<Item>): nat { |Only(s, true)| }

  lemma {:induction false} OnlyAppend(s: seq<Item>, x: Item, isPw: bool)
    ensures Only(s + [x], isPw) == if x.isPw == isPw then Only(s, isPw) + [x] else Only(s, isPw)
  {
    if s == [] {
      assert (s + [x])[1..] == [];
    } else {
      OnlyAppend(s[1..], x, isPw);
      assert (s + [x])[1..] == s[1..] + [x];
    }
  }

  /** The first `pw` items of `a` and the first `other` of `b` are taken, each list in its own order. */
  ghost predicate Merged(result: seq<Item>, a: seq<Item>, b: seq<Item>, pw: nat, other: nat) {
    && pw <= |a| && other <= |b| && |result| == pw + other
    && Only(result, true) == a[..pw] && Only(result, false) == b[..other]
  }

  /** What each category is owed: its share of the picks so far, less what it got. */
  ghost predicate Balanced(result: seq<Item>, pw: nat, other: nat, pwBalance: real, otherBalance: real, share: real) {
    && pwBalance == Ideal(|result|, share) - pw as real
    && otherBalance == Ideal(|result|, 1.0 - share) - other as real
  }

  /** Neither category had run out before pick `n + 1`. */
  ghost predicate BothLeft(n: nat, result: seq<Item>, a: seq<Item>, b: seq<Item>)
    requires n <= |result|
  {
    CountPw(result[..n]) < |a| && n - CountPw(result[..n]) < |b|
  }

  /** As long as both categories lasted, every prefix holds the rounded share of the first one. */
  ghost predicate SharesRounded(result: seq<Item>, a: seq<Item>, b: seq<Item>, share: real) {
    forall n :: 0 < n <= |result| ==> ShareRounded(n, result, a, b, share)
  }

  ghost predicate ShareRounded(n: nat, result: seq<Item>, a: seq<Item>, b: seq<Item>, share: real)
    requires 0 < n <= |result|
  {
    BothLeft(n - 1, result, a, b) ==> CountPw(result[..n]) == Round(Ideal(n, share))
  }

  /** One pick: whichever category is owed more is paid, and both balances stay within one half. */
  lemma PickKeepsFair(pwBalance: real, share: real)
    requires -0.5 <= pwBalance < 0.5 && 0.0 <= share <= 1.0
    ensures
      var owed := pwBalance + share;
      -0.5 <= (if owed >= -pwBalance + (1.0 - share) then owed - 1.0 else owed) < 0.5
  {
  }

  /** A balance within one half means that the rounded share was taken. */
  lemma FairIsRounded(ideal: real, pw: nat)
    requires -0.5 <= ideal - pw as real < 0.5
    ensures pw == Round(ideal)
  {
    var x := ideal + 0.5;
    assert pw as real <= x < pw as real + 1.0;
    assert x.Floor as real <= x < x.Floor as real + 1.0;
  }

  /** The quota of each prefix, whatever it is, is kept by a pick that meets it or comes too late to count. */
  lemma SharesExtend(result: seq<Item>, x: Item, a: seq<Item>, b: seq<Item>, share: real)
    requires SharesRounded(result, a, b, share)
    requires BothLeft(|result|, result, a, b) ==> CountPw(result + [x]) == Round(Ideal(|result| + 1, share))
    ensures SharesRounded(result + [x], a, b, share)
  {
    var next := result + [x];
    forall n | 0 < n <= |next| ensures ShareRounded(n, next, a, b, share) {
      if n <= |result| {
        assert ShareRounded(n, result, a, b, share);
        SameShare(n, result, x, a, b, share);
      } else {
        assert next[..n] == next && next[..n - 1] == result[..n - 1] == result;
      }
    }
  }

  lemma SameShare(n: nat, result: seq<Item>, x: Item, a: seq<Item>, b: seq<Item>, share: real)
    requires 0 < n <= |result|
    ensures ShareRounded(n, result + [x], a, b, share) <==> ShareRounded(n, result, a, b, share)
  {
    assert (result + [x])[..n - 1] == result[..n - 1] && (result + [x])[..n] == result[..n];
  }

  /** The next item of the list it is taken from extends the merge. */
  lemma MergeExtends(result: seq<Item>, a: seq<Item>, b: seq<Item>, pw: nat, other: nat, takePw: bool)
    requires Merged(result, a, b, pw, other)
    requires if takePw then pw < |a| && a[pw].isPw else other < |b| && !b[other].isPw
    ensures
      if takePw then Merged(result + [a[pw]], a, b, pw + 1, other) else Merged(result + [b[other]], a, b, pw, other + 1)
  {
    if takePw { TakesPw(result, a, b, pw, other, a[pw]); } else { TakesOther(result, a, b, pw, other, b[other]); }
  }

  lemma TakesPw(result: seq<Item>, a: seq<Item>, b: seq<Item>, pw: nat, other: nat, x: Item)
    requires Merged(result, a, b, pw, other) && pw < |a| && a[pw] == x && x.isPw
    ensures Merged(result + [x], a, b, pw + 1, other)
  {
    OnlyAppend(result, x, true);
    OnlyAppend(result, x, false);
    assert a[..pw + 1] == a[..pw] + [x];
  }

  lemma TakesOther(result: seq<Item>, a: seq<Item>, b: seq<Item>, pw: nat, other: nat, x: Item)
    requires Merged(result, a, b, pw, other) && other < |b| && b[other] == x && !x.isPw
    ensures Merged(result + [x], a, b, pw, other + 1)
  {
    OnlyAppend(result, x, true);
    OnlyAppend(result, x, false);
    assert b[..other + 1] == b[..other] + [x];
  }

  /**
   Interleaves two selected lists by their shares, whatever these are. Both lists are taken whole,
   each in its own order; the two balances sum to zero; and for a share between nothing and
   everything, each prefix made while neither list had run out holds the rounded share of the first.
   */
  method Interleave(a: seq<Item>, b: seq<Item>, share: real)
    returns (result: seq<Item>, pwBalance: real, otherBalance: real)
    requires forall i :: 0 <= i < |a| ==> a[i].isPw
    requires forall i :: 0 <= i < |b| ==> !b[i].isPw
    ensures Merged(result, a, b, |a|, |b|)
    ensures Balanced(result, |a|, |b|, pwBalance, otherBalance, share) && pwBalance + otherBalance == 0.0
    ensures 0.0 <= share <= 1.0 ==> SharesRounded(result, a, b, share)
  {
    var pw: nat, other: nat := 0, 0;
    result, pwBalance, otherBalance := [], 0.0, 0.0;
    while pw < |a| || other < |b|
      invariant Merged(result, a, b, pw, other)
      invariant Balanced(result, pw, other, pwBalance, otherBalance, share) && pwBalance + otherBalance == 0.0
      invariant 0.0 <= share <= 1.0 ==> SharesRounded(result, a, b, share)
      invariant 0.0 <= share <= 1.0 && pw < |a| && other < |b| ==> -0.5 <= pwBalance < 0.5
      decreases |a| + |b| - |result|
    {
      ghost var bothLeft := pw < |a| && other < |b|;
      ghost var before := result;
      if 0.0 <= share <= 1.0 && bothLeft { PickKeepsFair(pwBalance, share); }
      pwBalance, otherBalance := pwBalance + share, otherBalance + (1.0 - share);
      var takePw := if pwBalance >= otherBalance then pw < |a| else other >= |b|;
      MergeExtends(result, a, b, pw, other, takePw);
      if takePw {
        result := result + [a[pw]];
        pw, pwBalance := pw + 1, pwBalance - 1.0;
      } else {
        result := result + [b[other]];
        other, otherBalance := other + 1, otherBalance - 1.0;
      }
      if 0.0 <= share <= 1.0 {
        assert before[..|before|] == before;
        if bothLeft { FairIsRounded(Ideal(|result|, share), pw); }
        SharesExtend(before, result[|before|], a, b, share);
      }
    }
    assert a[..|a|] == a && b[..|b|] == b;
  }

  // ----------------------------------------------------------------- composition

  lemma {:induction false} OnlyIsPure(items: seq<Item>, isPw: bool)
    ensures forall i :: 0 <= i < |Only(items, isPw)| ==> Only(items, isPw)[i].isPw == isPw
    ensures |Only(items, isPw)| + |Only(items, !isPw)| == |items|
  {
    if items != [] { OnlyIsPure(items[1..], isPw); }
  }

  /** The lists that are interleaved: all of the only category there is, or a rounded share of each. */
  function Selected(items: seq<Item>, pwShare: real, otherShare: real): (seq<Item>, seq<Item>) {
    var pws, others := Only(items, true), Only(items, false);
    if pws == [] || others == [] then (pws, others)
    else (pws[..Slots(|items|, pwShare, |pws|)], others[..Slots(|items|, otherShare, |others|)])
  }

  /** `n` of the available items: the target rounded, but at least one and no more than there are. */
  ghost predicate FairlyCut(n: nat, available: nat, target: real) {
    && 1 <= n <= available
    && (n > 1 ==> n as real - 0.5 <= target)
    && (n < available ==> target < n as real + 0.5)
  }

  /**
   `a` and `b` are what is taken of the two categories: the top of each, all of it if the other one is empty,
   and otherwise as many items as the category's own share of them all.
   */
  ghost predicate Cut(items: seq<Item>, pwShare: real, otherShare: real, a: seq<Item>, b: seq<Item>) {
    var pws, others := Only(items, true), Only(items, false);
    && a <= pws && b <= others
    && (pws == [] || others == [] ==> a == pws && b == others)
    && (pws != [] && others != [] ==>
          && FairlyCut(|a|, |pws|, |items| as real * pwShare)
          && FairlyCut(|b|, |others|, |items| as real * otherShare))
  }

  /** Rounding by truncation is fair for negative shares too: then the target is below one. */
  lemma SlotsAreFair(total: nat, share: real, available: nat)
    requires available > 0
    ensures FairlyCut(Slots(total, share, available), available, total as real * share)
  {
    var x := total as real * share + 0.5;
    if x >= 0.0 {
      assert x.Floor as real <= x < x.Floor as real + 1.0;
    } else {
      assert Truncate(x) <= 0;
    }
  }

  lemma SelectedIsCut(items: seq<Item>, pwShare: real, otherShare: real)
    ensures
      var (a, b) := Selected(items, pwShare, otherShare);
      Cut(items, pwShare, otherShare, a, b)
  {
    var pws, others := Only(items, true), Only(items, false);
    if pws != [] && others != [] {
      SlotsAreFair(|items|, pwShare, |pws|);
      SlotsAreFair(|items|, otherShare, |others|);
    }
  }

  /**
   The composed list is an order-preserving merge of a prefix of each category, whose length is the category's
   own share; nothing is composed for weights that do not sum to more than zero.
   */
  method ApplyWeightedComposition(items: seq<Item>, pwWeight: real, otherWeight: real)
    returns (result: seq<Item>, ghost a: seq<Item>, ghost b: seq<Item>)
    ensures Merged(result, a, b, |a|, |b|)
    ensures
      var total := pwWeight + otherWeight;
      if total > 0.0 then Cut(items, pwWeight / total, otherWeight / total, a, b) else result == a == b == []
    ensures
      var total := pwWeight + otherWeight;
      pwWeight >= 0.0 && otherWeight >= 0.0 && total > 0.0 ==> SharesRounded(result, a, b, pwWeight / total)
  {
    OnlyIsPure(items, true);
    OnlyIsPure(items, false);
    var total := pwWeight + otherWeight;
    var share, otherShare := 0.5, 0.5;
    if total > 0.0 {
      share, otherShare := pwWeight / total, otherWeight / total;
      SelectedIsCut(items, share, otherShare);
      if pwWeight >= 0.0 && otherWeight >= 0.0 { ShareInRange(pwWeight, total); }
    }
    var (first, second) := if total > 0.0 then Selected(items, share, otherShare) else ([], []);
    a, b := first, second;
    var pwBalance, otherBalance;
    result, pwBalance, otherBalance := Interleave(first, second, share);
  }

  lemma ShareInRange(w: real, total: real)
    requires 0.0 <= w <= total && total > 0.0
    ensures 0.0 <= w / total <= 1.0
  {
  }

  /** The list made of the two cuts: merged in order, with the rounded share of the first in every prefix. */
  ghost predicate Composed(items: seq<Item>, pwShare: real, otherShare: real, result: seq<Item>) {
    exists a, b :: Cut(items, pwShare, otherShare, a, b) && Merged(result, a, b, |a|, |b|) && SharesRounded(result, a, b, pwShare)
  }

  /** Patterns and warnings have three thirteenths of a simple job, half of a standard and ten thirteenths of a complex one. */
  method ComposeByComplexity(items: seq<Item>, band: Band) returns (result: seq<Item>)
    ensures band == SIMPLE ==> Composed(items, 3.0 / 13.0, 10.0 / 13.0, result)
    ensures band == STANDARD ==> Composed(items, 0.5, 0.5, result)
    ensures band == COMPLEX ==> Composed(items, 10.0 / 13.0, 3.0 / 13.0, result)
  {
    if items == [] {
      NothingComposed(3.0 / 13.0, 10.0 / 13.0);
      NothingComposed(0.5, 0.5);
      NothingComposed(10.0 / 13.0, 3.0 / 13.0);
      return [];
    }
    var (pw, other) := Weights(band);
    ghost var a, b;
    result, a, b := ApplyWeightedComposition(items, pw, other);
    assert Composed(items, pw / (pw + other), other / (pw + other), result);
  }

  lemma NothingComposed(pwShare: real, otherShare: real)
    ensures Composed([], pwShare, otherShare, [])
  {
    assert Cut([], pwShare, otherShare, [], []) && SharesRounded([], [], [], pwShare);
  }

  /** For a share that is not negative, truncation after adding one half is rounding. */
  lemma SlotsAreRounded(total: nat, share: real, available: nat)
    requires share >= 0.0 && available > 0
    ensures Slots(total, share, available) == Max(1, Min(Round(total as real * share), available))
  {
    TargetIsNonnegative(total, share);
  }

  lemma TargetIsNonnegative(n: nat, share: real)
    requires share >= 0.0
    ensures n as real * share >= 0.0
  {
  }

  /** No category with items is dropped, and together the selected lists never exceed what there is. */
  lemma SelectionBounds(items: seq<Item>, pwShare: real, otherShare: real)
    ensures
      var (a, b) := Selected(items, pwShare, otherShare);
      && (Only(items, true) != [] ==> a != []) && (Only(items, false) != [] ==> b != [])
      && |a| + |b| <= |items|
  {
    OnlyIsPure(items, true);
  }
}
