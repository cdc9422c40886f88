/** Packing ranked contents into one block under a token budget, for any way of measuring tokens. */
module Assembly {
  import opened Wrappers
  import opened Errors
  import opened Text
  import opened TokenWindows

  const SEPARATOR := "\n\n"

  /** The block with one more content at its end. */
  function Extend(block: string, content: string): string {
    if block == "" then content else block + SEPARATOR + content
  }

  /** The chosen contents, joined in rank order. */
  function Block(contents: seq<string>, chosen: seq<bool>): string
    requires |chosen| == |contents|
  {
    if contents == [] then "" else
    var n := |contents| - 1;
    var before := Block(contents[..n], chosen[..n]);
    if chosen[n] then Extend(before, contents[n]) else before
  }

  /** The chosen contents in rank order. */
  function Picked(contents: seq<string>, chosen: seq<bool>): seq<string>
    requires |chosen| == |contents|
  {
    if contents == [] then [] else (if chosen[0] then [contents[0]] else []) + Picked(contents[1..], chosen[1..])
  }

  /** The texts one after the other, with a blank line between neighbours. */
  function Joined(texts: seq<string>): string {
    if texts == [] then "" else if |texts| == 1 then texts[0] else texts[0] + "\n\n" + Joined(texts[1..])
  }

  lemma {:induction false} PickedAppend(contents: seq<string>, chosen: seq<bool>, content: string, take: bool)
    requires |chosen| == |contents|
    ensures Picked(contents + [content], chosen + [take]) == Picked(contents, chosen) + if take then [content] else []
  {
    if contents == [] {
      assert (contents + [content])[1..] == [];
    } else {
      PickedAppend(contents[1..], chosen[1..], content, take);
      assert (contents + [content])[1..] == contents[1..] + [content] && (chosen + [take])[1..] == chosen[1..] + [take];
    }
  }

  lemma {:induction false} JoinedAppend(texts: seq<string>, last: string)
    ensures Joined(texts + [last]) == if texts == [] then last else Joined(texts) + "\n\n" + last
  {
    if texts != [] {
      JoinedAppend(texts[1..], last);
      assert (texts + [last])[1..] == texts[1..] + [last];
    }
  }

  lemma JoinedIsEmptyIff(texts: seq<string>)
    requires "" !in texts
    ensures Joined(texts) == "" <==> texts == []
  {
    if texts != [] { assert texts[0] in texts; }
  }

  /** The block is the chosen contents from the highest-ranked to the lowest, with a blank line between neighbours. */
  lemma {:induction false} BlockIsJoined(contents: seq<string>, chosen: seq<bool>)
    requires |chosen| == |contents| && forall i :: 0 <= i < |contents| && chosen[i] ==> contents[i] != ""
    ensures Block(contents, chosen) == Joined(Picked(contents, chosen)) && "" !in Picked(contents, chosen)
  {
    if contents != [] {
      var n := |contents| - 1;
      BlockIsJoined(contents[..n], chosen[..n]);
      PickedAppend(contents[..n], chosen[..n], contents[n], chosen[n]);
      assert contents == contents[..n] + [contents[n]] && chosen == chosen[..n] + [chosen[n]];
      var before := Picked(contents[..n], chosen[..n]);
      JoinedAppend(before, contents[n]);
      JoinedIsEmptyIff(before);
      assert Picked(contents, chosen) == if chosen[n] then before + [contents[n]] else before;
    }
  }

  /** Only non-empty contents are chosen, and the block fits after each of them. */
  ghost predicate Feasible(measure: string -> nat, contents: seq<string>, chosen: seq<bool>, budget: nat)
    requires |chosen| == |contents|
  {
    forall n :: 0 <= n < |contents| && chosen[n] ==> Fits(measure, contents, chosen, n, budget)
  }

  ghost predicate Fits(measure: string -> nat, contents: seq<string>, chosen: seq<bool>, n: nat, budget: nat)
    requires |chosen| == |contents| && n < |contents|
  {
    contents[n] != "" && measure(Extend(Block(contents[..n], chosen[..n]), contents[n])) <= budget
  }

  /** A content is chosen exactly when it fits behind those chosen before it. */
  ghost predicate TakesWhatFits(measure: string -> nat, contents: seq<string>, chosen: seq<bool>, budget: nat)
    requires |chosen| == |contents|
  {
    forall n :: 0 <= n < |contents| ==> (chosen[n] <==> Fits(measure, contents, chosen, n, budget))
  }

  /** `b` chooses the higher-ranked content where it first differs from `a`. */
  ghost predicate Precedes(a: seq<bool>, b: seq<bool>)
    requires |a| == |b|
  {
    exists n :: 0 <= n < |a| && a[..n] == b[..n] && !a[n] && b[n]
  }

  /** A text with a blank line between two parts is refused exactly if a part is. */
  ghost predicate RefusesParts(refuses: string -> bool) { forall a, b :: SplitsAtBlank(refuses, a, b) }

  ghost predicate SplitsAtBlank(refuses: string -> bool, a: string, b: string) {
    refuses(a + SEPARATOR + b) <==> refuses(a) || refuses(b)
  }

  /** The program's tokenizer refuses like that. */
  lemma TokenizerRefusesParts(t: Tokenizer)
    requires t.RefusesSpecials()
    ensures RefusesParts(t.refuses)
  {
    forall a, b ensures SplitsAtBlank(t.refuses, a, b) {
      var front := a + SEPARATOR;
      RefusesJoin(t, front, b);
      LineEndAdds(t, a);
      LineEndAdds(t, a + "\n");
      assert a + "\n" + "\n" == front;
    }
  }

  lemma LineEndAdds(t: Tokenizer, s: string)
    requires t.RefusesSpecials()
    ensures t.refuses(s + "\n") <==> t.refuses(s)
  {
    assert t.RefusesRight(s) && t.RefusesRight(s + "\n");
    forall k | 0 <= k < |t.specials| ensures Contains(s + "\n", t.specials[k]) <==> Contains(s, t.specials[k]) {
      ContainsEither(s, "\n", t.specials[k]);
      LastAdds(s, '\n', t.specials[k]);
    }
  }

  /** Some content that is not empty cannot be measured. */
  ghost predicate AnyRefused(refuses: string -> bool, contents: seq<string>, n: nat) {
    exists i :: 0 <= i < |contents| && i < n && contents[i] != "" && refuses(contents[i])
  }

  datatype Assembled = Assembled(block: string, chosen: seq<bool>, tokensUsed: nat)

  /**
   There is a block exactly if no non-empty content is one the tokenizer refuses, or there is no budget. It
   fits the budget, and its choice of contents is the lexicographically greatest feasible one: no lower-ranked
   content ever displaces a higher-ranked one that would have fitted.
   */
  method AssembleContext(measure: string -> nat, refuses: string -> bool, contents: seq<string>, budget: nat)
    returns (r: Result<Assembled, Exc>)
    requires RefusesParts(refuses)
    ensures r.Failure? <==> budget > 0 && AnyRefused(refuses, contents, |contents|)
    ensures r.Failure? ==> r.error == Other
    ensures r.Success? ==> |r.value.chosen| == |contents| && r.value.block == Block(contents, r.value.chosen)
    ensures r.Success? ==> r.value.block == Joined(Picked(contents, r.value.chosen))
    ensures r.Success? ==> r.value.tokensUsed == (if r.value.block == "" then 0 else measure(r.value.block)) <= budget
    ensures r.Success? && budget == 0 ==> r.value.block == ""
    ensures r.Success? && budget > 0 ==> Greedy(measure, contents, r.value.chosen, budget)
  {
    if budget == 0 {
      var none := seq(|contents|, _ => false);
      NothingChosen(contents, none);
      BlockIsJoined(contents, none);
      return Success(Assembled("", none, 0));
    }
    var block, chosen := "", [];
    for i := 0 to |contents|
      invariant |chosen| == i && block == Block(contents[..i], chosen)
      invariant block != "" ==> measure(block) <= budget && !refuses(block)
      invariant !AnyRefused(refuses, contents, i)
      invariant TakesWhatFits(measure, contents[..i], chosen, budget)
    {
      var take := false;
      if contents[i] != "" {
        var candidate := Extend(block, contents[i]);
        assert SplitsAtBlank(refuses, block, contents[i]);
        if refuses(candidate) { return Failure(Other); }
        if measure(candidate) <= budget {
          block, take := candidate, true;
        }
      }
      TakesNext(measure, contents, i, chosen, take, budget);
      chosen := chosen + [take];
    }
    assert contents[..|contents|] == contents;
    GreedyChoice(measure, contents, chosen, budget);
    ChosenAreJoined(measure, contents, chosen, budget);
    r := Success(Assembled(block, chosen, if block == "" then 0 else measure(block)));
  }

  /** What the choice of contents is among all others, and when it is a prefix of them. */
  ghost predicate Greedy(measure: string -> nat, contents: seq<string>, chosen: seq<bool>, budget: nat)
    requires |chosen| == |contents|
  {
    && Feasible(measure, contents, chosen, budget) && TakesWhatFits(measure, contents, chosen, budget)
    && (forall other :: |other| == |contents| && Feasible(measure, contents, other, budget) && other != chosen ==>
          Precedes(other, chosen))
    && (IsPrefixChoice(contents, chosen) <==> NothingSlipsIn(measure, contents, budget))
  }

  lemma GreedyChoice(measure: string -> nat, contents: seq<string>, chosen: seq<bool>, budget: nat)
    requires |chosen| == |contents| && TakesWhatFits(measure, contents, chosen, budget)
    ensures Greedy(measure, contents, chosen, budget)
  {
    PrefixIff(measure, contents, chosen, budget);
    forall other | |other| == |contents| && Feasible(measure, contents, other, budget) && other != chosen
      ensures Precedes(other, chosen)
    {
      GreedyIsGreatest(measure, contents, chosen, other, budget);
    }
  }

  lemma ChosenAreJoined(measure: string -> nat, contents: seq<string>, chosen: seq<bool>, budget: nat)
    requires |chosen| == |contents| && TakesWhatFits(measure, contents, chosen, budget)
    ensures Block(contents, chosen) == Joined(Picked(contents, chosen))
  {
    forall i | 0 <= i < |contents| && chosen[i] ensures contents[i] != "" {
      assert Fits(measure, contents, chosen, i, budget);
    }
    BlockIsJoined(contents, chosen);
  }

  lemma TakesNext(measure: string -> nat, contents: seq<string>, i: nat, chosen: seq<bool>, take: bool, budget: nat)
    requires i < |contents| && |chosen| == i && TakesWhatFits(measure, contents[..i], chosen, budget)
    requires take <==> contents[i] != "" && measure(Extend(Block(contents[..i], chosen), contents[i])) <= budget
    ensures TakesWhatFits(measure, contents[..i + 1], chosen + [take], budget)
    ensures Block(contents[..i + 1], chosen + [take]) ==
      if take then Extend(Block(contents[..i], chosen), contents[i]) else Block(contents[..i], chosen)
  {
    var more, all := contents[..i + 1], chosen + [take];
    assert more[..i] == contents[..i] && all[..i] == chosen;
    forall n | 0 <= n < i + 1 ensures all[n] <==> Fits(measure, more, all, n, budget) {
      if n < i {
        assert more[..n] == contents[..i][..n] && all[..n] == chosen[..n];
        assert chosen[n] <==> Fits(measure, contents[..i], chosen, n, budget);
      }
    }
  }

  lemma {:induction false} NothingChosen(contents: seq<string>, chosen: seq<bool>)
    requires |chosen| == |contents| && forall i :: 0 <= i < |chosen| ==> !chosen[i]
    ensures Block(contents, chosen) == ""
  {
    if contents != [] { NothingChosen(contents[..|contents| - 1], chosen[..|contents| - 1]); }
  }

  /** Whoever takes a content exactly when it fits is never behind. */
  lemma GreedyIsGreatest(measure: string -> nat, contents: seq<string>, greedy: seq<bool>, other: seq<bool>, budget: nat)
    requires |greedy| == |other| == |contents| && other != greedy
    requires TakesWhatFits(measure, contents, greedy, budget)
    requires Feasible(measure, contents, other, budget)
    ensures Precedes(other, greedy)
  {
    var n := FirstDifference(other, greedy);
    if other[n] {
      assert Fits(measure, contents, other, n, budget);
      assert Fits(measure, contents, greedy, n, budget);
    }
  }

  lemma {:induction false} FirstDifference(a: seq<bool>, b: seq<bool>) returns (n: nat)
    requires |a| == |b| && a != b
    ensures n < |a| && a[..n] == b[..n] && a[n] != b[n]
  {
    if a[0] != b[0] {
      n := 0;
    } else {
      assert a == [a[0]] + a[1..] && b == [b[0]] + b[1..];
      var m := FirstDifference(a[1..], b[1..]);
      n := m + 1;
      assert a[..n] == [a[0]] + a[1..][..m] && b[..n] == [b[0]] + b[1..][..m];
    }
  }

  // ----------------------------------------------------------------- what is omitted

  /** A content is chosen only if every non-empty one ranked above it is. */
  ghost predicate IsPrefixChoice(contents: seq<string>, chosen: seq<bool>)
    requires |chosen| == |contents|
  {
    forall i, j :: 0 <= i < j < |contents| && contents[i] != "" && chosen[j] ==> chosen[i]
  }

  function NonEmpty(contents: seq<string>): (r: seq<bool>)
    ensures |r| == |contents|
  {
    seq(|contents|, i requires 0 <= i < |contents| => contents[i] != "")
  }

  /** The `j`-th content is too much for the block of all non-empty contents before the `i`-th. */
  ghost predicate Over(measure: string -> nat, contents: seq<string>, i: nat, j: nat, budget: nat)
    requires i <= j < |contents|
  {
    measure(Extend(Block(contents[..i], NonEmpty(contents[..i])), contents[j])) > budget
  }

  /** The first content that does not fit behind all those before it. */
  ghost predicate FirstMisfit(measure: string -> nat, contents: seq<string>, i: nat, budget: nat)
    requires i < |contents|
  {
    contents[i] != "" && Over(measure, contents, i, i, budget)
    && forall k :: 0 <= k < i && contents[k] != "" ==> !Over(measure, contents, k, k, budget)
  }

  /** Nothing ranked below the first misfit fits where that did not. */
  ghost predicate NothingSlipsIn(measure: string -> nat, contents: seq<string>, budget: nat) {
    forall i, j :: 0 <= i < j < |contents| && FirstMisfit(measure, contents, i, budget) && contents[j] != "" ==>
      Over(measure, contents, i, j, budget)
  }

  lemma {:induction false} AllTakenBefore(measure: string -> nat, contents: seq<string>, greedy: seq<bool>, i: nat, budget: nat)
    requires |greedy| == |contents| && TakesWhatFits(measure, contents, greedy, budget) && i <= |contents|
    requires forall k :: 0 <= k < i && contents[k] != "" ==> !Over(measure, contents, k, k, budget)
    ensures greedy[..i] == NonEmpty(contents[..i])
  {
    if i > 0 {
      AllTakenBefore(measure, contents, greedy, i - 1, budget);
      assert greedy[i - 1] <==> Fits(measure, contents, greedy, i - 1, budget);
      assert greedy[..i] == greedy[..i - 1] + [greedy[i - 1]];
      assert NonEmpty(contents[..i]) == NonEmpty(contents[..i - 1]) + [contents[i - 1] != ""];
    }
  }

  lemma {:induction false} NoneTaken(contents: seq<string>, chosen: seq<bool>, i: nat, n: nat)
    requires |chosen| == |contents| && i <= n <= |contents|
    requires forall k :: i <= k < n ==> !chosen[k]
    ensures Block(contents[..n], chosen[..n]) == Block(contents[..i], chosen[..i])
  {
    if n > i {
      NoneTaken(contents, chosen, i, n - 1);
      assert contents[..n][..n - 1] == contents[..n - 1] && chosen[..n][..n - 1] == chosen[..n - 1];
    }
  }

  /** From the first misfit on nothing is taken up to `n`, if nothing before `n` slips in. */
  lemma {:induction false} NoneTakenAfter(measure: string -> nat, contents: seq<string>, greedy: seq<bool>, i: nat, n: nat, budget: nat)
    requires |greedy| == |contents| && TakesWhatFits(measure, contents, greedy, budget) && i <= n <= |contents|
    requires greedy[..i] == NonEmpty(contents[..i])
    requires forall j :: i <= j < n && contents[j] != "" ==> Over(measure, contents, i, j, budget)
    ensures forall k :: i <= k < n ==> !greedy[k]
  {
    if n > i {
      NoneTakenAfter(measure, contents, greedy, i, n - 1, budget);
      NoneTaken(contents, greedy, i, n - 1);
      assert greedy[n - 1] <==> Fits(measure, contents, greedy, n - 1, budget);
    }
  }

  /** The first refused content is the first misfit. */
  lemma {:induction false} FirstRefused(measure: string -> nat, contents: seq<string>, greedy: seq<bool>, n: nat, budget: nat) returns (i: nat)
    requires |greedy| == |contents| && TakesWhatFits(measure, contents, greedy, budget) && n < |contents|
    requires contents[n] != "" && !greedy[n]
    ensures i <= n && FirstMisfit(measure, contents, i, budget) && greedy[..i] == NonEmpty(contents[..i])
  {
    if k :| 0 <= k < n && contents[k] != "" && !greedy[k] {
      i := FirstRefused(measure, contents, greedy, k, budget);
    } else {
      i := n;
      forall k | 0 <= k < i ensures greedy[k] == (contents[k] != "") {
        assert greedy[k] ==> Fits(measure, contents, greedy, k, budget);
      }
      forall k | 0 <= k <= i && contents[k] != "" ensures Over(measure, contents, k, k, budget) <==> k == i {
        assert greedy[..k] == NonEmpty(contents[..k]);
        assert greedy[k] <==> Fits(measure, contents, greedy, k, budget);
      }
    }
  }

  /** The chosen contents are the highest-ranked ones exactly when nothing fits where the first misfit did not. */
  lemma PrefixIff(measure: string -> nat, contents: seq<string>, greedy: seq<bool>, budget: nat)
    requires |greedy| == |contents| && TakesWhatFits(measure, contents, greedy, budget)
    ensures IsPrefixChoice(contents, greedy) <==> NothingSlipsIn(measure, contents, budget)
  {
    if NothingSlipsIn(measure, contents, budget) {
      forall i, j | 0 <= i < j < |contents| && contents[i] != "" && !greedy[i] ensures !greedy[j] {
        var first := FirstRefused(measure, contents, greedy, i, budget);
        NoneTakenAfter(measure, contents, greedy, first, |contents|, budget);
      }
    }
    if IsPrefixChoice(contents, greedy) {
      forall i, j | 0 <= i < j < |contents| && FirstMisfit(measure, contents, i, budget) && contents[j] != ""
        ensures Over(measure, contents, i, j, budget)
      {
        MisfitStops(measure, contents, greedy, i, j, budget);
      }
    }
  }

  lemma MisfitStops(measure: string -> nat, contents: seq<string>, greedy: seq<bool>, i: nat, j: nat, budget: nat)
    requires |greedy| == |contents| && TakesWhatFits(measure, contents, greedy, budget) && IsPrefixChoice(contents, greedy)
    requires i < j < |contents| && FirstMisfit(measure, contents, i, budget) && contents[j] != ""
    ensures Over(measure, contents, i, j, budget)
  {
    AllTakenBefore(measure, contents, greedy, i, budget);
    assert !greedy[i] by { assert greedy[i] <==> Fits(measure, contents, greedy, i, budget); }
    NoneTaken(contents, greedy, i, j);
    assert greedy[j] <==> Fits(measure, contents, greedy, j, budget);
  }

  /** A content over the budget is skipped and the one below it is taken. */
  lemma LowerRankedIsTaken(measure: string -> nat, large: string, small: string, greedy: seq<bool>, budget: nat)
    requires large != "" && small != "" && measure(large) > budget >= measure(small)
    requires |greedy| == 2 && TakesWhatFits(measure, [large, small], greedy, budget)
    ensures greedy == [false, true] && !IsPrefixChoice([large, small], greedy)
    ensures Block([large, small], greedy) == small
  {
    var contents := [large, small];
    assert Block(contents[..0], greedy[..0]) == "";
    assert !greedy[0] by { assert greedy[0] <==> Fits(measure, contents, greedy, 0, budget); }
    NoneTaken(contents, greedy, 0, 1);
    assert greedy[1] by { assert greedy[1] <==> Fits(measure, contents, greedy, 1, budget); }
    assert contents[..2] == contents && greedy[..2] == greedy;
    assert contents[0] != "" && greedy[1] && !greedy[0];
  }
}
