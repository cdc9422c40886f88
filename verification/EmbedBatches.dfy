/** Greedy sub-batching of embedding inputs under a token budget, and embedding over the batches. */
module EmbedBatches {
  import opened Wrappers

  /** Four characters per token, rounded up, and at least one. */
  function Estimate(text: string): nat { Max(1, (|text| + 3) / 4) }

  /** A text over budget is cut to the budget's number of characters. */
  function Truncated(text: string, budget: nat): string
    requires budget > 0
  {
    if Estimate(text) > budget then text[..4 * budget] else text
  }

  function TruncateAll(texts: seq<string>, budget: nat): (r: seq<string>)
    requires budget > 0
    ensures |r| == |texts|
  {
    seq(|texts|, i requires 0 <= i < |texts| => Truncated(texts[i], budget))
  }

  function Cost(batch: seq<string>): nat {
    if batch == [] then 0 else Cost(batch[..|batch| - 1]) + Estimate(batch[|batch| - 1])
  }

  function Flatten<T>(batches: seq<seq<T>>): seq<T> {
    if batches == [] then [] else batches[0] + Flatten(batches[1..])
  }

  /** The estimate is the least positive number of tokens of four characters each that covers the text. */
  lemma EstimateIsLeast(text: string, n: nat)
    ensures n >= Estimate(text) <==> n > 0 && 4 * n >= |text|
  {
  }

  /** What is sent of a text is its longest beginning within the budget: the whole text, or four characters a token. */
  lemma TruncationIsLongest(text: string, budget: nat, other: string)
    requires budget > 0 && other <= text && Estimate(other) <= budget
    ensures other <= Truncated(text, budget) <= text && Estimate(Truncated(text, budget)) <= budget
    ensures |Truncated(text, budget)| == Min(|text|, 4 * budget)
  {
    EstimateIsLeast(text, budget);
    EstimateIsLeast(other, budget);
    EstimateIsLeast(Truncated(text, budget), budget);
  }

  lemma TruncationFits(text: string, budget: nat)
    requires budget > 0
    ensures Estimate(Truncated(text, budget)) <= budget
    ensures Truncated(text, budget) == text <==> Estimate(text) <= budget
  {
    TruncationIsLongest(text, budget, "");
  }

  /** Each text up to so many characters, in order. */
  ghost predicate CutTo(sent: seq<string>, texts: seq<string>, characters: nat) {
    |sent| == |texts| && forall i :: 0 <= i < |texts| ==> sent[i] == texts[i][..Min(|texts[i]|, characters)]
  }

  lemma TruncatedAreCut(texts: seq<string>, budget: nat)
    requires budget > 0
    ensures CutTo(TruncateAll(texts, budget), texts, 4 * budget)
  {
    forall i | 0 <= i < |texts| ensures TruncateAll(texts, budget)[i] == texts[i][..Min(|texts[i]|, 4 * budget)] {
      TruncationIsLongest(texts[i], budget, "");
    }
  }

  // ----------------------------------------------------------------- sums over batches

  lemma {:induction false} FlattenAppend<T>(a: seq<seq<T>>, last: seq<T>)
    ensures Flatten(a + [last]) == Flatten(a) + last
  {
    if a == [] {
      assert (a + [last])[1..] == [];
    } else {
      FlattenAppend(a[1..], last);
      assert (a + [last])[1..] == a[1..] + [last];
    }
  }

  lemma {:induction false} CostSplit(a: seq<string>, b: seq<string>)
    ensures Cost(a + b) == Cost(a) + Cost(b)
  {
    if b == [] {
      assert a + b == a;
    } else {
      CostSplit(a, b[..|b| - 1]);
      assert (a + b)[..|a + b| - 1] == a + b[..|b| - 1];
    }
  }

  // ----------------------------------------------------------------- packing

  ghost predicate WithinBudget(batches: seq<seq<string>>, budget: nat) {
    forall i :: 0 <= i < |batches| ==> Cost(batches[i]) <= budget
  }

  /** Every batch is non-empty, and the one after it starts with a text it had no room for. */
  ghost predicate Greedy(batches: seq<seq<string>>, budget: nat) {
    && (forall i :: 0 <= i < |batches| ==> batches[i] != [])
    && (forall i :: 0 <= i < |batches| - 1 ==> Cost(batches[i]) + Estimate(batches[i + 1][0]) > budget)
  }

  /** How many texts the first `n` batches send. */
  function Reached(batches: seq<seq<string>>, n: nat): nat { |Flatten(batches[..if n < |batches| then n else |batches|])| }

  /** After every number of batches the first packing has sent at least as many texts, and `lead` more. */
  ghost predicate StaysAhead(batches: seq<seq<string>>, other: seq<seq<string>>, lead: nat) {
    forall n: nat :: Reached(other, n) <= lead + Reached(batches, n)
  }

  /**
   No packing of these texts within the budget, also with empty batches, has fewer batches, nor has it
   sent more texts after any number of them.
   */
  ghost predicate Fewest(batches: seq<seq<string>>, texts: seq<string>, budget: nat) {
    forall other :: Flatten(other) == texts && WithinBudget(other, budget) ==> |batches| <= |other| && StaysAhead(batches, other, 0)
  }

  /** The batch being filled fits, and it starts with a text the last full batch had no room for. */
  ghost predicate Follows(batches: seq<seq<string>>, current: seq<string>, budget: nat) {
    && Cost(current) <= budget
    && (current == [] ==> batches == [])
    && (batches != [] ==> Cost(batches[|batches| - 1]) + Estimate(current[0]) > budget)
  }

  /** The full batches. */
  ghost predicate Full(batches: seq<seq<string>>, budget: nat) { WithinBudget(batches, budget) && Greedy(batches, budget) }

  /** What the full batches and the one being filled hold. */
  ghost predicate Holds(batches: seq<seq<string>>, current: seq<string>, texts: seq<string>) { Flatten(batches) + current == texts }

  /** The packing so far and the batch being filled, after the first `n` texts. */
  ghost predicate Filling(batches: seq<seq<string>>, current: seq<string>, texts: seq<string>, n: nat, budget: nat)
    requires n <= |texts|
  {
    Holds(batches, current, texts[..n]) && Follows(batches, current, budget) && Full(batches, budget)
  }

  lemma CostExtends(current: seq<string>, text: string)
    ensures Cost(current + [text]) == Cost(current) + Estimate(text)
  {
    assert (current + [text])[..|current|] == current;
  }

  /** A full batch joins the greedy ones before it. */
  lemma GreedyExtends(batches: seq<seq<string>>, current: seq<string>, budget: nat)
    requires Full(batches, budget) && Follows(batches, current, budget) && current != []
    ensures Full(batches + [current], budget)
  {
    var all := batches + [current];
    forall i | 0 <= i < |all| ensures Cost(all[i]) <= budget && all[i] != [] {
      if i < |batches| { assert all[i] == batches[i]; }
    }
    forall i | 0 <= i < |all| - 1 ensures Cost(all[i]) + Estimate(all[i + 1][0]) > budget {
      assert all[i] == batches[i];
      if i + 1 < |batches| { assert all[i + 1] == batches[i + 1]; }
    }
  }

  lemma FlushAndAdd(batches: seq<seq<string>>, current: seq<string>, texts: seq<string>, n: nat, budget: nat)
    requires n < |texts| && Filling(batches, current, texts, n, budget)
    requires current != [] && Cost(current) + Estimate(texts[n]) > budget >= Estimate(texts[n])
    ensures Filling(batches + [current], [] + [texts[n]], texts, n + 1, budget) && Cost([] + [texts[n]]) == Estimate(texts[n])
  {
    assert [] + [texts[n]] == [texts[n]];
    GreedyExtends(batches, current, budget);
    FlattenAppend(batches, current);
    CostOfOne(texts[n]);
    assert texts[..n + 1] == texts[..n] + [texts[n]];
  }

  lemma CostOfOne(text: string)
    ensures Cost([text]) == Estimate(text)
  {
    assert [text][..0] == [];
  }

  lemma AddText(batches: seq<seq<string>>, current: seq<string>, texts: seq<string>, n: nat, budget: nat)
    requires n < |texts| && Filling(batches, current, texts, n, budget)
    requires Cost(current) + Estimate(texts[n]) <= budget
    ensures Filling(batches, current + [texts[n]], texts, n + 1, budget)
    ensures Cost(current + [texts[n]]) == Cost(current) + Estimate(texts[n])
  {
    CostExtends(current, texts[n]);
    assert texts[..n + 1] == texts[..n] + [texts[n]];
    assert Flatten(batches) + (current + [texts[n]]) == Flatten(batches) + current + [texts[n]];
  }

  /** A text that is too large for any batch is cut. */
  method Trim(text: string, budget: nat) returns (trimmed: string, estimate: nat)
    requires budget > 0
    ensures trimmed == Truncated(text, budget) && estimate == Estimate(trimmed) <= budget
  {
    trimmed, estimate := text, Estimate(text);
    TruncationFits(text, budget);
    if estimate > budget {
      trimmed := text[..4 * budget];
      estimate := Estimate(trimmed);
    }
  }

  /**
   Packs the texts, cut where they exceed the budget, into batches in input order; no packing within the
   budget has fewer of them or gets ahead of it.
   */
  method PackBatches(texts: seq<string>, budget: nat) returns (batches: seq<seq<string>>)
    requires budget > 0
    ensures Flatten(batches) == TruncateAll(texts, budget) && CutTo(Flatten(batches), texts, 4 * budget)
    ensures WithinBudget(batches, budget) && forall i :: 0 <= i < |batches| ==> batches[i] != []
    ensures Fewest(batches, TruncateAll(texts, budget), budget)
  {
    ghost var all := TruncateAll(texts, budget);
    TruncatedAreCut(texts, budget);
    batches := [];
    var current: seq<string> := [];
    var tokens: nat := 0;
    assert Filling(batches, current, all, 0, budget);
    for i := 0 to |texts|
      invariant Filling(batches, current, all, i, budget) && tokens == Cost(current)
    {
      var text, estimate := Trim(texts[i], budget);
      if current != [] && tokens + estimate > budget {
        FlushAndAdd(batches, current, all, i, budget);
        batches := batches + [current];
        current, tokens := [], 0;
      } else {
        AddText(batches, current, all, i, budget);
      }
      current, tokens := current + [text], tokens + estimate;
    }
    Finish(batches, current, all, budget);
    if current != [] {
      batches := batches + [current];
    }
  }

  lemma Finish(batches: seq<seq<string>>, current: seq<string>, texts: seq<string>, budget: nat)
    requires Filling(batches, current, texts, |texts|, budget)
    ensures
      var all := if current != [] then batches + [current] else batches;
      && Flatten(all) == texts && WithinBudget(all, budget) && Fewest(all, texts, budget)
      && forall i :: 0 <= i < |all| ==> all[i] != []
  {
    assert texts[..|texts|] == texts;
    if current != [] {
      GreedyExtends(batches, current, budget);
      FlattenAppend(batches, current);
      GreedyIsFewest(batches + [current], texts, budget);
    } else {
      assert Flatten(batches) == texts;
      GreedyIsFewest(batches, texts, budget);
    }
  }

  lemma GreedyIsFewest(batches: seq<seq<string>>, texts: seq<string>, budget: nat)
    requires Greedy(batches, budget) && Flatten(batches) == texts
    ensures Fewest(batches, texts, budget)
  {
    forall other | Flatten(other) == texts && WithinBudget(other, budget) ensures |batches| <= |other| && StaysAhead(batches, other, 0) {
      assert texts == [] + texts;
      GreedyIsOptimal([], batches, other, budget);
    }
  }

  lemma {:induction false} BudgetOfTails(batches: seq<seq<string>>, budget: nat)
    requires batches != []
    ensures WithinBudget(batches, budget) ==> WithinBudget(batches[1..], budget)
    ensures Greedy(batches, budget) ==> Greedy(batches[1..], budget)
  {
    var t := batches[1..];
    assert forall i :: 0 <= i < |t| ==> t[i] == batches[i + 1];
  }

  lemma {:induction false} ReachedIsPart(batches: seq<seq<string>>, n: nat)
    ensures Reached(batches, n) <= |Flatten(batches)|
    ensures batches != [] && n > 0 ==> Reached(batches, n) == |batches[0]| + Reached(batches[1..], n - 1)
  {
    if batches != [] && n > 0 {
      ReachedIsPart(batches[1..], n - 1);
      var k := if n < |batches| then n else |batches|;
      assert batches[..k][1..] == batches[1..][..k - 1];
    }
  }

  /** A lead after the first batches carries over to the whole packings. */
  lemma AheadExtends(batches: seq<seq<string>>, other: seq<seq<string>>, lead: nat, gap: nat)
    requires batches != [] && other != [] && |other[0]| + gap == lead + |batches[0]|
    requires StaysAhead(batches[1..], other[1..], gap)
    ensures StaysAhead(batches, other, lead)
  {
    forall n: nat ensures Reached(other, n) <= lead + Reached(batches, n) {
      if n > 0 {
        ReachedIsPart(batches, n);
        ReachedIsPart(other, n);
        assert Reached(other[1..], n - 1) <= gap + Reached(batches[1..], n - 1);
      }
    }
  }

  /**
   Greedy batches stay ahead: if what they still have to send is the end of what the other packing
   still has to send, they need no more batches for it, and keep their lead after every number of them.
   */
  lemma {:induction false} GreedyIsOptimal(ahead: seq<string>, batches: seq<seq<string>>, other: seq<seq<string>>, budget: nat)
    requires Greedy(batches, budget) && WithinBudget(other, budget)
    requires Flatten(other) == ahead + Flatten(batches)
    ensures |batches| <= |other| && StaysAhead(batches, other, |ahead|)
    decreases |other|
  {
    if batches == [] {
      forall n: nat ensures Reached(other, n) <= |ahead| { ReachedIsPart(other, n); }
    } else {
      assert other != [] by {
        assert batches[0] != [];
        assert |Flatten(other)| > 0;
      }
      BudgetOfTails(batches, budget);
      BudgetOfTails(other, budget);
      assert other[0] == Flatten(other)[..|other[0]|];
      var sent := ahead + batches[0];
      assert Flatten(other) == sent + Flatten(batches[1..]);
      if |other[0]| <= |sent| {
        var gap := sent[|other[0]|..];
        assert Flatten(other[1..]) == Flatten(other)[|other[0]|..] == gap + Flatten(batches[1..]);
        GreedyIsOptimal(gap, batches[1..], other[1..], budget);
        AheadExtends(batches, other, |ahead|, |gap|);
      } else if |batches| > 1 {
        CannotReachFurther(ahead, batches, other[0], budget);
        assert false;
      }
    }
  }

  /** A batch that covers a greedy batch and the text after it is over budget. */
  lemma CannotReachFurther(ahead: seq<string>, batches: seq<seq<string>>, first: seq<string>, budget: nat)
    requires Greedy(batches, budget) && |batches| > 1
    requires |ahead| + |batches[0]| < |first| <= |ahead + Flatten(batches)|
    requires first == (ahead + Flatten(batches))[..|first|]
    ensures Cost(first) > budget
  {
    var x, rest := batches[1][0], Flatten(batches[1..]);
    assert rest[0] == x by { assert rest == batches[1] + Flatten(batches[1..][1..]); }
    CoversCosts(ahead, batches[0], x, rest, first);
  }

  lemma CoversCosts(ahead: seq<string>, batch: seq<string>, x: string, rest: seq<string>, first: seq<string>)
    requires |ahead| + |batch| < |first| <= |ahead + (batch + rest)| && first == (ahead + (batch + rest))[..|first|]
    requires rest != [] && rest[0] == x
    ensures Cost(first) >= Cost(batch) + Estimate(x)
  {
    var core := ahead + batch;
    assert first == (core + [x]) + first[|core| + 1..];
    CostSplit(core + [x], first[|core| + 1..]);
    CostSplit(core, [x]);
    CostSplit(ahead, batch);
    CostOfOne(x);
  }

  // ----------------------------------------------------------------- embedding

  type Vector = seq<real>

  datatype EmbedError = ServiceError(status: Option<nat>) | RequestError(code: nat) | DimensionError | TimeoutError

  /** What the service sends in answer to one request, any number of vectors; every request is numbered. */
  type Server = (nat, seq<string>) -> Result<seq<Vector>, EmbedError>

  predicate Is5xx(e: EmbedError) { e.ServiceError? && e.status.Some? && 500 <= e.status.value < 600 }

  /** An answer counts only if it holds one vector for each text. */
  function Asked(serve: Server, n: nat, batch: seq<string>): (r: Result<seq<Vector>, EmbedError>)
    ensures r.Success? ==> |r.value| == |batch|
  {
    var answer := serve(n, batch);
    if answer.Success? && |answer.value| != |batch| then Failure(ServiceError(None)) else answer
  }

  /** One retry after a 5xx answer, none after anything else, a wrong number of vectors included. */
  method RequestWithRetry(serve: Server, n: nat, batch: seq<string>) returns (r: Result<seq<Vector>, EmbedError>, next: nat)
    ensures r.Success? ==> |r.value| == |batch|
    ensures
      if serve(n, batch).Failure? && Is5xx(serve(n, batch).error) then r == Asked(serve, n + 1, batch) && next == n + 2
      else r == Asked(serve, n, batch) && next == n + 1
  {
    r, next := Asked(serve, n, batch), n + 1;
    if r.Failure? && Is5xx(r.error) {
      r, next := Asked(serve, next, batch), next + 1;
    }
  }

  /** The service embeds text by text: its answers do not depend on what shares the request. */
  ghost predicate TextByText(serve: Server, vectorOf: string -> Vector) {
    forall n, batch :: serve(n, batch).Success? && |serve(n, batch).value| == |batch| ==>
      serve(n, batch).value == VectorsOf(batch, vectorOf)
  }

  function VectorsOf(texts: seq<string>, vectorOf: string -> Vector): seq<Vector> {
    seq(|texts|, i requires 0 <= i < |texts| => vectorOf(texts[i]))
  }

  lemma VectorsAppend(a: seq<string>, b: seq<string>, vectorOf: string -> Vector)
    ensures VectorsOf(a + b, vectorOf) == VectorsOf(a, vectorOf) + VectorsOf(b, vectorOf)
  {
  }

  /** One request, or two, per batch in turn; the first failure ends it. */
  method EmbedAll(serve: Server, batches: seq<seq<string>>, ghost vectorOf: string -> Vector)
    returns (r: Result<seq<Vector>, EmbedError>, requests: nat)
    ensures r.Success? ==> |r.value| == |Flatten(batches)|
    ensures r.Success? && TextByText(serve, vectorOf) ==> r.value == VectorsOf(Flatten(batches), vectorOf)
    ensures requests <= 2 * |batches|
  {
    var embeddings: seq<Vector> := [];
    requests := 0;
    for i := 0 to |batches|
      invariant |embeddings| == |Flatten(batches[..i])|
      invariant TextByText(serve, vectorOf) ==> embeddings == VectorsOf(Flatten(batches[..i]), vectorOf)
      invariant requests <= 2 * i
    {
      var answer;
      answer, requests := RequestWithRetry(serve, requests, batches[i]);
      if answer.Failure? { return answer, requests; }
      FlattenAppend(batches[..i], batches[i]);
      assert batches[..i + 1] == batches[..i] + [batches[i]];
      VectorsAppend(Flatten(batches[..i]), batches[i], vectorOf);
      embeddings := embeddings + answer.value;
    }
    assert batches[..|batches|] == batches;
    r := Success(embeddings);
  }

  /**
   One vector per input, whatever the service sends; its own vector for each input, in input order and
   however the inputs were batched, if the service embeds text by text; and at most two requests for each
   batch of a packing with the fewest batches.
   */
  method Embed(serve: Server, texts: seq<string>, budget: nat, ghost vectorOf: string -> Vector)
    returns (r: Result<seq<Vector>, EmbedError>, requests: nat, batches: seq<seq<string>>)
    requires budget > 0
    ensures r.Success? ==> |r.value| == |texts|
    ensures r.Success? && TextByText(serve, vectorOf) ==> r.value == VectorsOf(TruncateAll(texts, budget), vectorOf)
    ensures Flatten(batches) == TruncateAll(texts, budget) && requests <= 2 * |batches|
    ensures Fewest(batches, TruncateAll(texts, budget), budget)
  {
    if texts == [] {
      GreedyIsFewest([], TruncateAll(texts, budget), budget);
      return Success([]), 0, [];
    }
    batches := PackBatches(texts, budget);
    r, requests := EmbedAll(serve, batches, vectorOf);
  }
}
