/** Overlapping windows over a token stream. The tokenizer is abstract, and there are texts it refuses. */
module TokenWindows {
  import opened Wrappers
  import opened Text

  // ----------------------------------------------------------------- windows

  /** `k` steps of this length. */
  function Steps(step: nat, k: nat): (r: nat) { if k == 0 then 0 else Steps(step, k - 1) + step }

  lemma {:induction false} StepsAscend(step: nat, i: nat, j: nat)
    requires i <= j
    ensures Steps(step, i) <= Steps(step, j)
  {
    if i < j { StepsAscend(step, i, j - 1); }
  }

  /** The quotient rounded up. */
  function CeilDiv(a: nat, b: nat): (q: nat)
    requires b > 0
  {
    if a == 0 then 0 else if a <= b then 1 else 1 + CeilDiv(a - b, b)
  }

  /** It is the least number of steps that reaches `a`. */
  lemma {:induction false} CeilDivIsLeast(a: nat, b: nat)
    requires b > 0
    ensures var q := CeilDiv(a, b); Steps(b, q) >= a && (q > 0 ==> Steps(b, q - 1) < a)
  {
    if a > b {
      CeilDivIsLeast(a - b, b);
    } else {
      assert Steps(b, 1) == Steps(b, 0) + b;
    }
  }

  /** How many windows cover `n` tokens: one, or one more for every started step beyond the first. */
  function WindowCount(n: nat, target: nat, overlap: nat): (m: nat)
    requires overlap < target
    ensures m >= 1
  {
    if n <= target then 1 else 1 + CeilDiv(n - target, target - overlap)
  }

  function WindowStart(target: nat, overlap: nat, k: nat): nat
    requires overlap < target
  {
    Steps(target - overlap, k)
  }

  function WindowEnd(n: nat, target: nat, overlap: nat, k: nat): nat
    requires overlap < target
  {
    Min(WindowStart(target, overlap, k) + target, n)
  }

  /** Every window but the last is full, and the last one ends the stream with something new. */
  lemma WindowBounds(n: nat, target: nat, overlap: nat, k: nat)
    requires overlap < target && k < WindowCount(n, target, overlap)
    ensures WindowStart(target, overlap, k) <= WindowEnd(n, target, overlap, k) <= n
    ensures WindowEnd(n, target, overlap, k) == n <==> k + 1 == WindowCount(n, target, overlap)
    ensures k + 1 < WindowCount(n, target, overlap) ==>
      WindowEnd(n, target, overlap, k) == WindowStart(target, overlap, k) + target
    ensures k > 0 ==>
      && WindowStart(target, overlap, k) == WindowStart(target, overlap, k - 1) + target - overlap
      && WindowStart(target, overlap, k) + overlap < WindowEnd(n, target, overlap, k)
  {
    if n > target {
      var step, q := target - overlap, CeilDiv(n - target, target - overlap);
      CeilDivIsLeast(n - target, step);
      if k < q {
        StepsAscend(step, k, q - 1);
      }
      if k > 0 {
        StepsAscend(step, k - 1, q - 1);
      }
    }
  }

  /** The k-th window starts `k` steps in and is cut off at the end of the stream. */
  function Window(tokens: seq<nat>, target: nat, overlap: nat, k: nat): seq<nat>
    requires overlap < target && k < WindowCount(|tokens|, target, overlap)
  {
    WindowBounds(|tokens|, target, overlap, k);
    tokens[WindowStart(target, overlap, k)..WindowEnd(|tokens|, target, overlap, k)]
  }

  /** The tokens of window `k` that no earlier window has. */
  function NewTokens(tokens: seq<nat>, target: nat, overlap: nat, k: nat): seq<nat>
    requires overlap < target && k < WindowCount(|tokens|, target, overlap)
  {
    WindowBounds(|tokens|, target, overlap, k);
    if k == 0 then Window(tokens, target, overlap, 0) else Window(tokens, target, overlap, k)[overlap..]
  }

  function Restored(tokens: seq<nat>, target: nat, overlap: nat, m: nat): seq<nat>
    requires overlap < target && m <= WindowCount(|tokens|, target, overlap)
  {
    if m == 0 then [] else Restored(tokens, target, overlap, m - 1) + NewTokens(tokens, target, overlap, m - 1)
  }

  /** Windows respect the target, neighbours share exactly the overlap, and each one goes further. */
  lemma NeighboursShareOverlap(tokens: seq<nat>, target: nat, overlap: nat, k: nat)
    requires overlap < target && k < WindowCount(|tokens|, target, overlap)
    ensures |Window(tokens, target, overlap, k)| <= target
    ensures k > 0 ==>
      var before, window := Window(tokens, target, overlap, k - 1), Window(tokens, target, overlap, k);
      |before| == target && |window| > overlap && before[target - overlap..target] == window[0..overlap]
  {
    WindowBounds(|tokens|, target, overlap, k);
    if k > 0 {
      WindowBounds(|tokens|, target, overlap, k - 1);
      var start, end := WindowStart(target, overlap, k), WindowEnd(|tokens|, target, overlap, k);
      var step := target - overlap;
      SliceOfSlice(tokens, start - step, start + overlap, step, target);
      SliceOfSlice(tokens, start, end, 0, overlap);
    }
  }

  lemma SliceOfSlice(tokens: seq<nat>, a: nat, b: nat, x: nat, y: nat)
    requires a <= b <= |tokens| && x <= y <= b - a
    ensures tokens[a..b][x..y] == tokens[a + x..a + y]
  {
    var inner, outer := tokens[a..b][x..y], tokens[a + x..a + y];
    forall i | 0 <= i < |inner| ensures inner[i] == outer[i] {
      assert inner[i] == tokens[a..b][x + i];
    }
  }

  lemma NewTokensAre(tokens: seq<nat>, target: nat, overlap: nat, k: nat)
    requires overlap < target && 0 < k < WindowCount(|tokens|, target, overlap)
    ensures
      var n := |tokens|;
      && WindowEnd(n, target, overlap, k - 1) <= WindowEnd(n, target, overlap, k) <= n
      && NewTokens(tokens, target, overlap, k) ==
           tokens[WindowEnd(n, target, overlap, k - 1)..WindowEnd(n, target, overlap, k)]
  {
    WindowBounds(|tokens|, target, overlap, k - 1);
    WindowBounds(|tokens|, target, overlap, k);
    var start, end := WindowStart(target, overlap, k), WindowEnd(|tokens|, target, overlap, k);
    SliceOfSlice(tokens, start, end, overlap, end - start);
    assert tokens[start..end][overlap..] == tokens[start..end][overlap..end - start];
  }

  /** The first window and the later ones without their overlap give back the stream. */
  lemma {:induction false} WindowsRestore(tokens: seq<nat>, target: nat, overlap: nat, k: nat)
    requires overlap < target && k < WindowCount(|tokens|, target, overlap)
    ensures Restored(tokens, target, overlap, k + 1) == tokens[..WindowEnd(|tokens|, target, overlap, k)]
    ensures k + 1 == WindowCount(|tokens|, target, overlap) ==> Restored(tokens, target, overlap, k + 1) == tokens
  {
    WindowBounds(|tokens|, target, overlap, k);
    if k == 0 {
      assert Restored(tokens, target, overlap, 1) == [] + NewTokens(tokens, target, overlap, 0);
    } else {
      WindowsRestore(tokens, target, overlap, k - 1);
      NewTokensAre(tokens, target, overlap, k);
    }
  }

  lemma AllRestored(tokens: seq<nat>, target: nat, overlap: nat)
    requires overlap < target
    ensures Restored(tokens, target, overlap, WindowCount(|tokens|, target, overlap)) == tokens
  {
    var k := WindowCount(|tokens|, target, overlap) - 1;
    WindowsRestore(tokens, target, overlap, k);
    assert k + 1 == WindowCount(|tokens|, target, overlap);
  }

  // ----------------------------------------------------------------- the tokenizer

  /** `refuses` says which texts cannot be encoded: `encode` raises for them. */
  datatype Tokenizer = Tokenizer(specials: seq<string>, refuses: string -> bool, encode: string -> seq<nat>, decode: seq<nat> -> string)
  {
    function Count(s: string): nat { |encode(s)| }

    /** The encoder as the program calls it. */
    function Encode(s: string): seq<nat>
      requires !refuses(s)
    {
      encode(s)
    }

    /** The text is encoded, with at most `n` tokens. */
    predicate Fits(s: string, n: nat) { !refuses(s) && Count(s) <= n }

    ghost predicate HasSpecial(s: string) { exists k :: 0 <= k < |specials| && Contains(s, specials[k]) }

    ghost predicate RefusesRight(s: string) { refuses(s) <==> HasSpecial(s) }

    /** The spelling of a special token has neither a space nor a line end in it. */
    ghost predicate PlainSpecials() {
      forall k :: 0 <= k < |specials| ==> specials[k] != "" && ' ' !in specials[k] && '\n' !in specials[k]
    }

    ghost predicate RoundTrips(s: string) { !refuses(s) ==> decode(encode(s)) == s }

    ghost predicate Distributes(a: seq<nat>, b: seq<nat>) { decode(a + b) == decode(a) + decode(b) }

    /** Exactly the texts that spell a special token are refused. */
    ghost predicate RefusesSpecials() { PlainSpecials() && forall s :: RefusesRight(s) }

    /** And decoding undoes encoding and distributes over concatenation. */
    ghost predicate Lawful() {
      && RefusesSpecials()
      && (forall s :: RoundTrips(s))
      && (forall a, b :: Distributes(a, b))
    }
  }

  /** The text ends where no special token can go on. */
  predicate Broken(s: string) { s == "" || s[|s| - 1] == '\n' || s[|s| - 1] == ' ' }

  /** Behind such an end a special token is in one of the two texts. */
  lemma RefusesJoin(t: Tokenizer, a: string, b: string)
    requires t.RefusesSpecials()
    ensures t.refuses(a) || t.refuses(b) ==> t.refuses(a + b)
    ensures Broken(a) ==> (t.refuses(a + b) <==> t.refuses(a) || t.refuses(b))
  {
    assert t.RefusesRight(a) && t.RefusesRight(b) && t.RefusesRight(a + b);
    forall k | 0 <= k < |t.specials|
      ensures Contains(a, t.specials[k]) || Contains(b, t.specials[k]) ==> Contains(a + b, t.specials[k])
      ensures Broken(a) ==>
        (Contains(a + b, t.specials[k]) <==> Contains(a, t.specials[k]) || Contains(b, t.specials[k]))
    {
      ContainsEither(a, b, t.specials[k]);
      if Broken(a) { NoStraddle(a, b, t.specials[k]); }
    }
  }

  lemma BlankIsEncoded(t: Tokenizer)
    requires t.RefusesSpecials()
    ensures !t.refuses("") && !t.refuses(" ")
  {
    assert t.RefusesRight("") && t.RefusesRight(" ");
    forall k | 0 <= k < |t.specials| ensures !Contains("", t.specials[k]) && !Contains(" ", t.specials[k]) {
      var w := t.specials[k];
      assert w[0] in w;
      forall i: nat ensures !StandsAt("", w, i) && !StandsAt(" ", w, i) {
        if i + |w| <= 1 { assert " "[i..i + |w|] == " "; }
      }
    }
  }

  /** The special tokens of the encoding the program uses. */
  const CL100K_SPECIALS: seq<string> :=
    ["<|endoftext|>", "<|fim_prefix|>", "<|fim_middle|>", "<|fim_suffix|>", "<|endofprompt|>"]

  lemma Cl100kIsPlain(t: Tokenizer)
    requires t.specials == CL100K_SPECIALS
    ensures t.PlainSpecials()
  {
  }

  /** The texts of all windows of a section. */
  function WindowTexts(t: Tokenizer, tokens: seq<nat>, target: nat, overlap: nat): seq<string>
    requires overlap < target
  {
    seq(WindowCount(|tokens|, target, overlap),
        k requires 0 <= k < WindowCount(|tokens|, target, overlap) => t.decode(Window(tokens, target, overlap, k)))
  }

  /** A section within the target is kept whole; a longer one becomes the texts of its windows. */
  method SplitLargeSection(t: Tokenizer, section: string, target: nat, overlap: nat) returns (texts: seq<string>)
    requires overlap < target && !t.refuses(section)
    ensures texts == if t.Count(section) <= target then [section]
                     else WindowTexts(t, t.encode(section), target, overlap)
  {
    var tokens := t.Encode(section);
    if |tokens| <= target {
      return [section];
    }
    ghost var all := WindowTexts(t, tokens, target, overlap);
    texts := [];
    var start := 0;
    while start < |tokens|
      invariant |texts| < |all| && start == WindowStart(target, overlap, |texts|)
      invariant texts == all[..|texts|]
      decreases |all| - |texts|
    {
      ghost var k := |texts|;
      WindowBounds(|tokens|, target, overlap, k);
      var end := Min(start + target, |tokens|);
      assert all[k] == t.decode(Window(tokens, target, overlap, k));
      texts := texts + [t.decode(tokens[start..end])];
      if end >= |tokens| { break; }
      start := if overlap > 0 then end - overlap else end;
    }
    WindowBounds(|tokens|, target, overlap, |texts| - 1);
  }

  /** Where the window loop stands after `rounds` rounds; nothing once it has ended. */
  function StartAfter(n: nat, target: nat, overlap: nat, rounds: nat): (start: Option<int>)
  {
    if rounds == 0 then Some(0) else
    match StartAfter(n, target, overlap, rounds - 1)
    case None => None
    case Some(start) => if start + target >= n then None else Some(start + target - overlap)
  }

  /**
   The window loop over a section that is too long ends exactly when the overlap is below the target:
   an overlap ratio of one never gets past the first window.
   */
  lemma WindowLoopEndsIff(n: nat, target: nat, overlap: nat)
    requires n > target
    ensures (exists rounds :: StartAfter(n, target, overlap, rounds) == None) <==> overlap < target
  {
    if overlap < target {
      LoopAdvances(n, target, overlap, n);
    } else {
      forall rounds: nat ensures StartAfter(n, target, overlap, rounds) != None {
        LoopStays(n, target, overlap, rounds);
      }
    }
  }

  lemma {:induction false} LoopAdvances(n: nat, target: nat, overlap: nat, rounds: nat)
    requires overlap < target
    ensures var s := StartAfter(n, target, overlap, rounds); s == None || rounds <= s.value < n || rounds == 0
  {
    if rounds > 0 { LoopAdvances(n, target, overlap, rounds - 1); }
  }

  lemma {:induction false} LoopStays(n: nat, target: nat, overlap: nat, rounds: nat)
    requires n > target && overlap >= target
    ensures var s := StartAfter(n, target, overlap, rounds); s.Some? && s.value <= 0
  {
    if rounds > 0 { LoopStays(n, target, overlap, rounds - 1); }
  }

  /** The overlap in tokens is the ratio's share of the target, rounded down. */
  function OverlapTokens(target: nat, ratio: real): nat
    requires ratio >= 0.0
  {
    NotNegative(target as real, ratio);
    (target as real * ratio).Floor
  }

  /** It is the largest number of tokens that does not exceed the share. */
  lemma OverlapIsLargest(target: nat, ratio: real, n: nat)
    requires ratio >= 0.0
    ensures n <= OverlapTokens(target, ratio) <==> n as real <= target as real * ratio
  {
    NotNegative(target as real, ratio);
    var share := target as real * ratio;
    assert share.Floor as real <= share < share.Floor as real + 1.0;
  }

  lemma NotNegative(a: real, b: real)
    requires a >= 0.0 && b >= 0.0
    ensures (a * b).Floor >= 0
    ensures a > 0.0 && b > 0.0 ==> a * b > 0.0
  {
  }

  /** For a positive target the loop ends for every ratio below one, and only for those. */
  lemma RatioBelowOneIff(target: nat, ratio: real)
    requires ratio >= 0.0 && target > 0
    ensures OverlapTokens(target, ratio) < target <==> ratio < 1.0
  {
    var t := target as real;
    if ratio < 1.0 {
      var share := t * ratio;
      NotNegative(t, 1.0 - ratio);
      assert t * (1.0 - ratio) == t - share;
      assert share.Floor as real <= share;
    } else {
      assert t * ratio >= t;
    }
  }
}
