/** String operations the program relies on: `str.split`, `str.join`, `str.startswith`, concatenation. */
module Text {

  predicate StartsWith(s: string, prefix: string) {
    |prefix| <= |s| && s[..|prefix|] == prefix
  }

  predicate EndsWith(s: string, suffix: string) {
    |suffix| <= |s| && s[|s| - |suffix|..] == suffix
  }

  /** The word stands in the text at this place. */
  predicate StandsAt(s: string, word: string, i: nat) { i + |word| <= |s| && s[i..i + |word|] == word }

  ghost predicate Contains(s: string, word: string) { exists i: nat :: StandsAt(s, word, i) }

  lemma ContainsEither(a: string, b: string, word: string)
    ensures Contains(a, word) || Contains(b, word) ==> Contains(a + b, word)
  {
    if i: nat :| StandsAt(a, word, i) {
      assert (a + b)[i..i + |word|] == a[i..i + |word|];
      assert StandsAt(a + b, word, i);
    }
    if i: nat :| StandsAt(b, word, i) {
      assert (a + b)[|a| + i..|a| + i + |word|] == b[i..i + |word|];
      assert StandsAt(a + b, word, |a| + i);
    }
  }

  /** A word without the character is not completed by it. */
  lemma LastAdds(s: string, c: char, word: string)
    requires word != "" && c !in word
    ensures Contains(s + [c], word) ==> Contains(s, word)
  {
    if i: nat :| StandsAt(s + [c], word, i) {
      var slice := (s + [c])[i..i + |word|];
      assert slice[|word| - 1] == (s + [c])[i + |word| - 1] && slice[|word| - 1] in word;
      assert i + |word| <= |s|;
      assert s[i..i + |word|] == slice;
      assert StandsAt(s, word, i);
    }
  }

  /** A word without the character that ends the first text is not split between two texts. */
  lemma NoStraddle(a: string, b: string, word: string)
    requires word != "" && (a == "" || a[|a| - 1] !in word)
    ensures Contains(a + b, word) <==> Contains(a, word) || Contains(b, word)
  {
    ContainsEither(a, b, word);
    if i: nat :| StandsAt(a + b, word, i) {
      var slice := (a + b)[i..i + |word|];
      forall p | i <= p < i + |word| ensures (a + b)[p] in word { assert slice[p - i] == (a + b)[p]; }
      assert a != "" ==> (a + b)[|a| - 1] == a[|a| - 1];
      if i + |word| <= |a| {
        assert a[i..i + |word|] == slice;
        assert StandsAt(a, word, i);
      } else {
        assert b[i - |a|..i - |a| + |word|] == slice;
        assert StandsAt(b, word, i - |a|);
      }
    }
  }

  /** `s.split(c)`: never empty, `n` separators give `n + 1` parts. */
  function Split(s: string, c: char): (parts: seq<string>)
    ensures parts != []
  {
    if s == [] then [""]
    else if s[0] == c then [""] + Split(s[1..], c)
    else var rest := Split(s[1..], c); [[s[0]] + rest[0]] + rest[1..]
  }

  /** `c.join(parts)` for a one-character separator. */
  function Join(parts: seq<string>, c: char): string
  {
    if parts == [] then ""
    else if |parts| == 1 then parts[0]
    else parts[0] + [c] + Join(parts[1..], c)
  }

  function Concat(parts: seq<string>): string {
    if parts == [] then "" else parts[0] + Concat(parts[1..])
  }

  lemma {:induction false} ConcatAppend(a: seq<string>, b: seq<string>)
    ensures Concat(a + b) == Concat(a) + Concat(b)
  {
    if a == [] {
      assert a + b == b;
    } else {
      ConcatAppend(a[1..], b);
      assert (a + b)[1..] == a[1..] + b;
    }
  }

  lemma {:induction false} JoinAppend(parts: seq<string>, last: string, c: char)
    requires parts != []
    ensures Join(parts + [last], c) == Join(parts, c) + [c] + last
  {
    assert (parts + [last])[1..] == parts[1..] + [last];
    if |parts| > 1 {
      JoinAppend(parts[1..], last, c);
    }
  }

  /** Joining undoes splitting, and no part contains the separator. */
  lemma {:induction false} JoinSplit(s: string, c: char)
    ensures Join(Split(s, c), c) == s
    ensures forall i :: 0 <= i < |Split(s, c)| ==> c !in Split(s, c)[i]
  {
    if s != [] {
      JoinSplit(s[1..], c);
      var rest := Split(s[1..], c);
      if s[0] == c {
        assert ([""] + rest)[1..] == rest;
      } else {
        var parts := [[s[0]] + rest[0]] + rest[1..];
        assert parts[1..] == rest[1..];
        forall i | 0 <= i < |parts| ensures c !in parts[i] {
          assert c !in rest[i];
        }
      }
    }
  }

  lemma {:induction false} SplitWithout(s: string, c: char)
    requires c !in s
    ensures Split(s, c) == [s]
  {
    if s != [] {
      SplitWithout(s[1..], c);
      assert s[0] in s;
      assert [s[0]] + s[1..] == s;
    }
  }

  /** The first separator ends the first part. */
  lemma {:induction false} SplitFirst(a: string, b: string, c: char)
    requires c !in a
    ensures Split(a + [c] + b, c) == [a] + Split(b, c)
  {
    if a == [] {
      assert (a + [c] + b)[1..] == b;
    } else {
      SplitFirst(a[1..], b, c);
      var s := a + [c] + b;
      assert s[1..] == a[1..] + [c] + b;
      assert s[0] == a[0] && a[0] in a;
      assert Split(s[1..], c)[0] == a[1..];
      assert [a[0]] + a[1..] == a;
    }
  }

  /** Three separator-free parts split back into themselves. */
  lemma SplitThree(a: string, b: string, d: string, c: char)
    requires c !in a && c !in b && c !in d
    ensures Split(a + [c] + b + [c] + d, c) == [a, b, d]
  {
    assert a + [c] + b + [c] + d == a + [c] + (b + [c] + d);
    SplitFirst(a, b + [c] + d, c);
    SplitFirst(b, d, c);
    SplitWithout(d, c);
  }
}
