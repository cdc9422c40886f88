/** How a document's id becomes the identifier of its record. */
module Identifiers {
  import opened Text
  import opened Records

  predicate IsLetter(c: char) { IsLower(c) || IsUpper(c) || IsDigit(c) }

  predicate IsWord(c: char) { IsLetter(c) || c == '_' }

  ghost predicate AllWord(s: string) { forall i :: 0 <= i < |s| ==> IsWord(s[i]) }

  /** Every run of other characters becomes one underscore; `inside` says that a run is going on. */
  function Underscored(s: string, inside: bool): string {
    if s == "" then "" else Mark(s[0], inside) + Underscored(s[1..], !IsWord(s[0]))
  }

  function Mark(c: char, inside: bool): string { if IsWord(c) then [c] else if inside then "" else "_" }

  function LeftBare(s: string): string {
    if s != "" && s[0] == '_' then LeftBare(s[1..]) else s
  }

  function RightBare(s: string): string {
    if s != "" && s[|s| - 1] == '_' then RightBare(s[..|s| - 1]) else s
  }

  lemma {:induction false} UnderscoredIsWord(s: string, inside: bool)
    ensures AllWord(Underscored(s, inside))
  {
    if s != "" { UnderscoredIsWord(s[1..], !IsWord(s[0])); }
  }

  lemma {:induction false} LeftBareIsWord(s: string)
    requires AllWord(s)
    ensures AllWord(LeftBare(s))
  {
    if s != "" && s[0] == '_' { LeftBareIsWord(s[1..]); }
  }

  lemma {:induction false} RightBareIsWord(s: string)
    requires AllWord(s)
    ensures AllWord(RightBare(s))
  {
    if s != "" && s[|s| - 1] == '_' { RightBareIsWord(s[..|s| - 1]); }
  }

  /** A document's id as an identifier: whatever the id, the payload contract is met. */
  function Sanitized(id: string): (r: string)
    ensures IsIdentifier(r)
  {
    UnderscoredIsWord(id, false);
    LeftBareIsWord(Underscored(id, false));
    RightBareIsWord(LeftBare(Underscored(id, false)));
    var cleaned := RightBare(LeftBare(Underscored(id, false)));
    if cleaned == "" then "unknown" else cleaned
  }

  // ----------------------------------------------------------------- letters and digits

  /** The letters and digits of a text, in order. */
  function Letters(s: string): string {
    if s == "" then "" else Letter(s[0]) + Letters(s[1..])
  }

  function Letter(c: char): string { if IsLetter(c) then [c] else "" }

  lemma Regroup(a: string, b: string, c: string)
    ensures (a + b) + c == a + (b + c)
  {
  }

  lemma {:induction false} LettersAppend(a: string, b: string)
    ensures Letters(a + b) == Letters(a) + Letters(b)
  {
    if a == "" {
      assert a + b == b;
    } else {
      var c, t, all := a[0], a[1..], a + b;
      LettersAppend(t, b);
      assert all[0] == c && all[1..] == t + b;
      Regroup(Letter(c), Letters(t), Letters(b));
    }
  }

  lemma {:induction false} UnderscoredLetters(s: string, inside: bool)
    ensures Letters(Underscored(s, inside)) == Letters(s)
  {
    if s != "" {
      UnderscoredLetters(s[1..], !IsWord(s[0]));
      LettersAppend(Mark(s[0], inside), Underscored(s[1..], !IsWord(s[0])));
    }
  }

  lemma {:induction false} LeftBareLetters(s: string)
    ensures Letters(LeftBare(s)) == Letters(s)
  {
    if s != "" && s[0] == '_' {
      var t := s[1..];
      LeftBareLetters(t);
      assert Letters(s) == Letter('_') + Letters(t) == Letters(t) && LeftBare(s) == LeftBare(t);
    }
  }

  lemma {:induction false} RightBareLetters(s: string)
    ensures Letters(RightBare(s)) == Letters(s)
  {
    if s != "" && s[|s| - 1] == '_' {
      var init := s[..|s| - 1];
      RightBareLetters(init);
      LettersAppend(init, "_");
      assert s == init + "_" && Letters("_") == "" && RightBare(s) == RightBare(init);
    }
  }

  /** A text of underscores alone is stripped away, and one with a letter is not. */
  lemma {:induction false} BareIsEmptyIff(s: string)
    requires AllWord(s)
    ensures LeftBare(s) == "" <==> Letters(s) == ""
  {
    if s != "" && s[0] == '_' { BareIsEmptyIff(s[1..]); }
  }

  /** The identifier has the letters and digits of the id in order; it is the stand-in exactly if there are none. */
  lemma LettersKept(id: string)
    ensures Letters(id) != "" ==> Letters(Sanitized(id)) == Letters(id)
    ensures Letters(id) == "" ==> Sanitized(id) == "unknown"
  {
    var marked := Underscored(id, false);
    UnderscoredLetters(id, false);
    LeftBareLetters(marked);
    RightBareLetters(LeftBare(marked));
    UnderscoredIsWord(id, false);
    BareIsEmptyIff(marked);
  }

  // ----------------------------------------------------------------- words and gaps

  ghost predicate NoneWord(s: string) { forall i :: 0 <= i < |s| ==> !IsWord(s[i]) }
  ghost predicate NoLetter(s: string) { forall i :: 0 <= i < |s| ==> !IsLetter(s[i]) }

  /** The words with the gaps between them. */
  function Spread(words: seq<string>, gaps: seq<string>): string
    requires |words| == |gaps| + 1
  {
    if gaps == [] then words[0] else words[0] + gaps[0] + Spread(words[1..], gaps[1..])
  }

  /** Words of word characters, and gaps of other characters, none of them empty. */
  ghost predicate Alternate(words: seq<string>, gaps: seq<string>) {
    && |words| == |gaps| + 1
    && (forall i :: 0 <= i < |words| ==> words[i] != "" && AllWord(words[i]))
    && (forall i :: 0 <= i < |gaps| ==> gaps[i] != "" && NoneWord(gaps[i]))
  }

  /** From its first letter or digit to its last, the id consists of these words and gaps. */
  ghost predicate Divides(id: string, lead: string, words: seq<string>, gaps: seq<string>, trail: string) {
    && Alternate(words, gaps) && id == lead + Spread(words, gaps) + trail
    && NoLetter(lead) && NoLetter(trail)
    && IsLetter(Spread(words, gaps)[0]) && IsLetter(Spread(words, gaps)[|Spread(words, gaps)| - 1])
  }

  lemma {:induction false} SpreadIsNotEmpty(words: seq<string>, gaps: seq<string>)
    requires Alternate(words, gaps)
    ensures Spread(words, gaps) != "" && IsWord(Spread(words, gaps)[0])
  {
    if gaps != [] { assert Spread(words, gaps)[0] == words[0][0]; }
  }

  /** A run of other characters is going on behind the text. */
  predicate Going(s: string, inside: bool) { if s == "" then inside else !IsWord(s[|s| - 1]) }

  /** What a text becomes behind another: a run that is going on is not marked again. */
  lemma {:induction false} UnderscoredAppend(a: string, b: string, inside: bool)
    ensures Underscored(a + b, inside) == Underscored(a, inside) + Underscored(b, Going(a, inside))
  {
    if a == "" {
      assert a + b == b;
    } else {
      var c, t, all := a[0], a[1..], a + b;
      UnderscoredAppend(t, b, !IsWord(c));
      assert all[0] == c && all[1..] == t + b;
      assert Going(t, !IsWord(c)) == Going(a, inside);
      Regroup(Mark(c, inside), Underscored(t, !IsWord(c)), Underscored(b, Going(a, inside)));
    }
  }

  lemma {:induction false} WordIsKept(s: string, inside: bool)
    requires AllWord(s)
    ensures Underscored(s, inside) == s
  {
    if s != "" { WordIsKept(s[1..], false); }
  }

  lemma {:induction false} GapIsMarkedOnce(s: string, inside: bool)
    requires NoneWord(s)
    ensures Underscored(s, inside) == if s == "" || inside then "" else "_"
  {
    if s != "" { GapIsMarkedOnce(s[1..], true); }
  }

  lemma {:induction false} OnlyUnderscores(s: string, inside: bool)
    requires NoLetter(s)
    ensures forall i :: 0 <= i < |Underscored(s, inside)| ==> Underscored(s, inside)[i] == '_'
  {
    if s != "" { OnlyUnderscores(s[1..], !IsWord(s[0])); }
  }

  /** Words stay as they are, and every gap becomes one underscore. */
  lemma {:induction false} SpreadIsJoined(words: seq<string>, gaps: seq<string>, inside: bool)
    requires Alternate(words, gaps)
    ensures Underscored(Spread(words, gaps), inside) == Join(words, '_')
  {
    WordIsKept(words[0], inside);
    if gaps != [] {
      var rest := Spread(words[1..], gaps[1..]);
      SpreadIsJoined(words[1..], gaps[1..], true);
      GapIsMarkedOnce(gaps[0], false);
      UnderscoredAppend(words[0], gaps[0] + rest, inside);
      UnderscoredAppend(gaps[0], rest, false);
      assert words[0] + gaps[0] + rest == words[0] + (gaps[0] + rest);
      assert Join(words, '_') == words[0] + ['_'] + Join(words[1..], '_');
    }
  }

  lemma {:induction false} LeftBareSkips(marks: string, s: string)
    requires (forall i :: 0 <= i < |marks| ==> marks[i] == '_') && s != "" && s[0] != '_'
    ensures LeftBare(marks + s) == s
  {
    if marks == "" {
      assert marks + s == s;
    } else {
      assert (marks + s)[1..] == marks[1..] + s;
      LeftBareSkips(marks[1..], s);
    }
  }

  lemma {:induction false} RightBareSkips(s: string, marks: string)
    requires (forall i :: 0 <= i < |marks| ==> marks[i] == '_') && s != "" && s[|s| - 1] != '_'
    ensures RightBare(s + marks) == s
  {
    if marks == "" {
      assert s + marks == s;
    } else {
      assert (s + marks)[..|s + marks| - 1] == s + marks[..|marks| - 1];
      RightBareSkips(s, marks[..|marks| - 1]);
    }
  }

  /** A text that begins and ends with a letter or digit still does. */
  lemma EndsAreKept(s: string)
    requires s != "" && IsLetter(s[0]) && IsLetter(s[|s| - 1])
    ensures var u := Underscored(s, false); u != "" && u[0] == s[0] && u[|u| - 1] == s[|s| - 1]
  {
    var n := |s| - 1;
    var init, last, u := s[..n], [s[n]], Underscored(s, false);
    assert u == [s[0]] + Underscored(s[1..], false);
    assert s == init + last;
    UnderscoredAppend(init, last, false);
    WordIsKept(last, Going(init, false));
    assert u == Underscored(init, false) + last;
  }

  lemma JoinedEnds(words: seq<string>, gaps: seq<string>)
    requires Alternate(words, gaps)
    requires IsLetter(Spread(words, gaps)[0]) && IsLetter(Spread(words, gaps)[|Spread(words, gaps)| - 1])
    ensures var j := Join(words, '_'); j != "" && j[0] != '_' && j[|j| - 1] != '_'
  {
    SpreadIsJoined(words, gaps, false);
    EndsAreKept(Spread(words, gaps));
  }

  /** Whatever surrounds them, the words of an id are kept and joined by single underscores. */
  lemma SanitizedJoins(id: string, lead: string, words: seq<string>, gaps: seq<string>, trail: string)
    requires Divides(id, lead, words, gaps, trail)
    ensures Sanitized(id) == Join(words, '_')
  {
    var core, joined := Spread(words, gaps), Join(words, '_');
    assert id == lead + (core + trail);
    forall inside ensures Underscored(core, inside) == joined { SpreadIsJoined(words, gaps, inside); }
    SpreadIsNotEmpty(words, gaps);
    var before, behind := MarksAround(lead, core, trail, joined);
    JoinedEnds(words, gaps);
    LeftBareSkips(before, joined + behind);
    RightBareSkips(joined, behind);
  }

  /** What has no letters becomes underscores. */
  lemma MarksAround(lead: string, core: string, trail: string, joined: string) returns (before: string, behind: string)
    requires NoLetter(lead) && NoLetter(trail) && core != "" && forall inside :: Underscored(core, inside) == joined
    ensures Underscored(lead + (core + trail), false) == before + (joined + behind)
    ensures (forall i :: 0 <= i < |before| ==> before[i] == '_') && (forall i :: 0 <= i < |behind| ==> behind[i] == '_')
  {
    var inside := Going(lead, false);
    before, behind := Underscored(lead, false), Underscored(trail, Going(core, inside));
    UnderscoredAppend(lead, core + trail, false);
    UnderscoredAppend(core, trail, inside);
    OnlyUnderscores(lead, false);
    OnlyUnderscores(trail, Going(core, inside));
  }

  /** An id of word characters that neither begins nor ends with an underscore is its own identifier. */
  lemma IdentifierIsKept(id: string)
    requires id != "" && AllWord(id) && id[0] != '_' && id[|id| - 1] != '_'
    ensures Sanitized(id) == id
  {
    var words, gaps := [id], [];
    assert Spread(words, gaps) == id;
    assert id == "" + Spread(words, gaps) + "";
    SanitizedJoins(id, "", words, gaps, "");
    assert Join(words, '_') == id;
  }

  // ----------------------------------------------------------------- every id divides

  lemma {:induction false} NextWord(s: string) returns (k: nat)
    requires s != "" && IsWord(s[|s| - 1])
    ensures k < |s| && IsWord(s[k]) && NoneWord(s[..k])
  {
    if IsWord(s[0]) {
      k := 0;
    } else {
      k := NextWord(s[1..]);
      assert s[..k + 1] == [s[0]] + s[1..][..k];
      k := k + 1;
    }
  }

  lemma {:induction false} Chop(s: string) returns (words: seq<string>, gaps: seq<string>)
    requires s != "" && IsWord(s[0]) && IsWord(s[|s| - 1])
    ensures Alternate(words, gaps) && Spread(words, gaps) == s
    decreases |s|
  {
    if |s| == 1 {
      words, gaps := [s], [];
    } else if IsWord(s[1]) {
      words, gaps := Chop(s[1..]);
      LongerWord(s[0], words, gaps);
      assert s == [s[0]] + s[1..];
      words := [[s[0]] + words[0]] + words[1..];
    } else {
      var k := NextWord(s[1..]);
      var gap, rest := s[1..][..k], s[1..][k..];
      words, gaps := Chop(rest);
      assert s == [s[0]] + gap + rest;
      assert ([[s[0]]] + words)[1..] == words && ([gap] + gaps)[1..] == gaps;
      words, gaps := [[s[0]]] + words, [gap] + gaps;
    }
  }

  lemma LongerWord(c: char, words: seq<string>, gaps: seq<string>)
    requires Alternate(words, gaps) && IsWord(c)
    ensures
      var longer := [[c] + words[0]] + words[1..];
      Alternate(longer, gaps) && Spread(longer, gaps) == [c] + Spread(words, gaps)
  {
    var longer := [[c] + words[0]] + words[1..];
    forall i | 0 <= i < |longer| ensures longer[i] != "" && AllWord(longer[i]) {
      if i > 0 { assert longer[i] == words[i]; }
    }
    assert longer[1..] == words[1..];
    if gaps != [] {
      assert [c] + words[0] + gaps[0] + Spread(words[1..], gaps[1..]) == [c] + (words[0] + gaps[0] + Spread(words[1..], gaps[1..]));
    }
  }

  lemma {:induction false} FirstLetter(s: string) returns (k: nat)
    requires Letters(s) != ""
    ensures k < |s| && IsLetter(s[k]) && NoLetter(s[..k])
  {
    if IsLetter(s[0]) {
      k := 0;
    } else {
      k := FirstLetter(s[1..]);
      assert s[..k + 1] == [s[0]] + s[1..][..k];
      k := k + 1;
    }
  }

  lemma {:induction false} LastLetter(s: string, first: nat) returns (k: nat)
    requires first < |s| && IsLetter(s[first])
    ensures first <= k < |s| && IsLetter(s[k]) && NoLetter(s[k + 1..])
  {
    var n := |s| - 1;
    if IsLetter(s[n]) {
      k := n;
    } else {
      k := LastLetter(s[..n], first);
      assert s[k + 1..] == s[..n][k + 1..] + [s[n]];
    }
  }

  /** Every id with a letter or digit divides, so its identifier is always the join of its words. */
  lemma EveryIdDivides(id: string) returns (lead: string, words: seq<string>, gaps: seq<string>, trail: string)
    requires Letters(id) != ""
    ensures Divides(id, lead, words, gaps, trail) && Sanitized(id) == Join(words, '_')
  {
    var first := FirstLetter(id);
    var last := LastLetter(id, first);
    var core := id[first..last + 1];
    lead, trail := id[..first], id[last + 1..];
    assert id == lead + core + trail;
    words, gaps := Chop(core);
    SanitizedJoins(id, lead, words, gaps, trail);
  }
}
