/** Division of a markdown text into sections, each opened by a heading line. */
module Sections {
  import opened Text

  // ----------------------------------------------------------------- whitespace

  /** The characters `str.strip` removes and `\s` matches. */
  predicate IsSpace(c: char) {
    || '\t' <= c <= '\r' || '\U{1c}' <= c <= ' ' || c == '\U{85}' || c == '\U{a0}' || c == '\U{1680}'
    || '\U{2000}' <= c <= '\U{200a}' || c == '\U{2028}' || c == '\U{2029}' || c == '\U{202f}' || c == '\U{205f}'
    || c == '\U{3000}'
  }

  function LeftStrip(s: string): string { if s != [] && IsSpace(s[0]) then LeftStrip(s[1..]) else s }

  function RightStrip(s: string): string {
    if s != [] && IsSpace(s[|s| - 1]) then RightStrip(s[..|s| - 1]) else s
  }

  function Strip(s: string): string { RightStrip(LeftStrip(s)) }

  /** What is left of a text when its whitespace is ignored. */
  function Ink(s: string): string {
    if s == [] then "" else (if IsSpace(s[0]) then "" else [s[0]]) + Ink(s[1..])
  }

  lemma {:induction false} InkAppend(a: string, b: string)
    ensures Ink(a + b) == Ink(a) + Ink(b)
  {
    if a == [] {
      assert a + b == b;
    } else {
      var head, rest := (if IsSpace(a[0]) then "" else [a[0]]), a[1..];
      assert (a + b)[0] == a[0] && (a + b)[1..] == rest + b;
      InkAppend(rest, b);
      assert head + (Ink(rest) + Ink(b)) == (head + Ink(rest)) + Ink(b);
    }
  }

  lemma {:induction false} LeftStripInk(s: string)
    ensures Ink(LeftStrip(s)) == Ink(s)
  {
    if s != [] { LeftStripInk(s[1..]); }
  }

  lemma {:induction false} RightStripInk(s: string)
    ensures Ink(RightStrip(s)) == Ink(s)
  {
    if s != [] {
      RightStripInk(s[..|s| - 1]);
      InkAppend(s[..|s| - 1], s[|s| - 1..]);
      assert s == s[..|s| - 1] + s[|s| - 1..];
    }
  }

  /** Stripping loses no ink, and it leaves nothing exactly when there is none. */
  lemma {:induction false} StripInk(s: string)
    ensures Ink(Strip(s)) == Ink(s)
    ensures Strip(s) == "" <==> Ink(s) == ""
  {
    LeftStripInk(s);
    var l := LeftStrip(s);
    RightStripInk(l);
    var r := RightStrip(l);
    if r != "" {
      LastIsInk(l);
      InkAppend(r[..|r| - 1], r[|r| - 1..]);
      assert r == r[..|r| - 1] + r[|r| - 1..];
    }
  }

  lemma {:induction false} LastIsInk(s: string)
    ensures var r := RightStrip(s); r != "" ==> !IsSpace(r[|r| - 1])
  {
    if s != [] { LastIsInk(s[..|s| - 1]); }
  }

  // ----------------------------------------------------------------- sections

  /** A markdown heading: one to six hash signs followed by whitespace. */
  predicate IsHeading(line: string) {
    exists n :: 1 <= n <= 6 && n < |line| && IsSpace(line[n]) && forall i :: 0 <= i < n ==> line[i] == '#'
  }

  /** No line but the first is a heading. */
  ghost predicate HeadedAtMostOnce(section: string) {
    var lines := Split(section, '\n');
    forall i :: 0 < i < |lines| ==> !IsHeading(lines[i])
  }

  ghost predicate StartsWithHeading(section: string) { IsHeading(Split(section, '\n')[0]) }

  /** Splitting undoes joining of lines. */
  lemma {:induction false} SplitJoin(lines: seq<string>, c: char)
    requires lines != [] && forall i :: 0 <= i < |lines| ==> c !in lines[i]
    ensures Split(Join(lines, c), c) == lines
  {
    if |lines| == 1 {
      SplitWithout(lines[0], c);
    } else {
      SplitJoin(lines[1..], c);
      SplitFirst(lines[0], Join(lines[1..], c), c);
    }
  }

  /** Lines of one section: newline-free, and only the first may be a heading. */
  ghost predicate SectionLines(lines: seq<string>) {
    && lines != []
    && (forall i :: 0 <= i < |lines| ==> '\n' !in lines[i])
    && (forall i :: 0 < i < |lines| ==> !IsHeading(lines[i]))
  }

  lemma ClosedSection(lines: seq<string>)
    requires SectionLines(lines)
    ensures HeadedAtMostOnce(Join(lines, '\n') + ['\n'])
    ensures StartsWithHeading(Join(lines, '\n') + ['\n']) <==> IsHeading(lines[0])
  {
    JoinAppend(lines, "", '\n');
    SplitJoin(lines + [""], '\n');
    assert Join(lines, '\n') + ['\n'] + "" == Join(lines, '\n') + ['\n'];
  }

  lemma ConcatLast(parts: seq<string>, last: string)
    ensures Concat(parts + [last]) == Concat(parts) + last
  {
    ConcatAppend(parts, [last]);
    assert last + Concat([last][1..]) == last;
  }

  /** What the sections of a text are. */
  ghost predicate Sectioned(text: string, sections: seq<string>) {
    && sections != []
    && Concat(sections) == text
    && (forall i :: 0 <= i < |sections| ==> HeadedAtMostOnce(sections[i]))
    && (forall i :: 0 < i < |sections| ==> StartsWithHeading(sections[i]))
    && (forall i :: 0 <= i < |sections| - 1 ==> EndsWith(sections[i], "\n"))
  }

  /** The first line of a text that has a separator does not depend on what follows. */
  lemma {:induction false} FirstPart(a: string, b: string, c: char)
    requires c in a || b == ""
    ensures Split(a + b, c)[0] == Split(a, c)[0]
  {
    if b == "" {
      assert a + b == a;
    } else if a[0] != c {
      assert (a + b)[1..] == a[1..] + b;
      assert c in a[1..];
      FirstPart(a[1..], b, c);
    }
  }

  /** Behind a separator the parts go on with the first part of the rest. */
  lemma {:induction false} PartBehind(a: string, b: string, c: char) returns (k: nat)
    requires a != "" && a[|a| - 1] == c
    ensures 0 < k < |Split(a + b, c)| && Split(a + b, c)[k] == Split(b, c)[0]
  {
    assert (a + b)[1..] == a[1..] + b;
    if |a| == 1 {
      k := 1;
    } else {
      k := PartBehind(a[1..], b, c);
      if a[0] == c { k := k + 1; }
    }
  }

  /** A first section that ends before another one would leave a heading inside that other one. */
  lemma FirstSectionIsNotShorter(text: string, a: seq<string>, b: seq<string>)
    requires Sectioned(text, a) && Sectioned(text, b)
    ensures |a[0]| >= |b[0]|
  {
    if |a[0]| < |b[0]| {
      var rest, rest' := Concat(a[1..]), Concat(b[1..]);
      assert text == a[0] + rest == b[0] + rest';
      assert a[0] == text[..|a[0]|] && b[0] == text[..|b[0]|];
      var z := b[0][|a[0]|..];
      assert b[0] == a[0] + z;
      assert rest == z + rest';
      assert |a| == 1 ==> rest == "";
      assert |a| > 1;
      var k := PartBehind(a[0], z, '\n');
      assert !IsHeading(Split(z, '\n')[0]);
      assert rest == a[1] + Concat(a[2..]) by { assert a[1..][1..] == a[2..]; }
      assert Concat(a[2..]) == "" || EndsWith(a[1], "\n");
      FirstPart(a[1], Concat(a[2..]), '\n');
      assert rest' == "" || EndsWith(b[0], "\n");
      assert rest' == "" || z[|z| - 1] == '\n';
      FirstPart(z, rest', '\n');
      assert false;
    }
  }

  lemma TailIsSectioned(text: string, a: seq<string>)
    requires Sectioned(text, a) && |a| > 1
    ensures Sectioned(Concat(a[1..]), a[1..])
  {
    var t := a[1..];
    assert forall i :: 0 <= i < |t| ==> t[i] == a[i + 1];
  }

  /** A text has one division into sections. */
  lemma {:induction false} SectionsAreUnique(text: string, a: seq<string>, b: seq<string>)
    requires Sectioned(text, a) && Sectioned(text, b)
    ensures a == b
    decreases |a|
  {
    FirstSectionIsNotShorter(text, a, b);
    FirstSectionIsNotShorter(text, b, a);
    assert a[0] == text[..|a[0]|] && b[0] == text[..|b[0]|];
    assert Concat(a[1..]) == text[|a[0]|..] && Concat(b[1..]) == text[|b[0]|..];
    if |a| == 1 {
      assert Concat(b[1..]) == "";
      if |b| > 1 { OneSectionIsNotEmpty(b); }
    } else {
      if |b| == 1 { OneSectionIsNotEmpty(a); }
      TailIsSectioned(text, a);
      TailIsSectioned(text, b);
      SectionsAreUnique(Concat(a[1..]), a[1..], b[1..]);
      assert a == [a[0]] + a[1..] && b == [b[0]] + b[1..];
    }
  }

  lemma OneSectionIsNotEmpty(a: seq<string>)
    requires |a| > 1 && StartsWithHeading(a[1])
    ensures Concat(a[1..]) != ""
  {
    assert Split("", '\n') == [""];
    assert a[1] != "";
  }

  /** Sections closed so far and the lines of the open one, for the text seen so far. */
  ghost predicate Sectioning(seen: string, sections: seq<string>, current: seq<string>) {
    && SectionLines(current)
    && Concat(sections) + Join(current, '\n') == seen
    && (sections != [] ==> IsHeading(current[0]))
    && (forall k :: 0 <= k < |sections| ==> HeadedAtMostOnce(sections[k]) && EndsWith(sections[k], "\n"))
    && (forall k :: 0 < k < |sections| ==> StartsWithHeading(sections[k]))
  }

  lemma SectionGrows(seen: string, sections: seq<string>, current: seq<string>, line: string)
    requires Sectioning(seen, sections, current) && '\n' !in line && !IsHeading(line)
    ensures Sectioning(seen + ['\n'] + line, sections, current + [line])
  {
    JoinAppend(current, line, '\n');
  }

  lemma SectionCloses(seen: string, sections: seq<string>, current: seq<string>, line: string)
    requires Sectioning(seen, sections, current) && '\n' !in line && IsHeading(line)
    ensures Sectioning(seen + ['\n'] + line, sections + [Join(current, '\n') + ['\n']], [line])
  {
    ClosedSection(current);
    ConcatLast(sections, Join(current, '\n') + ['\n']);
    assert Join([line], '\n') == line;
  }

  lemma LastSection(text: string, sections: seq<string>, current: seq<string>)
    requires Sectioning(text, sections, current)
    ensures Sectioned(text, sections + [Join(current, '\n')])
  {
    SplitJoin(current, '\n');
    ConcatLast(sections, Join(current, '\n'));
  }

  /** The lines so far can be divided. */
  lemma {:induction false} LinesDivide(lines: seq<string>) returns (sections: seq<string>, current: seq<string>)
    requires lines != [] && forall i :: 0 <= i < |lines| ==> '\n' !in lines[i]
    ensures Sectioning(Join(lines, '\n'), sections, current)
  {
    var n := |lines| - 1;
    if n == 0 {
      sections, current := [], lines;
    } else {
      sections, current := LinesDivide(lines[..n]);
      assert lines == lines[..n] + [lines[n]];
      JoinAppend(lines[..n], lines[n], '\n');
      if IsHeading(lines[n]) {
        SectionCloses(Join(lines[..n], '\n'), sections, current, lines[n]);
        sections, current := sections + [Join(current, '\n') + ['\n']], [lines[n]];
      } else {
        SectionGrows(Join(lines[..n], '\n'), sections, current, lines[n]);
        current := current + [lines[n]];
      }
    }
  }

  lemma DivisionExists(text: string)
    ensures exists sections :: Sectioned(text, sections)
  {
    JoinSplit(text, '\n');
    var sections, current := LinesDivide(Split(text, '\n'));
    LastSection(text, sections, current);
  }

  /** The sections of a text. */
  ghost function SectionsOf(text: string): (sections: seq<string>)
    ensures Sectioned(text, sections)
  {
    DivisionExists(text);
    var sections :| Sectioned(text, sections);
    sections
  }

  /** A heading closes the section before it; every line goes into the open one. */
  method TakeLine(line: string, sections: seq<string>, current: seq<string>, ghost seen: string)
    returns (sections': seq<string>, current': seq<string>)
    requires '\n' !in line && (if current == [] then sections == [] else Sectioning(seen, sections, current))
    ensures Sectioning(if current == [] then line else seen + ['\n'] + line, sections', current')
  {
    if current != [] {
      if IsHeading(line) { SectionCloses(seen, sections, current, line); } else { SectionGrows(seen, sections, current, line); }
    } else {
      assert Join([line], '\n') == line;
    }
    sections', current' := sections, current;
    if IsHeading(line) {
      if current != [] {
        sections' := sections + [Join(current, '\n') + ['\n']];
        current' := [];
      }
      current' := current' + [line];
    } else {
      current' := current + [line];
    }
  }

  /** A new section starts at every heading line but one that opens the text. */
  method SplitIntoSections(text: string) returns (sections: seq<string>)
    ensures Sectioned(text, sections)
  {
    var lines := Split(text, '\n');
    JoinSplit(text, '\n');
    sections := [];
    var current: seq<string> := [];
    for i := 0 to |lines|
      invariant i == 0 ==> sections == [] && current == []
      invariant i > 0 ==> Sectioning(Join(lines[..i], '\n'), sections, current)
    {
      assert lines[..i + 1] == lines[..i] + [lines[i]];
      if i > 0 { JoinAppend(lines[..i], lines[i], '\n'); }
      sections, current := TakeLine(lines[i], sections, current, Join(lines[..i], '\n'));
    }
    assert lines[..|lines|] == lines;
    LastSection(text, sections, current);
    if current != [] {
      sections := sections + [Join(current, '\n')];
    }
    if sections == [] {
      return [text];
    }
  }
}
