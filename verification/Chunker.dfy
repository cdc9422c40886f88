/**
 The prose chunker: sections within the target are accumulated, longer ones are cut into overlapping
 token windows, and a chunk of sections opens with the tail of the one before.
 */
module Chunker {
  import opened Wrappers
  import opened Errors
  import opened Text
  import opened Sections
  import opened TokenWindows
  import opened ChunkStore

  // ----------------------------------------------------------------- chunks and their pieces

  /** The sizing of one call. */
  datatype Sizing = Sizing(t: Tokenizer, target: nat, overlap: nat)
  {
    ghost predicate Lawful() { overlap < target && t.Lawful() }
  }

  /** The last tokens of a text, and a space; a text that short is taken whole. */
  function Tail(t: Tokenizer, text: string, num: nat): string
    requires num > 0
  {
    var tokens := t.encode(text);
    if |tokens| <= num then text else t.decode(tokens[|tokens| - num..]) + " "
  }

  /** These are the last `num` tokens. */
  ghost predicate Closes(tokens: seq<nat>, back: seq<nat>, num: nat) {
    num <= |tokens| && |back| == num && tokens == tokens[..|tokens| - num] + back
  }

  /** A text that is short enough is repeated whole, and of a longer one its last `num` tokens and a space. */
  lemma TailHoldsLast(t: Tokenizer, text: string, num: nat)
    requires num > 0
    ensures t.Count(text) <= num ==> Tail(t, text, num) == text
    ensures t.Count(text) > num ==> exists back :: Closes(t.encode(text), back, num) && Tail(t, text, num) == t.decode(back) + " "
  {
    var tokens := t.encode(text);
    if |tokens| > num { assert Closes(tokens, tokens[|tokens| - num..], num); }
  }

  /** The text can be written with at most `n` tokens. */
  ghost predicate Spelled(t: Tokenizer, s: string, n: nat) { exists ts :: |ts| <= n && t.decode(ts) == s }

  lemma SpelledAppend(t: Tokenizer, a: string, m: nat, b: string, n: nat)
    requires t.Lawful() && Spelled(t, a, m) && Spelled(t, b, n)
    ensures Spelled(t, a + b, m + n)
  {
    var x :| |x| <= m && t.decode(x) == a;
    var y :| |y| <= n && t.decode(y) == b;
    assert t.Distributes(x, y);
    assert |x + y| <= m + n && t.decode(x + y) == a + b;
  }

  /** The tail is made of the end of the text and is as short as asked. */
  lemma TailIsShortSuffix(t: Tokenizer, text: string, num: nat)
    requires t.Lawful() && num > 0 && !t.refuses(text)
    ensures EndsWith(Ink(text), Ink(Tail(t, text, num)))
    ensures Spelled(t, Tail(t, text, num), num + t.Count(" "))
  {
    var tokens := t.encode(text);
    assert t.RoundTrips(text);
    if |tokens| > num {
      var cut := |tokens| - num;
      assert tokens == tokens[..cut] + tokens[cut..];
      var front, back := t.decode(tokens[..cut]), t.decode(tokens[cut..]);
      assert t.Distributes(tokens[..cut], tokens[cut..]);
      InkAppend(front, back);
      InkAppend(back, " ");
      assert Ink(" ") == "";
      assert Spelled(t, back, num);
      BlankIsEncoded(t);
      assert t.RoundTrips(" ");
      assert Spelled(t, " ", t.Count(" "));
      SpelledAppend(t, back, num, " ", t.Count(" "));
    } else {
      assert Spelled(t, text, num + t.Count(" "));
    }
  }

  /** Where a chunk's text comes from: an overlap and whole sections, or one window of a section. */
  datatype Piece = Grown(over: string, parts: seq<string>) | Windowed(tokens: seq<nat>, k: nat)

  predicate Shaped(c: Sizing, p: Piece) {
    c.overlap < c.target && (p.Windowed? ==> p.k < WindowCount(|p.tokens|, c.target, c.overlap))
  }

  /** The part of the chunk that no earlier chunk has. */
  ghost function Fresh(c: Sizing, p: Piece): string {
    if !Shaped(c, p) then "" else
    match p
    case Grown(_, parts) => Concat(parts)
    case Windowed(tokens, k) => c.t.decode(NewTokens(tokens, c.target, c.overlap, k))
  }

  ghost function Whole(c: Sizing, p: Piece): string {
    if !Shaped(c, p) then "" else
    match p
    case Grown(over, parts) => over + Concat(parts)
    case Windowed(tokens, k) => c.t.decode(Window(tokens, c.target, c.overlap, k))
  }

  /** The chunks put away so far. */
  datatype Trail = Start | Put(before: Trail, piece: Piece)

  /** Their texts: each chunk is its piece, stripped. */
  ghost function TextsOf(c: Sizing, trail: Trail): seq<string> {
    if trail.Start? then [] else TextsOf(c, trail.before) + [Strip(Whole(c, trail.piece))]
  }

  /** Their fresh parts, in order. */
  ghost function AllFresh(c: Sizing, trail: Trail): string {
    if trail.Start? then "" else AllFresh(c, trail.before) + Fresh(c, trail.piece)
  }

  ghost function LastText(c: Sizing, trail: Trail): string {
    if trail.Start? then "" else Strip(Whole(c, trail.piece))
  }

  /** Whole sections fit the target, unless one of them stands behind an overlap. */
  ghost predicate FitsTarget(c: Sizing, over: string, parts: seq<string>) {
    || c.t.Fits(over + Concat(parts), c.target)
    || (over != "" && |parts| == 1 && c.t.Fits(parts[0], c.target))
  }

  /** A non-empty buffer: whole sections behind an overlap, which is there only if one is asked for. */
  ghost predicate BufferFits(c: Sizing, sections: seq<string>, over: string, parts: seq<string>) {
    && parts != [] && (forall i :: 0 <= i < |parts| ==> parts[i] in sections)
    && FitsTarget(c, over, parts)
    && (c.overlap == 0 ==> over == "")
    && (over == "" || Spelled(c.t, over, c.overlap + c.t.Count(" ")))
  }

  /** The overlap repeats the end of the previous chunk; behind a grown chunk it is exactly its tail. */
  ghost predicate OverlapFits(c: Sizing, trail: Trail, over: string) {
    && EndsWith(Ink(LastText(c, trail)), Ink(over))
    && (trail.Start? ==> over == "")
    && (trail.Put? && trail.piece.Grown? && c.overlap > 0 ==> over == Tail(c.t, Whole(c, trail.piece), c.overlap))
  }

  ghost predicate LongSection(c: Sizing, sections: seq<string>, tokens: seq<nat>) {
    |tokens| > c.target && exists section :: section in sections && !c.t.refuses(section) && tokens == c.t.encode(section)
  }

  /** A grown chunk was closed only because the section that opens the next one did not fit behind it. */
  ghost predicate Forced(c: Sizing, trail: Trail, parts: seq<string>) {
    trail.Put? && trail.piece.Grown? && parts != [] ==> c.t.Count(Whole(c, trail.piece) + parts[0]) > c.target
  }

  /**
   What may come behind the trail: a buffer of whole sections behind a fitting overlap, or a window of
   a long section behind the window before it.
   */
  ghost predicate Follows(c: Sizing, sections: seq<string>, trail: Trail, p: Piece) {
    && Shaped(c, p)
    && match p
       case Grown(over, parts) =>
         BufferFits(c, sections, over, parts) && OverlapFits(c, trail, over) && Forced(c, trail, parts)
       case Windowed(tokens, k) =>
         && LongSection(c, sections, tokens)
         && (k > 0 ==> trail.Put? && trail.piece == Windowed(tokens, k - 1))
  }

  ghost predicate Proper(c: Sizing, sections: seq<string>, trail: Trail) {
    trail.Start? || (Proper(c, sections, trail.before) && Follows(c, sections, trail.before, trail.piece))
  }

  /**
   Chunk texts of a body: with the overlaps removed and whitespace ignored they are the body, and no
   chunk was closed for a section that still fitted behind it.
   */
  ghost predicate Covered(c: Sizing, body: string, texts: seq<string>) {
    exists sections, trail ::
      && Sectioned(body, sections) && Proper(c, sections, trail)
      && texts == TextsOf(c, trail) && Ink(AllFresh(c, trail)) == Ink(body)
  }

  lemma EncodingSpells(t: Tokenizer, s: string, n: nat)
    requires t.Lawful() && t.Fits(s, n)
    ensures Spelled(t, s, n)
  {
    assert t.RoundTrips(s);
  }

  lemma BufferIsBounded(c: Sizing, sections: seq<string>, over: string, parts: seq<string>)
    requires c.Lawful() && BufferFits(c, sections, over, parts)
    ensures Spelled(c.t, over + Concat(parts), c.target + c.overlap + c.t.Count(" "))
    ensures over == "" ==> Spelled(c.t, over + Concat(parts), c.target)
  {
    if c.t.Fits(over + Concat(parts), c.target) {
      EncodingSpells(c.t, over + Concat(parts), c.target);
      EncodingSpells(c.t, over + Concat(parts), c.target + c.overlap + c.t.Count(" "));
    } else {
      assert Concat(parts) == parts[0] + "" == parts[0];
      EncodingSpells(c.t, parts[0], c.target);
      SpelledAppend(c.t, over, c.overlap + c.t.Count(" "), parts[0], c.target);
    }
  }

  /**
   Before its outer whitespace is stripped, every chunk can be spelled with no more tokens than the target,
   the overlap and the space behind it together; without an overlap, than the target.
   */
  lemma PieceIsBounded(c: Sizing, sections: seq<string>, trail: Trail, p: Piece)
    requires c.Lawful() && Follows(c, sections, trail, p)
    ensures Spelled(c.t, Whole(c, p), c.target + c.overlap + c.t.Count(" "))
    ensures p.Windowed? || p.over == "" ==> Spelled(c.t, Whole(c, p), c.target)
  {
    match p
    case Grown(over, parts) => BufferIsBounded(c, sections, over, parts);
    case Windowed(tokens, k) => NeighboursShareOverlap(tokens, c.target, c.overlap, k);
  }

  // ----------------------------------------------------------------- the loop over sections

  /** What the open buffer may hold behind the last chunk. */
  ghost predicate Pending(c: Sizing, sections: seq<string>, trail: Trail, over: string, parts: seq<string>) {
    if parts == [] then over == "" && (trail.Start? || trail.piece.Windowed?)
    else Follows(c, sections, trail, Grown(over, parts))
  }

  /** The fresh parts of the chunks and the buffer are the first `i` sections. */
  ghost predicate Tallied(sections: seq<string>, i: nat, taken: string, parts: seq<string>) {
    i <= |sections| && Ink(taken) + Ink(Concat(parts)) == Ink(Concat(sections[..i]))
  }

  /** The chunks and the buffer after the first `i` sections. */
  ghost predicate Progress(c: Sizing, sections: seq<string>, i: nat, trail: Trail, current: string, over: string, parts: seq<string>) {
    && Proper(c, sections, trail)
    && Pending(c, sections, trail, over, parts)
    && current == over + Concat(parts)
    && Tallied(sections, i, AllFresh(c, trail), parts)
  }

  lemma NextSection(sections: seq<string>, i: nat)
    requires i < |sections|
    ensures Ink(Concat(sections[..i + 1])) == Ink(Concat(sections[..i])) + Ink(sections[i])
  {
    assert sections[..i + 1] == sections[..i] + [sections[i]];
    ConcatLast(sections[..i], sections[i]);
    InkAppend(Concat(sections[..i]), sections[i]);
  }

  lemma TallyGrows(sections: seq<string>, i: nat, taken: string, parts: seq<string>)
    requires Tallied(sections, i, taken, parts) && i < |sections|
    ensures Tallied(sections, i + 1, taken, parts + [sections[i]])
  {
    ConcatLast(parts, sections[i]);
    InkAppend(Concat(parts), sections[i]);
    NextSection(sections, i);
  }

  lemma LongerBuffer(over: string, parts: seq<string>, section: string)
    ensures over + Concat(parts + [section]) == over + Concat(parts) + section
  {
    ConcatLast(parts, section);
    assert over + (Concat(parts) + section) == (over + Concat(parts)) + section;
  }

  lemma NoOverlapFits(c: Sizing, trail: Trail)
    requires trail.Start? || trail.piece.Windowed?
    ensures OverlapFits(c, trail, "")
  {
    assert Ink("") == "";
  }

  lemma BufferGrows(c: Sizing, sections: seq<string>, trail: Trail, over: string, parts: seq<string>, section: string)
    requires c.overlap < c.target && Pending(c, sections, trail, over, parts)
    requires section in sections && c.t.Fits(over + Concat(parts + [section]), c.target)
    ensures Pending(c, sections, trail, over, parts + [section])
  {
    if parts == [] { NoOverlapFits(c, trail); }
    LongerBufferFits(c, sections, over, parts, section);
  }

  lemma LongerBufferFits(c: Sizing, sections: seq<string>, over: string, parts: seq<string>, section: string)
    requires if parts == [] then over == "" else BufferFits(c, sections, over, parts)
    requires section in sections && c.t.Fits(over + Concat(parts + [section]), c.target)
    ensures BufferFits(c, sections, over, parts + [section])
  {
  }

  /** The section joins the buffer. */
  lemma Accumulate(c: Sizing, sections: seq<string>, i: nat, trail: Trail, current: string, over: string, parts: seq<string>, next: string)
    requires Progress(c, sections, i, trail, current, over, parts) && i < |sections|
    requires next == over + Concat(parts + [sections[i]]) && c.overlap < c.target && c.t.Fits(next, c.target)
    ensures Progress(c, sections, i + 1, trail, next, over, parts + [sections[i]])
  {
    BufferGrows(c, sections, trail, over, parts, sections[i]);
    TallyGrows(sections, i, AllFresh(c, trail), parts);
  }

  /** Everything but whitespace has been put away. */
  ghost predicate Idle(c: Sizing, sections: seq<string>, i: nat, trail: Trail, current: string, over: string, parts: seq<string>) {
    && Proper(c, sections, trail) && Tallied(sections, i, AllFresh(c, trail), [])
    && current == over + Concat(parts) && Ink(current) == ""
    && (if parts == [] then over == "" else BufferFits(c, sections, over, parts))
  }

  lemma BlankIsIdle(c: Sizing, sections: seq<string>, i: nat, trail: Trail, current: string, over: string, parts: seq<string>)
    requires Progress(c, sections, i, trail, current, over, parts) && Strip(current) == ""
    ensures Idle(c, sections, i, trail, current, over, parts)
  {
    StripInk(current);
    InkAppend(over, Concat(parts));
    assert Ink(Concat([])) == "";
  }

  lemma TallyFlush(sections: seq<string>, i: nat, taken: string, parts: seq<string>)
    requires Tallied(sections, i, taken, parts)
    ensures Tallied(sections, i, taken + Concat(parts), [])
  {
    InkAppend(taken, Concat(parts));
    assert Ink(Concat([])) == "";
  }

  /** The buffer is put away as a chunk. */
  lemma Flush(c: Sizing, sections: seq<string>, i: nat, trail: Trail, current: string, over: string, parts: seq<string>)
    requires Progress(c, sections, i, trail, current, over, parts) && current != ""
    ensures
      var after := Put(trail, Grown(over, parts));
      Idle(c, sections, i, after, "", "", []) && TextsOf(c, after) == TextsOf(c, trail) + [Strip(current)]
  {
    TallyFlush(sections, i, AllFresh(c, trail), parts);
    NothingBuffered(over, parts);
  }

  lemma NothingBuffered(over: string, parts: seq<string>)
    ensures "" + Concat([]) == "" && Ink("") == ""
    ensures over == "" && parts == [] ==> over + Concat(parts) == ""
  {
  }

  /** The overlap that opens the buffer behind a grown chunk. */
  function Opening(c: Sizing, current: string): string {
    if c.overlap > 0 then Tail(c.t, current, c.overlap) else ""
  }

  lemma OpeningFits(c: Sizing, sections: seq<string>, current: string, section: string)
    requires c.Lawful() && section in sections && c.t.Fits(section, c.target) && !c.t.refuses(current)
    ensures BufferFits(c, sections, Opening(c, current), [section])
    ensures EndsWith(Ink(Strip(current)), Ink(Opening(c, current)))
    ensures Concat([section]) == section
  {
    assert Concat([section]) == section + "" == section;
    assert "" + section == section;
    OpeningIsSuffix(c, current);
  }

  lemma OpeningIsSuffix(c: Sizing, current: string)
    requires c.Lawful() && !c.t.refuses(current)
    ensures EndsWith(Ink(Strip(current)), Ink(Opening(c, current)))
    ensures Opening(c, current) == "" || (c.overlap > 0 && Spelled(c.t, Opening(c, current), c.overlap + c.t.Count(" ")))
  {
    StripInk(current);
    if c.overlap > 0 {
      TailIsShortSuffix(c.t, current, c.overlap);
    } else {
      assert Ink("") == "";
    }
  }

  lemma OpeningFollows(c: Sizing, sections: seq<string>, trail: Trail, section: string)
    requires c.Lawful() && trail.Put? && section in sections && c.t.Fits(section, c.target) && !c.t.refuses(Whole(c, trail.piece))
    requires c.t.Count(Whole(c, trail.piece) + section) > c.target
    ensures Follows(c, sections, trail, Grown(Opening(c, Whole(c, trail.piece)), [section]))
    ensures Concat([section]) == section
  {
    OpeningFits(c, sections, Whole(c, trail.piece), section);
  }

  /** The buffer is put away and the section opens the next one, behind the overlap if there is one. */
  lemma Reopen(c: Sizing, sections: seq<string>, i: nat, trail: Trail, current: string, over: string, parts: seq<string>)
    requires Progress(c, sections, i, trail, current, over, parts) && current != "" && i < |sections|
    requires c.Lawful() && c.t.Fits(sections[i], c.target) && !c.t.refuses(current) && c.t.Count(current + sections[i]) > c.target
    ensures
      Progress(c, sections, i + 1, Put(trail, Grown(over, parts)),
               Opening(c, current) + sections[i], Opening(c, current), [sections[i]])
    ensures TextsOf(c, Put(trail, Grown(over, parts))) == TextsOf(c, trail) + [Strip(current)]
  {
    var after := Put(trail, Grown(over, parts));
    Flush(c, sections, i, trail, current, over, parts);
    OpeningFollows(c, sections, after, sections[i]);
    TallyGrows(sections, i, AllFresh(c, after), []);
    assert [] + [sections[i]] == [sections[i]];
  }

  lemma DecodeAppend(t: Tokenizer, a: seq<nat>, b: seq<nat>)
    requires t.Lawful()
    ensures t.decode(a + b) == t.decode(a) + t.decode(b)
    ensures t.decode([]) == ""
  {
    assert t.Distributes(a, b) && t.Distributes([], []);
    var none: seq<nat> := [];
    assert none + none == none;
    assert |t.decode(none + none)| == |t.decode(none)| + |t.decode(none)|;
  }

  /** The trail with the first `m` windows of the stream put away. */
  ghost function PutWindows(trail: Trail, tokens: seq<nat>, m: nat): Trail {
    if m == 0 then trail else Put(PutWindows(trail, tokens, m - 1), Windowed(tokens, m - 1))
  }

  lemma {:induction false} WindowsFollow(c: Sizing, sections: seq<string>, trail: Trail, tokens: seq<nat>, m: nat)
    requires c.overlap < c.target && LongSection(c, sections, tokens)
    requires Proper(c, sections, trail) && m <= WindowCount(|tokens|, c.target, c.overlap)
    ensures Proper(c, sections, PutWindows(trail, tokens, m))
  {
    if m > 0 { WindowsFollow(c, sections, trail, tokens, m - 1); }
  }

  lemma DecodeStep(c: Sizing, tokens: seq<nat>, k: nat)
    requires c.Lawful() && k < WindowCount(|tokens|, c.target, c.overlap)
    ensures c.t.decode(Restored(tokens, c.target, c.overlap, k + 1)) ==
      c.t.decode(Restored(tokens, c.target, c.overlap, k)) + Fresh(c, Windowed(tokens, k))
  {
    DecodeAppend(c.t, Restored(tokens, c.target, c.overlap, k), NewTokens(tokens, c.target, c.overlap, k));
  }

  /** The fresh parts of the first windows decode what those windows restore. */
  lemma {:induction false} WindowsAreFresh(c: Sizing, trail: Trail, tokens: seq<nat>, m: nat)
    requires c.Lawful() && m <= WindowCount(|tokens|, c.target, c.overlap)
    ensures AllFresh(c, PutWindows(trail, tokens, m)) == AllFresh(c, trail) + c.t.decode(Restored(tokens, c.target, c.overlap, m))
  {
    if m == 0 {
      DecodeAppend(c.t, [], []);
      assert AllFresh(c, trail) + "" == AllFresh(c, trail);
    } else {
      var k := m - 1;
      assert PutWindows(trail, tokens, m) == Put(PutWindows(trail, tokens, k), Windowed(tokens, k));
      WindowsAreFresh(c, trail, tokens, k);
      DecodeStep(c, tokens, k);
      Regrouped(AllFresh(c, trail), c.t.decode(Restored(tokens, c.target, c.overlap, k)), Fresh(c, Windowed(tokens, k)));
    }
  }

  lemma Regrouped(a: string, b: string, d: string)
    ensures (a + b) + d == a + (b + d)
  {
  }

  function StripAll(texts: seq<string>): seq<string> {
    seq(|texts|, i requires 0 <= i < |texts| => Strip(texts[i]))
  }

  lemma StripNext(before: seq<string>, texts: seq<string>, k: nat)
    requires k < |texts|
    ensures before + StripAll(texts[..k]) + [Strip(texts[k])] == before + StripAll(texts[..k + 1])
  {
    assert StripAll(texts[..k + 1]) == StripAll(texts[..k]) + [Strip(texts[k])];
  }

  lemma WindowIsText(c: Sizing, tokens: seq<nat>, k: nat)
    requires c.overlap < c.target && k < WindowCount(|tokens|, c.target, c.overlap)
    ensures Whole(c, Windowed(tokens, k)) == WindowTexts(c.t, tokens, c.target, c.overlap)[k]
  {
  }

  lemma {:induction false} WindowsAreTexts(c: Sizing, trail: Trail, tokens: seq<nat>, m: nat)
    requires c.overlap < c.target && m <= WindowCount(|tokens|, c.target, c.overlap)
    ensures TextsOf(c, PutWindows(trail, tokens, m)) ==
      TextsOf(c, trail) + StripAll(WindowTexts(c.t, tokens, c.target, c.overlap)[..m])
  {
    if m == 0 {
      NoTexts(TextsOf(c, trail), WindowTexts(c.t, tokens, c.target, c.overlap));
    } else {
      var k := m - 1;
      WindowsAreTexts(c, trail, tokens, k);
      WindowIsText(c, tokens, k);
      assert PutWindows(trail, tokens, m) == Put(PutWindows(trail, tokens, k), Windowed(tokens, k));
      StripNext(TextsOf(c, trail), WindowTexts(c.t, tokens, c.target, c.overlap), k);
    }
  }

  lemma NoTexts(before: seq<string>, texts: seq<string>)
    ensures before + StripAll(texts[..0]) == before
  {
  }

  /** All windows of a section together are the section. */
  lemma WindowsAddSection(c: Sizing, trail: Trail, section: string, m: nat)
    requires c.Lawful() && !c.t.refuses(section) && m == WindowCount(c.t.Count(section), c.target, c.overlap)
    ensures AllFresh(c, PutWindows(trail, c.t.encode(section), m)) == AllFresh(c, trail) + section
  {
    WindowsAreFresh(c, trail, c.t.encode(section), m);
    AllRestored(c.t.encode(section), c.target, c.overlap);
    assert c.t.RoundTrips(section);
  }

  lemma TallySection(sections: seq<string>, i: nat, taken: string)
    requires i < |sections| && Tallied(sections, i, taken, [])
    ensures Tallied(sections, i + 1, taken + sections[i], [])
  {
    InkAppend(taken, sections[i]);
    NextSection(sections, i);
    assert Ink(Concat([])) == "";
  }

  /** What is idle behind some windows goes on as the open buffer. */
  lemma IdleIsProgress(c: Sizing, sections: seq<string>, i: nat, trail: Trail, current: string, over: string, parts: seq<string>)
    requires c.overlap < c.target && Idle(c, sections, i, trail, current, over, parts) && trail.Put? && trail.piece.Windowed?
    ensures Progress(c, sections, i, trail, current, over, parts)
  {
    InkAppend(over, Concat(parts));
    assert Ink(Concat([])) == "";
  }

  /** After all windows of the section the buffer is open again, holding at most whitespace. */
  lemma AfterWindows(c: Sizing, sections: seq<string>, i: nat, trail: Trail, current: string, over: string, parts: seq<string>)
    returns (after: Trail)
    requires c.Lawful() && i < |sections| && !c.t.refuses(sections[i]) && c.t.Count(sections[i]) > c.target
    requires Idle(c, sections, i, trail, current, over, parts)
    ensures Progress(c, sections, i + 1, after, current, over, parts)
    ensures TextsOf(c, after) == TextsOf(c, trail) + StripAll(WindowTexts(c.t, c.t.encode(sections[i]), c.target, c.overlap))
  {
    var tokens := c.t.encode(sections[i]);
    var m := WindowCount(|tokens|, c.target, c.overlap);
    var all := WindowTexts(c.t, tokens, c.target, c.overlap);
    assert all[..m] == all;
    after := PutWindows(trail, tokens, m);
    assert LongSection(c, sections, tokens);
    WindowsFollow(c, sections, trail, tokens, m);
    WindowsAreTexts(c, trail, tokens, m);
    WindowsAddSection(c, trail, sections[i], m);
    TallySection(sections, i, AllFresh(c, trail));
    IdleIsProgress(c, sections, i + 1, after, current, over, parts);
  }

  // ----------------------------------------------------------------- what is encoded on the way

  /** The buffer can be encoded, and as long as sections are left it ends where no special token goes on. */
  ghost predicate Open(c: Sizing, sections: seq<string>, i: nat, current: string) {
    !c.t.refuses(current) && (i < |sections| ==> Broken(current))
  }

  lemma ExtendsOpen(c: Sizing, sections: seq<string>, i: nat, current: string)
    requires c.Lawful() && i < |sections| && !c.t.refuses(sections[i]) && Open(c, sections, i, current)
    requires i + 1 < |sections| ==> EndsWith(sections[i], "\n")
    ensures Open(c, sections, i + 1, current + sections[i])
  {
    RefusesJoin(c.t, current, sections[i]);
    if i + 1 < |sections| {
      var s := sections[i];
      assert s[|s| - 1..][0] == '\n';
    }
  }

  lemma TailIsOpen(c: Sizing, sections: seq<string>, i: nat, current: string)
    requires c.Lawful() && i < |sections| && Open(c, sections, i, current)
    ensures Open(c, sections, i, Opening(c, current))
  {
    BlankIsEncoded(c.t);
    if c.overlap > 0 && c.t.Count(current) > c.overlap {
      var tokens := c.t.encode(current);
      var cut := |tokens| - c.overlap;
      assert tokens == tokens[..cut] + tokens[cut..];
      assert c.t.RoundTrips(current) && c.t.Distributes(tokens[..cut], tokens[cut..]);
      RefusesJoin(c.t, c.t.decode(tokens[..cut]), c.t.decode(tokens[cut..]));
      EndsInSpace(c.t, c.t.decode(tokens[cut..]));
    }
  }

  lemma EndsInSpace(t: Tokenizer, s: string)
    requires t.RefusesSpecials() && !t.refuses(s)
    ensures !t.refuses(s + " ") && Broken(s + " ")
  {
    assert t.RefusesRight(s) && t.RefusesRight(s + " ") && t.RefusesRight(" ");
    BlankIsEncoded(t);
    forall k | 0 <= k < |t.specials| ensures !Contains(s + " ", t.specials[k]) {
      LastAdds(s, ' ', t.specials[k]);
    }
  }

  /** A text is refused exactly when one of its sections is. */
  lemma {:induction false} RefusedSection(t: Tokenizer, sections: seq<string>)
    requires t.RefusesSpecials()
    requires forall i :: 0 <= i < |sections| - 1 ==> EndsWith(sections[i], "\n")
    ensures t.refuses(Concat(sections)) <==> exists i :: 0 <= i < |sections| && t.refuses(sections[i])
  {
    BlankIsEncoded(t);
    if sections != [] {
      var rest := sections[1..];
      assert forall i :: 0 <= i < |rest| ==> rest[i] == sections[i + 1];
      RefusedSection(t, rest);
      RefusesJoin(t, sections[0], Concat(rest));
      if |sections| > 1 {
        assert sections[0][|sections[0]| - 1..][0] == '\n';
      } else {
        assert sections[0] + Concat(rest) == sections[0];
      }
      if i :| 0 <= i < |sections| && t.refuses(sections[i]) {
        if i > 0 { assert t.refuses(rest[i - 1]); }
      }
      if i :| 0 <= i < |rest| && t.refuses(rest[i]) { assert t.refuses(sections[i + 1]); }
    }
  }

  // ----------------------------------------------------------------- the chunker as a function

  /** The texts put away and the open buffer. */
  datatype Filled = Filled(texts: seq<string>, current: string)

  function TakeOne(c: Sizing, section: string, f: Filled): Filled
    requires c.overlap < c.target
  {
    if c.t.Count(section) > c.target then TakeLong(c, section, f) else TakeShort(c, section, f)
  }

  /** What is buffered is put away first, unless it is only whitespace. */
  function TakeLong(c: Sizing, section: string, f: Filled): Filled
    requires c.overlap < c.target
  {
    var put := if Strip(f.current) != "" then Filled(f.texts + [Strip(f.current)], "") else f;
    put.(texts := put.texts + StripAll(WindowTexts(c.t, c.t.encode(section), c.target, c.overlap)))
  }

  /** The section joins the buffer, or opens the next one if it does not fit. */
  function TakeShort(c: Sizing, section: string, f: Filled): Filled {
    if f.current != "" && c.t.Count(f.current + section) > c.target
    then Filled(f.texts + [Strip(f.current)], Opening(c, f.current) + section)
    else f.(current := f.current + section)
  }

  function TakeAll(c: Sizing, sections: seq<string>): Filled
    requires c.overlap < c.target
  {
    if sections == [] then Filled([], "") else
    TakeOne(c, sections[|sections| - 1], TakeAll(c, sections[..|sections| - 1]))
  }

  function Finished(f: Filled): seq<string> {
    if Strip(f.current) != "" then f.texts + [Strip(f.current)] else f.texts
  }

  /** The texts of a body's chunks; nothing if the body cannot be encoded. */
  ghost function ChunkTexts(c: Sizing, body: string): Option<seq<string>>
    requires c.overlap < c.target
  {
    if Strip(body) == "" then Some([])
    else if c.t.refuses(body) then None
    else Some(Finished(TakeAll(c, SectionsOf(body))))
  }

  function Texts(chunks: seq<Chunk>): seq<string> {
    seq(|chunks|, i requires 0 <= i < |chunks| => chunks[i].text)
  }

  /** The texts as numbered chunks. */
  function Numbering(texts: seq<string>, sourceRef: Option<string>, project: string): (chunks: seq<Chunk>)
    ensures |chunks| == |texts| && Texts(chunks) == texts && Numbered(chunks)
  {
    seq(|texts|, i requires 0 <= i < |texts| => Chunk(i, texts[i], sourceRef, project))
  }

  // ----------------------------------------------------------------- what the function makes

  /** The function has put away these pieces and holds this buffer after the first `i` sections. */
  ghost predicate Made(c: Sizing, sections: seq<string>, i: nat, f: Filled, trail: Trail, over: string, parts: seq<string>) {
    && f.texts == TextsOf(c, trail) && Progress(c, sections, i, trail, f.current, over, parts)
    && Open(c, sections, i, f.current)
  }

  ghost predicate CanBeMade(c: Sizing, sections: seq<string>, i: nat, f: Filled) {
    exists trail, over, parts :: Made(c, sections, i, f, trail, over, parts)
  }

  /** A section that is too long: what is buffered is put away first, unless it is only whitespace. */
  lemma LongSectionMade(c: Sizing, sections: seq<string>, i: nat, f: Filled, trail: Trail, over: string, parts: seq<string>)
    requires c.Lawful() && i < |sections| && !c.t.refuses(sections[i]) && c.t.Count(sections[i]) > c.target
    requires Made(c, sections, i, f, trail, over, parts)
    ensures CanBeMade(c, sections, i + 1, TakeLong(c, sections[i], f))
  {
    if Strip(f.current) != "" {
      Flush(c, sections, i, trail, f.current, over, parts);
      BlankIsEncoded(c.t);
      var after := AfterWindows(c, sections, i, Put(trail, Grown(over, parts)), "", "", []);
      assert Made(c, sections, i + 1, TakeLong(c, sections[i], f), after, "", []);
    } else {
      BlankIsIdle(c, sections, i, trail, f.current, over, parts);
      var after := AfterWindows(c, sections, i, trail, f.current, over, parts);
      assert Made(c, sections, i + 1, TakeLong(c, sections[i], f), after, over, parts);
    }
  }

  /** A section within the target joins the buffer. */
  lemma JoinMade(c: Sizing, sections: seq<string>, i: nat, f: Filled, trail: Trail, over: string, parts: seq<string>)
    requires c.Lawful() && i < |sections| && !c.t.refuses(sections[i])
    requires i + 1 < |sections| ==> EndsWith(sections[i], "\n")
    requires Made(c, sections, i, f, trail, over, parts) && c.t.Fits(f.current + sections[i], c.target)
    ensures Made(c, sections, i + 1, f.(current := f.current + sections[i]), trail, over, parts + [sections[i]])
  {
    ExtendsOpen(c, sections, i, f.current);
    LongerBuffer(over, parts, sections[i]);
    Accumulate(c, sections, i, trail, f.current, over, parts, f.current + sections[i]);
  }

  /** Or it opens the next buffer. */
  lemma ReopenMade(c: Sizing, sections: seq<string>, i: nat, f: Filled, trail: Trail, over: string, parts: seq<string>)
    requires c.Lawful() && i < |sections| && c.t.Fits(sections[i], c.target) && f.current != ""
    requires i + 1 < |sections| ==> EndsWith(sections[i], "\n")
    requires Made(c, sections, i, f, trail, over, parts) && c.t.Count(f.current + sections[i]) > c.target
    ensures
      Made(c, sections, i + 1, TakeShort(c, sections[i], f),
           Put(trail, Grown(over, parts)), Opening(c, f.current), [sections[i]])
  {
    Reopen(c, sections, i, trail, f.current, over, parts);
    TailIsOpen(c, sections, i, f.current);
    ExtendsOpen(c, sections, i, Opening(c, f.current));
  }

  /** Without a buffer the section is alone; behind one the two were measured together. */
  lemma JoinFits(c: Sizing, current: string, section: string)
    requires c.t.RefusesSpecials() && c.t.Fits(section, c.target) && !c.t.refuses(current) && Broken(current)
    requires current == "" || c.t.Count(current + section) <= c.target
    ensures c.t.Fits(current + section, c.target)
  {
    RefusesJoin(c.t, current, section);
    if current == "" { assert current + section == section; }
  }

  lemma ShortJoins(c: Sizing, sections: seq<string>, i: nat, f: Filled, trail: Trail, over: string, parts: seq<string>)
    requires c.Lawful() && i < |sections| && c.t.Fits(sections[i], c.target)
    requires i + 1 < |sections| ==> EndsWith(sections[i], "\n")
    requires Made(c, sections, i, f, trail, over, parts)
    requires f.current == "" || c.t.Count(f.current + sections[i]) <= c.target
    ensures CanBeMade(c, sections, i + 1, TakeShort(c, sections[i], f))
  {
    JoinFits(c, f.current, sections[i]);
    JoinMade(c, sections, i, f, trail, over, parts);
  }

  lemma ShortReopens(c: Sizing, sections: seq<string>, i: nat, f: Filled, trail: Trail, over: string, parts: seq<string>)
    requires c.Lawful() && i < |sections| && c.t.Fits(sections[i], c.target)
    requires i + 1 < |sections| ==> EndsWith(sections[i], "\n")
    requires Made(c, sections, i, f, trail, over, parts)
    requires f.current != "" && c.t.Count(f.current + sections[i]) > c.target
    ensures CanBeMade(c, sections, i + 1, TakeShort(c, sections[i], f))
  {
    ReopenMade(c, sections, i, f, trail, over, parts);
  }

  lemma ShortSectionMade(c: Sizing, sections: seq<string>, i: nat, f: Filled, trail: Trail, over: string, parts: seq<string>)
    requires c.Lawful() && i < |sections| && c.t.Fits(sections[i], c.target)
    requires i + 1 < |sections| ==> EndsWith(sections[i], "\n")
    requires Made(c, sections, i, f, trail, over, parts)
    ensures CanBeMade(c, sections, i + 1, TakeShort(c, sections[i], f))
  {
    if f.current == "" || c.t.Count(f.current + sections[i]) <= c.target {
      ShortJoins(c, sections, i, f, trail, over, parts);
    } else {
      ShortReopens(c, sections, i, f, trail, over, parts);
    }
  }

  lemma NothingMade(c: Sizing, sections: seq<string>)
    requires c.Lawful()
    ensures Made(c, sections, 0, Filled([], ""), Start, "", [])
  {
    BlankIsEncoded(c.t);
    assert Concat([]) == "" && "" + "" == "";
    assert sections[..0] == [];
  }

  ghost predicate NoneRefused(t: Tokenizer, sections: seq<string>, n: nat) {
    forall i :: 0 <= i < |sections| && i < n ==> !t.refuses(sections[i])
  }

  ghost predicate LinesEnd(sections: seq<string>) { forall i :: 0 <= i < |sections| - 1 ==> EndsWith(sections[i], "\n") }

  /** The first `n` sections can be encoded, and each but the last of all ends its line. */
  ghost predicate Clear(t: Tokenizer, sections: seq<string>, n: nat)
    requires n <= |sections|
  {
    n == 0 || (Clear(t, sections, n - 1) && !t.refuses(sections[n - 1]) && (n < |sections| ==> EndsWith(sections[n - 1], "\n")))
  }

  lemma {:induction false} IsClear(t: Tokenizer, sections: seq<string>, n: nat)
    requires n <= |sections| && NoneRefused(t, sections, n) && LinesEnd(sections)
    ensures Clear(t, sections, n)
  {
    if n > 0 { IsClear(t, sections, n - 1); }
  }

  lemma OneMade(c: Sizing, sections: seq<string>, i: nat, f: Filled)
    requires c.Lawful() && i < |sections| && !c.t.refuses(sections[i]) && CanBeMade(c, sections, i, f)
    requires i + 1 < |sections| ==> EndsWith(sections[i], "\n")
    ensures CanBeMade(c, sections, i + 1, TakeOne(c, sections[i], f))
  {
    var trail, over, parts :| Made(c, sections, i, f, trail, over, parts);
    if c.t.Count(sections[i]) > c.target {
      LongSectionMade(c, sections, i, f, trail, over, parts);
    } else {
      ShortSectionMade(c, sections, i, f, trail, over, parts);
    }
  }

  /** As long as no section is refused, everything the function encodes on the way can be encoded. */
  lemma {:induction false} AllMade(c: Sizing, sections: seq<string>, n: nat)
    requires c.Lawful() && n <= |sections| && Clear(c.t, sections, n)
    ensures CanBeMade(c, sections, n, TakeAll(c, sections[..n]))
  {
    if n == 0 {
      NothingMade(c, sections);
    } else {
      AllMade(c, sections, n - 1);
      NextMade(c, sections, n);
    }
  }

  lemma NextMade(c: Sizing, sections: seq<string>, n: nat)
    requires c.Lawful() && 0 < n <= |sections| && Clear(c.t, sections, n)
    requires CanBeMade(c, sections, n - 1, TakeAll(c, sections[..n - 1]))
    ensures CanBeMade(c, sections, n, TakeAll(c, sections[..n]))
  {
    var k := n - 1;
    TakeNext(c, sections, k);
    OneMade(c, sections, k, TakeAll(c, sections[..k]));
  }

  lemma TakeNext(c: Sizing, sections: seq<string>, i: nat)
    requires c.overlap < c.target && i < |sections|
    ensures TakeAll(c, sections[..i + 1]) == TakeOne(c, sections[i], TakeAll(c, sections[..i]))
  {
    assert sections[..i + 1][..i] == sections[..i];
  }

  /** What is left in the buffer at the end is put away, unless it is only whitespace. */
  lemma RestMade(c: Sizing, body: string, sections: seq<string>, f: Filled, trail: Trail, over: string, parts: seq<string>)
    requires Sectioned(body, sections) && Made(c, sections, |sections|, f, trail, over, parts)
    ensures Covered(c, body, Finished(f)) && (Finished(f) == [] ==> Strip(body) == "")
  {
    if Strip(f.current) != "" {
      Flush(c, sections, |sections|, trail, f.current, over, parts);
      Conclude(c, sections, body, Put(trail, Grown(over, parts)), "", "", []);
    } else {
      BlankIsIdle(c, sections, |sections|, trail, f.current, over, parts);
      Conclude(c, sections, body, trail, f.current, over, parts);
    }
  }

  /** Nothing is put away only if there was no ink. */
  lemma Conclude(c: Sizing, sections: seq<string>, body: string, trail: Trail, current: string, over: string, parts: seq<string>)
    requires Sectioned(body, sections) && Idle(c, sections, |sections|, trail, current, over, parts)
    ensures Covered(c, body, TextsOf(c, trail)) && (TextsOf(c, trail) == [] ==> Strip(body) == "")
  {
    assert sections[..|sections|] == sections;
    StripInk(body);
    assert Ink(Concat([])) == "";
  }

  ghost predicate AnyRefused(t: Tokenizer, sections: seq<string>) { exists i :: 0 <= i < |sections| && t.refuses(sections[i]) }

  lemma RefusedBody(t: Tokenizer, body: string, sections: seq<string>)
    requires t.RefusesSpecials() && Sectioned(body, sections)
    ensures t.refuses(body) <==> AnyRefused(t, sections)
  {
    RefusedSection(t, sections);
  }

  /**
   The texts of a body's chunks, with the overlaps removed and whitespace ignored, are the body; there are
   none exactly for a blank body, and the body has no texts exactly if it is not blank and spells a special token.
   */
  lemma ChunkTextsCover(c: Sizing, body: string)
    requires c.Lawful()
    ensures ChunkTexts(c, body).None? <==> Strip(body) != "" && c.t.HasSpecial(body)
    ensures ChunkTexts(c, body).Some? ==> (ChunkTexts(c, body).value == [] <==> Strip(body) == "")
    ensures ChunkTexts(c, body).Some? && Strip(body) != "" ==> Covered(c, body, ChunkTexts(c, body).value)
  {
    assert c.t.RefusesRight(body);
    if Strip(body) != "" && !c.t.refuses(body) {
      var sections := SectionsOf(body);
      RefusedBody(c.t, body, sections);
      IsClear(c.t, sections, |sections|);
      AllMade(c, sections, |sections|);
      assert sections[..|sections|] == sections;
      var trail, over, parts :| Made(c, sections, |sections|, TakeAll(c, sections), trail, over, parts);
      RestMade(c, body, sections, TakeAll(c, sections), trail, over, parts);
    }
  }

  /** The sections so far fit together, each by itself too. */
  ghost predicate AllFit(c: Sizing, sections: seq<string>) {
    forall i :: 0 <= i < |sections| ==>
      c.t.Fits(sections[i], c.target) && c.t.Fits(Concat(sections[..i + 1]), c.target)
  }

  lemma {:induction false} FittingSectionsJoin(c: Sizing, sections: seq<string>, n: nat)
    requires c.overlap < c.target && AllFit(c, sections) && n <= |sections|
    ensures TakeAll(c, sections[..n]) == Filled([], Concat(sections[..n]))
  {
    if n > 0 {
      FittingSectionsJoin(c, sections, n - 1);
      TakeNext(c, sections, n - 1);
      assert sections[..n] == sections[..n - 1] + [sections[n - 1]];
      ConcatLast(sections[..n - 1], sections[n - 1]);
      assert c.t.Fits(Concat(sections[..n - 1 + 1]), c.target);
    }
  }

  /** A body whose sections fit the target together is one chunk: the body, stripped. */
  lemma SmallBodyIsOneChunk(c: Sizing, body: string)
    requires c.Lawful() && AllFit(c, SectionsOf(body)) && Strip(body) != ""
    ensures ChunkTexts(c, body) == Some([Strip(body)])
  {
    var sections := SectionsOf(body);
    RefusedBody(c.t, body, sections);
    FittingSectionsJoin(c, sections, |sections|);
    assert sections[..|sections|] == sections;
    assert !AnyRefused(c.t, sections);
    var none: seq<string> := [];
    assert none + [Strip(body)] == [Strip(body)];
  }

  /** The chunks of a body; nothing if the tokenizer refuses it. */
  ghost function ChunksOf(c: Sizing, body: string, sourceRef: Option<string>, project: string): Option<seq<Chunk>>
    requires c.overlap < c.target
  {
    match ChunkTexts(c, body)
    case None => None
    case Some(texts) => Some(Numbering(texts, sourceRef, project))
  }

  // ----------------------------------------------------------------- the loop

  lemma NumberingAppend(texts: seq<string>, text: string, sourceRef: Option<string>, project: string)
    ensures Numbering(texts + [text], sourceRef, project) ==
      Numbering(texts, sourceRef, project) + [Chunk(|texts|, text, sourceRef, project)]
  {
  }

  /** The windows of a long section become chunks in order. */
  method AppendWindows(put: seq<Chunk>, ghost texts: seq<string>, windows: seq<string>, sourceRef: Option<string>, project: string)
    returns (chunks: seq<Chunk>)
    requires put == Numbering(texts, sourceRef, project)
    ensures chunks == Numbering(texts + StripAll(windows), sourceRef, project)
  {
    chunks := put;
    assert texts + StripAll(windows[..0]) == texts;
    for k := 0 to |windows|
      invariant chunks == Numbering(texts + StripAll(windows[..k]), sourceRef, project)
    {
      NumberingAppend(texts + StripAll(windows[..k]), Strip(windows[k]), sourceRef, project);
      StripNext(texts, windows, k);
      chunks := chunks + [Chunk(|chunks|, Strip(windows[k]), sourceRef, project)];
    }
    assert windows[..|windows|] == windows;
  }

  /** The end of the buffer, repeated in front of the next one. */
  method ExtractTail(c: Sizing, buffer: string) returns (tail: string)
    requires c.overlap > 0 && !c.t.refuses(buffer)
    ensures tail == Opening(c, buffer)
  {
    var tokens := c.t.Encode(buffer);
    if |tokens| <= c.overlap { return buffer; }
    tail := c.t.decode(tokens[|tokens| - c.overlap..]) + " ";
  }

  /** One section, which is encoded to see how long it is, and perhaps again behind the buffer. */
  method TakeSection(c: Sizing, section: string, put: seq<Chunk>, buffer: string, sourceRef: Option<string>, project: string, ghost f: Filled)
    returns (chunks: seq<Chunk>, current: string)
    requires c.overlap < c.target && !c.t.refuses(section) && !c.t.refuses(buffer) && !c.t.refuses(buffer + section)
    requires put == Numbering(f.texts, sourceRef, project) && buffer == f.current
    ensures chunks == Numbering(TakeOne(c, section, f).texts, sourceRef, project) && current == TakeOne(c, section, f).current
  {
    chunks, current := put, buffer;
    ghost var texts := f.texts;
    if |c.t.Encode(section)| > c.target {
      if Strip(current) != "" {
        NumberingAppend(texts, Strip(current), sourceRef, project);
        texts := texts + [Strip(current)];
        chunks := chunks + [Chunk(|chunks|, Strip(current), sourceRef, project)];
        current := "";
      }
      var windows := SplitLargeSection(c.t, section, c.target, c.overlap);
      chunks := AppendWindows(chunks, texts, windows, sourceRef, project);
    } else if current != "" && |c.t.Encode(current + section)| > c.target {
      NumberingAppend(texts, Strip(current), sourceRef, project);
      chunks := chunks + [Chunk(|chunks|, Strip(current), sourceRef, project)];
      if c.overlap > 0 {
        var tail := ExtractTail(c, current);
        current := tail + section;
      } else {
        assert "" + section == section;
        current := section;
      }
    } else {
      current := current + section;
    }
  }

  /** Before each section, the buffer can be encoded, and the section behind it if it can itself. */
  lemma BufferIsEncoded(c: Sizing, sections: seq<string>, i: nat)
    requires c.Lawful() && i < |sections| && NoneRefused(c.t, sections, i) && LinesEnd(sections)
    ensures
      var buffer := TakeAll(c, sections[..i]).current;
      !c.t.refuses(buffer) && (!c.t.refuses(sections[i]) ==> !c.t.refuses(buffer + sections[i]))
  {
    IsClear(c.t, sections, i);
    AllMade(c, sections, i);
    RefusesJoin(c.t, TakeAll(c, sections[..i]).current, sections[i]);
  }

  /** The loop over the sections; it raises at the first one that cannot be encoded. */
  method TakeSections(c: Sizing, sections: seq<string>, sourceRef: Option<string>, project: string) returns (r: Result<seq<Chunk>, Exc>)
    requires c.Lawful() && LinesEnd(sections)
    ensures r.Failure? <==> AnyRefused(c.t, sections)
    ensures r.Failure? ==> r.error == Other
    ensures r.Success? ==> r.value == Numbering(Finished(TakeAll(c, sections)), sourceRef, project)
  {
    var current := "";
    var chunks: seq<Chunk> := [];
    for i := 0 to |sections|
      invariant NoneRefused(c.t, sections, i)
      invariant chunks == Numbering(TakeAll(c, sections[..i]).texts, sourceRef, project) && current == TakeAll(c, sections[..i]).current
    {
      if c.t.refuses(sections[i]) { return Failure(Other); }
      BufferIsEncoded(c, sections, i);
      TakeNext(c, sections, i);
      chunks, current := TakeSection(c, sections[i], chunks, current, sourceRef, project, TakeAll(c, sections[..i]));
    }
    assert sections[..|sections|] == sections;
    if Strip(current) != "" {
      NumberingAppend(TakeAll(c, sections).texts, Strip(current), sourceRef, project);
      chunks := chunks + [Chunk(|chunks|, Strip(current), sourceRef, project)];
    }
    r := Success(chunks);
  }

  /**
   Splits a body into the numbered chunks of the project. It raises exactly if the body is not blank and
   spells a special token: then some section does, and nothing else that is encoded can.
   */
  method ChunkProse(t: Tokenizer, body: string, target: nat, ratio: real, sourceRef: Option<string>, project: string)
    returns (r: Result<seq<Chunk>, Exc>)
    requires t.Lawful() && 0.0 <= ratio && OverlapTokens(target, ratio) < target
    ensures r.Failure? <==> Strip(body) != "" && t.HasSpecial(body)
    ensures r.Failure? ==> r.error == Other
    ensures r.Success? ==> Numbered(r.value) && (r.value == [] <==> Strip(body) == "")
    ensures r.Success? ==> forall i :: 0 <= i < |r.value| ==> r.value[i].sourceRef == sourceRef && r.value[i].project == project
    ensures r.Success? && Strip(body) != "" ==> Covered(Sizing(t, target, OverlapTokens(target, ratio)), body, Texts(r.value))
    ensures ChunksOf(Sizing(t, target, OverlapTokens(target, ratio)), body, sourceRef, project) ==
      if r.Success? then Some(r.value) else None
  {
    var c := Sizing(t, target, OverlapTokens(target, ratio));
    ChunkTextsCover(c, body);
    if body == "" || Strip(body) == "" {
      return Success([]);
    }
    assert t.RefusesRight(body);
    var sections := SplitIntoSections(body);
    SectionsAreUnique(body, sections, SectionsOf(body));
    RefusedBody(t, body, sections);
    r := TakeSections(c, sections, sourceRef, project);
  }
}
