/**
 The reindex pipeline: documents become candidates, collisions are resolved, stored lessons are
 carried forward and the winners are published. The publisher comes with its stream and the relay that
 writes from it; what holds of the runs they make is proved in Republishing.
 */
module Reindex {
  import opened Wrappers
  import opened Errors
  import opened Records
  import opened Writer
  import opened WriterRuns
  import opened Republishing
  import opened Collisions
  import opened Identifiers

  // ----------------------------------------------------------------- parsing

  /** A walked document after classification; a task carries what the parser reads from it. */
  datatype Doc =
    | Rejected(path: string, reason: string)
    | Broken(path: string, reason: string)
    | Task(path: string, title: Option<string>, id: string, lessonsSection: Option<string>, body: string, kind: Option<string>)

  /** The typed payload of a completed task. An empty lessons section counts as none. */
  function PayloadOf(d: Doc): Payload
    requires d.Task?
  {
    var lessons := if d.lessonsSection == Some("") then None else d.lessonsSection;
    Payload("build_outcome", "guardkit", Sanitized(d.id), [], lessons, d.body, 1)
  }

  function CandidateOf(d: Doc): Candidate
    requires d.Task?
  {
    Candidate(d.path, d.title, PayloadOf(d), if d.kind.Some? then d.kind.value else "build_outcome")
  }

  predicate Publishable(d: Doc) { d.Task? && d.id != "" }

  function Candidates(docs: seq<Doc>): seq<Candidate> {
    if docs == [] then [] else
    var last := docs[|docs| - 1];
    Candidates(docs[..|docs| - 1]) + if Publishable(last) then [CandidateOf(last)] else []
  }

  lemma {:induction false} CandidatesAreParsed(docs: seq<Doc>)
    ensures forall i :: 0 <= i < |Candidates(docs)| ==> Parsed(Candidates(docs)[i].payload)
  {
    if docs != [] { CandidatesAreParsed(docs[..|docs| - 1]); }
  }

  /** What a candidate has of the document it was parsed from. */
  ghost predicate Tells(c: Candidate, d: Doc) {
    && d.Task? && d.id != ""
    && c.path == d.path && c.title == d.title
    && (d.kind.Some? ==> c.kind == d.kind.value) && (d.kind.None? ==> c.kind == "build_outcome")
    && c.payload.ptype == "build_outcome" && c.payload.project == "guardkit" && c.payload.identifier == Sanitized(d.id)
    && c.payload.body == d.body && c.payload.supersedes == [] && c.payload.version == 1
    && (c.payload.lessons.Some? ==> c.payload.lessons == d.lessonsSection && c.payload.lessons.value != "")
    && (c.payload.lessons.None? ==> d.lessonsSection.None? || d.lessonsSection.value == "")
  }

  /** There is a task with an id at this place of the walk. */
  predicate TaskAt(docs: seq<Doc>, i: nat) { i < |docs| && docs[i].Task? && docs[i].id != "" }

  ghost predicate TellsAt(cs: seq<Candidate>, docs: seq<Doc>, k: nat, i: nat) {
    k < |cs| && i < |docs| && Tells(cs[k], docs[i])
  }

  /** The candidates tell of the tasks with an id, each once and in the order of the walk. */
  ghost predicate ParsedFrom(cs: seq<Candidate>, docs: seq<Doc>, origin: seq<nat>) {
    && |origin| == |cs| && Ascending(origin)
    && (forall i: nat :: i in origin <==> TaskAt(docs, i))
    && (forall k :: 0 <= k < |origin| ==> TellsAt(cs, docs, k, origin[k]))
  }

  lemma {:induction false} CandidatesTell(docs: seq<Doc>) returns (origin: seq<nat>)
    ensures ParsedFrom(Candidates(docs), docs, origin)
  {
    if docs == [] { return []; }
    var n := |docs| - 1;
    origin := CandidatesTell(docs[..n]);
    assert docs == docs[..n] + [docs[n]];
    if Publishable(docs[n]) {
      OriginAdded(Candidates(docs[..n]), docs[..n], origin, docs[n]);
      origin := origin + [n];
    } else {
      OriginKept(Candidates(docs[..n]), docs[..n], origin, docs[n]);
    }
  }

  lemma TasksAppend(docs: seq<Doc>, d: Doc)
    ensures forall i: nat :: TaskAt(docs + [d], i) <==> TaskAt(docs, i) || (i == |docs| && d.Task? && d.id != "")
  {
  }

  lemma OriginKept(cs: seq<Candidate>, docs: seq<Doc>, origin: seq<nat>, d: Doc)
    requires ParsedFrom(cs, docs, origin) && !Publishable(d)
    ensures ParsedFrom(cs, docs + [d], origin)
  {
    TasksAppend(docs, d);
    forall k | 0 <= k < |origin| ensures TellsAt(cs, docs + [d], k, origin[k]) { assert TellsAt(cs, docs, k, origin[k]); }
  }

  lemma OriginAdded(cs: seq<Candidate>, docs: seq<Doc>, origin: seq<nat>, d: Doc)
    requires ParsedFrom(cs, docs, origin) && Publishable(d)
    ensures ParsedFrom(cs + [CandidateOf(d)], docs + [d], origin + [|docs|])
  {
    var longer := origin + [|docs|];
    TasksAppend(docs, d);
    assert Tells(CandidateOf(d), d);
    forall k | 0 <= k < |longer| ensures TellsAt(cs + [CandidateOf(d)], docs + [d], k, longer[k]) {
      if k < |origin| { assert TellsAt(cs, docs, k, origin[k]); }
    }
    forall k | 0 <= k < |origin| ensures origin[k] < |docs| { assert TellsAt(cs, docs, k, origin[k]); }
  }

  /** Ids that differ in a letter or digit never collide: every task of such a corpus wins. */
  lemma DifferentIdsAllWin(docs: seq<Doc>)
    requires forall i :: 0 <= i < |docs| && docs[i].Task? && docs[i].id != "" ==> Letters(docs[i].id) != ""
    requires forall i, j :: 0 <= i < j < |docs| && docs[i].Task? && docs[j].Task? && docs[i].id != "" && docs[j].id != "" ==>
      Letters(docs[i].id) != Letters(docs[j].id)
    ensures forall k :: 0 <= k < |Candidates(docs)| ==> Wins(Candidates(docs), k)
  {
    var cs := Candidates(docs);
    var origin := CandidatesTell(docs);
    forall k | 0 <= k < |cs| ensures Wins(cs, k) {
      PathOrder(cs[k].path, cs[k].path, cs[k].path);
      forall j | 0 <= j < |cs| && SameId(cs[j], cs[k]) ensures j == k {
        assert TellsAt(cs, docs, j, origin[j]) && TellsAt(cs, docs, k, origin[k]);
        assert origin[j] in origin && origin[k] in origin;
        LettersKept(docs[origin[j]].id);
        LettersKept(docs[origin[k]].id);
        assert origin[j] == origin[k];
      }
    }
  }

  /** Distinct identifiers of parsed payloads are distinct natural keys and distinct places. */
  lemma KeysDiffer(p: Payload, q: Payload)
    requires Parsed(p) && Parsed(q) && p.identifier != q.identifier
    ensures p.NaturalKey() != q.NaturalKey() && p.Home() != q.Home()
  {
    var n := |p.ptype| + |p.project| + 2;
    assert p.NaturalKey()[n..] == p.identifier && q.NaturalKey()[n..] == q.identifier;
  }

  // ----------------------------------------------------------------- publishing

  method PreserveExistingLessons(p: Payload, store: RecordStore) returns (q: Payload)
    requires store.health == HEALTHY
    modifies store`health
    ensures store.health == HEALTHY
    ensures q == Preserved(p, store.rows) && q == p.(lessons := q.lessons)
    ensures p.lessons.Some? ==> q.lessons == p.lessons
    ensures p.lessons.None? && HasLessons(store.rows, p.Home()) ==> q.lessons == store.rows[p.Home()].content.lessons
    ensures p.lessons.None? && !HasLessons(store.rows, p.Home()) ==> q.lessons.None?
  {
    if p.lessons.Some? { return p; }
    var raised, existing := store.AGet(p.Home());
    if existing.None? { return p; }
    var lessons := existing.value.content.lessons;
    if lessons.None? || lessons.value == "" { return p; }
    return p.(lessons := lessons);
  }

  /** What the relay does with the stream between two steps of the run. */
  datatype Turn = Deliver(i: nat) | Settle(i: nat) | Pause

  /** The states and events so far. */
  datatype History = History(trace: seq<Line>, events: seq<Event>)

  ghost predicate Ran(enc: Encoding, h: History, first: Line, now: Line) {
    LineRun(enc, h.trace, h.events) && h.trace[0] == first && h.trace[|h.events|] == now
  }

  function Next(h: History, e: Event, now: Line): History { History(h.trace + [now], h.events + [e]) }

  lemma RanNext(enc: Encoding, h: History, first: Line, was: Line, e: Event, now: Line)
    requires Ran(enc, h, first, was) && LineStep(enc, was, e, now)
    ensures Ran(enc, Next(h, e, now), first, now)
    ensures PreparedIn(Next(h, e, now).events) == PreparedIn(h.events) + match e { case Prepared(p, _) => [p] case _ => [] }
    ensures SentIn(Next(h, e, now).events) == SentIn(h.events) + match e { case Sent(_, key) => [key] case _ => [] }
  {
    LineRunExtends(enc, h.trace, h.events, e, now);
    InExtends(h.events, e);
  }

  /** A whole write of an open message extends the run. */
  lemma WrittenNext(enc: Encoding, was: History, first: Line, before: Line, i: nat, forward: Option<string>, now: Line)
    requires Ran(enc, was, first, before) && i < |before.messages| && before.messages[i].status.Open?
    requires WritesTo(before.rows, before.messages[i].p, Some(enc.meta(before.messages[i].p)), forward, now.rows)
    requires now.messages == before.messages[i := before.messages[i].(written := true)]
    ensures Ran(enc, Next(was, Written(i, forward), now), first, now) && SameOutput(was, Next(was, Written(i, forward), now))
  {
    RanNext(enc, was, first, before, Written(i, forward), now);
  }

  lemma StillUsable(messages: seq<Message>, i: nat, m: Message)
    requires Usable(messages) && i < |messages| && m.p == messages[i].p
    ensures Usable(messages[i := m])
  {
  }

  /** The same payloads were prepared and sent. */
  ghost predicate SameOutput(h: History, h': History) {
    && PreparedIn(h'.events) == PreparedIn(h.events) && SentIn(h'.events) == SentIn(h.events)
    && (Preserving(h.events) ==> Preserving(h'.events))
  }

  /** The publisher with its stream, and the relay at the stream's other end. */
  class CorpusPublisher {
    const writer: DeterministicWriter
    const enc: Encoding
    var messages: seq<Message>
    var plan: seq<Turn>

    ghost function Now(): Line
      reads this`messages, writer.store`rows
    {
      Line(writer.store.rows, messages)
    }

    ghost predicate Valid()
      reads this`messages, writer.store`rows, writer.store`order, writer.store`health
    {
      writer.store.Valid() && writer.store.health == HEALTHY && Usable(messages)
    }

    constructor (writer: DeterministicWriter, enc: Encoding, plan: seq<Turn>)
      ensures this.writer == writer && this.enc == enc && this.plan == plan && messages == []
    {
      this.writer, this.enc, this.plan, messages := writer, enc, plan, [];
    }

    /** One write that nothing cuts short. */
    method WriteWhole(p: Payload) returns (ghost forward: Option<string>)
      requires writer.store.Valid() && writer.store.health == HEALTHY && p.Valid() && p.Accepted()
      modifies writer.store
      ensures writer.store.Valid() && writer.store.health == HEALTHY
      ensures WritesTo(old(writer.store.rows), p, Some(enc.meta(p)), forward, writer.store.rows)
    {
      ghost var rows := writer.store.rows;
      var r, found, steps := writer.Write(p, Some(enc.meta(p)));
      WholeWriteIsWrote(rows, p, Some(enc.meta(p)), found);
      forward := found;
    }

    /** The relay writes one message of the stream. */
    method DeliverOpen(i: nat, ghost first: Line, ghost was: History) returns (ghost h: History)
      requires Valid() && Ran(enc, was, first, Now()) && i < |messages| && messages[i].status.Open?
      modifies this`messages, writer.store
      ensures Valid() && Ran(enc, h, first, Now()) && SameOutput(was, h)
      ensures messages == old(messages)[i := old(messages)[i].(written := true)]
    {
      ghost var before := Now();
      ghost var forward := WriteWhole(messages[i].p);
      StillUsable(messages, i, messages[i].(written := true));
      messages := messages[i := messages[i].(written := true)];
      h := Next(was, Written(i, forward), Now());
      WrittenNext(enc, was, first, before, i, forward, Now());
    }

    /** The relay or the stream is done with one message. */
    method Drop(i: nat, ghost first: Line, ghost was: History) returns (ghost h: History)
      requires Valid() && Ran(enc, was, first, Now()) && i < |messages|
      modifies this`messages
      ensures Valid() && Ran(enc, h, first, Now()) && SameOutput(was, h)
      ensures messages == old(messages)[i := old(messages)[i].(status := Closed)]
    {
      ghost var before := Now();
      messages := messages[i := messages[i].(status := Closed)];
      h := Next(was, Dropped(i), Now());
      RanNext(enc, was, first, before, Dropped(i), Now());
    }

    /** Meanwhile the relay takes its turns; payloads that were not sent yet are out of its reach. */
    method RelayTurns(ghost first: Line, ghost was: History) returns (ghost h: History)
      requires Valid() && Ran(enc, was, first, Now())
      modifies this, writer.store
      ensures Valid() && Ran(enc, h, first, Now()) && SameOutput(was, h)
      ensures |messages| == |old(messages)|
      ensures forall i :: 0 <= i < |messages| && old(messages)[i].status.Held? ==> messages[i] == old(messages)[i]
    {
      h := was;
      while plan != [] && plan[0] != Pause
        invariant Valid() && Ran(enc, h, first, Now()) && SameOutput(was, h)
        invariant |messages| == |old(messages)|
        invariant forall i :: 0 <= i < |messages| && old(messages)[i].status.Held? ==> messages[i] == old(messages)[i]
        decreases |plan|
      {
        var turn := plan[0];
        plan := plan[1..];
        if turn.i < |messages| && messages[turn.i].status.Open? {
          if turn.Deliver? {
            h := DeliverOpen(turn.i, first, h);
          } else {
            h := Drop(turn.i, first, h);
          }
        }
      }
      if plan != [] { plan := plan[1..]; }
    }

    /** The payload as it was read against the store, about to be published. */
    method Hold(p: Payload, q: Payload, preserve: bool, ghost first: Line, ghost was: History) returns (ghost h: History)
      requires Valid() && Ran(enc, was, first, Now()) && Parsed(p)
      requires q == if preserve then Preserved(p, writer.store.rows) else p
      modifies this`messages
      ensures Valid() && Ran(enc, h, first, Now())
      ensures messages == old(messages) + [Message(q, Held, false)]
      ensures PreparedIn(h.events) == PreparedIn(was.events) + [p] && SentIn(h.events) == SentIn(was.events)
      ensures preserve && Preserving(was.events) ==> Preserving(h.events)
    {
      ghost var before := Now();
      PreservedIsParsed(p, writer.store.rows);
      ParsedIsAccepted(q);
      messages := messages + [Message(q, Held, false)];
      h := Next(was, Prepared(p, preserve), Now());
      RanNext(enc, was, first, before, Prepared(p, preserve), Now());
    }

    /** A payload that is too large is skipped; any other is put into the stream. */
    method Publish(q: Payload, ghost first: Line, ghost was: History) returns (skip: Option<Reason>, ghost h: History)
      requires Valid() && Ran(enc, was, first, Now())
      requires messages != [] && messages[|messages| - 1] == Message(q, Held, false)
      modifies this`messages
      ensures Valid() && Ran(enc, h, first, Now())
      ensures skip == if enc.size(q) >= MAX_EPISODE_BODY_BYTES then Some(TooLarge) else None
      ensures messages == old(messages)[|old(messages)| - 1 := Message(q, if skip.None? then Open else Closed, false)]
      ensures PreparedIn(h.events) == PreparedIn(was.events) && (Preserving(was.events) ==> Preserving(h.events))
      ensures SentIn(h.events) == SentIn(was.events) + if skip.None? then [q.NaturalKey()] else []
    {
      var i := |messages| - 1;
      if enc.size(q) >= MAX_EPISODE_BODY_BYTES {
        h := Drop(i, first, was);
        return Some(TooLarge), h;
      }
      ghost var before := Now();
      messages := messages[i := Message(q, Open, false)];
      h := Next(was, Sent(i, q.NaturalKey()), Now());
      RanNext(enc, was, first, before, Sent(i, q.NaturalKey()), Now());
      return None, h;
    }
  }

  // ----------------------------------------------------------------- the whole run

  datatype Skip = Skip(path: string, reason: Reason)

  datatype Report = Report(
    walked: nat, published: nat, skipped: nat, unparseable: nat, perKind: map<string, nat>,
    naturalKeys: seq<string>, skips: seq<Skip>, broken: seq<Skip>)

  function DocPaths(docs: seq<Doc>): seq<string> { seq(|docs|, i requires 0 <= i < |docs| => docs[i].path) }
  function SkipPaths(skips: seq<Skip>): seq<string> { seq(|skips|, i requires 0 <= i < |skips| => skips[i].path) }

  /** The paths of the candidates with these indices. */
  function PathsAt(cs: seq<Candidate>, s: seq<nat>): seq<string>
    requires forall k :: 0 <= k < |s| ==> s[k] < |cs|
  {
    seq(|s|, k requires 0 <= k < |s| => cs[s[k]].path)
  }

  function CandidatePaths(cs: seq<Candidate>): seq<string> { seq(|cs|, i requires 0 <= i < |cs| => cs[i].path) }

  /** Every path is in exactly one of the three buckets, as often as it was seen. */
  ghost predicate Accounted(seen: seq<string>, a: seq<string>, b: seq<string>, c: seq<string>) {
    multiset(seen) == multiset(a) + multiset(b) + multiset(c)
  }

  lemma AccountNext(seen: seq<string>, a: seq<string>, b: seq<string>, c: seq<string>, path: string)
    requires Accounted(seen, a, b, c)
    ensures Accounted(seen + [path], a + [path], b, c)
    ensures Accounted(seen + [path], a, b + [path], c)
    ensures Accounted(seen + [path], a, b, c + [path])
  {
  }

  /** What the walk makes of one document. */
  method WalkDocument(d: Doc, cs: seq<Candidate>, skips: seq<Skip>, broken: seq<Skip>, ghost seen: seq<string>)
    returns (cs': seq<Candidate>, skips': seq<Skip>, broken': seq<Skip>)
    requires Accounted(seen, CandidatePaths(cs), SkipPaths(skips), SkipPaths(broken))
    ensures cs' == cs + if Publishable(d) then [CandidateOf(d)] else []
    ensures d.Rejected? ==> skips' == skips + [Skip(d.path, Named(d.reason))] && broken' == broken
    ensures Accounted(seen + [d.path], CandidatePaths(cs'), SkipPaths(skips'), SkipPaths(broken'))
  {
    cs', skips', broken' := cs, skips, broken;
    AccountNext(seen, CandidatePaths(cs), SkipPaths(skips), SkipPaths(broken), d.path);
    match d
    case Rejected(path, reason) =>
      skips' := skips + [Skip(path, Named(reason))];
      assert SkipPaths(skips') == SkipPaths(skips) + [path];
    case Broken(path, reason) =>
      broken' := broken + [Skip(path, Named(reason))];
      assert SkipPaths(broken') == SkipPaths(broken) + [path];
    case Task(path, _, id, _, _, _) =>
      if id == "" {
        broken' := broken + [Skip(path, Named("Missing required field: id"))];
        assert SkipPaths(broken') == SkipPaths(broken) + [path];
      } else {
        cs' := cs + [CandidateOf(d)];
        assert CandidatePaths(cs') == CandidatePaths(cs) + [path];
      }
  }

  lemma WalkNext(docs: seq<Doc>, i: nat)
    requires i < |docs|
    ensures DocPaths(docs[..i + 1]) == DocPaths(docs[..i]) + [docs[i].path]
    ensures Candidates(docs[..i + 1]) == Candidates(docs[..i]) + if Publishable(docs[i]) then [CandidateOf(docs[i])] else []
  {
    assert docs[..i + 1][..i] == docs[..i];
  }

  /** The walk: every document becomes a candidate, a skip or an unparseable entry. */
  method WalkDocuments(docs: seq<Doc>) returns (cs: seq<Candidate>, skips: seq<Skip>, broken: seq<Skip>)
    ensures cs == Candidates(docs)
    ensures Accounted(DocPaths(docs), CandidatePaths(cs), SkipPaths(skips), SkipPaths(broken))
  {
    cs, skips, broken := [], [], [];
    for i := 0 to |docs|
      invariant cs == Candidates(docs[..i])
      invariant Accounted(DocPaths(docs[..i]), CandidatePaths(cs), SkipPaths(skips), SkipPaths(broken))
    {
      WalkNext(docs, i);
      cs, skips, broken := WalkDocument(docs[i], cs, skips, broken, DocPaths(docs[..i]));
    }
    assert docs[..|docs|] == docs;
  }

  lemma TakeOut(paths: seq<string>, k: nat)
    requires k < |paths|
    ensures multiset(paths) == multiset(paths[..k] + paths[k + 1..]) + multiset{paths[k]}
  {
    assert paths == paths[..k] + [paths[k]] + paths[k + 1..];
  }

  /** Indices that hit every candidate once give every candidate path once. */
  lemma {:induction false} EveryPathOnce(cs: seq<Candidate>, s: seq<nat>)
    requires NoRepeat(s) && forall i: nat :: i in s <==> i < |cs|
    ensures forall k :: 0 <= k < |s| ==> s[k] < |cs|
    ensures multiset(PathsAt(cs, s)) == multiset(CandidatePaths(cs))
  {
    forall k | 0 <= k < |s| ensures s[k] < |cs| { assert s[k] in s; }
    if cs != [] {
      var n := |cs| - 1;
      assert n in s;
      var k :| 0 <= k < |s| && s[k] == n;
      var rest := s[..k] + s[k + 1..];
      RestHitsRest(cs, s, k, rest);
      EveryPathOnce(cs[..n], rest);
      RestPaths(cs, s, k, rest);
    }
  }

  lemma RestPaths(cs: seq<Candidate>, s: seq<nat>, k: nat, rest: seq<nat>)
    requires cs != [] && (forall j :: 0 <= j < |s| ==> s[j] < |cs|) && k < |s| && s[k] == |cs| - 1
    requires rest == s[..k] + s[k + 1..] && forall j :: 0 <= j < |rest| ==> rest[j] < |cs| - 1
    requires multiset(PathsAt(cs[..|cs| - 1], rest)) == multiset(CandidatePaths(cs[..|cs| - 1]))
    ensures multiset(PathsAt(cs, s)) == multiset(CandidatePaths(cs))
  {
    var n := |cs| - 1;
    var paths := PathsAt(cs, s);
    TakeOut(paths, k);
    assert PathsAt(cs[..n], rest) == paths[..k] + paths[k + 1..];
    assert CandidatePaths(cs) == CandidatePaths(cs[..n]) + [cs[n].path];
  }

  lemma RestHitsRest(cs: seq<Candidate>, s: seq<nat>, k: nat, rest: seq<nat>)
    requires NoRepeat(s) && (forall i: nat :: i in s <==> i < |cs|) && k < |s| && s[k] == |cs| - 1
    requires rest == s[..k] + s[k + 1..]
    ensures NoRepeat(rest) && forall i: nat :: i in rest <==> i < |cs| - 1
  {
    forall i: nat | i < |cs| - 1 ensures i in rest {
      assert i in s;
      var j :| 0 <= j < |s| && s[j] == i;
      if j < k { assert rest[j] == i; } else { assert rest[j - 1] == i; }
    }
    forall i: nat | i in rest ensures i < |cs| - 1 {
      var j :| 0 <= j < |rest| && rest[j] == i;
      assert i == s[if j < k then j else j + 1];
      assert i in s;
    }
  }

  /** The payloads of the winners in the order they are published. */
  function PayloadsAt(cs: seq<Candidate>, s: seq<nat>): seq<Payload>
    requires forall k :: 0 <= k < |s| ==> s[k] < |cs|
  {
    seq(|s|, k requires 0 <= k < |s| => cs[s[k]].payload)
  }

  /** Published keys are those of the winners that were not skipped, and are counted per kind. */
  ghost predicate Tally(cs: seq<Candidate>, done: seq<nat>, keys: seq<string>, perKind: map<string, nat>)
    requires forall k :: 0 <= k < |done| ==> done[k] < |cs|
  {
    && |keys| == |done|
    && (forall k :: 0 <= k < |done| ==> keys[k] == cs[done[k]].payload.NaturalKey())
    && (forall kind :: (kind in perKind <==> kind in Kinds(cs, done))
                       && (kind in perKind ==> perKind[kind] == multiset(Kinds(cs, done))[kind]))
  }

  function Kinds(cs: seq<Candidate>, s: seq<nat>): seq<string>
    requires forall k :: 0 <= k < |s| ==> s[k] < |cs|
  {
    seq(|s|, k requires 0 <= k < |s| => cs[s[k]].kind)
  }

  /** One more of this kind. */
  function OneMore(perKind: map<string, nat>, kind: string): map<string, nat> {
    perKind[kind := (if kind in perKind then perKind[kind] else 0) + 1]
  }

  lemma TallyNext(cs: seq<Candidate>, done: seq<nat>, keys: seq<string>, perKind: map<string, nat>, i: nat)
    requires (forall k :: 0 <= k < |done| ==> done[k] < |cs|) && i < |cs|
    requires Tally(cs, done, keys, perKind)
    ensures
      var kind := cs[i].kind;
      Tally(cs, done + [i], keys + [cs[i].payload.NaturalKey()], OneMore(perKind, kind))
  {
    assert Kinds(cs, done + [i]) == Kinds(cs, done) + [cs[i].kind];
  }

  /** One winner: lessons are carried forward if there is a store, and it is published if there is a publisher. */
  method PublishOne(p: Payload, publisher: CorpusPublisher?, store: RecordStore?, ghost first: Line, ghost was: History)
    returns (skip: Option<Reason>, ghost h: History)
    requires Parsed(p)
    requires publisher != null ==> publisher.Valid() && Ran(publisher.enc, was, first, publisher.Now())
    requires store != null ==> store.health == HEALTHY && (publisher != null ==> store == publisher.writer.store)
    modifies if publisher == null then {} else {publisher, publisher.writer.store}
    modifies if store == null then {} else {store}`health
    ensures store != null ==> store.health == HEALTHY
    ensures publisher == null ==> skip.None?
    ensures publisher != null ==>
      && publisher.Valid() && Ran(publisher.enc, h, first, publisher.Now())
      && PreparedIn(h.events) == PreparedIn(was.events) + [p]
      && SentIn(h.events) == SentIn(was.events) + (if skip.None? then [p.NaturalKey()] else [])
      && (store != null && Preserving(was.events) ==> Preserving(h.events))
  {
    var q := p;
    if store != null {
      PreservedIsParsed(p, store.rows);
      q := PreserveExistingLessons(p, store);
    }
    skip, h := None, was;
    if publisher != null {
      h := publisher.Hold(p, q, store != null, first, h);
      h := publisher.RelayTurns(first, h);
      skip, h := publisher.Publish(q, first, h);
      h := publisher.RelayTurns(first, h);
    }
  }

  /** The winners that end up published, in order. */
  ghost predicate Among(done: seq<nat>, winners: seq<nat>) {
    NoRepeat(done) && forall i :: i in done ==> i in winners
  }

  lemma AmongNext(done: seq<nat>, winners: seq<nat>, n: nat)
    requires n < |winners| && NoRepeat(winners) && Among(done, winners[..n])
    ensures Among(done, winners[..n + 1]) && Among(done + [winners[n]], winners[..n + 1])
  {
    assert winners[..n + 1] == winners[..n] + [winners[n]];
    forall i | i in done ensures i != winners[n] && i in winners[..n + 1] {
      var j :| 0 <= j < n && winners[..n][j] == i;
    }
    NoRepeatAppend(done, [winners[n]]);
    assert winners[n] in winners[..n + 1];
  }

  /** The report's entries after the first `n` winners. */
  ghost predicate Reported(
    cs: seq<Candidate>, winners: seq<nat>, n: nat, before: seq<Skip>, keys: seq<string>, perKind: map<string, nat>,
    skips: seq<Skip>, done: seq<nat>)
    requires forall k :: 0 <= k < |winners| ==> winners[k] < |cs|
  {
    && n <= |winners| && Among(done, winners[..n]) && (forall k :: 0 <= k < |done| ==> done[k] < |cs|)
    && Tally(cs, done, keys, perKind)
    && Accounted(SkipPaths(before) + PathsAt(cs, winners[..n]), PathsAt(cs, done), SkipPaths(skips), [])
  }

  lemma NothingReported(cs: seq<Candidate>, winners: seq<nat>, before: seq<Skip>)
    requires forall k :: 0 <= k < |winners| ==> winners[k] < |cs|
    ensures Reported(cs, winners, 0, before, [], map[], before, [])
  {
  }

  lemma ReportPublished(
    cs: seq<Candidate>, winners: seq<nat>, n: nat, before: seq<Skip>, keys: seq<string>, perKind: map<string, nat>,
    skips: seq<Skip>, done: seq<nat>)
    requires NoRepeat(winners) && (forall k :: 0 <= k < |winners| ==> winners[k] < |cs|) && n < |winners|
    requires Reported(cs, winners, n, before, keys, perKind, skips, done)
    ensures
      var c := cs[winners[n]];
      Reported(cs, winners, n + 1, before, keys + [c.payload.NaturalKey()],
               OneMore(perKind, c.kind), skips, done + [winners[n]])
  {
    var i := winners[n];
    var seen := SkipPaths(before) + PathsAt(cs, winners[..n]);
    AmongNext(done, winners, n);
    TallyNext(cs, done, keys, perKind, i);
    AccountNext(seen, PathsAt(cs, done), SkipPaths(skips), [], cs[i].path);
    assert SkipPaths(before) + PathsAt(cs, winners[..n + 1]) == seen + [cs[i].path];
    assert PathsAt(cs, done + [i]) == PathsAt(cs, done) + [cs[i].path];
  }

  lemma ReportSkipped(
    cs: seq<Candidate>, winners: seq<nat>, n: nat, before: seq<Skip>, keys: seq<string>, perKind: map<string, nat>,
    skips: seq<Skip>, done: seq<nat>, reason: Reason)
    requires NoRepeat(winners) && (forall k :: 0 <= k < |winners| ==> winners[k] < |cs|) && n < |winners|
    requires Reported(cs, winners, n, before, keys, perKind, skips, done)
    ensures Reported(cs, winners, n + 1, before, keys, perKind, skips + [Skip(cs[winners[n]].path, reason)], done)
  {
    var i := winners[n];
    var seen := SkipPaths(before) + PathsAt(cs, winners[..n]);
    AmongNext(done, winners, n);
    AccountNext(seen, PathsAt(cs, done), SkipPaths(skips), [], cs[i].path);
    assert SkipPaths(before) + PathsAt(cs, winners[..n + 1]) == seen + [cs[i].path];
    assert SkipPaths(skips + [Skip(cs[i].path, reason)]) == SkipPaths(skips) + [cs[i].path];
  }

  lemma NextWinner(winners: seq<nat>, n: nat)
    requires n < |winners|
    ensures winners[..n + 1] == winners[..n] + [winners[n]]
  {
  }

  /** Enters one winner into the report. */
  method ReportOutcome(
    cs: seq<Candidate>, winners: seq<nat>, n: nat, ghost before: seq<Skip>, keys: seq<string>, perKind: map<string, nat>,
    skips: seq<Skip>, ghost done: seq<nat>, skip: Option<Reason>)
    returns (keys': seq<string>, perKind': map<string, nat>, skips': seq<Skip>, ghost done': seq<nat>)
    requires NoRepeat(winners) && (forall k :: 0 <= k < |winners| ==> winners[k] < |cs|) && n < |winners|
    requires Reported(cs, winners, n, before, keys, perKind, skips, done)
    ensures Reported(cs, winners, n + 1, before, keys', perKind', skips', done')
    ensures keys' == keys + if skip.None? then [cs[winners[n]].payload.NaturalKey()] else []
    ensures skip.None? ==> skips' == skips && (done == winners[..n] ==> done' == winners[..n + 1])
    ensures skip.Some? ==> skips' == skips + [Skip(cs[winners[n]].path, skip.value)] && done' == done
  {
    var c := cs[winners[n]];
    if skip.Some? {
      ReportSkipped(cs, winners, n, before, keys, perKind, skips, done, skip.value);
      return keys, perKind, skips + [Skip(c.path, skip.value)], done;
    }
    ReportPublished(cs, winners, n, before, keys, perKind, skips, done);
    NextWinner(winners, n);
    return keys + [c.payload.NaturalKey()], OneMore(perKind, c.kind), skips, done + [winners[n]];
  }

  /** The publisher and its store are where a run that prepared these payloads and sent these keys leads from `first`. */
  ghost predicate Output(pub: CorpusPublisher, preserve: bool, first: Line, h: History, ps: seq<Payload>, keys: seq<string>)
    reads pub`messages, pub.writer.store`rows, pub.writer.store`order, pub.writer.store`health
  {
    && pub.Valid() && Ran(pub.enc, h, first, pub.Now())
    && PreparedIn(h.events) == ps && SentIn(h.events) == keys && (preserve ==> Preserving(h.events))
  }

  lemma PayloadsNext(cs: seq<Candidate>, winners: seq<nat>, n: nat)
    requires (forall k :: 0 <= k < |winners| ==> winners[k] < |cs|) && n < |winners|
    ensures PayloadsAt(cs, winners[..n + 1]) == PayloadsAt(cs, winners[..n]) + [cs[winners[n]].payload]
  {
  }

  /** Publishes the next winner. */
  method PublishNext(
    cs: seq<Candidate>, winners: seq<nat>, n: nat, publisher: CorpusPublisher?, store: RecordStore?, ghost first: Line, ghost was: History,
    ghost keys: seq<string>)
    returns (skip: Option<Reason>, ghost h: History)
    requires (forall k :: 0 <= k < |winners| ==> winners[k] < |cs|) && n < |winners| && Parsed(cs[winners[n]].payload)
    requires publisher != null ==> Output(publisher, store != null, first, was, PayloadsAt(cs, winners[..n]), keys)
    requires store != null ==> store.health == HEALTHY && (publisher != null ==> store == publisher.writer.store)
    modifies if publisher == null then {} else {publisher, publisher.writer.store}
    modifies if store == null then {} else {store}`health
    ensures store != null ==> store.health == HEALTHY
    ensures publisher == null ==> skip.None?
    ensures publisher != null ==>
      Output(publisher, store != null, first, h, PayloadsAt(cs, winners[..n + 1]),
             keys + if skip.None? then [cs[winners[n]].payload.NaturalKey()] else [])
  {
    PayloadsNext(cs, winners, n);
    skip, h := PublishOne(cs[winners[n]].payload, publisher, store, first, was);
  }

  /** The loop over the winners before the n-th one. */
  ghost predicate Underway(
    cs: seq<Candidate>, winners: seq<nat>, n: nat, before: seq<Skip>, publisher: CorpusPublisher?, preserve: bool, first: Line, h: History,
    keys: seq<string>, perKind: map<string, nat>, skips: seq<Skip>, done: seq<nat>)
    requires forall k :: 0 <= k < |winners| ==> winners[k] < |cs|
    reads if publisher == null then {} else {publisher, publisher.writer.store}
  {
    && Reported(cs, winners, n, before, keys, perKind, skips, done)
    && (publisher == null ==> done == winners[..n] && skips == before)
    && (publisher != null ==> Output(publisher, preserve, first, h, PayloadsAt(cs, winners[..n]), keys))
  }

  /** Publishes the next winner and enters it into the report. */
  method TakeWinner(
    cs: seq<Candidate>, winners: seq<nat>, n: nat, ghost before: seq<Skip>, publisher: CorpusPublisher?, store: RecordStore?, ghost first: Line,
    ghost was: History, keys: seq<string>, perKind: map<string, nat>, skips: seq<Skip>, ghost done: seq<nat>)
    returns (ghost h: History, keys': seq<string>, perKind': map<string, nat>, skips': seq<Skip>, ghost done': seq<nat>)
    requires NoRepeat(winners) && (forall k :: 0 <= k < |winners| ==> winners[k] < |cs|) && n < |winners| && Parsed(cs[winners[n]].payload)
    requires Underway(cs, winners, n, before, publisher, store != null, first, was, keys, perKind, skips, done)
    requires store != null ==> store.health == HEALTHY && (publisher != null ==> store == publisher.writer.store)
    modifies if publisher == null then {} else {publisher, publisher.writer.store}
    modifies if store == null then {} else {store}`health
    ensures store != null ==> store.health == HEALTHY
    ensures Underway(cs, winners, n + 1, before, publisher, store != null, first, h, keys', perKind', skips', done')
  {
    var skip;
    skip, h := PublishNext(cs, winners, n, publisher, store, first, was, keys);
    keys', perKind', skips', done' := ReportOutcome(cs, winners, n, before, keys, perKind, skips, done, skip);
  }

  /** Publishes the winners in turn; a skip reason moves a winner to the skipped documents. */
  method PublishWinners(cs: seq<Candidate>, winners: seq<nat>, before: seq<Skip>, publisher: CorpusPublisher?, store: RecordStore?)
    returns (keys: seq<string>, perKind: map<string, nat>, skips: seq<Skip>, ghost done: seq<nat>, ghost h: History)
    requires NoRepeat(winners) && forall k :: 0 <= k < |winners| ==> winners[k] < |cs|
    requires forall i :: 0 <= i < |cs| ==> Parsed(cs[i].payload)
    requires publisher != null ==> publisher.Valid()
    requires store != null ==> store.health == HEALTHY && (publisher != null ==> store == publisher.writer.store)
    modifies if publisher == null then {} else {publisher, publisher.writer.store}
    modifies if store == null then {} else {store}`health
    ensures Reported(cs, winners, |winners|, before, keys, perKind, skips, done)
    ensures publisher == null ==> done == winners && skips == before
    ensures publisher != null ==> Output(publisher, store != null, old(publisher.Now()), h, PayloadsAt(cs, winners), keys)
  {
    keys, perKind, skips, done := [], map[], before, [];
    ghost var first := if publisher == null then Line(map[], []) else publisher.Now();
    h := History([first], []);
    NothingReported(cs, winners, before);
    for n := 0 to |winners|
      invariant store != null ==> store.health == HEALTHY
      invariant Underway(cs, winners, n, before, publisher, store != null, first, h, keys, perKind, skips, done)
    {
      h, keys, perKind, skips, done := TakeWinner(cs, winners, n, before, publisher, store, first, h, keys, perKind, skips, done);
    }
    assert winners[..|winners|] == winners;
  }

  /** The indices are those of the winning candidates, each once. */
  ghost predicate AreWinners(cs: seq<Candidate>, winners: seq<nat>) {
    && NoRepeat(winners)
    && (forall k :: 0 <= k < |winners| ==> winners[k] < |cs|)
    && (forall i: nat :: i in winners <==> Wins(cs, i))
  }

  /** Winners have different identifiers, so the published keys and their places are all different. */
  lemma WinnersDiffer(cs: seq<Candidate>, winners: seq<nat>, done: seq<nat>)
    requires AreWinners(cs, winners) && Among(done, winners)
    requires forall i :: 0 <= i < |cs| ==> Parsed(cs[i].payload)
    ensures forall k :: 0 <= k < |done| ==> done[k] < |cs|
    ensures forall a, b :: 0 <= a < b < |done| ==>
      cs[done[a]].payload.NaturalKey() != cs[done[b]].payload.NaturalKey()
      && cs[done[a]].payload.Home() != cs[done[b]].payload.Home()
  {
    forall k | 0 <= k < |done| ensures done[k] < |cs| && Wins(cs, done[k]) { assert done[k] in winners; }
    forall a, b | 0 <= a < b < |done|
      ensures cs[done[a]].payload.NaturalKey() != cs[done[b]].payload.NaturalKey()
              && cs[done[a]].payload.Home() != cs[done[b]].payload.Home()
    {
      if SameId(cs[done[a]], cs[done[b]]) { WinnerIsUnique(cs, done[a], done[b]); }
      KeysDiffer(cs[done[a]].payload, cs[done[b]].payload);
    }
  }

  /** The losers of collision resolution join the skipped documents. */
  method SkipLosses(cs: seq<Candidate>, losses: seq<Loss>, before: seq<Skip>) returns (skips: seq<Skip>)
    requires forall k :: 0 <= k < |losses| ==> losses[k].index < |cs|
    ensures forall k :: 0 <= k < |losses| ==> Indices(losses)[k] < |cs|
    ensures SkipPaths(skips) == SkipPaths(before) + PathsAt(cs, Indices(losses))
  {
    skips := before + seq(|losses|, k requires 0 <= k < |losses| => Skip(cs[losses[k].index].path, losses[k].reason));
  }

  /** Winners and losers together are all candidates. */
  lemma WinnersAndLosses(cs: seq<Candidate>, winners: seq<nat>, losses: seq<nat>)
    requires AreWinners(cs, winners) && NoRepeat(losses)
    requires forall i: nat :: i in losses <==> i < |cs| && !Wins(cs, i)
    ensures forall k :: 0 <= k < |losses| ==> losses[k] < |cs|
    ensures multiset(CandidatePaths(cs)) == multiset(PathsAt(cs, winners)) + multiset(PathsAt(cs, losses))
  {
    NoRepeatAppend(winners, losses);
    forall i: nat ensures i in winners + losses <==> i < |cs| { }
    EveryPathOnce(cs, winners + losses);
    forall k | 0 <= k < |losses| ensures losses[k] < |cs| { assert losses[k] in losses; }
    assert PathsAt(cs, winners + losses) == PathsAt(cs, winners) + PathsAt(cs, losses);
  }

  /** The buckets after resolution and publishing still hold every document once. */
  lemma BucketsAddUp(
    docs: seq<string>, cs: seq<string>, walked: seq<string>, broken: seq<string>, won: seq<string>, lost: seq<string>,
    published: seq<string>, skipped: seq<string>)
    requires Accounted(docs, cs, walked, broken)
    requires multiset(cs) == multiset(won) + multiset(lost)
    requires Accounted(walked + lost + won, published, skipped, [])
    ensures Accounted(docs, published, skipped, broken)
    ensures |docs| == |published| + |skipped| + |broken|
  {
    assert multiset(docs) == multiset(walked + lost + won) + multiset(broken);
    assert |multiset(docs)| == |multiset(published)| + |multiset(skipped)| + |multiset(broken)|;
  }

  /**
   The whole run. Every walked document ends in exactly one bucket, the published keys are pairwise
   different and are those of the messages that were sent, and the winners are prepared one after the other
   while the relay goes on writing.
   */
  method ReindexCorpus(docs: seq<Doc>, publisher: CorpusPublisher?, store: RecordStore?)
    returns (report: Report, ghost winners: seq<nat>, ghost done: seq<nat>, ghost h: History)
    requires publisher != null ==> publisher.Valid()
    requires store != null ==> store.health == HEALTHY && (publisher != null ==> store == publisher.writer.store)
    modifies if publisher == null then {} else {publisher, publisher.writer.store}
    modifies if store == null then {} else {store}`health
    ensures report.walked == |docs| == report.published + report.skipped + report.unparseable
    ensures report.published == |report.naturalKeys| && report.skipped == |report.skips| && report.unparseable == |report.broken|
    ensures AreWinners(Candidates(docs), winners)
    ensures Among(done, winners) && (publisher == null ==> done == winners)
    ensures forall k :: 0 <= k < |done| ==> done[k] < |Candidates(docs)|
    ensures Tally(Candidates(docs), done, report.naturalKeys, report.perKind)
    ensures Accounted(DocPaths(docs), PathsAt(Candidates(docs), done), SkipPaths(report.skips), SkipPaths(report.broken))
    ensures forall a, b :: 0 <= a < b < |report.naturalKeys| ==> report.naturalKeys[a] != report.naturalKeys[b]
    ensures publisher != null ==>
      Output(publisher, store != null, old(publisher.Now()), h, PayloadsAt(Candidates(docs), winners), report.naturalKeys)
  {
    var cs, walked, broken := WalkDocuments(docs);
    CandidatesAreParsed(docs);
    var won, losses := ResolveCollisions(cs);
    winners := won;
    forall k | 0 <= k < |losses| ensures losses[k].index < |cs| { assert Explained(cs, losses[k]); }
    forall k | 0 <= k < |won| ensures won[k] < |cs| { assert won[k] in won; }
    var skips := SkipLosses(cs, losses, walked);
    WinnersAndLosses(cs, won, Indices(losses));
    var keys, perKind, all;
    keys, perKind, all, done, h := PublishWinners(cs, won, skips, publisher, store);
    assert won[..|won|] == won;
    WinnersDiffer(cs, won, done);
    BucketsAddUp(DocPaths(docs), CandidatePaths(cs), SkipPaths(walked), SkipPaths(broken), PathsAt(cs, won),
                 PathsAt(cs, Indices(losses)), PathsAt(cs, done), SkipPaths(all));
    report := Report(|docs|, |keys|, |all|, |broken|, perKind, keys, all, broken);
  }

  /** The events of a whole run over these documents, with a store to read lessons from. */
  ghost predicate RunOver(docs: seq<Doc>, events: seq<Event>) {
    Preserving(events) && exists winners :: Publishes(docs, winners, events)
  }

  ghost predicate Publishes(docs: seq<Doc>, winners: seq<nat>, events: seq<Event>) {
    AreWinners(Candidates(docs), winners) && PreparedIn(events) == PayloadsAt(Candidates(docs), winners)
  }

  /**
   A run that finds nothing on its way to the store, and whose messages are all written in the end, leaves
   a store that a second run over the unchanged corpus does not touch: no row, no version, whenever the
   messages of either run are delivered again.
   */
  lemma RerunIsIdle(
    enc: Encoding, docs: seq<Doc>, first: seq<Line>, events: seq<Event>, second: seq<Line>, again: seq<Event>, n: nat)
    requires LineRun(enc, first, events) && RunOver(docs, events) && WellFormed(first[0].rows)
    requires Idle(first[0]) && Drained(enc, first[|events|], |first[0].messages|)
    requires LineRun(enc, second, again) && RunOver(docs, again) && second[0] == first[|events|] && n <= |again|
    ensures second[n].rows == first[|events|].rows
  {
    var won :| Publishes(docs, won, events);
    var won' :| Publishes(docs, won', again);
    var cs := Candidates(docs);
    CandidatesAreParsed(docs);
    WinnersDiffer(cs, won, won);
    SameWinnersSamePayloads(cs, won, won');
    SecondRunChangesNothing(enc, first, events, second, again, n);
  }

  lemma SameWinnersSamePayloads(cs: seq<Candidate>, won: seq<nat>, won': seq<nat>)
    requires AreWinners(cs, won) && AreWinners(cs, won')
    ensures Within(PayloadsAt(cs, won'), PayloadsAt(cs, won))
  {
    var ps, again := PayloadsAt(cs, won), PayloadsAt(cs, won');
    forall p | p in again ensures p in ps {
      var k :| 0 <= k < |again| && again[k] == p;
      assert won'[k] in won' && won'[k] in won;
      var j :| 0 <= j < |won| && won[j] == won'[k];
      assert ps[j] == p;
    }
  }
}
