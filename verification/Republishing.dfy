/**
 The path of a reindexed payload: it is read against the store, published to the stream and written by
 the relay some time later, perhaps more than once and perhaps after the next run has begun.
 */
module Republishing {
  import opened Wrappers
  import opened Records
  import opened Writer
  import opened WriterRuns

  /** What every payload parsed from a document is. */
  predicate Parsed(p: Payload) {
    && p.ptype == "build_outcome" && p.project == "guardkit" && IsIdentifier(p.identifier)
    && p.supersedes == [] && p.lessons != Some("")
  }

  lemma ParsedIsAccepted(p: Payload)
    requires Parsed(p)
    ensures p.Valid() && p.Accepted()
  {
  }

  /** The lessons stored at the payload's place, if there are any. */
  function StoredLessons(rows: Rows, p: Payload): Option<string> {
    var l := p.Home();
    if l in rows && rows[l].content.lessons != Some("") then rows[l].content.lessons else None
  }

  /** A payload without lessons takes over the stored ones. */
  function Preserved(p: Payload, rows: Rows): Payload {
    if p.lessons.Some? || StoredLessons(rows, p).None? then p else p.(lessons := StoredLessons(rows, p))
  }

  lemma PreservedIsParsed(p: Payload, rows: Rows)
    requires Parsed(p)
    ensures Parsed(Preserved(p, rows)) && Preserved(p, rows).NaturalKey() == p.NaturalKey() && Preserved(p, rows).Home() == p.Home()
  {
  }

  const MAX_EPISODE_BODY_BYTES: nat := 921600

  /** The length of a payload's envelope body, and the metadata its envelope carries. */
  datatype Encoding = Encoding(size: Payload -> nat, meta: Payload -> Meta)
  {
    predicate Fits(p: Payload) { size(p) < MAX_EPISODE_BODY_BYTES }
  }

  /** Not yet published, in the stream, or never to be delivered again. */
  datatype Status = Held | Open | Closed

  datatype Message = Message(p: Payload, status: Status, written: bool)

  /** The store and every payload that was on its way to it. */
  datatype Line = Line(rows: Rows, messages: seq<Message>)

  datatype Event =
    | Prepared(p: Payload, preserve: bool)
    | Sent(i: nat, key: string)
    | Written(i: nat, forward: Option<string>)
    | Dropped(i: nat)

  /**
   A payload is read against the store and held; a held one that fits is sent; the relay writes an open
   one, as often as it is delivered; and a message is dropped, because it was too large, because the
   stream took it for a duplicate, or because it was settled.
   */
  ghost predicate LineStep(enc: Encoding, s: Line, e: Event, s': Line) {
    match e
    case Prepared(p, preserve) => s' == s.(messages := s.messages + [Message(if preserve then Preserved(p, s.rows) else p, Held, false)])
    case Sent(i, key) =>
      && i < |s.messages| && s.messages[i].status.Held? && enc.Fits(s.messages[i].p) && s.messages[i].p.NaturalKey() == key
      && s' == s.(messages := s.messages[i := s.messages[i].(status := Open)])
    case Written(i, forward) =>
      && i < |s.messages| && s.messages[i].status.Open?
      && WritesTo(s.rows, s.messages[i].p, Some(enc.meta(s.messages[i].p)), forward, s'.rows)
      && s'.messages == s.messages[i := s.messages[i].(written := true)]
    case Dropped(i) => i < |s.messages| && s' == s.(messages := s.messages[i := s.messages[i].(status := Closed)])
  }

  ghost predicate LineRun(enc: Encoding, trace: seq<Line>, events: seq<Event>) {
    |trace| == |events| + 1 && forall i :: 0 <= i < |events| ==> LineStep(enc, trace[i], events[i], trace[i + 1])
  }

  lemma LineRunExtends(enc: Encoding, trace: seq<Line>, events: seq<Event>, e: Event, s': Line)
    requires LineRun(enc, trace, events) && LineStep(enc, trace[|events|], e, s')
    ensures LineRun(enc, trace + [s'], events + [e])
  {
    var t, o := trace + [s'], events + [e];
    forall i | 0 <= i < |o| ensures LineStep(enc, t[i], o[i], t[i + 1]) {
      if i < |events| { assert LineStep(enc, trace[i], events[i], trace[i + 1]); }
    }
  }

  /** The payloads prepared, in order. */
  function PreparedIn(events: seq<Event>): (r: seq<Payload>) {
    if events == [] then [] else
    PreparedIn(events[..|events| - 1]) + match events[|events| - 1] { case Prepared(p, _) => [p] case _ => [] }
  }

  /** The natural keys of the messages sent, in order. */
  function SentIn(events: seq<Event>): (r: seq<string>) {
    if events == [] then [] else
    SentIn(events[..|events| - 1]) + match events[|events| - 1] { case Sent(_, key) => [key] case _ => [] }
  }

  lemma InExtends(events: seq<Event>, e: Event)
    ensures PreparedIn(events + [e]) == PreparedIn(events) + match e { case Prepared(p, _) => [p] case _ => [] }
    ensures SentIn(events + [e]) == SentIn(events) + match e { case Sent(_, key) => [key] case _ => [] }
  {
    assert (events + [e])[..|events|] == events;
  }

  /** Every payload prepared is a parsed one and is read against the store. */
  ghost predicate Preserving(events: seq<Event>) {
    forall i :: 0 <= i < |events| && events[i].Prepared? ==> events[i].preserve && Parsed(events[i].p)
  }

  ghost predicate Usable(messages: seq<Message>) {
    forall i :: 0 <= i < |messages| ==> messages[i].p.Valid() && messages[i].p.Accepted()
  }

  // ----------------------------------------------------------------- one write

  /** Content and hash change at the payload's own place only. */
  ghost predicate PutAt(rows: Rows, p: Payload, after: Rows) {
    && after.Keys == rows.Keys + {p.Home()} && after[p.Home()].hash == Hash(p)
    && (!Unchanged(rows, p) ==> after[p.Home()].content == p)
    && (forall l :: l in rows && (l == p.Home() ==> Unchanged(rows, p)) ==> after[l].content == rows[l].content && after[l].hash == rows[l].hash)
  }

  lemma WritePuts(rows: Rows, p: Payload, meta: Option<Meta>, forward: Option<string>, after: Rows)
    requires WritesTo(rows, p, meta, forward, after)
    ensures PutAt(rows, p, after)
  {
  }

  // ----------------------------------------------------------------- lessons

  ghost predicate HasLessons(rows: Rows, l: Loc) {
    l in rows && rows[l].content.lessons.Some? && rows[l].content.lessons.value != ""
  }

  /** The message may still be written. */
  predicate Live(enc: Encoding, m: Message) { m.status.Open? || (m.status.Held? && enc.Fits(m.p)) }

  /** A message that may still be written to the place, with lessons outside `allowed` or with none. */
  ghost predicate Threatens(enc: Encoding, m: Message, l: Loc, allowed: string -> bool) {
    Live(enc, m) && m.p.Home() == l && !(m.p.lessons.Some? && allowed(m.p.lessons.value))
  }

  /** The row has allowed lessons and no message threatens them. */
  ghost predicate Safe(enc: Encoding, s: Line, l: Loc, allowed: string -> bool) {
    && l in s.rows && s.rows[l].content.lessons.Some? && allowed(s.rows[l].content.lessons.value)
    && forall i :: 0 <= i < |s.messages| ==> !Threatens(enc, s.messages[i], l, allowed)
  }

  lemma SafeNext(enc: Encoding, s: Line, e: Event, s': Line, l: Loc, allowed: string -> bool)
    requires LineStep(enc, s, e, s') && Safe(enc, s, l, allowed) && !allowed("")
    requires e.Prepared? ==> e.preserve && (e.p.Home() == l ==> e.p.lessons.None? || allowed(e.p.lessons.value))
    ensures Safe(enc, s', l, allowed)
  {
    match e
    case Written(i, forward) =>
      var p := s.messages[i].p;
      WritePuts(s.rows, p, Some(enc.meta(p)), forward, s'.rows);
      assert !Threatens(enc, s.messages[i], l, allowed);
    case _ =>
  }

  /**
   Over any run, of whatever corpora and with whatever delays, repetitions and reorderings, a row whose
   lessons no message on its way threatens keeps allowed lessons: with all non-empty texts allowed it
   never loses its lessons, with only its own text allowed it never changes them.
   */
  lemma {:induction false} LessonsNeverLost(enc: Encoding, trace: seq<Line>, events: seq<Event>, l: Loc, allowed: string -> bool, n: nat)
    requires LineRun(enc, trace, events) && n <= |events| && !allowed("")
    requires forall i :: 0 <= i < n && events[i].Prepared? ==>
      events[i].preserve && (events[i].p.Home() == l ==> events[i].p.lessons.None? || allowed(events[i].p.lessons.value))
    requires Safe(enc, trace[0], l, allowed)
    ensures Safe(enc, trace[n], l, allowed)
  {
    if n > 0 {
      LessonsNeverLost(enc, trace, events, l, allowed, n - 1);
      SafeNext(enc, trace[n - 1], events[n - 1], trace[n], l, allowed);
    }
  }

  /** All lessons that count as lessons. */
  function AnyLessons(): string -> bool { text => text != "" }

  ghost predicate LosesLessons(enc: Encoding, s: Line, l: Loc, trace: seq<Line>, events: seq<Event>) {
    LineRun(enc, trace, events) && Preserving(events) && trace[0] == s && !HasLessons(trace[|events|].rows, l)
  }

  /**
   A row that has lessons can lose them exactly when a message without lessons is still on its way to it,
   one that was prepared before the lessons were stored.
   */
  lemma LessonsLostIff(enc: Encoding, s: Line, l: Loc)
    requires WellFormed(s.rows) && HasLessons(s.rows, l)
    ensures (exists trace, events :: LosesLessons(enc, s, l, trace, events)) <==>
      exists i :: 0 <= i < |s.messages| && Threatens(enc, s.messages[i], l, AnyLessons())
  {
    if trace, events :| LosesLessons(enc, s, l, trace, events) {
      if !exists i :: 0 <= i < |s.messages| && Threatens(enc, s.messages[i], l, AnyLessons()) {
        LessonsNeverLost(enc, trace, events, l, AnyLessons(), |events|);
      }
    }
    if i :| 0 <= i < |s.messages| && Threatens(enc, s.messages[i], l, AnyLessons()) {
      var trace, events := Overwrites(enc, s, l, i);
      assert LosesLessons(enc, s, l, trace, events);
    }
  }

  /** Lessons that differ from the stored ones are a change of content. */
  lemma OverwriteLosesLessons(rows: Rows, p: Payload, after: Rows)
    requires WellFormed(rows) && HasLessons(rows, p.Home()) && PutAt(rows, p, after)
    requires p.lessons.None? || p.lessons.value == ""
    ensures !HasLessons(after, p.Home())
  {
    var l := p.Home();
    assert WellPlaced(l, rows[l]);
    assert Hash(p).semantic.lessons == p.lessons && Hash(rows[l].content).semantic.lessons == rows[l].content.lessons;
  }

  lemma CanBeWritten(enc: Encoding, s: Line, i: nat) returns (e: Event, after: Line)
    requires i < |s.messages| && s.messages[i].status.Open?
    ensures !e.Prepared? && LineStep(enc, s, e, after) && PutAt(s.rows, s.messages[i].p, after.rows)
  {
    var m := s.messages[i];
    var forward := ScanExists(s.rows, m.p);
    e, after := Written(i, forward), Line(Wrote(s.rows, m.p, Some(enc.meta(m.p)), forward), s.messages[i := m.(written := true)]);
    WritePuts(s.rows, m.p, Some(enc.meta(m.p)), forward, after.rows);
  }

  lemma OpenOverwrites(enc: Encoding, s: Line, l: Loc, i: nat) returns (trace: seq<Line>, events: seq<Event>)
    requires WellFormed(s.rows) && HasLessons(s.rows, l)
    requires i < |s.messages| && s.messages[i].status.Open? && Threatens(enc, s.messages[i], l, AnyLessons())
    ensures LosesLessons(enc, s, l, trace, events)
  {
    var e, after := CanBeWritten(enc, s, i);
    OverwriteLosesLessons(s.rows, s.messages[i].p, after.rows);
    trace, events := [s, after], [e];
    OneStep(enc, s, e, after);
  }

  lemma OneStep(enc: Encoding, s: Line, e: Event, after: Line)
    requires LineStep(enc, s, e, after) && !e.Prepared?
    ensures LineRun(enc, [s, after], [e]) && Preserving([e])
  {
  }

  lemma LosesEarlier(enc: Encoding, s: Line, e: Event, next: Line, l: Loc, trace: seq<Line>, events: seq<Event>)
    requires LineStep(enc, s, e, next) && !e.Prepared? && LosesLessons(enc, next, l, trace, events)
    ensures LosesLessons(enc, s, l, [s] + trace, [e] + events)
  {
    var t, o := [s] + trace, [e] + events;
    forall i | 0 <= i < |o| ensures LineStep(enc, t[i], o[i], t[i + 1]) {
      if i > 0 { assert LineStep(enc, trace[i - 1], events[i - 1], trace[i]); }
    }
    assert t[|o|] == trace[|events|];
  }

  /** The message is sent, if it is still held, and written. */
  lemma Overwrites(enc: Encoding, s: Line, l: Loc, i: nat) returns (trace: seq<Line>, events: seq<Event>)
    requires WellFormed(s.rows) && HasLessons(s.rows, l) && i < |s.messages| && Threatens(enc, s.messages[i], l, AnyLessons())
    ensures LosesLessons(enc, s, l, trace, events)
  {
    if s.messages[i].status.Open? {
      trace, events := OpenOverwrites(enc, s, l, i);
    } else {
      var m := s.messages[i].(status := Open);
      var sent := s.(messages := s.messages[i := m]);
      trace, events := OpenOverwrites(enc, sent, l, i);
      LosesEarlier(enc, s, Sent(i, m.p.NaturalKey()), sent, l, trace, events);
      trace, events := [s] + trace, [Sent(i, m.p.NaturalKey())] + events;
    }
  }

  // ----------------------------------------------------------------- second runs

  ghost predicate DistinctHomes(ps: seq<Payload>) {
    forall i, j :: 0 <= i < j < |ps| ==> ps[i].Home() != ps[j].Home()
  }

  /** The message of the payload is what reading the payload now would give, and if written is in the store. */
  ghost predicate Follows(s: Line, p: Payload, m: Message) {
    m.p == Preserved(p, s.rows) && (m.written ==> Unchanged(s.rows, m.p))
  }

  lemma OthersFollow(s: Line, q: Payload, after: Rows, p: Payload, m: Message)
    requires PutAt(s.rows, q, after) && q.Home() != p.Home() && Parsed(p) && Follows(s, p, m)
    ensures Follows(s.(rows := after), p, m)
  {
    PreservedIsParsed(p, s.rows);
    assert StoredLessons(after, p) == StoredLessons(s.rows, p);
  }

  lemma WrittenFollows(s: Line, after: Rows, p: Payload, m: Message)
    requires WellFormed(s.rows) && WellFormed(after) && PutAt(s.rows, m.p, after) && Parsed(p) && Follows(s, p, m)
    ensures Follows(s.(rows := after), p, m.(written := true))
  {
    PreservedIsParsed(p, s.rows);
    var h := p.Home();
    assert WellPlaced(h, after[h]);
    assert Hash(after[h].content) == Hash(m.p);
    assert Hash(m.p).semantic.lessons == m.p.lessons && Hash(after[h].content).semantic.lessons == after[h].content.lessons;
  }

  ghost predicate AllParsed(ps: seq<Payload>) { forall j :: 0 <= j < |ps| ==> Parsed(ps[j]) }

  /** The messages from `k` on are those of the payloads prepared, each following the store; those before are closed. */
  ghost predicate Following(s: Line, k: nat, ps: seq<Payload>) {
    && WellFormed(s.rows) && AllParsed(ps) && |s.messages| == k + |ps|
    && (forall i :: 0 <= i < k ==> s.messages[i].status.Closed?)
    && (forall j :: 0 <= j < |ps| ==> Follows(s, ps[j], s.messages[k + j]))
  }

  lemma FollowingNext(enc: Encoding, s: Line, e: Event, s': Line, k: nat, ps: seq<Payload>)
    requires LineStep(enc, s, e, s') && Following(s, k, ps) && !e.Prepared? && DistinctHomes(ps)
    ensures Following(s', k, ps)
  {
    match e
    case Written(i, forward) =>
      var m := s.messages[i];
      var j := i - k;
      assert Follows(s, ps[j], m);
      PreservedIsParsed(ps[j], s.rows);
      ParsedIsAccepted(m.p);
      WritePuts(s.rows, m.p, Some(enc.meta(m.p)), forward, s'.rows);
      WriteKeepsWellFormed(s.rows, m.p, Some(enc.meta(m.p)), forward);
      forall n | 0 <= n < |ps| ensures Follows(s', ps[n], s'.messages[k + n]) {
        if n == j {
          WrittenFollows(s, s'.rows, ps[j], m);
        } else {
          OthersFollow(s, m.p, s'.rows, ps[n], s.messages[k + n]);
        }
      }
    case Sent(i, _) => SameRows(s, s', k, ps);
    case Dropped(i) => SameRows(s, s', k, ps);
  }

  lemma SameRows(s: Line, s': Line, k: nat, ps: seq<Payload>)
    requires Following(s, k, ps) && s'.rows == s.rows && |s'.messages| == |s.messages|
    requires forall i :: 0 <= i < |s.messages| ==> s'.messages[i].p == s.messages[i].p && s'.messages[i].written == s.messages[i].written
    requires forall i :: 0 <= i < k ==> s'.messages[i].status.Closed?
    ensures Following(s', k, ps)
  {
    forall j | 0 <= j < |ps| ensures Follows(s', ps[j], s'.messages[k + j]) {
      assert Follows(s, ps[j], s.messages[k + j]);
    }
  }

  lemma FollowingPrepared(s: Line, p: Payload, k: nat, ps: seq<Payload>)
    requires Following(s, k, ps) && Parsed(p)
    ensures Following(s.(messages := s.messages + [Message(Preserved(p, s.rows), Held, false)]), k, ps + [p])
  {
    var s' := s.(messages := s.messages + [Message(Preserved(p, s.rows), Held, false)]);
    var q := ps + [p];
    forall j | 0 <= j < |q| ensures Follows(s', q[j], s'.messages[k + j]) {
      if j < |ps| { assert Follows(s, ps[j], s.messages[k + j]); }
    }
  }

  /** Nothing is on its way. */
  ghost predicate Idle(s: Line) { forall i :: 0 <= i < |s.messages| ==> s.messages[i].status.Closed? }

  lemma {:induction false} RunFollows(enc: Encoding, trace: seq<Line>, events: seq<Event>, n: nat)
    requires LineRun(enc, trace, events) && n <= |events| && Preserving(events)
    requires WellFormed(trace[0].rows) && Idle(trace[0])
    requires DistinctHomes(PreparedIn(events[..n]))
    ensures Following(trace[n], |trace[0].messages|, PreparedIn(events[..n]))
  {
    if n > 0 {
      var k, ps, e := |trace[0].messages|, PreparedIn(events[..n - 1]), events[n - 1];
      assert events[..n] == events[..n - 1] + [e];
      InExtends(events[..n - 1], e);
      PrefixDistinct(ps, PreparedIn(events[..n]));
      RunFollows(enc, trace, events, n - 1);
      assert LineStep(enc, trace[n - 1], e, trace[n]);
      if e.Prepared? {
        FollowingPrepared(trace[n - 1], e.p, k, ps);
      } else {
        FollowingNext(enc, trace[n - 1], e, trace[n], k, ps);
      }
    }
  }

  lemma PrefixDistinct(a: seq<Payload>, b: seq<Payload>)
    requires a <= b && DistinctHomes(b)
    ensures DistinctHomes(a)
  {
  }

  /** Publishing the payload now would change nothing. */
  ghost predicate Settled(enc: Encoding, rows: Rows, p: Payload) {
    var q := Preserved(p, rows);
    !enc.Fits(q) || Unchanged(rows, q)
  }

  /** From the k-th message on, whatever could be sent has been written. */
  ghost predicate Drained(enc: Encoding, s: Line, k: nat) {
    forall i :: k <= i < |s.messages| ==> s.messages[i].written || !(s.messages[i].status.Open? || enc.Fits(s.messages[i].p))
  }

  /** A message that may still be written marks nothing and finds its content stored. */
  ghost predicate Harmless(enc: Encoding, rows: Rows, m: Message) {
    Live(enc, m) ==> m.p.supersedes == [] && Unchanged(rows, m.p)
  }

  ghost predicate Quiet(enc: Encoding, s: Line) {
    forall i :: 0 <= i < |s.messages| ==> Harmless(enc, s.rows, s.messages[i])
  }

  lemma QuietNext(enc: Encoding, s: Line, e: Event, s': Line)
    requires LineStep(enc, s, e, s') && Quiet(enc, s)
    requires e.Prepared? ==> e.preserve && Parsed(e.p) && Settled(enc, s.rows, e.p)
    ensures s'.rows == s.rows && Quiet(enc, s')
  {
    match e
    case Written(i, forward) =>
      var p := s.messages[i].p;
      assert Harmless(enc, s.rows, s.messages[i]);
      MarkNothing(s.rows, p);
      assert s'.rows == s.rows;
      forall j | 0 <= j < |s'.messages| ensures Harmless(enc, s'.rows, s'.messages[j]) {
        assert Harmless(enc, s.rows, s.messages[j]);
      }
    case Prepared(p, _) =>
      PreservedIsParsed(p, s.rows);
      forall j | 0 <= j < |s'.messages| ensures Harmless(enc, s'.rows, s'.messages[j]) {
        if j < |s.messages| { assert Harmless(enc, s.rows, s.messages[j]); }
      }
    case _ =>
      forall j | 0 <= j < |s'.messages| ensures Harmless(enc, s'.rows, s'.messages[j]) {
        assert Harmless(enc, s.rows, s.messages[j]);
      }
  }

  /** Preparing settled payloads, in any order and with any deliveries, changes no row and no version. */
  lemma {:induction false} QuietRun(enc: Encoding, trace: seq<Line>, events: seq<Event>, n: nat)
    requires LineRun(enc, trace, events) && n <= |events| && Preserving(events)
    requires Quiet(enc, trace[0])
    requires forall i :: 0 <= i < |events| && events[i].Prepared? ==> Settled(enc, trace[0].rows, events[i].p)
    ensures trace[n].rows == trace[0].rows && Quiet(enc, trace[n])
  {
    if n > 0 {
      QuietRun(enc, trace, events, n - 1);
      QuietNext(enc, trace[n - 1], events[n - 1], trace[n]);
    }
  }

  /** Once the run's messages are written, nothing of it can change the store, and all its payloads are settled. */
  lemma DrainedIsQuiet(enc: Encoding, s: Line, k: nat, ps: seq<Payload>)
    requires Following(s, k, ps) && Drained(enc, s, k)
    ensures Quiet(enc, s) && forall j :: 0 <= j < |ps| ==> Settled(enc, s.rows, ps[j])
  {
    forall j | 0 <= j < |ps| ensures Settled(enc, s.rows, ps[j]) {
      assert Follows(s, ps[j], s.messages[k + j]);
    }
    forall i | 0 <= i < |s.messages| ensures Harmless(enc, s.rows, s.messages[i]) {
      if i >= k {
        assert Follows(s, ps[i - k], s.messages[k + (i - k)]);
        PreservedIsParsed(ps[i - k], s.rows);
      }
    }
  }

  /** Every payload of the second list is one of the first. */
  ghost predicate Within(again: seq<Payload>, ps: seq<Payload>) { forall p :: p in again ==> p in ps }

  lemma {:induction false} PreparedIsIn(events: seq<Event>, i: nat)
    requires i < |events| && events[i].Prepared?
    ensures events[i].p in PreparedIn(events)
  {
    var n := |events| - 1;
    if i < n { PreparedIsIn(events[..n], i); }
  }

  /**
   A run starts with nothing on its way to the store and ends with its messages written. Then a second run
   over the same payloads changes no row and no version, in whatever order it prepares them and whenever
   the messages of either run are delivered again.
   */
  lemma SecondRunChangesNothing(
    enc: Encoding, first: seq<Line>, events: seq<Event>, second: seq<Line>, again: seq<Event>, n: nat)
    requires LineRun(enc, first, events) && Preserving(events) && DistinctHomes(PreparedIn(events))
    requires WellFormed(first[0].rows) && Idle(first[0]) && Drained(enc, first[|events|], |first[0].messages|)
    requires LineRun(enc, second, again) && Preserving(again) && second[0] == first[|events|]
    requires Within(PreparedIn(again), PreparedIn(events)) && n <= |again|
    ensures second[n].rows == first[|events|].rows
  {
    assert events[..|events|] == events;
    var ps := PreparedIn(events);
    RunFollows(enc, first, events, |events|);
    DrainedIsQuiet(enc, second[0], |first[0].messages|, ps);
    forall i | 0 <= i < |again| && again[i].Prepared? ensures Settled(enc, second[0].rows, again[i].p) {
      PreparedIsIn(again, i);
      assert again[i].p in ps;
    }
    QuietRun(enc, second, again, n);
  }
}
