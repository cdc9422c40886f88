/** Ingestion of one episode: routing by content format and the mapping of exceptions to outcomes. */
module RelayService {
  import opened Wrappers
  import opened Text
  import opened Errors
  import opened Records
  import opened Construction
  import opened Writer
  import opened ChunkStore
  import opened Sections
  import opened TokenWindows
  import opened Chunker

  datatype Outcome = Committed | Poison | Transient

  /** Instances of a class are caught by a clause naming it: two classes here have a named superclass. */
  predicate CaughtBy(e: Exc, clause: Exc) {
    e == clause || (e.EmbedRequest? && clause.EmbedService?) || (e.EmbedTimeout? && clause.Timeout?)
  }

  /** The except clauses in source order; the last one catches everything but the end of the process. */
  function Classify(e: Exc): (outcome: Option<Outcome>)
    ensures outcome != Some(Committed)
  {
    if CaughtBy(e, PoisonEpisode) then Some(Poison)
    else if CaughtBy(e, UnknownPayloadType) then Some(Poison)
    else if CaughtBy(e, NamespaceValidation) then Some(Poison)
    else if CaughtBy(e, IdentifierValidation) then Some(Poison)
    else if CaughtBy(e, PydanticValidation) then Some(Poison)
    else if CaughtBy(e, EmbedDimension) then Some(Poison)
    else if CaughtBy(e, EmbedRequest) then Some(Poison)
    else if CaughtBy(e, EmbedService) || CaughtBy(e, EmbedTimeout) then Some(Transient)
    else if CaughtBy(e, Connection) || CaughtBy(e, Timeout) then Some(Transient)
    else if e.Stopped? then None
    else Some(Transient)
  }

  // ----------------------------------------------------------------- episodes

  /** A body as JSON: not parseable, beyond what the parser takes, not an object, or an object. */
  datatype Body = Unparseable | TooBig | NotAnObject | Object(fields: Fields, rest: Rest)

  /** The content format, any string but the three that are routed among them. */
  datatype Format = Json | Markdown | PlainText | Unrecognized(name: string)

  /**
   `body` is the text read as JSON, and `chunks` what the chunker makes of it, nothing if it raises; which
   of the two matters is up to the format.
   */
  datatype Episode = Episode(
    id: string, project: string, format: Format, payloadType: Option<string>, text: string, body: Body,
    chunks: Option<seq<Chunk>>, sourceRef: Option<string>, meta: Meta)
  {
    function Chunks(): seq<Chunk> { if chunks.Some? then chunks.value else [] }
  }

  /** The chunker's settings. */
  datatype Settings = Settings(t: Tokenizer, target: nat, ratio: real)
  {
    ghost predicate Lawful() { t.Lawful() && 0.0 <= ratio && OverlapTokens(target, ratio) < target }

    function Size(): Sizing
      requires 0.0 <= ratio
    {
      Sizing(t, target, OverlapTokens(target, ratio))
    }
  }

  /** The chunks of a prose episode are those of its text. */
  ghost predicate AsChunked(s: Settings, ep: Episode) {
    s.Lawful() && (IsProse(ep) ==> ep.chunks == ChunksOf(s.Size(), ep.text, ep.sourceRef, ep.project))
  }

  predicate IsJson(ep: Episode) { ep.format.Json? }
  predicate IsProse(ep: Episode) { ep.format.Markdown? || ep.format.PlainText? }

  /** The payload a JSON episode carries, typed by the envelope. */
  function PayloadOf(ep: Episode): Payload
    requires ep.body.Object? && ep.payloadType.Some?
  {
    Built(ep.payloadType.value, ep.body.fields, ep.body.rest)
  }

  /** What becomes of an episode when nothing fails: it is written. */
  ghost predicate Accepts(ep: Episode) {
    if IsJson(ep) then
      && ep.payloadType.Some? && ep.body.Object? && Constructible(ep.payloadType.value, ep.body.fields, ep.body.rest)
      && PayloadOf(ep).Accepted()
    else
      IsProse(ep) && ep.chunks.Some? && ChunkStore.Accepted(ep.Chunks()) == |ep.Chunks()|
  }

  /**
   The failures before the store is reached that are the same on every delivery and nevertheless retried:
   a body the parser gives up on, a body that parses to something other than an object, fields whose
   construction evades the poison clauses, and a prose text the tokenizer refuses.
   */
  ghost predicate Misrouted(ep: Episode) {
    if IsJson(ep) then MisroutedJson(ep) else IsProse(ep) && ep.chunks.None?
  }

  ghost predicate MisroutedJson(ep: Episode) {
    && ep.payloadType.Some?
    && (ep.body.TooBig?
        || (ep.payloadType.value in REGISTRY
            && (ep.body.NotAnObject?
                || (ep.body.Object? && Evades(ep.payloadType.value, ep.body.fields, ep.body.rest)))))
  }

  /** What one ingestion comes to when the store does not fail. */
  ghost function Verdict(ep: Episode): Outcome {
    if Accepts(ep) then Committed else if Misrouted(ep) then Transient else Poison
  }

  /** Ingestion reaches the store, and so can fail there. */
  ghost predicate Touches(ep: Episode) {
    if IsProse(ep) then ChunkStore.Accepted(ep.Chunks()) > 0 else Accepts(ep)
  }

  /** There is something to put, and so to embed. */
  ghost predicate Puts(ep: Episode, rows: Rows) {
    Touches(ep) && (IsProse(ep) || PutDue(rows, PayloadOf(ep)))
  }

  // ----------------------------------------------------------------- what one ingestion does

  datatype Stores = Stores(rows: Rows, chunks: ChunkRows)

  /** The number of store steps of an ingestion that nothing cuts short. */
  ghost function AllSteps(ep: Episode): nat {
    if IsProse(ep) then ChunkStore.Accepted(ep.Chunks()) else if Accepts(ep) then WholeWrite(PayloadOf(ep)) else 0
  }

  /** The stores after this many steps; `scan` is what the forward scan answered. */
  ghost function StoresAfter(ep: Episode, before: Stores, scan: Option<string>, steps: nat): Stores {
    if IsProse(ep) then before.(chunks := PutAll(before.chunks, ep.id, ep.Chunks()[..Min(steps, |ep.Chunks()|)], Some(ep.meta)))
    else if Accepts(ep) then before.(rows := Cut(before.rows, PayloadOf(ep), Some(ep.meta), scan, steps))
    else before
  }

  /** The scan's answer is one that a scan of these rows can give, if a row was put. */
  ghost predicate ScanFits(ep: Episode, rows: Rows, scan: Option<string>, steps: nat) {
    IsJson(ep) && Accepts(ep) && steps > 0 ==> Unchanged(rows, PayloadOf(ep)) || Admissible(rows, PayloadOf(ep), scan)
  }

  /**
   The outcomes one ingestion over these rows that made this many steps can have; none if the process ended.
   Only a put can make poison of an episode that is not.
   */
  ghost predicate OutcomeFits(ep: Episode, rows: Rows, steps: nat, outcome: Option<Outcome>) {
    && steps <= AllSteps(ep)
    && (outcome == Some(Verdict(ep)) || (Touches(ep) && (outcome == Some(Poison) ==> Puts(ep, rows))))
    && (outcome == Some(Committed) ==> Accepts(ep) && steps == AllSteps(ep))
  }

  /** What one ingestion over these rows that made this many steps can raise. */
  ghost predicate RaisedFits(ep: Episode, rows: Rows, steps: nat, raised: Option<Exc>) {
    && steps <= AllSteps(ep)
    && match raised
       case None => Accepts(ep) && steps == AllSteps(ep)
       case Some(e) => Classify(e) == Some(Verdict(ep)) || (Touches(ep) && FromStore(e) && (Embeds(e) ==> Puts(ep, rows)))
  }

  /** Which exceptions are poison, which are worth another delivery, and which end the process. */
  lemma WhatIsPoison(e: Exc)
    ensures Classify(e) == Some(Poison) <==>
      e in {PoisonEpisode, UnknownPayloadType, NamespaceValidation, IdentifierValidation, PydanticValidation, EmbedDimension, EmbedRequest}
    ensures Classify(e) == Some(Transient) <==>
      e in {EmbedService, EmbedTimeout, Connection, Timeout, SupersessionValidation, Other}
    ensures Classify(e) == None <==> e == Stopped
  {
  }

  /** Only an embedding error makes poison of what the store raises. */
  lemma StoreOutcome(e: Exc)
    requires FromStore(e)
    ensures Classify(e) != Some(Committed) && (Classify(e) == Some(Poison) ==> Embeds(e))
  {
  }

  lemma OutcomeOf(ep: Episode, rows: Rows, steps: nat, raised: Option<Exc>)
    requires RaisedFits(ep, rows, steps, raised)
    ensures OutcomeFits(ep, rows, steps, if raised.None? then Some(Committed) else Classify(raised.value))
  {
    if raised.Some? && FromStore(raised.value) { StoreOutcome(raised.value); }
  }

  /** What a write raises, as the service sees it. */
  function RaisedBy(r: Result<(), WriteError>): Option<Exc> {
    if r.Success? then None else if r.error.Raised? then Some(r.error.exc) else Some(NamespaceValidation)
  }

  lemma WriteFits(ep: Episode, rows: Rows, r: Result<(), WriteError>, steps: nat)
    requires IsJson(ep) && ep.payloadType.Some? && ep.body.Object?
    requires Constructible(ep.payloadType.value, ep.body.fields, ep.body.rest)
    requires r.Success? || r.error.Raised? <==> PayloadOf(ep).Accepted()
    requires r.Success? ==> steps == WholeWrite(PayloadOf(ep))
    requires r.Failure? && r.error.Raised? ==>
      steps <= WholeWrite(PayloadOf(ep)) && FromStore(r.error.exc) && (Embeds(r.error.exc) ==> PutDue(rows, PayloadOf(ep)))
    requires r.Failure? && !r.error.Raised? ==> steps == 0
    ensures RaisedFits(ep, rows, steps, RaisedBy(r))
  {
  }

  /** What writing chunks raises, as the service sees it. */
  function RaisedByChunks(r: Result<(), ChunkError>): Option<Exc> {
    if r.Success? then None else if r.error.Raised? then Some(r.error.exc) else Some(NamespaceValidation)
  }

  lemma ChunksFit(ep: Episode, rows: Rows, r: Result<(), ChunkError>, steps: nat)
    requires IsProse(ep) && ep.chunks.Some? && steps <= ChunkStore.Accepted(ep.Chunks())
    requires r.Success? ==> steps == ChunkStore.Accepted(ep.Chunks()) == |ep.Chunks()|
    requires r.Failure? && r.error.Refused? ==> ChunkStore.Accepted(ep.Chunks()) < |ep.Chunks()|
    requires r.Failure? && r.error.Raised? ==> steps < ChunkStore.Accepted(ep.Chunks()) && FromStore(r.error.exc)
    ensures RaisedFits(ep, rows, steps, RaisedByChunks(r))
    ensures RaisedByChunks(r).None? || Classify(RaisedByChunks(r).value) == Some(Verdict(ep)) || (steps < AllSteps(ep) && r.error.Raised?)
  {
  }

  /** The outcome of an ingestion that raised this. */
  ghost predicate LeadsTo(raised: Option<Exc>, outcome: Option<Outcome>) {
    && (raised.None? <==> outcome == Some(Committed))
    && (raised.Some? && (raised.value.EmbedDimension? || raised.value.EmbedRequest?) ==> outcome == Some(Poison))
    && (raised.Some? && raised.value in {EmbedService, EmbedTimeout, Connection, Timeout, Other} ==> outcome == Some(Transient))
    && (raised.Some? && raised.value.Stopped? ==> outcome == None)
  }

  class RelayService {
    const writer: DeterministicWriter
    const chunkWriter: ChunkWriter
    const settings: Settings

    constructor (writer: DeterministicWriter, chunkWriter: ChunkWriter, settings: Settings)
      ensures this.writer == writer && this.chunkWriter == chunkWriter && this.settings == settings
    {
      this.writer, this.chunkWriter, this.settings := writer, chunkWriter, settings;
    }

    ghost function Now(): Stores
      reads writer.store`rows, chunkWriter`rows
    {
      Stores(writer.store.rows, chunkWriter.rows)
    }

    /** Reads the body as a payload of the envelope's type. */
    method ParsePayload(ep: Episode) returns (r: Result<Payload, Exc>)
      requires IsJson(ep)
      ensures r.Success? ==>
        && ep.payloadType.Some? && ep.body.Object? && Constructible(ep.payloadType.value, ep.body.fields, ep.body.rest)
        && r.value == PayloadOf(ep) && r.value.Valid()
      ensures r.Failure? ==> !Accepts(ep) && Classify(r.error) == Some(Verdict(ep))
    {
      if ep.payloadType.None? { return Failure(PoisonEpisode); }
      if ep.body.Unparseable? { return Failure(PoisonEpisode); }
      if ep.body.TooBig? { return Failure(Other); }
      if ep.payloadType.value !in REGISTRY { return Failure(UnknownPayloadType); }
      if ep.body.NotAnObject? { return Failure(Other); }
      r := Construct(ep.payloadType.value, ep.body.fields, ep.body.rest);
    }

    /** The structured path. The payload is refused before the store is reached, or written. */
    method IngestJson(ep: Episode) returns (raised: Option<Exc>, ghost scan: Option<string>, ghost steps: nat)
      requires writer.store.Valid() && IsJson(ep)
      modifies writer.store
      ensures writer.store.Valid() && old(writer.store.health).Leads(writer.store.health)
      ensures RaisedFits(ep, old(writer.store.rows), steps, raised)
      ensures raised.Some? && Accepts(ep) ==> old(writer.store.health).MayRaise(raised.value)
      ensures Now() == StoresAfter(ep, old(Now()), scan, steps)
      ensures writer.store.health.searches.None? ==> ScanFits(ep, old(writer.store.rows), scan, steps)
    {
      var parsed := ParsePayload(ep);
      if parsed.Failure? { return Some(parsed.error), None, 0; }
      var r;
      ghost var rows := writer.store.rows;
      r, scan, steps := writer.Write(parsed.value, Some(ep.meta));
      WriteFits(ep, rows, r, steps);
      raised := RaisedBy(r);
    }

    /** The chunks of a prose episode. */
    method ChunkEpisode(ep: Episode) returns (r: Result<seq<Chunk>, Exc>)
      requires IsProse(ep) && AsChunked(settings, ep)
      ensures r.Success? ==> ep.chunks.Some? && r.value == ep.Chunks()
      ensures r.Failure? ==> ep.chunks.None? && r.error == Other
    {
      r := ChunkProse(settings.t, ep.text, settings.target, settings.ratio, ep.sourceRef, ep.project);
    }

    /** The chunking path. Nothing is put if the chunker raises. */
    method IngestProse(ep: Episode) returns (raised: Option<Exc>, ghost steps: nat)
      requires IsProse(ep) && AsChunked(settings, ep)
      modifies chunkWriter
      ensures old(chunkWriter.health).Leads(chunkWriter.health)
      ensures RaisedFits(ep, writer.store.rows, steps, raised)
      ensures raised.None? || Classify(raised.value) == Some(Verdict(ep)) ||
        (steps < AllSteps(ep) && old(chunkWriter.health).MayRaise(raised.value))
      ensures Now() == StoresAfter(ep, old(Now()), None, steps)
    {
      var chunked := ChunkEpisode(ep);
      if chunked.Failure? { return Some(chunked.error), 0; }
      var r;
      r, steps := chunkWriter.WriteChunks(ep.id, chunked.value, Some(ep.meta));
      ChunksFit(ep, writer.store.rows, r, steps);
      raised := RaisedByChunks(r);
    }

    /**
     Routes by content format and maps whatever is raised, the last ghost result, to an outcome; without one,
     the process ends. The outcome is the episode's verdict unless the store raised an exception, and then
     poison exactly for an embedding that was rejected or has the wrong dimension.
     */
    method Ingest(ep: Episode)
      returns (outcome: Option<Outcome>, ghost scan: Option<string>, ghost steps: nat, ghost raised: Option<Exc>)
      requires writer.store.Valid() && AsChunked(settings, ep)
      modifies writer.store, chunkWriter
      ensures writer.store.Valid()
      ensures old(writer.store.health).Leads(writer.store.health) && old(chunkWriter.health).Leads(chunkWriter.health)
      ensures OutcomeFits(ep, old(writer.store.rows), steps, outcome)
      ensures outcome == Some(Verdict(ep)) ||
        (raised.Some? && (old(writer.store.health).MayRaise(raised.value) || old(chunkWriter.health).MayRaise(raised.value)))
      ensures Accepts(ep) && raised.Some? ==>
        if IsProse(ep) then old(chunkWriter.health).MayRaise(raised.value) else old(writer.store.health).MayRaise(raised.value)
      ensures LeadsTo(raised, outcome)
      ensures Now() == StoresAfter(ep, old(Now()), scan, steps)
      ensures writer.store.health.searches.None? ==> ScanFits(ep, old(writer.store.rows), scan, steps)
    {
      var exc: Option<Exc>;
      ghost var rows := writer.store.rows;
      scan, steps := None, 0;
      if IsJson(ep) {
        exc, scan, steps := IngestJson(ep);
      } else if IsProse(ep) {
        exc, steps := IngestProse(ep);
      } else {
        exc := Some(PoisonEpisode);
      }
      OutcomeOf(ep, rows, steps, exc);
      raised := exc;
      outcome := if exc.None? then Some(Committed) else Classify(exc.value);
      if exc.Some? { WhatIsPoison(exc.value); }
    }
  }

  // ----------------------------------------------------------------- what is misrouted

  const NoExtras := Rest(true, None, "", 1)

  /** A JSON episode of a registered type with these fields. */
  function WithFields(f: Fields): Episode {
    Episode("ep", "guardkit", Format.Json, Some("document"), "", Object(f, NoExtras), None, None, "")
  }

  function Ids(): Fields { map["project" := Str("p"), "identifier" := Str("x")] }

  function WithReferences(j: Json): Fields { Ids()["supersedes" := j] }

  /** What becomes of a JSON episode before its fields are looked at, and of one in no known format. */
  lemma BodyVerdict(ep: Episode)
    ensures !IsProse(ep) && (!IsJson(ep) || ep.payloadType.None? || ep.body.Unparseable?) ==> Verdict(ep) == Poison
    ensures IsJson(ep) && ep.payloadType.Some? && ep.body.TooBig? ==> Verdict(ep) == Transient
    ensures IsJson(ep) && ep.payloadType.Some? && !ep.body.TooBig? ==>
      var known := {"adr", "review_report", "build_outcome", "pattern", "warning", "seed_module", "document"};
      && (ep.payloadType.value !in known ==> Verdict(ep) == Poison)
      && (ep.payloadType.value in known && ep.body.NotAnObject? ==> Verdict(ep) == Transient)
  {
  }

  /** Every payload that the writer accepts can be sent: the episode with its fields is written as that very payload. */
  lemma EveryPayloadCanBeSent(p: Payload, ep: Episode)
    requires p.Valid() && p.Accepted() && IsJson(ep) && ep.payloadType == Some(p.ptype)
    requires ep.body == Object(FieldsOf(p), Rest(true, p.lessons, p.body, p.version))
    ensures Verdict(ep) == Committed && PayloadOf(ep) == p
  {
    EveryPayloadIsCarried(p);
  }

  /** A number for the project, a truth value for the identifier: the pattern match breaks. */
  lemma NumberIsRetried()
    ensures Misrouted(WithFields(map["project" := Number(false), "identifier" := Str("x")]))
    ensures Misrouted(WithFields(map["project" := Str("p"), "identifier" := Boolean(true)]))
    ensures Misrouted(WithFields(map["self" := Null]))
    ensures Misrouted(WithFields(map[]).(body := NotAnObject)) && Misrouted(WithFields(map[]).(body := TooBig))
  {
  }

  /** References that are a number, hold a number, or lack natural-key shape. */
  lemma BadReferencesAreRetried()
    ensures Misrouted(WithFields(WithReferences(Number(false))))
    ensures Misrouted(WithFields(WithReferences(List([Number(false)]))))
    ensures Misrouted(WithFields(WithReferences(List([Str("a")]))))
  {
    OneBadReference(Number(false));
    SplitWithout("a", ':');
    OneBadReference(Str("a"));
    UnreadIsRetried(Number(false));
    UnreadIsRetried(List([Number(false)]));
    UnreadIsRetried(List([Str("a")]));
  }

  lemma OneBadReference(item: Json)
    requires !IsReference(item)
    ensures References(List([item])).None?
  {
    assert [item][0] == item;
  }

  lemma UnreadIsRetried(j: Json)
    requires Truthy(j) && References(j).None?
    ensures Misrouted(WithFields(WithReferences(j)))
  {
  }

  function OwnKey(ptype: string, project: string, identifier: string): string {
    ptype + [':'] + project + [':'] + identifier
  }

  /** Every payload that lists its own key. */
  lemma SelfReferenceIsRetried(ptype: string, project: string, identifier: string)
    requires ptype in REGISTRY && IsIdentifier(project) && IsIdentifier(identifier)
    ensures
      var refs := List([Str(OwnKey(ptype, project, identifier))]);
      var f := map["project" := Str(project), "identifier" := Str(identifier), "supersedes" := refs];
      Misrouted(WithFields(f).(payloadType := Some(ptype)))
  {
    var key := OwnKey(ptype, project, identifier);
    var f := map["project" := Str(project), "identifier" := Str(identifier), "supersedes" := List([Str(key)])];
    TypeHasNoColon(ptype);
    SplitThree(ptype, project, identifier, ':');
    OneReference(key);
    OwnKeyIsListed(ptype, f, key);
  }

  lemma TypeHasNoColon(ptype: string)
    requires ptype in REGISTRY
    ensures ':' !in ptype
  {
  }

  lemma OwnKeyIsListed(ptype: string, f: Fields, key: string)
    requires Supersedes(f) == Some([key]) && key == OwnKey(ptype, StrOf(f, "project"), StrOf(f, "identifier"))
    ensures SupersedesItself(ptype, f, NoExtras)
  {
  }

  lemma OneReference(key: string)
    requires IsNaturalKey(key)
    ensures References(List([Str(key)])) == Some([key])
  {
    var items := [Str(key)];
    assert IsReference(items[0]) && AllReferences(items);
    assert Strings(items) == [key];
    assert [key][..0] == [] && Distinct<string>([]) == [];
    assert Distinct([key]) == [] + [key];
    assert [] + [key] == [key];
    assert Distinct(Strings(items)) == [key];
    var j := List(items);
    assert Iterated(j).value == items;
  }

  /** Where a prose episode's chunks go. */
  function ProseSpace(ep: Episode): Namespace { Namespace(ROOT, ep.project, "chunk") }

  lemma {:induction false} AcceptedByProject(chunks: seq<Chunk>, project: string)
    requires forall i :: 0 <= i < |chunks| ==> chunks[i].project == project
    ensures ChunkStore.Accepted(chunks) == if ValidNamespace(Namespace(ROOT, project, "chunk")) then |chunks| else 0
  {
    if chunks != [] { AcceptedByProject(chunks[1..], project); }
  }

  /**
   What becomes of a prose episode, from its text and project alone: it is retried to the end exactly if its
   text is not blank and spells a special token, poison exactly if the text could be chunked, is not blank
   and the project is refused, and written otherwise.
   */
  lemma ProseVerdict(s: Settings, ep: Episode)
    requires IsProse(ep) && AsChunked(s, ep)
    ensures Misrouted(ep) <==> Strip(ep.text) != "" && s.t.HasSpecial(ep.text)
    ensures Verdict(ep) == Poison <==>
      Strip(ep.text) != "" && !s.t.HasSpecial(ep.text) && !ValidNamespace(ProseSpace(ep))
    ensures Accepts(ep) <==>
      Strip(ep.text) == "" || (!s.t.HasSpecial(ep.text) && ValidNamespace(ProseSpace(ep)))
  {
    ChunkTextsCover(s.Size(), ep.text);
    if ep.chunks.Some? { AcceptedByProject(ep.chunks.value, ep.project); }
  }

  /** For instance a text that is a special token, of whatever tokenizer has it. */
  lemma SpecialIsRetried(s: Settings, ep: Episode, k: nat)
    requires IsProse(ep) && AsChunked(s, ep) && k < |s.t.specials| && ep.text == s.t.specials[k]
    requires ep.text != "" && !IsSpace(ep.text[0])
    ensures Misrouted(ep)
  {
    ProseVerdict(s, ep);
    StripInk(ep.text);
    assert StandsAt(ep.text, s.t.specials[k], 0);
  }

  /** An absent or empty field of the same name is poison instead: the model's validation finds it. */
  lemma EmptyIsPoison()
    ensures Verdict(WithFields(map["identifier" := Str("x")])) == Poison
    ensures Verdict(WithFields(map["project" := Number(true), "identifier" := Str("x")])) == Poison
    ensures Verdict(WithFields(map["project" := Str("p"), "identifier" := Str("x"), "supersedes" := Null])) == Poison
  {
  }
}
