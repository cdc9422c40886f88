/** What runs of the delivery protocol leave in the store of prose chunks. */
module RelayChunks {
  import opened Wrappers
  import opened Records
  import opened ChunkStore
  import opened Sections
  import opened TokenWindows
  import opened Chunker
  import opened RelayService
  import opened RelayHandler
  import opened RelayProtocol

  // ----------------------------------------------------------------- rows follow deliveries

  /** The row at `l` that putting these chunks in order leaves, if they reach it. */
  function LastPut(episodeId: string, chunks: seq<Chunk>, meta: Option<Meta>, l: Loc): Option<ChunkRow> {
    if chunks == [] then None else
    var last := chunks[|chunks| - 1];
    if ChunkStore.Home(episodeId, last) == l then Some(RowOf(episodeId, last, meta))
    else LastPut(episodeId, chunks[..|chunks| - 1], meta, l)
  }

  /** What is found at `l` when it was `before` and these chunks are put. */
  function PutOver(before: Option<ChunkRow>, put: Option<ChunkRow>): Option<ChunkRow> { if put.Some? then put else before }

  function At(rows: ChunkRows, l: Loc): Option<ChunkRow> { if l in rows then Some(rows[l]) else None }

  lemma {:induction false} PutAllAt(rows: ChunkRows, episodeId: string, chunks: seq<Chunk>, meta: Option<Meta>, l: Loc)
    ensures At(PutAll(rows, episodeId, chunks, meta), l) == PutOver(At(rows, l), LastPut(episodeId, chunks, meta, l))
  {
    if chunks != [] { PutAllAt(rows, episodeId, chunks[..|chunks| - 1], meta, l); }
  }

  /** The chunks a delivery put. */
  ghost function PutBy(published: seq<Episode>, e: Event): seq<Chunk> {
    if e.msg < |published| && IsProse(published[e.msg]) && e.d.steps <= |published[e.msg].Chunks()|
    then published[e.msg].Chunks()[..e.d.steps] else []
  }

  /** The row at `l` that the last delivery to reach it put. */
  ghost function Deposit(published: seq<Episode>, events: seq<Event>, l: Loc): Option<ChunkRow> {
    if events == [] then None else
    var e, before := events[|events| - 1], Deposit(published, events[..|events| - 1], l);
    if e.msg < |published| then PutOver(before, LastPut(published[e.msg].id, PutBy(published, e), Some(published[e.msg].meta), l))
    else before
  }

  /** The chunk rows after a delivery. */
  lemma ChunksAfter(cfg: Config, published: seq<Episode>, s: State, e: Event)
    requires Possible(cfg, published, s, e)
    ensures
      var ep := published[e.msg];
      After(cfg, published, s, e).stores.chunks == PutAll(s.stores.chunks, ep.id, PutBy(published, e), Some(ep.meta))
  {
  }

  /**
   In every run of any stream, crashes and redeliveries included, the chunk row at a place is the one put by
   the last delivery that reached it, and there is none if none did.
   */
  lemma {:induction false} ChunksFollowDeliveries(cfg: Config, published: seq<Episode>, trace: seq<State>, events: seq<Event>, n: nat, l: Loc)
    requires RelayRun(cfg, published, trace, events) && n <= |events|
    ensures At(trace[n].stores.chunks, l) == Deposit(published, events[..n], l)
  {
    if n > 0 {
      ChunksFollowDeliveries(cfg, published, trace, events, n - 1, l);
      StepOf(cfg, published, trace, events, n - 1);
      DepositNext(published, events, n, l);
      RowAfter(cfg, published, trace[n - 1], events[n - 1], trace[n], l);
    }
  }

  lemma DepositNext(published: seq<Episode>, events: seq<Event>, n: nat, l: Loc)
    requires 0 < n <= |events| && events[n - 1].msg < |published|
    ensures
      var e := events[n - 1];
      Deposit(published, events[..n], l) ==
        PutOver(Deposit(published, events[..n - 1], l), LastPut(published[e.msg].id, PutBy(published, e), Some(published[e.msg].meta), l))
  {
    assert events[..n][..n - 1] == events[..n - 1];
  }

  lemma RowAfter(cfg: Config, published: seq<Episode>, s: State, e: Event, next: State, l: Loc)
    requires Possible(cfg, published, s, e) && next == After(cfg, published, s, e)
    ensures
      At(next.stores.chunks, l) ==
        PutOver(At(s.stores.chunks, l), LastPut(published[e.msg].id, PutBy(published, e), Some(published[e.msg].meta), l))
  {
    ChunksAfter(cfg, published, s, e);
    PutAllAt(s.stores.chunks, published[e.msg].id, PutBy(published, e), Some(published[e.msg].meta), l);
  }

  // ----------------------------------------------------------------- acknowledged means put

  /** Event `i` put message `m` whole and was acknowledged. */
  ghost predicate PutWhole(published: seq<Episode>, trace: seq<State>, events: seq<Event>, i: nat, m: nat) {
    && i < |events| < |trace| && Acknowledges(published, events, i, m) && IsProse(published[m]) && published[m].chunks.Some?
    && PutBy(published, events[i]) == published[m].Chunks()
    && trace[i + 1].stores.chunks ==
         PutAll(trace[i].stores.chunks, published[m].id, published[m].Chunks(), Some(published[m].meta))
  }

  /** In every run of any stream, every acknowledged prose message was put whole by the delivery that was acknowledged. */
  lemma AckedIsPut(cfg: Config, published: seq<Episode>, trace: seq<State>, events: seq<Event>, n: nat, m: nat) returns (i: nat)
    requires RelayRun(cfg, published, trace, events) && n <= |events| && m < |published| == |trace[n].msgs|
    requires IsProse(published[m]) && trace[n].msgs[m].Acked?
    ensures i < n && PutWhole(published, trace, events, i, m)
  {
    i := AckedBy(cfg, published, trace, events, n, m);
    StepOf(cfg, published, trace, events, i);
    ChunksAfter(cfg, published, trace[i], events[i]);
    var chunks := published[m].Chunks();
    assert chunks[..|chunks|] == chunks;
  }

  /** Right after that delivery, every chunk's row has the chunk's text and number and the message's envelope. */
  lemma PutCarriesEnvelope(
    s: Settings, published: seq<Episode>, trace: seq<State>, events: seq<Event>, i: nat, m: nat, k: nat)
    requires PutWhole(published, trace, events, i, m) && AsChunked(s, published[m]) && k < |published[m].Chunks()|
    ensures ChunkTexts(s.Size(), published[m].text).Some? && k < |ChunkTexts(s.Size(), published[m].text).value|
    ensures
      var ep, rows := published[m], trace[i + 1].stores.chunks;
      var l := Loc(Namespace(ROOT, ep.project, "chunk"), Uuid5(Seed(ep.id, k)));
      && l in rows && rows[l].content == ChunkTexts(s.Size(), ep.text).value[k] && rows[l].index == k
      && rows[l].episodeId == ep.id && rows[l].project == ep.project && rows[l].sourceRef == ep.sourceRef
      && rows[l].meta == Some(ep.meta)
  {
    ChunksAre(s, published[m]);
    PutAllOwn(trace[i].stores.chunks, published[m].id, published[m].Chunks(), Some(published[m].meta), k);
  }

  // ----------------------------------------------------------------- one text in each place

  /** Chunk `i` of the prose message `m` belongs at `l`. */
  ghost predicate Belongs(published: seq<Episode>, l: Loc, m: nat, i: nat) {
    && m < |published| && IsProse(published[m]) && i < |published[m].Chunks()|
    && ChunkStore.Home(published[m].id, published[m].Chunks()[i]) == l
  }

  /** Row `l` was put for chunk `i` of the prose message `m`. */
  ghost predicate IsChunk(published: seq<Episode>, l: Loc, row: ChunkRow, m: nat, i: nat) {
    Belongs(published, l, m, i) && row == RowOf(published[m].id, published[m].Chunks()[i], Some(published[m].meta))
  }

  lemma {:induction false} LastPutIsChunk(episodeId: string, chunks: seq<Chunk>, meta: Option<Meta>, l: Loc)
    ensures
      var put := LastPut(episodeId, chunks, meta, l);
      && (put.Some? <==> exists i :: 0 <= i < |chunks| && ChunkStore.Home(episodeId, chunks[i]) == l)
      && (put.Some? ==> exists i :: 0 <= i < |chunks| && ChunkStore.Home(episodeId, chunks[i]) == l && put.value == RowOf(episodeId, chunks[i], meta))
  {
    if chunks != [] {
      var n := |chunks| - 1;
      LastPutIsChunk(episodeId, chunks[..n], meta, l);
      assert forall i :: 0 <= i < n ==> chunks[..n][i] == chunks[i];
    }
  }

  /** Every row was put for a chunk of some published message. */
  lemma {:induction false} DepositIsChunk(published: seq<Episode>, events: seq<Event>, l: Loc)
    ensures
      var row := Deposit(published, events, l);
      row.Some? ==> exists m: nat, i: nat :: IsChunk(published, l, row.value, m, i)
  {
    if events != [] {
      DepositIsChunk(published, events[..|events| - 1], l);
      var e := events[|events| - 1];
      if e.msg < |published| {
        var ep, part := published[e.msg], PutBy(published, e);
        LastPutIsChunk(ep.id, part, Some(ep.meta), l);
        var put := LastPut(ep.id, part, Some(ep.meta), l);
        if put.Some? {
          var i :| 0 <= i < |part| && ChunkStore.Home(ep.id, part[i]) == l && put.value == RowOf(ep.id, part[i], Some(ep.meta));
          assert part[i] == ep.Chunks()[i];
          assert IsChunk(published, l, put.value, e.msg, i);
        }
      }
    }
  }

  /** A delivery that reached a place leaves something there, whatever comes later. */
  lemma {:induction false} DepositStays(published: seq<Episode>, events: seq<Event>, k: nat, l: Loc)
    requires k < |events| && events[k].msg < |published|
    requires LastPut(published[events[k].msg].id, PutBy(published, events[k]), Some(published[events[k].msg].meta), l).Some?
    ensures Deposit(published, events, l).Some?
  {
    if k < |events| - 1 { DepositStays(published, events[..|events| - 1], k, l); }
  }

  /**
   Messages that put the same place put the same text there: two prose messages with one id and one project
   carry the same text, whatever their other envelope fields.
   */
  ghost predicate Consistent(published: seq<Episode>) {
    forall l, m: nat, i: nat, k: nat, j: nat :: Belongs(published, l, m, i) && Belongs(published, l, k, j) ==>
      published[m].Chunks()[i].text == published[k].Chunks()[j].text
  }

  /** The row holds this chunk of this episode, under some envelope. */
  predicate Holds(rows: ChunkRows, episodeId: string, c: Chunk) {
    var l := ChunkStore.Home(episodeId, c);
    && l in rows && rows[l].content == c.text && rows[l].episodeId == episodeId && rows[l].index == c.index && rows[l].project == c.project
  }

  /** Two chunks in one place are of one episode, number and project. */
  lemma OnePlace(e1: string, c1: Chunk, e2: string, c2: Chunk)
    requires ChunkStore.Home(e1, c1) == ChunkStore.Home(e2, c2)
    ensures e1 == e2 && c1.index == c2.index && c1.project == c2.project
  {
    if e1 != e2 || c1.index != c2.index { HomesDiffer(e1, c1, e2, c2); }
  }

  /**
   In every run, crashes and redeliveries included, every acknowledged prose message is stored whole, then
   and ever after, by whichever deliveries came last.
   */
  lemma AckedIsStored(cfg: Config, published: seq<Episode>, trace: seq<State>, events: seq<Event>, n: nat, m: nat)
    requires RelayRun(cfg, published, trace, events) && n <= |events| && m < |published| == |trace[n].msgs|
    requires Consistent(published) && IsProse(published[m]) && trace[n].msgs[m].Acked?
    ensures forall i :: 0 <= i < |published[m].Chunks()| ==> Holds(trace[n].stores.chunks, published[m].id, published[m].Chunks()[i])
  {
    var k := AckedIsPut(cfg, published, trace, events, n, m);
    forall i | 0 <= i < |published[m].Chunks()|
      ensures Holds(trace[n].stores.chunks, published[m].id, published[m].Chunks()[i])
    {
      ChunkIsStored(cfg, published, trace, events, n, m, k, i);
    }
  }

  /** Whatever was put in the place of a chunk holds that chunk. */
  lemma IsHeld(published: seq<Episode>, rows: ChunkRows, m: nat, i: nat, l: Loc)
    requires Consistent(published) && Belongs(published, l, m, i) && l in rows
    requires exists k: nat, j: nat :: IsChunk(published, l, rows[l], k, j)
    ensures Holds(rows, published[m].id, published[m].Chunks()[i])
  {
    var k: nat, j: nat :| IsChunk(published, l, rows[l], k, j);
    assert Belongs(published, l, k, j);
    OnePlace(published[m].id, published[m].Chunks()[i], published[k].id, published[k].Chunks()[j]);
  }

  lemma ChunkIsStored(cfg: Config, published: seq<Episode>, trace: seq<State>, events: seq<Event>, n: nat, m: nat, k: nat, i: nat)
    requires RelayRun(cfg, published, trace, events) && k < n <= |events| && PutWhole(published, trace, events, k, m)
    requires Consistent(published) && i < |published[m].Chunks()|
    ensures Holds(trace[n].stores.chunks, published[m].id, published[m].Chunks()[i])
  {
    var l := ChunkStore.Home(published[m].id, published[m].Chunks()[i]);
    PlaceIsTaken(cfg, published, trace, events, n, m, k, i, l);
    RowIsChunk(cfg, published, trace, events, n, l);
    IsHeld(published, trace[n].stores.chunks, m, i, l);
  }

  lemma RowIsChunk(cfg: Config, published: seq<Episode>, trace: seq<State>, events: seq<Event>, n: nat, l: Loc)
    requires RelayRun(cfg, published, trace, events) && n <= |events| && l in trace[n].stores.chunks
    ensures exists m: nat, i: nat :: IsChunk(published, l, trace[n].stores.chunks[l], m, i)
  {
    ChunksFollowDeliveries(cfg, published, trace, events, n, l);
    DepositIsChunk(published, events[..n], l);
  }

  lemma PlaceIsTaken(cfg: Config, published: seq<Episode>, trace: seq<State>, events: seq<Event>, n: nat, m: nat, k: nat, i: nat, l: Loc)
    requires RelayRun(cfg, published, trace, events) && k < n <= |events| && PutWhole(published, trace, events, k, m)
    requires Belongs(published, l, m, i)
    ensures l in trace[n].stores.chunks
  {
    var ep := published[m];
    ChunksFollowDeliveries(cfg, published, trace, events, n, l);
    LastPutIsChunk(ep.id, ep.Chunks(), Some(ep.meta), l);
    DepositStays(published, events[..n], k, l);
  }

  // ----------------------------------------------------------------- exactly-once effect

  /** One full write of every prose message, in publication order. */
  function EachOnce(published: seq<Episode>): ChunkRows {
    if published == [] then map[] else
    var before, ep := EachOnce(published[..|published| - 1]), published[|published| - 1];
    if IsProse(ep) then PutAll(before, ep.id, ep.Chunks(), Some(ep.meta)) else before
  }

  /** A store of the stream's chunks, and of all of them. */
  ghost predicate AllChunks(published: seq<Episode>, rows: ChunkRows) {
    && (forall l :: l in rows ==> exists m: nat, i: nat :: IsChunk(published, l, rows[l], m, i))
    && (forall l, m: nat, i: nat :: Belongs(published, l, m, i) ==> l in rows)
  }

  /** What one full write of the first `n` messages leaves at a place. */
  lemma {:induction false} EachOnceAt(published: seq<Episode>, n: nat, l: Loc)
    requires n <= |published|
    ensures
      var rows := EachOnce(published[..n]);
      && (l in rows ==> exists m: nat, i: nat :: IsChunk(published, l, rows[l], m, i))
      && (forall m: nat, i: nat :: m < n && Belongs(published, l, m, i) ==> l in rows)
  {
    if n > 0 {
      EachOnceAt(published, n - 1, l);
      assert published[..n][..n - 1] == published[..n - 1];
      if IsProse(published[n - 1]) { EachOnceNext(published, n - 1, l); }
    }
  }

  lemma EachOnceNext(published: seq<Episode>, m: nat, l: Loc)
    requires m < |published| && IsProse(published[m])
    ensures
      var before, ep := EachOnce(published[..m]), published[m];
      var rows := PutAll(before, ep.id, ep.Chunks(), Some(ep.meta));
      && (l in rows ==> (l in before && rows[l] == before[l]) || exists i: nat :: IsChunk(published, l, rows[l], m, i))
      && (l in before || (exists i: nat :: Belongs(published, l, m, i)) ==> l in rows)
  {
    var before, ep := EachOnce(published[..m]), published[m];
    PutAllAt(before, ep.id, ep.Chunks(), Some(ep.meta), l);
    LastPutIsChunk(ep.id, ep.Chunks(), Some(ep.meta), l);
    var put := LastPut(ep.id, ep.Chunks(), Some(ep.meta), l);
    if put.Some? {
      var i :| 0 <= i < |ep.Chunks()| && ChunkStore.Home(ep.id, ep.Chunks()[i]) == l && put.value == RowOf(ep.id, ep.Chunks()[i], Some(ep.meta));
      assert IsChunk(published, l, put.value, m, i);
    }
  }

  ghost predicate ProseAcked(published: seq<Episode>, s: State) {
    |s.msgs| == |published| && forall m :: 0 <= m < |published| && IsProse(published[m]) ==> s.msgs[m].Acked?
  }

  lemma RunHoldsAll(cfg: Config, published: seq<Episode>, trace: seq<State>, events: seq<Event>)
    requires RelayRun(cfg, published, trace, events) && ProseAcked(published, trace[|events|])
    ensures AllChunks(published, trace[|events|].stores.chunks)
  {
    var n := |events|;
    var rows := trace[n].stores.chunks;
    forall l | l in rows ensures exists m: nat, i: nat :: IsChunk(published, l, rows[l], m, i) {
      RowIsChunk(cfg, published, trace, events, n, l);
    }
    forall l, m: nat, i: nat | Belongs(published, l, m, i) ensures l in rows {
      var k := AckedIsPut(cfg, published, trace, events, n, m);
      PlaceIsTaken(cfg, published, trace, events, n, m, k, i, l);
    }
  }

  lemma EachOnceHoldsAll(published: seq<Episode>)
    ensures AllChunks(published, EachOnce(published))
  {
    var rows := EachOnce(published);
    assert published[..|published|] == published;
    forall l | l in rows ensures exists m: nat, i: nat :: IsChunk(published, l, rows[l], m, i) {
      EachOnceAt(published, |published|, l);
    }
    forall l, m: nat, i: nat | Belongs(published, l, m, i) ensures l in rows {
      EachOnceAt(published, |published|, l);
    }
  }

  /** The row without what its envelope adds to it. */
  function Plain(row: ChunkRow): ChunkRow { row.(sourceRef := None, meta := None) }

  /** The same chunks, whatever envelopes they came in. */
  ghost predicate SameChunks(a: ChunkRows, b: ChunkRows) {
    a.Keys == b.Keys && forall l :: l in a ==> Plain(a[l]) == Plain(b[l])
  }

  /** Messages that put the same place put the same row there. */
  ghost predicate SameEnvelopes(published: seq<Episode>) {
    forall l, m: nat, i: nat, k: nat, j: nat, a, b :: IsChunk(published, l, a, m, i) && IsChunk(published, l, b, k, j) ==> a == b
  }

  lemma SamePlaces(published: seq<Episode>, a: ChunkRows, b: ChunkRows, l: Loc)
    requires AllChunks(published, a) && AllChunks(published, b) && l in a
    ensures l in b
  {
    var m: nat, i: nat :| IsChunk(published, l, a[l], m, i);
    assert Belongs(published, l, m, i);
  }

  lemma SameRow(published: seq<Episode>, l: Loc, a: ChunkRow, b: ChunkRow, m: nat, i: nat, k: nat, j: nat)
    requires IsChunk(published, l, a, m, i) && IsChunk(published, l, b, k, j)
    ensures Consistent(published) ==> Plain(a) == Plain(b)
    ensures SameEnvelopes(published) ==> a == b
  {
    assert Belongs(published, l, m, i) && Belongs(published, l, k, j);
    OnePlace(published[m].id, published[m].Chunks()[i], published[k].id, published[k].Chunks()[j]);
  }

  lemma RowsAgree(published: seq<Episode>, a: ChunkRows, b: ChunkRows, l: Loc)
    requires AllChunks(published, a) && AllChunks(published, b) && l in a && l in b
    ensures Consistent(published) ==> Plain(a[l]) == Plain(b[l])
    ensures SameEnvelopes(published) ==> a[l] == b[l]
  {
    var m: nat, i: nat :| IsChunk(published, l, a[l], m, i);
    var k: nat, j: nat :| IsChunk(published, l, b[l], k, j);
    SameRow(published, l, a[l], b[l], m, i, k, j);
  }

  lemma KeysAgree(published: seq<Episode>, a: ChunkRows, b: ChunkRows)
    requires AllChunks(published, a) && AllChunks(published, b)
    ensures a.Keys == b.Keys
  {
    forall l ensures l in a <==> l in b {
      if l in a { SamePlaces(published, a, b, l); }
      if l in b { SamePlaces(published, b, a, l); }
    }
  }

  lemma ChunksAgree(published: seq<Episode>, a: ChunkRows, b: ChunkRows)
    requires AllChunks(published, a) && AllChunks(published, b) && Consistent(published)
    ensures SameChunks(a, b)
  {
    KeysAgree(published, a, b);
    forall l | l in a ensures Plain(a[l]) == Plain(b[l]) { RowsAgree(published, a, b, l); }
  }

  lemma StoresAgree(published: seq<Episode>, a: ChunkRows, b: ChunkRows)
    requires AllChunks(published, a) && AllChunks(published, b) && SameEnvelopes(published)
    ensures a == b
  {
    KeysAgree(published, a, b);
    forall l | l in a ensures a[l] == b[l] { RowsAgree(published, a, b, l); }
  }

  /**
   At-least-once delivery has exactly-once effect on prose: whatever crashes and redeliveries happened, once
   every prose message is acknowledged the store holds the chunks that writing each message once puts there,
   and under equal envelopes it is the same store.
   */
  lemma ExactlyOnceStore(cfg: Config, published: seq<Episode>, trace: seq<State>, events: seq<Event>)
    requires RelayRun(cfg, published, trace, events) && ProseAcked(published, trace[|events|])
    ensures Consistent(published) ==> SameChunks(trace[|events|].stores.chunks, EachOnce(published))
    ensures SameEnvelopes(published) ==> trace[|events|].stores.chunks == EachOnce(published)
  {
    RunHoldsAll(cfg, published, trace, events);
    EachOnceHoldsAll(published);
    if Consistent(published) { ChunksAgree(published, trace[|events|].stores.chunks, EachOnce(published)); }
    if SameEnvelopes(published) { StoresAgree(published, trace[|events|].stores.chunks, EachOnce(published)); }
  }

  /**
   Where ids are reused for another text, the part of a longer text that the shorter one does not reach
   stays stored: nothing deletes chunks.
   */
  lemma ShorterTextKeepsTail(rows: ChunkRows, id: string, longer: seq<Chunk>, shorter: seq<Chunk>, meta: Option<Meta>, i: nat)
    requires Numbered(longer) && Numbered(shorter) && |shorter| <= i < |longer|
    ensures
      var l, after := ChunkStore.Home(id, longer[i]), PutAll(PutAll(rows, id, longer, meta), id, shorter, meta);
      l in after && after[l] == RowOf(id, longer[i], meta)
  {
    var l := ChunkStore.Home(id, longer[i]);
    PutAllOwn(rows, id, longer, meta, i);
    forall k | 0 <= k < |shorter| ensures ChunkStore.Home(id, shorter[k]) != l { HomesDiffer(id, shorter[k], id, longer[i]); }
    PutAllOther(PutAll(rows, id, longer, meta), id, shorter, meta, l);
  }

  // ----------------------------------------------------------------- from the store back to the text

  /** Every episode is chunked as the chunker does, and prose of one id and project carries one text. */
  ghost predicate OneText(s: Settings, published: seq<Episode>) {
    && (forall m :: 0 <= m < |published| ==> AsChunked(s, published[m]))
    && (forall m, k :: 0 <= m < |published| && 0 <= k < |published| && IsProse(published[m]) && IsProse(published[k])
          && published[m].id == published[k].id && published[m].project == published[k].project
          ==> published[m].text == published[k].text)
  }

  /** The chunks of a prose episode are the numbered texts of its body. */
  lemma ChunksAre(s: Settings, ep: Episode)
    requires AsChunked(s, ep) && IsProse(ep) && ep.chunks.Some?
    ensures ChunkTexts(s.Size(), ep.text).Some?
    ensures
      var texts := ChunkTexts(s.Size(), ep.text).value;
      && |ep.Chunks()| == |texts| && Texts(ep.Chunks()) == texts
      && forall i :: 0 <= i < |texts| ==> ep.Chunks()[i] == Chunk(i, texts[i], ep.sourceRef, ep.project)
  {
  }

  lemma SamePlaceSameText(s: Settings, published: seq<Episode>, l: Loc, m: nat, i: nat, k: nat, j: nat)
    requires OneText(s, published) && Belongs(published, l, m, i) && Belongs(published, l, k, j)
    ensures i == j && published[m].text == published[k].text && |published[m].Chunks()| == |published[k].Chunks()|
    ensures published[m].Chunks()[i].text == published[k].Chunks()[j].text
  {
    ChunksAre(s, published[m]);
    ChunksAre(s, published[k]);
    OnePlace(published[m].id, published[m].Chunks()[i], published[k].id, published[k].Chunks()[j]);
  }

  lemma OneTextIsConsistent(s: Settings, published: seq<Episode>)
    requires OneText(s, published)
    ensures Consistent(published)
  {
    forall l, m: nat, i: nat, k: nat, j: nat | Belongs(published, l, m, i) && Belongs(published, l, k, j)
      ensures published[m].Chunks()[i].text == published[k].Chunks()[j].text
    {
      SamePlaceSameText(s, published, l, m, i, k, j);
    }
  }

  /** Read back by episode, project and number, the stored chunks are exactly these texts. */
  ghost predicate ReadsBack(rows: ChunkRows, id: string, project: string, texts: seq<string>) {
    && (forall i :: 0 <= i < |texts| ==> Holds(rows, id, Chunk(i, texts[i], None, project)))
    && (forall l :: l in rows && rows[l].episodeId == id && rows[l].project == project ==> rows[l].index < |texts|)
  }

  /**
   From a published body to the store and back: for an acknowledged prose message, reading the stored chunks
   of its id and project in order gives texts that cover the body, and nothing else is stored for them.
   */
  lemma StoredCoversBody(cfg: Config, s: Settings, published: seq<Episode>, trace: seq<State>, events: seq<Event>, n: nat, m: nat)
    returns (texts: seq<string>)
    requires RelayRun(cfg, published, trace, events) && n <= |events| && m < |published| == |trace[n].msgs|
    requires OneText(s, published) && IsProse(published[m]) && trace[n].msgs[m].Acked?
    ensures ReadsBack(trace[n].stores.chunks, published[m].id, published[m].project, texts)
    ensures Strip(published[m].text) != "" ==> Covered(s.Size(), published[m].text, texts)
    ensures texts == [] <==> Strip(published[m].text) == ""
  {
    var ep, rows := published[m], trace[n].stores.chunks;
    var k := AckedIsPut(cfg, published, trace, events, n, m);
    ChunksAre(s, ep);
    ChunkTextsCover(s.Size(), ep.text);
    texts := Texts(ep.Chunks());
    OneTextIsConsistent(s, published);
    AckedIsStored(cfg, published, trace, events, n, m);
    forall i | 0 <= i < |texts| ensures Holds(rows, ep.id, Chunk(i, texts[i], None, ep.project)) {
      assert Holds(rows, ep.id, ep.Chunks()[i]);
    }
    forall l | l in rows && rows[l].episodeId == ep.id && rows[l].project == ep.project ensures rows[l].index < |texts| {
      RowIsChunk(cfg, published, trace, events, n, l);
      var k: nat, j: nat :| IsChunk(published, l, rows[l], k, j);
      RowOfText(s, published, l, rows[l], m, k, j);
    }
  }

  lemma RowOfText(s: Settings, published: seq<Episode>, l: Loc, row: ChunkRow, m: nat, k: nat, j: nat)
    requires OneText(s, published) && IsChunk(published, l, row, k, j)
    requires m < |published| && IsProse(published[m]) && published[m].chunks.Some?
    requires row.episodeId == published[m].id && row.project == published[m].project
    ensures row.index < |published[m].Chunks()|
  {
    ChunksAre(s, published[k]);
    ChunksAre(s, published[m]);
  }
}
