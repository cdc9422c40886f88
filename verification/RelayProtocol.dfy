/**
 Every run of the delivery protocol: a stream of published messages, each delivered at most
 `maxDeliver` times, the store of typed rows and of chunk rows underneath, and crashes at any point of
 a delivery.
 */
module RelayProtocol {
  import opened Wrappers
  import opened Records
  import opened Writer
  import opened WriterRuns
  import opened ChunkStore
  import opened RelayService
  import opened RelayHandler
  import opened Marker

  /** The delivery cap, and the answer the framework gives for an exception that leaves the handler. */
  datatype Config = Config(maxDeliver: nat, onEscape: Answer)

  /**
   `Pending(n)` has been delivered `n` times. A lost message is never delivered again, and the server did
   not hear that it was written or has a record; what it left behind is up to its deliveries.
   */
  datatype MsgState = Pending(deliveries: nat) | Acked | Termed | Lost

  /** A dead-letter record and the message whose delivery published it. */
  datatype Dead = Dead(msg: nat, record: DlqRecord)

  datatype State = State(msgs: seq<MsgState>, stores: Stores, dlq: seq<Dead>)

  /** A delivery of message `msg`. */
  datatype Event = Event(msg: nat, d: Delivery)

  /** The message is pending and the handler can make this delivery of it. */
  ghost predicate Possible(cfg: Config, published: seq<Episode>, s: State, e: Event) {
    && e.msg < |published| == |s.msgs|
    && s.msgs[e.msg].Pending? && s.msgs[e.msg].deliveries < cfg.maxDeliver
    && MayHappen(published[e.msg], s.stores.rows, s.msgs[e.msg].deliveries + 1, cfg.maxDeliver, e.d)
  }

  /** A message that is not answered for good comes back, unless this was its last delivery. */
  function Redeliver(count: nat, maxDeliver: nat): MsgState {
    if count < maxDeliver then Pending(count) else Lost
  }

  function MsgAfter(cfg: Config, d: Delivery, count: nat): MsgState {
    match Heard(d, count, cfg.maxDeliver, cfg.onEscape)
    case Ack => if d.escaped then Lost else Acked
    case Term => if d.escaped then Lost else Termed
    case _ => Redeliver(count, cfg.maxDeliver)
  }

  function Tagged(msg: nat, records: seq<DlqRecord>): seq<Dead> {
    seq(|records|, i requires 0 <= i < |records| => Dead(msg, records[i]))
  }

  ghost function After(cfg: Config, published: seq<Episode>, s: State, e: Event): State
    requires e.msg < |published| == |s.msgs| && s.msgs[e.msg].Pending?
  {
    var ep := published[e.msg];
    State(s.msgs[e.msg := MsgAfter(cfg, e.d, s.msgs[e.msg].deliveries + 1)],
          StoresAfter(ep, s.stores, e.d.scan, e.d.steps),
          s.dlq + Tagged(e.msg, RecordsOf(ep, e.d)))
  }

  /** The stream as published: no message delivered yet, nothing stored. */
  function Initial(n: nat): State { State(seq(n, _ => Pending(0)), Stores(map[], map[]), []) }

  ghost predicate RelayRun(cfg: Config, published: seq<Episode>, trace: seq<State>, events: seq<Event>) {
    && |trace| == |events| + 1
    && trace[0] == Initial(|published|)
    && forall i :: 0 <= i < |events| ==> StepAt(cfg, published, trace, events, i)
  }

  /** The `i`-th event was possible and led to the next state. */
  ghost predicate StepAt(cfg: Config, published: seq<Episode>, trace: seq<State>, events: seq<Event>, i: nat)
    requires i < |events| < |trace|
  {
    Possible(cfg, published, trace[i], events[i]) && trace[i + 1] == After(cfg, published, trace[i], events[i])
  }

  lemma StepOf(cfg: Config, published: seq<Episode>, trace: seq<State>, events: seq<Event>, i: nat)
    requires RelayRun(cfg, published, trace, events) && i < |events|
    ensures Possible(cfg, published, trace[i], events[i]) && trace[i + 1] == After(cfg, published, trace[i], events[i])
  {
    assert StepAt(cfg, published, trace, events, i);
  }

  // ----------------------------------------------------------------- the handler makes runs

  lemma RelayRunExtends(cfg: Config, published: seq<Episode>, trace: seq<State>, events: seq<Event>, e: Event)
    requires RelayRun(cfg, published, trace, events) && Possible(cfg, published, trace[|events|], e)
    ensures RelayRun(cfg, published, trace + [After(cfg, published, trace[|events|], e)], events + [e])
  {
    var t, es := trace + [After(cfg, published, trace[|events|], e)], events + [e];
    forall i | 0 <= i < |es| ensures StepAt(cfg, published, t, es, i) {
      if i < |events| { StepOf(cfg, published, trace, events, i); }
    }
  }

  function Letters(dlq: seq<Dead>): seq<DlqRecord> { seq(|dlq|, i requires 0 <= i < |dlq| => dlq[i].record) }

  /** The message may be delivered in the last state of the run. */
  ghost predicate Deliverable(cfg: Config, published: seq<Episode>, trace: seq<State>, events: seq<Event>, m: nat) {
    && RelayRun(cfg, published, trace, events) && m < |published| == |trace[|events|].msgs|
    && trace[|events|].msgs[m].Pending? && trace[|events|].msgs[m].deliveries < cfg.maxDeliver
  }

  /** These are the state's stores and dead-letter records. */
  ghost predicate Shows(s: State, stores: Stores, dlq: seq<DlqRecord>) { stores == s.stores && dlq == Letters(s.dlq) }

  /** The event extends the run by a state with these stores and dead-letter records. */
  ghost predicate ExtendsRun(
    cfg: Config, published: seq<Episode>, trace: seq<State>, events: seq<Event>, e: Event, stores: Stores, dlq: seq<DlqRecord>)
  {
    && Deliverable(cfg, published, trace, events, e.msg) && Possible(cfg, published, trace[|events|], e)
    && RelayRun(cfg, published, trace + [After(cfg, published, trace[|events|], e)], events + [e])
    && Shows(After(cfg, published, trace[|events|], e), stores, dlq)
  }

  /** The event whose answer was lost on the way. */
  function Unheard(e: Event): Event { e.(d := e.d.(answered := false)) }

  /** A call of the handler over these stores and records is a delivery it can make. */
  method Call(h: Handler, ep: Episode, metadata: Option<nat>, now: Time, ghost count: nat, ghost before: Stores, ghost records: seq<DlqRecord>)
    returns (ending: Ending, ghost d: Delivery)
    requires h.service.writer.store.Valid() && h.service.writer.store.health.searches.None?
    requires AsChunked(h.service.settings, ep) && (metadata.Some? ==> metadata.value == count)
    requires before == h.service.Now() && records == h.dlq
    modifies h`dlq, h.service.writer.store, h.service.chunkWriter, h.marker, h.marker.disk
    ensures Handled(ep, before, records, count, h.maxDeliver, d, h.service.Now(), h.dlq)
    ensures ending.Answered? ==> d.answered
  {
    ghost var raised;
    ending, d, raised := h.HandleMemoryEpisode(ep, metadata, now, count);
  }

  /**
   Any call of the handler for a pending message, over stores that fail wherever they may, is an event
   that extends the run, whether its answer reaches the server or is lost.
   */
  method Deliver(
    h: Handler, cfg: Config, published: seq<Episode>, ghost trace: seq<State>, ghost events: seq<Event>,
    m: nat, metadata: Option<nat>, now: Time) returns (ending: Ending, ghost e: Event)
    requires h.service.writer.store.Valid() && h.service.writer.store.health.searches.None?
    requires h.maxDeliver == cfg.maxDeliver && Deliverable(cfg, published, trace, events, m)
    requires Shows(trace[|events|], h.service.Now(), h.dlq) && AsChunked(h.service.settings, published[m])
    requires metadata.Some? ==> metadata.value == trace[|events|].msgs[m].deliveries + 1
    modifies h`dlq, h.service.writer.store, h.service.chunkWriter, h.marker, h.marker.disk
    ensures e.msg == m && (ending.Answered? ==> e.d.answered)
    ensures ExtendsRun(cfg, published, trace, events, e, h.service.Now(), h.dlq)
    ensures ExtendsRun(cfg, published, trace, events, Unheard(e), h.service.Now(), h.dlq)
  {
    ghost var d;
    ghost var s := trace[|events|];
    ending, d := Call(h, published[m], metadata, now, s.msgs[m].deliveries + 1, s.stores, Letters(s.dlq));
    e := Event(m, d);
    CallExtends(cfg, published, trace, events, e, h.service.Now(), h.dlq);
  }

  lemma CallExtends(
    cfg: Config, published: seq<Episode>, trace: seq<State>, events: seq<Event>, e: Event, stores: Stores, dlq: seq<DlqRecord>)
    requires Deliverable(cfg, published, trace, events, e.msg)
    requires
      var s := trace[|events|];
      Handled(published[e.msg], s.stores, Letters(s.dlq), s.msgs[e.msg].deliveries + 1, cfg.maxDeliver, e.d, stores, dlq)
    ensures ExtendsRun(cfg, published, trace, events, e, stores, dlq)
    ensures ExtendsRun(cfg, published, trace, events, Unheard(e), stores, dlq)
  {
    var s := trace[|events|];
    UnheardMayHappen(published[e.msg], s.stores.rows, s.msgs[e.msg].deliveries + 1, cfg.maxDeliver, e.d);
    DeliveryExtends(cfg, published, trace, events, e, stores, dlq);
    DeliveryExtends(cfg, published, trace, events, Unheard(e), stores, dlq);
  }

  lemma UnheardMayHappen(ep: Episode, rows: Rows, count: nat, maxDeliver: nat, d: Delivery)
    requires MayHappen(ep, rows, count, maxDeliver, d)
    ensures MayHappen(ep, rows, count, maxDeliver, d.(answered := false))
    ensures RecordsOf(ep, d.(answered := false)) == RecordsOf(ep, d)
  {
  }

  /** A delivery the handler can make extends the run by a state with its stores and its records. */
  lemma DeliveryExtends(
    cfg: Config, published: seq<Episode>, trace: seq<State>, events: seq<Event>, e: Event, stores: Stores, dlq: seq<DlqRecord>)
    requires Deliverable(cfg, published, trace, events, e.msg) && Possible(cfg, published, trace[|events|], e)
    requires stores == StoresAfter(published[e.msg], trace[|events|].stores, e.d.scan, e.d.steps)
    requires dlq == Letters(trace[|events|].dlq) + RecordsOf(published[e.msg], e.d)
    ensures ExtendsRun(cfg, published, trace, events, e, stores, dlq)
  {
    RelayRunExtends(cfg, published, trace, events, e);
    LettersAppend(trace[|events|].dlq, e.msg, RecordsOf(published[e.msg], e.d));
  }

  lemma LettersAppend(dlq: seq<Dead>, m: nat, records: seq<DlqRecord>)
    ensures Letters(dlq + Tagged(m, records)) == Letters(dlq) + records
  {
  }

  // ----------------------------------------------------------------- counting deliveries

  function Deliveries(events: seq<Event>, m: nat): nat {
    if events == [] then 0
    else Deliveries(events[..|events| - 1], m) + if events[|events| - 1].msg == m then 1 else 0
  }

  /** Pending means delivered fewer than `maxDeliver` times so far; no message is ever delivered more often. */
  lemma {:induction false} PendingCountsDeliveries(cfg: Config, published: seq<Episode>, trace: seq<State>, events: seq<Event>, n: nat, m: nat)
    requires cfg.maxDeliver > 0 && RelayRun(cfg, published, trace, events) && n <= |events| && m < |published|
    ensures |trace[n].msgs| == |published|
    ensures trace[n].msgs[m].Pending? ==>
      trace[n].msgs[m].deliveries == Deliveries(events[..n], m) < cfg.maxDeliver
    ensures Deliveries(events[..n], m) <= cfg.maxDeliver
  {
    if n > 0 {
      PendingCountsDeliveries(cfg, published, trace, events, n - 1, m);
      assert events[..n][..n - 1] == events[..n - 1];
      StepOf(cfg, published, trace, events, n - 1);
      CountNext(cfg, published, trace[n - 1], events[n - 1], Deliveries(events[..n - 1], m), m);
    }
  }

  lemma CountNext(cfg: Config, published: seq<Episode>, s: State, e: Event, made: nat, m: nat)
    requires Possible(cfg, published, s, e) && m < |s.msgs|
    requires (s.msgs[m].Pending? ==> s.msgs[m].deliveries == made < cfg.maxDeliver) && made <= cfg.maxDeliver
    ensures
      var next, now := After(cfg, published, s, e).msgs, made + if e.msg == m then 1 else 0;
      |next| == |s.msgs| && now <= cfg.maxDeliver && (next[m].Pending? ==> next[m].deliveries == now < cfg.maxDeliver)
  {
  }

  // ----------------------------------------------------------------- the delivery that is acknowledged

  lemma {:induction false} MessagesStay(cfg: Config, published: seq<Episode>, trace: seq<State>, events: seq<Event>, n: nat)
    requires RelayRun(cfg, published, trace, events) && n <= |events|
    ensures |trace[n].msgs| == |published|
  {
    if n > 0 {
      MessagesStay(cfg, published, trace, events, n - 1);
      StepOf(cfg, published, trace, events, n - 1);
    }
  }

  /** The `i`-th event made all steps of message `m`, and the handler acknowledged it. */
  ghost predicate Acknowledges(published: seq<Episode>, events: seq<Event>, i: nat, m: nat) {
    && i < |events| && m < |published| && events[i].msg == m && Accepts(published[m])
    && events[i].d.steps == AllSteps(published[m]) && events[i].d.outcome == Some(Committed) && events[i].d.answered
  }

  lemma AckedNow(cfg: Config, published: seq<Episode>, s: State, e: Event)
    requires Possible(cfg, published, s, e) && After(cfg, published, s, e).msgs[e.msg].Acked?
    ensures Accepts(published[e.msg]) && e.d.steps == AllSteps(published[e.msg]) && e.d.outcome == Some(Committed) && e.d.answered
  {
  }

  lemma {:induction false} AckedBy(cfg: Config, published: seq<Episode>, trace: seq<State>, events: seq<Event>, n: nat, m: nat) returns (i: nat)
    requires RelayRun(cfg, published, trace, events) && n <= |events| && m < |published| == |trace[n].msgs| && trace[n].msgs[m].Acked?
    ensures i < n && Acknowledges(published, events, i, m)
  {
    MessagesStay(cfg, published, trace, events, n - 1);
    StepOf(cfg, published, trace, events, n - 1);
    if trace[n - 1].msgs[m].Acked? {
      i := AckedBy(cfg, published, trace, events, n - 1, m);
    } else {
      i := n - 1;
      AckedNow(cfg, published, trace[n - 1], events[n - 1]);
    }
  }

  // ----------------------------------------------------------------- how a message is lost

  /** The delivery ends in a way that can lose its message on the last delivery. */
  predicate Unsettled(cfg: Config, d: Delivery) {
    || !d.answered
    || (d.escaped && (cfg.onEscape.Nak? || cfg.onEscape.Silence?))
    || (!d.escaped && d.outcome == Some(Transient) && !d.metadataReachable)
  }

  /** The framework settles a message whose dead-letter record could not be published. */
  predicate SettledUnrecorded(cfg: Config, d: Delivery) {
    d.answered && d.escaped && (cfg.onEscape.Ack? || cfg.onEscape.Term?)
  }

  /**
   A delivery loses its message exactly in these ways: it is the last one and no answer arrives, or its
   answer is a nak for a transient failure whose metadata, unreachable, reads as delivery zero, or its
   dead-letter publish raises; or, on any delivery, that publish raises and the framework settles the
   message.
   */
  lemma LostExactly(cfg: Config, published: seq<Episode>, s: State, e: Event)
    requires Possible(cfg, published, s, e)
    ensures After(cfg, published, s, e).msgs[e.msg].Lost? <==>
      || SettledUnrecorded(cfg, e.d)
      || (s.msgs[e.msg].deliveries + 1 == cfg.maxDeliver && Unsettled(cfg, e.d))
  {
  }

  /** The delivery that lost message `m`, the `count`-th of it. */
  ghost predicate Loses(cfg: Config, e: Event, m: nat, count: nat) {
    e.msg == m && (SettledUnrecorded(cfg, e.d) || (count == cfg.maxDeliver && Unsettled(cfg, e.d)))
  }

  /** Some record of this message's own is among the dead letters. */
  ghost predicate Recorded(dlq: seq<Dead>, ep: Episode, m: nat) {
    exists i :: 0 <= i < |dlq| && dlq[i].msg == m && dlq[i].record.episodeId == ep.id && dlq[i].record.project == ep.project
  }

  lemma RecordedNext(cfg: Config, published: seq<Episode>, s: State, e: Event, m: nat)
    requires Possible(cfg, published, s, e) && m < |published|
    requires s.msgs[m].Termed? ==> Recorded(s.dlq, published[m], m)
    ensures var after := After(cfg, published, s, e); after.msgs[m].Termed? ==> Recorded(after.dlq, published[m], m)
  {
    var more := Tagged(e.msg, RecordsOf(published[e.msg], e.d));
    if s.msgs[m].Termed? {
      var i :| 0 <= i < |s.dlq| && s.dlq[i].msg == m
        && s.dlq[i].record.episodeId == published[m].id && s.dlq[i].record.project == published[m].project;
      assert (s.dlq + more)[i] == s.dlq[i];
    } else if e.msg == m && After(cfg, published, s, e).msgs[m].Termed? {
      assert (s.dlq + more)[|s.dlq|] == more[0];
    }
  }

  /** Some delivery before the n-th event lost message `m`. */
  ghost predicate LostBy(cfg: Config, events: seq<Event>, n: nat, m: nat)
    requires n <= |events|
  {
    exists i :: 0 <= i < n && Loses(cfg, events[i], m, Deliveries(events[..i + 1], m))
  }

  /** A terminated message has a dead-letter record, and a lost one was lost by a delivery that loses. */
  lemma {:induction false} FateOf(cfg: Config, published: seq<Episode>, trace: seq<State>, events: seq<Event>, n: nat, m: nat)
    requires cfg.maxDeliver > 0 && RelayRun(cfg, published, trace, events) && n <= |events| && m < |published|
    ensures |trace[n].msgs| == |published|
    ensures trace[n].msgs[m].Termed? ==> Recorded(trace[n].dlq, published[m], m)
    ensures trace[n].msgs[m].Lost? ==> LostBy(cfg, events, n, m)
  {
    if n > 0 {
      FateOf(cfg, published, trace, events, n - 1, m);
      StepOf(cfg, published, trace, events, n - 1);
      RecordedNext(cfg, published, trace[n - 1], events[n - 1], m);
      LostNext(cfg, published, trace, events, n, m);
    }
  }

  lemma LostNext(cfg: Config, published: seq<Episode>, trace: seq<State>, events: seq<Event>, n: nat, m: nat)
    requires cfg.maxDeliver > 0 && RelayRun(cfg, published, trace, events) && 0 < n <= |events| && m < |published|
    requires |trace[n - 1].msgs| == |trace[n].msgs| == |published|
    requires trace[n - 1].msgs[m].Lost? ==> LostBy(cfg, events, n - 1, m)
    ensures trace[n].msgs[m].Lost? ==> LostBy(cfg, events, n, m)
  {
    var s, e := trace[n - 1], events[n - 1];
    StepOf(cfg, published, trace, events, n - 1);
    if trace[n].msgs[m].Lost? && !s.msgs[m].Lost? {
      PendingCountsDeliveries(cfg, published, trace, events, n - 1, m);
      assert events[..n][..n - 1] == events[..n - 1];
      LostExactly(cfg, published, s, e);
      assert Loses(cfg, events[n - 1], m, Deliveries(events[..n], m));
    }
  }

  // ----------------------------------------------------------------- what a message leaves behind

  ghost predicate HasRecord(dlq: seq<Dead>, m: nat) { exists i :: 0 <= i < |dlq| && dlq[i].msg == m }

  /** One of the first `n` events is a delivery of the message that published a record. */
  ghost predicate PublishedBy(events: seq<Event>, n: nat, m: nat)
    requires n <= |events|
  {
    exists i :: 0 <= i < n && events[i].msg == m && events[i].d.published
  }

  /** One of them made a step in the store. */
  ghost predicate SteppedBy(events: seq<Event>, n: nat, m: nat)
    requires n <= |events|
  {
    exists i :: 0 <= i < n && events[i].msg == m && events[i].d.steps > 0
  }

  datatype Place = RowPlace(l: Loc) | ChunkPlace(l: Loc)

  /** The first place the episode is written to. */
  ghost function PlaceOf(ep: Episode): Option<Place> {
    if IsProse(ep) then if ep.Chunks() != [] then Some(ChunkPlace(ChunkStore.Home(ep.id, ep.Chunks()[0]))) else None
    else if Accepts(ep) then Some(RowPlace(PayloadOf(ep).Home()))
    else None
  }

  predicate Taken(stores: Stores, place: Place) {
    match place
    case RowPlace(l) => l in stores.rows
    case ChunkPlace(l) => l in stores.chunks
  }

  lemma {:induction false} PutAllKeeps(rows: ChunkRows, episodeId: string, chunks: seq<Chunk>, meta: Option<Meta>)
    ensures rows.Keys <= PutAll(rows, episodeId, chunks, meta).Keys
    ensures chunks != [] ==> ChunkStore.Home(episodeId, chunks[0]) in PutAll(rows, episodeId, chunks, meta)
  {
    if chunks != [] { PutAllKeeps(rows, episodeId, chunks[..|chunks| - 1], meta); }
  }

  lemma StepsLeave(ep: Episode, before: Stores, scan: Option<string>, steps: nat)
    requires steps <= AllSteps(ep)
    ensures
      var after := StoresAfter(ep, before, scan, steps);
      && before.rows.Keys <= after.rows.Keys && before.chunks.Keys <= after.chunks.Keys
      && (steps == 0 ==> after == before) && (steps > 0 ==> PlaceOf(ep).Some? && Taken(after, PlaceOf(ep).value))
  {
    if IsProse(ep) {
      var part := ep.Chunks()[..Min(steps, |ep.Chunks()|)];
      PutAllKeeps(before.chunks, ep.id, part, Some(ep.meta));
      if steps > 0 { assert part[0] == ep.Chunks()[0]; }
    }
  }

  lemma {:induction false} RecordsOfRun(cfg: Config, published: seq<Episode>, trace: seq<State>, events: seq<Event>, n: nat, m: nat)
    requires RelayRun(cfg, published, trace, events) && n <= |events| && m < |published|
    ensures HasRecord(trace[n].dlq, m) <==> PublishedBy(events, n, m)
  {
    if n > 0 {
      RecordsOfRun(cfg, published, trace, events, n - 1, m);
      StepOf(cfg, published, trace, events, n - 1);
      RecordsNext(cfg, published, trace[n - 1], events[n - 1], m);
    }
  }

  lemma EventLeaves(cfg: Config, published: seq<Episode>, s: State, e: Event, next: State)
    requires Possible(cfg, published, s, e) && next == After(cfg, published, s, e)
    ensures forall place :: Taken(s.stores, place) ==> Taken(next.stores, place)
    ensures e.d.steps == 0 ==> next.stores == s.stores
    ensures e.d.steps > 0 ==> PlaceOf(published[e.msg]).Some? && Taken(next.stores, PlaceOf(published[e.msg]).value)
  {
    StepsLeave(published[e.msg], s.stores, e.d.scan, e.d.steps);
  }

  lemma {:induction false} StaysTaken(
    cfg: Config, published: seq<Episode>, trace: seq<State>, events: seq<Event>, first: nat, n: nat, place: Place)
    requires RelayRun(cfg, published, trace, events) && first <= n <= |events| && Taken(trace[first].stores, place)
    ensures Taken(trace[n].stores, place)
    decreases n
  {
    if n > first {
      StaysTaken(cfg, published, trace, events, first, n - 1, place);
      StepOf(cfg, published, trace, events, n - 1);
      EventLeaves(cfg, published, trace[n - 1], events[n - 1], trace[n]);
    }
  }

  /**
   What a message leaves behind, lost or not: a dead-letter record exactly if one of its deliveries published
   one; something in its place, for good, if one of them made a step; and if none did, none of them changed
   the stores. So a lost message is gone without a trace exactly if its deliveries did neither.
   */
  lemma TracesOf(cfg: Config, published: seq<Episode>, trace: seq<State>, events: seq<Event>, n: nat, m: nat)
    requires RelayRun(cfg, published, trace, events) && n <= |events| && m < |published|
    ensures HasRecord(trace[n].dlq, m) <==> PublishedBy(events, n, m)
    ensures SteppedBy(events, n, m) ==> PlaceOf(published[m]).Some? && Taken(trace[n].stores, PlaceOf(published[m]).value)
    ensures !SteppedBy(events, n, m) ==> forall i :: 0 <= i < n && events[i].msg == m ==> trace[i + 1].stores == trace[i].stores
  {
    RecordsOfRun(cfg, published, trace, events, n, m);
    if i :| 0 <= i < n && events[i].msg == m && events[i].d.steps > 0 {
      StepOf(cfg, published, trace, events, i);
      EventLeaves(cfg, published, trace[i], events[i], trace[i + 1]);
      StaysTaken(cfg, published, trace, events, i + 1, n, PlaceOf(published[m]).value);
    }
    forall i | 0 <= i < n && events[i].msg == m && events[i].d.steps == 0 ensures trace[i + 1].stores == trace[i].stores {
      StepOf(cfg, published, trace, events, i);
      EventLeaves(cfg, published, trace[i], events[i], trace[i + 1]);
    }
  }

  lemma RecordsNext(cfg: Config, published: seq<Episode>, s: State, e: Event, m: nat)
    requires Possible(cfg, published, s, e)
    ensures HasRecord(After(cfg, published, s, e).dlq, m) <==> HasRecord(s.dlq, m) || (e.msg == m && e.d.published)
  {
    var more := Tagged(e.msg, RecordsOf(published[e.msg], e.d));
    if i :| 0 <= i < |s.dlq| && s.dlq[i].msg == m { assert (s.dlq + more)[i] == s.dlq[i]; }
    if e.msg == m && e.d.published { assert (s.dlq + more)[|s.dlq|] == more[0]; }
  }

  // ----------------------------------------------------------------- termination

  /** Deliveries that the pending messages have left. */
  function Budget(msgs: seq<MsgState>, maxDeliver: nat): nat {
    if msgs == [] then 0
    else (if msgs[0].Pending? && msgs[0].deliveries <= maxDeliver then maxDeliver - msgs[0].deliveries else 0)
         + Budget(msgs[1..], maxDeliver)
  }

  lemma {:induction false} BudgetUpdate(msgs: seq<MsgState>, m: nat, x: MsgState, maxDeliver: nat)
    requires m < |msgs| && msgs[m].Pending? && msgs[m].deliveries < maxDeliver
    requires x.Pending? ==> x.deliveries > msgs[m].deliveries
    ensures Budget(msgs[m := x], maxDeliver) < Budget(msgs, maxDeliver)
  {
    if m == 0 {
      assert msgs[m := x][1..] == msgs[1..];
    } else {
      assert msgs[m := x][1..] == msgs[1..][m - 1 := x];
      BudgetUpdate(msgs[1..], m - 1, x, maxDeliver);
    }
  }

  lemma {:induction false} InitialBudget(n: nat, maxDeliver: nat)
    ensures Budget(Initial(n).msgs, maxDeliver) == n * maxDeliver
  {
    if n > 0 {
      InitialBudget(n - 1, maxDeliver);
      assert Initial(n).msgs[1..] == Initial(n - 1).msgs;
    }
  }

  /** Every delivery uses up budget, so a run has at most `maxDeliver` deliveries per message. */
  lemma {:induction false} RunsEnd(cfg: Config, published: seq<Episode>, trace: seq<State>, events: seq<Event>, n: nat)
    requires RelayRun(cfg, published, trace, events) && n <= |events|
    ensures n + Budget(trace[n].msgs, cfg.maxDeliver) <= |published| * cfg.maxDeliver
  {
    if n == 0 {
      InitialBudget(|published|, cfg.maxDeliver);
    } else {
      RunsEnd(cfg, published, trace, events, n - 1);
      var e := events[n - 1];
      StepOf(cfg, published, trace, events, n - 1);
      BudgetUpdate(trace[n - 1].msgs, e.msg, trace[n].msgs[e.msg], cfg.maxDeliver);
    }
  }

  // ----------------------------------------------------------------- how a message is settled

  /** The next delivery of message `m` can leave it in a state of this kind. */
  ghost predicate NextCan(cfg: Config, published: seq<Episode>, s: State, m: nat, acked: bool)
    requires m < |published| == |s.msgs| && s.msgs[m].Pending?
  {
    exists e :: Possible(cfg, published, s, e) && e.msg == m
      && var after := After(cfg, published, s, e).msgs[m]; if acked then after.Acked? else after.Termed?
  }

  /** A pending message can be acknowledged by its next delivery if and only if the service accepts it. */
  lemma NextAcksIff(cfg: Config, published: seq<Episode>, s: State, m: nat)
    requires m < |published| == |s.msgs| && s.msgs[m].Pending? && s.msgs[m].deliveries < cfg.maxDeliver
    ensures NextCan(cfg, published, s, m, true) <==> Accepts(published[m])
  {
    var ep := published[m];
    if Accepts(ep) {
      var scan: Option<string> := None;
      if IsJson(ep) { scan := ScanExists(s.stores.rows, PayloadOf(ep)); }
      var e := Event(m, Delivery(scan, AllSteps(ep), Some(Committed), true, false, false, true));
      assert Possible(cfg, published, s, e) && After(cfg, published, s, e).msgs[m].Acked?;
    }
  }

  /**
   It can be terminated by its next delivery if and only if it is poison, or has something to put and can
   meet a rejected embedding there, or is on its last delivery and is misrouted or can fail in the store: a
   misrouted message is never terminated before.
   */
  lemma NextTermsIff(cfg: Config, published: seq<Episode>, s: State, m: nat)
    requires m < |published| == |s.msgs| && s.msgs[m].Pending? && s.msgs[m].deliveries < cfg.maxDeliver
    ensures NextCan(cfg, published, s, m, false) <==>
      || Verdict(published[m]) == Poison || Puts(published[m], s.stores.rows)
      || (s.msgs[m].deliveries + 1 == cfg.maxDeliver && (Misrouted(published[m]) || Touches(published[m])))
  {
    if NextCan(cfg, published, s, m, false) { TermedNeeds(cfg, published, s, m); }
    if Verdict(published[m]) == Poison || Puts(published[m], s.stores.rows) {
      PoisonTerms(cfg, published, s, m);
    } else if s.msgs[m].deliveries + 1 == cfg.maxDeliver && (Misrouted(published[m]) || Touches(published[m])) {
      ExhaustedTerms(cfg, published, s, m);
    }
  }

  lemma TermedNeeds(cfg: Config, published: seq<Episode>, s: State, m: nat)
    requires m < |published| == |s.msgs| && s.msgs[m].Pending? && NextCan(cfg, published, s, m, false)
    ensures
      || Verdict(published[m]) == Poison || Puts(published[m], s.stores.rows)
      || (s.msgs[m].deliveries + 1 == cfg.maxDeliver && (Misrouted(published[m]) || Touches(published[m])))
  {
  }

  lemma PoisonTerms(cfg: Config, published: seq<Episode>, s: State, m: nat)
    requires m < |published| == |s.msgs| && s.msgs[m].Pending? && s.msgs[m].deliveries < cfg.maxDeliver
    requires Verdict(published[m]) == Poison || Puts(published[m], s.stores.rows)
    ensures NextCan(cfg, published, s, m, false)
  {
    var poison := Event(m, Delivery(None, 0, Some(Poison), true, true, false, true));
    assert Possible(cfg, published, s, poison) && After(cfg, published, s, poison).msgs[m].Termed?;
  }

  lemma ExhaustedTerms(cfg: Config, published: seq<Episode>, s: State, m: nat)
    requires m < |published| == |s.msgs| && s.msgs[m].Pending? && s.msgs[m].deliveries + 1 == cfg.maxDeliver
    requires Misrouted(published[m]) || Touches(published[m])
    ensures NextCan(cfg, published, s, m, false)
  {
    var exhausted := Event(m, Delivery(None, 0, Some(Transient), true, true, false, true));
    assert Possible(cfg, published, s, exhausted) && After(cfg, published, s, exhausted).msgs[m].Termed?;
  }

  /** Every pending message can be settled by its next delivery, except a misrouted one before its last. */
  lemma NextSettlesIff(cfg: Config, published: seq<Episode>, s: State, m: nat)
    requires m < |published| == |s.msgs| && s.msgs[m].Pending? && s.msgs[m].deliveries < cfg.maxDeliver
    ensures NextCan(cfg, published, s, m, true) || NextCan(cfg, published, s, m, false) <==>
      !Misrouted(published[m]) || s.msgs[m].deliveries + 1 == cfg.maxDeliver
  {
    NextAcksIff(cfg, published, s, m);
    NextTermsIff(cfg, published, s, m);
  }

  // ----------------------------------------------------------------- where a message is lost

  /** One message on its only delivery, its metadata out of reach. */
  const OneDelivery := Config(1, Nak)
  const Stray := Event(0, Delivery(None, 0, Some(Transient), false, false, false, true))

  /** A body that is not an object is retried, and here silently dropped: no record, and no delivery left. */
  lemma UnreachableMetadataLoses()
    ensures
      var published := [WithFields(map[]).(body := NotAnObject)];
      var end := After(OneDelivery, published, Initial(1), Stray);
      && RelayRun(OneDelivery, published, [Initial(1), end], [Stray])
      && end.msgs[0].Lost? && end.dlq == []
  {
    var published := [WithFields(map[]).(body := NotAnObject)];
    var end := After(OneDelivery, published, Initial(1), Stray);
    assert Possible(OneDelivery, published, Initial(1), Stray);
    assert StepAt(OneDelivery, published, [Initial(1), end], [Stray], 0);
  }
}
