/** The stream handler: acknowledge after commit, negative acknowledgement, or dead-letter and terminate. */
module RelayHandler {
  import opened Wrappers
  import opened Errors
  import opened Records
  import opened Writer
  import opened ChunkStore
  import opened RelayService
  import opened Marker

  /** What the stream server hears about a delivery. */
  datatype Answer = Ack | Nak | Term | Silence

  /**
   How a call of the handler ends: with an answer of its own, with an exception of another kind that the
   framework answers in its place, or with the end of the process.
   */
  datatype Ending = Answered(answer: Answer) | Escaped | Interrupted

  datatype DlqRecord = DlqRecord(episodeId: string, project: string, exhausted: bool)

  /** The delivery count reads as zero when the message's metadata cannot be reached. */
  function DeliveryCount(metadata: Option<nat>): nat {
    if metadata.Some? then metadata.value else 0
  }

  /** The intended answer, and whether a dead-letter record must be published first. */
  function Respond(outcome: Outcome, count: nat, maxDeliver: nat): (bool, Answer) {
    match outcome
    case Committed => (false, Ack)
    case Poison => (true, Term)
    case Transient => if count >= maxDeliver then (true, Term) else (false, Nak)
  }

  // ----------------------------------------------------------------- one delivery

  /**
   One delivery, complete or cut short anywhere: the store steps made, the outcome of ingestion (none
   if the process ended), whether the dead-letter record was published or its publishing raised an
   exception that left the handler, and whether any answer reached the server.
   */
  datatype Delivery = Delivery(
    scan: Option<string>, steps: nat, outcome: Option<Outcome>, metadataReachable: bool,
    published: bool, escaped: bool, answered: bool)

  /** What the handler means to do on this delivery, which is the `count`-th. */
  function Intention(d: Delivery, count: nat, maxDeliver: nat): (bool, Answer) {
    match d.outcome
    case None => (false, Silence)
    case Some(outcome) => Respond(outcome, DeliveryCount(if d.metadataReachable then Some(count) else None), maxDeliver)
  }

  /** A delivery the handler can make of this episode over these rows. */
  ghost predicate MayHappen(ep: Episode, rows: Rows, count: nat, maxDeliver: nat, d: Delivery) {
    && (OutcomeFits(ep, rows, d.steps, d.outcome) || (d.outcome.None? && d.steps == 0))
    && ScanFits(ep, rows, d.scan, d.steps)
    && var publish := Intention(d, count, maxDeliver).0;
       && (d.published ==> publish)
       && (d.escaped ==> publish && !d.published)
       && (d.answered ==> d.outcome.Some? && (publish ==> d.published || d.escaped))
  }

  /** What the server hears; the framework answers for an exception that left the handler. */
  function Heard(d: Delivery, count: nat, maxDeliver: nat, onEscape: Answer): Answer {
    if !d.answered then Silence else if d.escaped then onEscape else Intention(d, count, maxDeliver).1
  }

  function RecordsOf(ep: Episode, d: Delivery): seq<DlqRecord> {
    if d.published then [DlqRecord(ep.id, ep.project, d.outcome == Some(Transient))] else []
  }

  /** An acknowledgement of the handler's own means that the whole episode was written. */
  lemma AckIsWhole(ep: Episode, rows: Rows, count: nat, maxDeliver: nat, d: Delivery)
    requires MayHappen(ep, rows, count, maxDeliver, d) && d.answered && !d.escaped
    requires Intention(d, count, maxDeliver).1 == Ack
    ensures Accepts(ep) && d.steps == AllSteps(ep)
    ensures forall before: Stores :: IsProse(ep) ==>
      StoresAfter(ep, before, d.scan, d.steps) == before.(chunks := PutAll(before.chunks, ep.id, ep.Chunks(), Some(ep.meta)))
    ensures forall before: Stores :: IsJson(ep) ==>
      StoresAfter(ep, before, d.scan, d.steps) == before.(rows := Wrote(before.rows, PayloadOf(ep), Some(ep.meta), d.scan))
  {
    assert ep.Chunks()[..|ep.Chunks()|] == ep.Chunks();
    if IsJson(ep) {
      forall before: Stores
        ensures Cut(before.rows, PayloadOf(ep), Some(ep.meta), d.scan, d.steps) == Wrote(before.rows, PayloadOf(ep), Some(ep.meta), d.scan)
      {
        WholeWriteIsWrote(before.rows, PayloadOf(ep), Some(ep.meta), d.scan);
      }
    }
  }

  /** The delivery could be made, and these are the stores and the dead-letter records before and after it. */
  ghost predicate Handled(
    ep: Episode, before: Stores, dlq: seq<DlqRecord>, count: nat, maxDeliver: nat, d: Delivery, after: Stores, dlq': seq<DlqRecord>)
  {
    && MayHappen(ep, before.rows, count, maxDeliver, d)
    && after == StoresAfter(ep, before, d.scan, d.steps) && dlq' == dlq + RecordsOf(ep, d)
  }

  /** The delivery that a call makes after this ingestion. */
  function Made(
    scan: Option<string>, steps: nat, outcome: Option<Outcome>, metadata: Option<nat>, maxDeliver: nat, brokerUp: bool): Delivery
  {
    var publish := outcome.Some? && Respond(outcome.value, DeliveryCount(metadata), maxDeliver).0;
    Delivery(scan, steps, outcome, metadata.Some?, publish && brokerUp, publish && !brokerUp, outcome.Some?)
  }

  lemma MadeMayHappen(
    ep: Episode, rows: Rows, count: nat, scan: Option<string>, steps: nat, outcome: Option<Outcome>, metadata: Option<nat>,
    maxDeliver: nat, brokerUp: bool)
    requires OutcomeFits(ep, rows, steps, outcome) && ScanFits(ep, rows, scan, steps) && (metadata.Some? ==> metadata.value == count)
    ensures MayHappen(ep, rows, count, maxDeliver, Made(scan, steps, outcome, metadata, maxDeliver, brokerUp))
  {
  }

  /** What routing the outcome did is what the delivery says. */
  lemma MadeIsRouted(
    ep: Episode, scan: Option<string>, steps: nat, outcome: Outcome, metadata: Option<nat>, count: nat, maxDeliver: nat, brokerUp: bool,
    dlq: seq<DlqRecord>, dlq': seq<DlqRecord>, ending: Ending)
    requires metadata.Some? ==> metadata.value == count
    requires
      var (publish, answer) := Respond(outcome, DeliveryCount(metadata), maxDeliver);
      && ending == (if publish && !brokerUp then Escaped else Answered(answer))
      && dlq' == (if publish && brokerUp then dlq + [DlqRecord(ep.id, ep.project, outcome == Transient)] else dlq)
    ensures
      var d := Made(scan, steps, Some(outcome), metadata, maxDeliver, brokerUp);
      && dlq' == dlq + RecordsOf(ep, d) && d.answered && !ending.Interrupted? && (ending.Escaped? <==> d.escaped)
      && (ending.Answered? ==> ending.answer == Intention(d, count, maxDeliver).1)
  {
  }

  /** A record is published and the message is terminated; if publishing raises, that exception escapes. */
  ghost predicate DeadLettered(ep: Episode, exhausted: bool, brokerUp: bool, ending: Ending, dlq: seq<DlqRecord>, dlq': seq<DlqRecord>) {
    if brokerUp then ending == Answered(Term) && dlq' == dlq + [DlqRecord(ep.id, ep.project, exhausted)]
    else ending == Escaped && dlq' == dlq
  }

  /** How a call ends, by what its ingestion raised: there is no record and no termination of what is worth another delivery. */
  ghost predicate EndsAs(
    ep: Episode, raised: Option<Exc>, delivered: nat, maxDeliver: nat, brokerUp: bool, ending: Ending, dlq: seq<DlqRecord>, dlq': seq<DlqRecord>)
  {
    && (raised.None? <==> ending == Answered(Ack)) && (raised.None? ==> dlq' == dlq)
    && (raised.Some? && (raised.value.EmbedDimension? || raised.value.EmbedRequest?) ==> DeadLettered(ep, false, brokerUp, ending, dlq, dlq'))
    && (raised.Some? && raised.value in {EmbedService, EmbedTimeout, Connection, Timeout, Other} ==>
          if delivered < maxDeliver then ending == Answered(Nak) && dlq' == dlq else DeadLettered(ep, true, brokerUp, ending, dlq, dlq'))
    && (raised.Some? && raised.value.Stopped? ==> ending == Interrupted && dlq' == dlq)
  }

  // ----------------------------------------------------------------- the handler

  class Handler {
    const service: RelayService
    const marker: RelayMarker
    const maxDeliver: nat
    var dlq: seq<DlqRecord>
    var brokerUp: bool

    constructor (service: RelayService, marker: RelayMarker, maxDeliver: nat)
      ensures this.service == service && this.marker == marker && this.maxDeliver == maxDeliver
      ensures dlq == [] && brokerUp
    {
      this.service, this.marker, this.maxDeliver := service, marker, maxDeliver;
      dlq, brokerUp := [], true;
    }

    /** A publish either appends one record or raises. */
    method PublishDlq(ep: Episode, exhausted: bool) returns (ok: bool)
      modifies this`dlq
      ensures ok == brokerUp
      ensures dlq == if ok then old(dlq) + [DlqRecord(ep.id, ep.project, exhausted)] else old(dlq)
    {
      ok := brokerUp;
      if ok { dlq := dlq + [DlqRecord(ep.id, ep.project, exhausted)]; }
    }

    /** Negative acknowledgement, unless this is the final delivery. */
    method RouteTransient(ep: Episode, metadata: Option<nat>, now: Time) returns (ending: Ending)
      modifies this`dlq, marker, marker.disk
      ensures
        var (publish, answer) := Respond(Transient, DeliveryCount(metadata), maxDeliver);
        && ending == (if publish && !brokerUp then Escaped else Answered(answer))
        && dlq == (if publish && brokerUp then old(dlq) + [DlqRecord(ep.id, ep.project, true)] else old(dlq))
        && marker.Memory() == (if ending.Escaped? then old(marker.Memory())
                               else Received(old(marker.Memory()), now, if publish then "dlq" else "nak"))
    {
      if DeliveryCount(metadata) >= maxDeliver {
        var ok := PublishDlq(ep, true);
        if !ok { return Escaped; }
        marker.RecordMessage(now, "dlq");
        return Answered(Term);
      }
      marker.RecordMessage(now, "nak");
      return Answered(Nak);
    }

    /** What an outcome leads to; the marker counts an ingest exactly on an acknowledgement. */
    method Route(ep: Episode, outcome: Outcome, metadata: Option<nat>, now: Time) returns (ending: Ending)
      modifies this`dlq, marker, marker.disk
      ensures
        var (publish, answer) := Respond(outcome, DeliveryCount(metadata), maxDeliver);
        && ending == (if publish && !brokerUp then Escaped else Answered(answer))
        && dlq == (if publish && brokerUp then old(dlq) + [DlqRecord(ep.id, ep.project, outcome == Transient)] else old(dlq))
      ensures ending == Answered(Ack) ==> marker.Memory() == Ingested(old(marker.Memory()), now)
      ensures ending != Answered(Ack) ==> marker.Memory().ingests == old(marker.Memory().ingests)
    {
      match outcome
      case Committed =>
        marker.RecordIngest(now);
        ending := Answered(Ack);
      case Poison =>
        var ok := PublishDlq(ep, false);
        if !ok { return Escaped; }
        marker.RecordMessage(now, "dlq");
        ending := Answered(Term);
      case Transient =>
        ending := RouteTransient(ep, metadata, now);
    }

    /** The rest of a call after an ingestion that came to this, and the delivery it makes. */
    method Conclude(
      ep: Episode, outcome: Option<Outcome>, metadata: Option<nat>, now: Time, ghost count: nat, ghost scan: Option<string>, ghost steps: nat,
      ghost raised: Option<Exc>)
      returns (ending: Ending, ghost d: Delivery)
      requires (metadata.Some? ==> metadata.value == count) && LeadsTo(raised, outcome)
      modifies this`dlq, marker, marker.disk
      ensures d == Made(scan, steps, outcome, metadata, maxDeliver, brokerUp) && dlq == old(dlq) + RecordsOf(ep, d)
      ensures ending.Answered? ==> d.answered && !d.escaped && ending.answer == Intention(d, count, maxDeliver).1
      ensures ending.Escaped? <==> d.escaped && d.answered
      ensures ending.Interrupted? <==> d.outcome.None? && !d.answered
      ensures EndsAs(ep, raised, DeliveryCount(metadata), maxDeliver, brokerUp, ending, old(dlq), dlq)
      ensures ending == Answered(Ack) ==> marker.Memory() == Ingested(old(marker.Memory()), now)
      ensures ending != Answered(Ack) ==> marker.Memory().ingests == old(marker.Memory().ingests)
    {
      d := Made(scan, steps, outcome, metadata, maxDeliver, brokerUp);
      ending := Interrupted;
      if outcome.Some? {
        ghost var records := dlq;
        ending := Route(ep, outcome.value, metadata, now);
        MadeIsRouted(ep, scan, steps, outcome.value, metadata, count, maxDeliver, brokerUp, records, dlq, ending);
      }
    }

    /**
     One call. Its ghost result is the delivery it made: stores and dead-letter records are those after
     that delivery, and the call ends as the delivery says. Without a failing store the outcome is the
     episode's verdict. What the store raises, the last ghost result, decides: a rejected embedding or one of
     the wrong dimension is dead-lettered at once; anything else that is caught is not acknowledged and comes
     back, until the last delivery dead-letters it. The marker counts an ingest exactly on an acknowledgement.
     */
    method HandleMemoryEpisode(ep: Episode, metadata: Option<nat>, now: Time, ghost count: nat)
      returns (ending: Ending, ghost d: Delivery, ghost raised: Option<Exc>)
      requires service.writer.store.Valid() && (metadata.Some? ==> metadata.value == count) && AsChunked(service.settings, ep)
      modifies this`dlq, service.writer.store, service.chunkWriter, marker, marker.disk
      ensures service.writer.store.Valid()
      ensures old(service.writer.store.health).Leads(service.writer.store.health)
      ensures old(service.chunkWriter.health).Leads(service.chunkWriter.health)
      ensures service.writer.store.health.searches.None? ==> MayHappen(ep, old(service.writer.store.rows), count, maxDeliver, d)
      ensures service.Now() == StoresAfter(ep, old(service.Now()), d.scan, d.steps)
      ensures dlq == old(dlq) + RecordsOf(ep, d)
      ensures d.metadataReachable == metadata.Some?
      ensures ending.Answered? ==> d.answered && !d.escaped && ending.answer == Intention(d, count, maxDeliver).1
      ensures ending.Escaped? <==> d.escaped && d.answered
      ensures ending.Interrupted? <==> d.outcome.None? && !d.answered
      ensures old(service.writer.store.health).fault.None? && old(service.chunkWriter.health).fault.None? ==>
        d.outcome == Some(Verdict(ep))
      ensures Accepts(ep) && raised.Some? ==>
        if IsProse(ep) then old(service.chunkWriter.health).MayRaise(raised.value)
        else old(service.writer.store.health).MayRaise(raised.value)
      ensures EndsAs(ep, raised, DeliveryCount(metadata), maxDeliver, brokerUp, ending, old(dlq), dlq)
      ensures ending == Answered(Ack) ==> marker.Memory() == Ingested(old(marker.Memory()), now)
      ensures ending != Answered(Ack) ==> marker.Memory().ingests == old(marker.Memory().ingests)
    {
      var outcome;
      ghost var scan, steps;
      ghost var rows := service.writer.store.rows;
      outcome, scan, steps, raised := service.Ingest(ep);
      if service.writer.store.health.searches.None? {
        MadeMayHappen(ep, rows, count, scan, steps, outcome, metadata, maxDeliver, brokerUp);
      }
      ending, d := Conclude(ep, outcome, metadata, now, count, scan, steps, raised);
    }
  }
}
