/** What runs of the delivery protocol leave in the store of typed rows. */
module RelayRows {
  import opened Wrappers
  import opened Records
  import Construction
  import opened Writer
  import opened WriterRuns
  import opened RelayService
  import opened RelayHandler
  import opened RelayProtocol

  /** The message is a structured episode that the service writes. */
  ghost predicate IsWrite(ep: Episode) { IsJson(ep) && Accepts(ep) }

  /** The delivery made at least the upsert of a row at `l`. */
  ghost predicate Reaches(published: seq<Episode>, e: Event, l: Loc) {
    e.msg < |published| && IsWrite(published[e.msg]) && e.d.steps > 0 && PayloadOf(published[e.msg]).Home() == l
  }

  lemma RowsAfter(cfg: Config, published: seq<Episode>, s: State, e: Event)
    requires Possible(cfg, published, s, e)
    ensures
      var ep, after := published[e.msg], After(cfg, published, s, e);
      && after.stores.rows ==
           (if IsWrite(ep) then Cut(s.stores.rows, PayloadOf(ep), Some(ep.meta), e.d.scan, e.d.steps) else s.stores.rows)
      && (IsWrite(ep) ==> ScanFits(ep, s.stores.rows, e.d.scan, e.d.steps) && PayloadOf(ep).Valid())
      && (after.msgs[e.msg].Acked? && IsWrite(ep) ==> e.d.steps == WholeWrite(PayloadOf(ep)))
  {
    var ep := published[e.msg];
    if IsWrite(ep) { Construction.ReferencesAreKeys(ep.body.fields); }
  }

  // ----------------------------------------------------------------- rows follow deliveries

  /** The payloads that deliveries put at `l`, or found there, in order of delivery. */
  ghost function Delivered(published: seq<Episode>, events: seq<Event>, l: Loc): seq<Payload> {
    if events == [] then [] else
    var before, e := Delivered(published, events[..|events| - 1], l), events[|events| - 1];
    if Reaches(published, e, l) then before + [PayloadOf(published[e.msg])] else before
  }

  lemma CutCounts(rows: Rows, p: Payload, meta: Option<Meta>, scan: Option<string>, steps: nat, l: Loc, writes: seq<Payload>)
    requires Counted(rows, l, writes)
    ensures Counted(Cut(rows, p, meta, scan, steps), l, if steps > 0 && p.Home() == l then writes + [p] else writes)
  {
    if steps > 0 && p.Home() == l {
      ChangesAppend(writes, p);
    }
  }

  /**
   In every run, crashes and redeliveries included, a row exists exactly when a delivery reached its place;
   its hash is that of the last delivery that did, and its version counts the deliveries whose payload
   differs from the one delivered there before. A redelivery right after its own delivery therefore
   changes nothing, and one after a newer payload of the same key puts the older payload back.
   */
  lemma {:induction false} RowsFollowDeliveries(cfg: Config, published: seq<Episode>, trace: seq<State>, events: seq<Event>, n: nat, l: Loc)
    requires RelayRun(cfg, published, trace, events) && n <= |events|
    ensures Counted(trace[n].stores.rows, l, Delivered(published, events[..n], l))
  {
    if n > 0 {
      RowsFollowDeliveries(cfg, published, trace, events, n - 1, l);
      var s, e := trace[n - 1], events[n - 1];
      StepOf(cfg, published, trace, events, n - 1);
      assert events[..n][..n - 1] == events[..n - 1];
      RowsAfter(cfg, published, s, e);
      var ep := published[e.msg];
      if IsWrite(ep) {
        CutCounts(s.stores.rows, PayloadOf(ep), Some(ep.meta), e.d.scan, e.d.steps, l, Delivered(published, events[..n - 1], l));
      }
    }
  }

  // ----------------------------------------------------------------- acknowledged means written

  /** Event `i` wrote message `m` whole, as one uninterrupted write, and was acknowledged. */
  ghost predicate WrittenBy(published: seq<Episode>, trace: seq<State>, events: seq<Event>, i: nat, m: nat) {
    && i < |events| < |trace| && Acknowledges(published, events, i, m) && IsWrite(published[m])
    && WritesTo(trace[i].stores.rows, PayloadOf(published[m]), Some(published[m].meta), events[i].d.scan, trace[i + 1].stores.rows)
  }

  /** Every acknowledged structured message was written whole by the delivery that was acknowledged. */
  lemma AckedIsWritten(cfg: Config, published: seq<Episode>, trace: seq<State>, events: seq<Event>, n: nat, m: nat)
    requires RelayRun(cfg, published, trace, events) && n <= |events| && m < |published| && IsJson(published[m])
    ensures |trace[n].msgs| == |published|
    ensures trace[n].msgs[m].Acked? ==> exists i :: 0 <= i < n && WrittenBy(published, trace, events, i, m)
  {
    MessagesStay(cfg, published, trace, events, n);
    if trace[n].msgs[m].Acked? {
      var i := AckedBy(cfg, published, trace, events, n, m);
      StepOf(cfg, published, trace, events, i);
      RowsAfter(cfg, published, trace[i], events[i]);
      var ep := published[m];
      WholeWriteIsWrote(trace[i].stores.rows, PayloadOf(ep), Some(ep.meta), events[i].d.scan);
      assert WrittenBy(published, trace, events, i, m);
    }
  }

  /** The row holds what the message's body says, under the metadata of its last change. */
  ghost predicate HoldsBody(row: Row, ep: Episode) {
    && ep.body.Object? && ep.payloadType.Some?
    && row.content.ptype == ep.payloadType.value
    && row.content.lessons == ep.body.rest.lessons && row.content.body == ep.body.rest.text
    && "project" in ep.body.fields && ep.body.fields["project"] == Construction.Str(row.content.project)
    && "identifier" in ep.body.fields && ep.body.fields["identifier"] == Construction.Str(row.content.identifier)
    && Construction.ListsReferences(ep.body.fields, row.content.supersedes)
  }

  lemma WrittenHoldsBody(rows: Rows, ep: Episode, scan: Option<string>)
    requires WellFormed(rows) && IsWrite(ep)
    ensures
      var l, after := PayloadOf(ep).Home(), Wrote(rows, PayloadOf(ep), Some(ep.meta), scan);
      && l in after && HoldsBody(after[l], ep)
      && (!Unchanged(rows, PayloadOf(ep)) ==> after[l].meta == Some(ep.meta))
  {
    var p := PayloadOf(ep);
    Construction.BuiltCarries(ep.payloadType.value, ep.body.fields, ep.body.rest);
    if Unchanged(rows, p) {
      assert WellPlaced(p.Home(), rows[p.Home()]);
      HashIff(rows[p.Home()].content, p);
    }
  }

  /**
   What an acknowledged structured message leaves behind when it is acknowledged: a row with the type,
   lessons, text, identifiers and references of its body, and with its envelope's metadata if it changed.
   */
  lemma AckedHoldsBody(cfg: Config, published: seq<Episode>, trace: seq<State>, events: seq<Event>, n: nat, m: nat) returns (i: nat)
    requires RelayRun(cfg, published, trace, events) && n <= |events| && m < |published| && IsJson(published[m])
    requires |trace[n].msgs| == |published| && trace[n].msgs[m].Acked?
    ensures i < n && WrittenBy(published, trace, events, i, m)
    ensures
      var l, after := PayloadOf(published[m]).Home(), trace[i + 1].stores.rows;
      && l in after && HoldsBody(after[l], published[m])
      && (!Unchanged(trace[i].stores.rows, PayloadOf(published[m])) ==> after[l].meta == Some(published[m].meta))
  {
    AckedIsWritten(cfg, published, trace, events, n, m);
    i :| 0 <= i < n && WrittenBy(published, trace, events, i, m);
    LinkedUnlessOwing(cfg, published, trace, events, i);
    WrittenHoldsBody(trace[i].stores.rows, published[m], events[i].d.scan);
  }

  // ----------------------------------------------------------------- supersession links

  /**
   The row at `l` still owes marks: the last delivery that put it was cut short, and no whole delivery of a
   payload of this place followed.
   */
  ghost predicate Owing(published: seq<Episode>, trace: seq<State>, events: seq<Event>, n: nat, l: Loc)
    requires n <= |events| < |trace|
  {
    if n == 0 then false
    else if !Reaches(published, events[n - 1], l) then Owing(published, trace, events, n - 1, l)
    else
      var p := PayloadOf(published[events[n - 1].msg]);
      events[n - 1].d.steps != WholeWrite(p)
      && (Owing(published, trace, events, n - 1, l) || !Unchanged(trace[n - 1].stores.rows, p))
  }

  /** In every run, all links of every row that owes no marks are in place. */
  lemma {:induction false} LinkedUnlessOwing(cfg: Config, published: seq<Episode>, trace: seq<State>, events: seq<Event>, n: nat)
    requires RelayRun(cfg, published, trace, events) && n <= |events|
    ensures WellFormed(trace[n].stores.rows)
    ensures forall l :: !Owing(published, trace, events, n, l) ==> LinkedFrom(trace[n].stores.rows, l)
  {
    if n > 0 {
      LinkedUnlessOwing(cfg, published, trace, events, n - 1);
      var s, e := trace[n - 1], events[n - 1];
      StepOf(cfg, published, trace, events, n - 1);
      RowsAfter(cfg, published, s, e);
      var ep := published[e.msg];
      if IsWrite(ep) {
        CutKeepsWellFormed(s.stores.rows, PayloadOf(ep), Some(ep.meta), e.d.scan, e.d.steps);
      }
      forall l | !Owing(published, trace, events, n, l) ensures LinkedFrom(trace[n].stores.rows, l) {
        LinkedNext(cfg, published, trace, events, n, l);
      }
    }
  }

  lemma LinkedNext(cfg: Config, published: seq<Episode>, trace: seq<State>, events: seq<Event>, n: nat, l: Loc)
    requires RelayRun(cfg, published, trace, events) && 0 < n <= |events| && WellFormed(trace[n - 1].stores.rows)
    requires !Owing(published, trace, events, n - 1, l) ==> LinkedFrom(trace[n - 1].stores.rows, l)
    requires !Owing(published, trace, events, n, l)
    ensures LinkedFrom(trace[n].stores.rows, l)
  {
    StepOf(cfg, published, trace, events, n - 1);
    LinkedAfter(cfg, published, trace[n - 1], events[n - 1], trace[n], l);
  }

  /** A delivery keeps the links of every row that it does not put, and completes those of one it writes whole. */
  lemma LinkedAfter(cfg: Config, published: seq<Episode>, s: State, e: Event, next: State, l: Loc)
    requires Possible(cfg, published, s, e) && next == After(cfg, published, s, e) && WellFormed(s.stores.rows)
    requires Reaches(published, e, l) ==>
      e.d.steps == WholeWrite(PayloadOf(published[e.msg]))
      || (LinkedFrom(s.stores.rows, l) && Unchanged(s.stores.rows, PayloadOf(published[e.msg])))
    requires !Reaches(published, e, l) ==> LinkedFrom(s.stores.rows, l)
    ensures LinkedFrom(next.stores.rows, l)
  {
    RowsAfter(cfg, published, s, e);
    var ep := published[e.msg];
    if IsWrite(ep) {
      var p := PayloadOf(ep);
      if Reaches(published, e, l) && e.d.steps == WholeWrite(p) {
        WholeWriteLinks(s.stores.rows, p, Some(ep.meta), e.d.scan);
      } else {
        CutKeepsLinks(s.stores.rows, p, Some(ep.meta), e.d.scan, e.d.steps, l);
      }
    }
  }

  /** A row owes marks only to a message that was not acknowledged. */
  lemma {:induction false} OwingIsUnacknowledged(cfg: Config, published: seq<Episode>, trace: seq<State>, events: seq<Event>, n: nat, l: Loc)
    returns (m: nat)
    requires RelayRun(cfg, published, trace, events) && n <= |events| && Owing(published, trace, events, n, l)
    ensures m < |published| == |trace[n].msgs| && IsWrite(published[m]) && PayloadOf(published[m]).Home() == l
    ensures !trace[n].msgs[m].Acked?
  {
    StepOf(cfg, published, trace, events, n - 1);
    if Reaches(published, events[n - 1], l) {
      m := events[n - 1].msg;
    } else {
      m := OwingIsUnacknowledged(cfg, published, trace, events, n - 1, l);
      assert events[n - 1].msg == m ==> events[n - 1].d.steps == 0;
    }
    UnwrittenIsUnacknowledged(cfg, published, trace[n - 1], events[n - 1], trace[n], m);
  }

  /** A delivery that does not make all steps of a structured message acknowledges nothing new. */
  lemma UnwrittenIsUnacknowledged(cfg: Config, published: seq<Episode>, s: State, e: Event, next: State, m: nat)
    requires Possible(cfg, published, s, e) && next == After(cfg, published, s, e)
    requires m < |published| && IsWrite(published[m])
    requires if e.msg == m then e.d.steps != WholeWrite(PayloadOf(published[m])) else !s.msgs[m].Acked?
    ensures |next.msgs| == |published| && !next.msgs[m].Acked?
  {
    if e.msg == m { RowsAfter(cfg, published, s, e); }
  }

  ghost predicate WritesAcked(published: seq<Episode>, s: State) {
    |s.msgs| == |published| && forall m :: 0 <= m < |published| && IsWrite(published[m]) ==> s.msgs[m].Acked?
  }

  /**
   Once every message the service writes is acknowledged, every link is in place, whatever crashes and
   redeliveries happened on the way.
   */
  lemma LinksWhenAcked(cfg: Config, published: seq<Episode>, trace: seq<State>, events: seq<Event>)
    requires RelayRun(cfg, published, trace, events) && WritesAcked(published, trace[|events|])
    ensures Linked(trace[|events|].stores.rows)
  {
    var n := |events|;
    LinkedUnlessOwing(cfg, published, trace, events, n);
    forall l ensures LinkedFrom(trace[n].stores.rows, l) {
      if Owing(published, trace, events, n, l) {
        var m := OwingIsUnacknowledged(cfg, published, trace, events, n, l);
      }
    }
    FromEach(trace[n].stores.rows);
  }

  // ----------------------------------------------------------------- stale redelivery

  /** A whole write of the message, its acknowledgement arriving or lost. */
  lemma WholeDelivery(cfg: Config, published: seq<Episode>, trace: seq<State>, events: seq<Event>, m: nat, answered: bool)
    returns (e: Event)
    requires RelayRun(cfg, published, trace, events) && m < |published| == |trace[|events|].msgs| && IsWrite(published[m])
    requires trace[|events|].msgs[m].Pending? && trace[|events|].msgs[m].deliveries < cfg.maxDeliver
    ensures e.msg == m && Reaches(published, e, PayloadOf(published[m]).Home())
    ensures RelayRun(cfg, published, trace + [After(cfg, published, trace[|events|], e)], events + [e])
    ensures
      var s := trace[|events|];
      After(cfg, published, s, e).msgs
        == s.msgs[m := if answered then Acked else Redeliver(s.msgs[m].deliveries + 1, cfg.maxDeliver)]
  {
    var ep, s := published[m], trace[|events|];
    var scan := ScanExists(s.stores.rows, PayloadOf(ep));
    e := Event(m, Delivery(scan, AllSteps(ep), Some(Committed), true, false, false, answered));
    assert Possible(cfg, published, s, e);
    RelayRunExtends(cfg, published, trace, events, e);
  }

  /**
   Two payloads of one key: the first is written and its acknowledgement lost, the second is written and
   acknowledged, the first is redelivered. All messages are acknowledged, and the row holds the first
   payload again, as its third version.
   */
  lemma StaleRedeliveryReverts(cfg: Config, a: Episode, b: Episode) returns (trace: seq<State>, events: seq<Event>)
    requires cfg.maxDeliver >= 2 && IsWrite(a) && IsWrite(b)
    requires PayloadOf(a).Home() == PayloadOf(b).Home() && Hash(PayloadOf(a)) != Hash(PayloadOf(b))
    ensures RelayRun(cfg, [a, b], trace, events) && WritesAcked([a, b], trace[|events|])
    ensures
      var rows, l := trace[|events|].stores.rows, PayloadOf(a).Home();
      l in rows && rows[l].hash == Hash(PayloadOf(a)) && rows[l].version == 3
  {
    var published, l := [a, b], PayloadOf(a).Home();
    trace, events := [Initial(2)], [];
    var e := WholeDelivery(cfg, published, trace, events, 0, false);
    trace, events := trace + [After(cfg, published, trace[0], e)], events + [e];
    var f := WholeDelivery(cfg, published, trace, events, 1, true);
    trace, events := trace + [After(cfg, published, trace[1], f)], events + [f];
    var g := WholeDelivery(cfg, published, trace, events, 0, true);
    trace, events := trace + [After(cfg, published, trace[2], g)], events + [g];
    assert events == [e, f, g];
    RowAfterThree(cfg, a, b, trace, e, f, g);
  }

  lemma RowAfterThree(cfg: Config, a: Episode, b: Episode, trace: seq<State>, e: Event, f: Event, g: Event)
    requires IsWrite(a) && IsWrite(b) && Hash(PayloadOf(a)) != Hash(PayloadOf(b))
    requires RelayRun(cfg, [a, b], trace, [e, f, g]) && e.msg == 0 && f.msg == 1 && g.msg == 0
    requires var l := PayloadOf(a).Home(); Reaches([a, b], e, l) && Reaches([a, b], f, l) && Reaches([a, b], g, l)
    ensures
      var rows, l := trace[3].stores.rows, PayloadOf(a).Home();
      l in rows && rows[l].hash == Hash(PayloadOf(a)) && rows[l].version == 3
  {
    var events, l := [e, f, g], PayloadOf(a).Home();
    RowsFollowDeliveries(cfg, [a, b], trace, events, 3, l);
    ThreeDelivered([a, b], e, f, g, l);
    assert events[..3] == events;
    ThreeChanges(PayloadOf(a), PayloadOf(b));
  }

  lemma ThreeDelivered(published: seq<Episode>, e: Event, f: Event, g: Event, l: Loc)
    requires Reaches(published, e, l) && Reaches(published, f, l) && Reaches(published, g, l)
    ensures Delivered(published, [e, f, g], l) ==
      [PayloadOf(published[e.msg]), PayloadOf(published[f.msg]), PayloadOf(published[g.msg])]
  {
    assert [e, f, g][..2] == [e, f] && [e, f][..1] == [e];
    assert Delivered(published, [e][..0], l) == [];
    assert Delivered(published, [e], l) == [] + [PayloadOf(published[e.msg])];
  }

  lemma ThreeChanges(p: Payload, q: Payload)
    requires Hash(p) != Hash(q)
    ensures Changes([p, q, p]) == 3
  {
    var none: seq<Payload> := [];
    ChangesAppend(none, p);
    ChangesAppend([p], q);
    ChangesAppend([p, q], p);
    assert none + [p] == [p] && [p] + [q] == [p, q] && [p, q] + [p] == [p, q, p];
    assert (set i: nat | i < |none| && Differs(none, i)) == {};
  }

  // ----------------------------------------------------------------- when content can change again

  /** The message can still be delivered, and its payload would change the content of the row at `l`. */
  ghost predicate Overrides(cfg: Config, published: seq<Episode>, s: State, l: Loc, m: nat) {
    && m < |published| == |s.msgs| && l in s.stores.rows && IsWrite(published[m]) && PayloadOf(published[m]).Home() == l
    && s.msgs[m].Pending? && s.msgs[m].deliveries < cfg.maxDeliver && Hash(PayloadOf(published[m])) != s.stores.rows[l].hash
  }

  /** A run that goes on from this one. */
  ghost predicate GoesOn(cfg: Config, published: seq<Episode>, trace: seq<State>, events: seq<Event>, trace': seq<State>, events': seq<Event>) {
    RelayRun(cfg, published, trace', events') && trace <= trace' && events <= events'
  }

  ghost predicate ContentChanges(
    cfg: Config, published: seq<Episode>, trace: seq<State>, events: seq<Event>, l: Loc, trace': seq<State>, events': seq<Event>)
    requires |trace| == |events| + 1
  {
    var was := trace[|events|].stores.rows;
    && GoesOn(cfg, published, trace, events, trace', events') && l in was
    && (l in trace'[|events'|].stores.rows ==> trace'[|events'|].stores.rows[l].hash != was[l].hash)
  }

  lemma SettledNext(cfg: Config, published: seq<Episode>, s: State, e: Event, l: Loc)
    requires Possible(cfg, published, s, e) && l in s.stores.rows
    requires forall m :: !Overrides(cfg, published, s, l, m)
    ensures
      var next := After(cfg, published, s, e);
      && l in next.stores.rows && next.stores.rows[l].hash == s.stores.rows[l].hash
      && forall m :: !Overrides(cfg, published, next, l, m)
  {
    RowsAfter(cfg, published, s, e);
    assert !Overrides(cfg, published, s, l, e.msg);
    var next := After(cfg, published, s, e);
    forall m ensures !Overrides(cfg, published, next, l, m) {
      assert !Overrides(cfg, published, s, l, m);
    }
  }

  lemma {:induction false} StaysSettled(
    cfg: Config, published: seq<Episode>, trace: seq<State>, events: seq<Event>, l: Loc, first: nat, n: nat)
    requires RelayRun(cfg, published, trace, events) && first <= n <= |events| && l in trace[first].stores.rows
    requires forall m :: !Overrides(cfg, published, trace[first], l, m)
    ensures l in trace[n].stores.rows && trace[n].stores.rows[l].hash == trace[first].stores.rows[l].hash
    ensures forall m :: !Overrides(cfg, published, trace[n], l, m)
    decreases n
  {
    if n > first {
      StaysSettled(cfg, published, trace, events, l, first, n - 1);
      StepOf(cfg, published, trace, events, n - 1);
      SettledNext(cfg, published, trace[n - 1], events[n - 1], l);
    }
  }

  /**
   The content of a row can still change, to an older payload or a newer one, exactly if a message of its key
   with another hash has deliveries left.
   */
  lemma ContentChangesIff(cfg: Config, published: seq<Episode>, trace: seq<State>, events: seq<Event>, l: Loc)
    requires RelayRun(cfg, published, trace, events) && l in trace[|events|].stores.rows
    ensures (exists trace', events' :: ContentChanges(cfg, published, trace, events, l, trace', events')) <==>
      exists m :: Overrides(cfg, published, trace[|events|], l, m)
  {
    if m :| Overrides(cfg, published, trace[|events|], l, m) {
      var trace', events' := DeliveryChanges(cfg, published, trace, events, l, m);
      assert ContentChanges(cfg, published, trace, events, l, trace', events');
    }
    if trace', events' :| ContentChanges(cfg, published, trace, events, l, trace', events') {
      assert trace'[|events|] == trace[|events|];
      if forall m :: !Overrides(cfg, published, trace[|events|], l, m) {
        StaysSettled(cfg, published, trace', events', l, |events|, |events'|);
      }
    }
  }

  lemma DeliveryChanges(cfg: Config, published: seq<Episode>, trace: seq<State>, events: seq<Event>, l: Loc, m: nat)
    returns (trace': seq<State>, events': seq<Event>)
    requires RelayRun(cfg, published, trace, events) && Overrides(cfg, published, trace[|events|], l, m)
    ensures ContentChanges(cfg, published, trace, events, l, trace', events')
  {
    var s := trace[|events|];
    var e := WholeDelivery(cfg, published, trace, events, m, true);
    var next := After(cfg, published, s, e);
    trace', events' := trace + [next], events + [e];
    StepOf(cfg, published, trace', events', |events|);
    RowsAfter(cfg, published, s, e);
    PutChangesHash(s.stores.rows, PayloadOf(published[m]), Some(published[m].meta), e.d.scan, e.d.steps);
  }

  lemma PutChangesHash(rows: Rows, p: Payload, meta: Option<Meta>, scan: Option<string>, steps: nat)
    requires steps > 0
    ensures p.Home() in Cut(rows, p, meta, scan, steps) && Cut(rows, p, meta, scan, steps)[p.Home()].hash == Hash(p)
  {
  }
}
