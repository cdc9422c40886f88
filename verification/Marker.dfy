/**
 The relay's progress marker: one small file, rewritten after every message and read back on a
 restart. Time stamps are whole seconds.
 */
module Marker {
  import opened Wrappers

  type Time = int

  /** The file's content. A marker without a start time counts as unreadable for the checker. */
  datatype MarkerFile =
    | Absent
    | Corrupt
    | Written(startedAt: Option<Time>, lastMessageAt: Option<Time>, lastIngestAt: Option<Time>,
              messages: nat, ingests: nat, lastDisposition: Option<string>)

  datatype MarkerState = MarkerState(
    startedAt: Time, lastMessageAt: Option<Time>, lastIngestAt: Option<Time>,
    messages: nat, ingests: nat, lastDisposition: Option<string>)

  /** Reading never fails: whatever is not a marker with a start time reads as nothing. */
  function ReadMarker(file: MarkerFile): Option<MarkerState> {
    match file
    case Written(Some(started), lastMessage, lastIngest, messages, ingests, disposition) =>
      Some(MarkerState(started, lastMessage, lastIngest, messages, ingests, disposition))
    case _ => None
  }

  /** What the relay process holds in memory: exactly what it writes. */
  type Memory = f: MarkerFile | f.Written? witness Written(None, None, None, 0, 0, None)

  const FRESH: Memory := Written(None, None, None, 0, 0, None)

  function Started(memory: Memory, file: MarkerFile, now: Time): Memory {
    match ReadMarker(file)
    case Some(prior) => Written(Some(now), prior.lastMessageAt, prior.lastIngestAt, 0, 0, prior.lastDisposition)
    case None => memory.(startedAt := Some(now), messages := 0, ingests := 0)
  }

  function Ingested(memory: Memory, now: Time): Memory {
    memory.(ingests := memory.ingests + 1, messages := memory.messages + 1,
            lastIngestAt := Some(now), lastMessageAt := Some(now), lastDisposition := Some("ack"))
  }

  function Received(memory: Memory, now: Time, disposition: string): Memory {
    memory.(messages := memory.messages + 1, lastMessageAt := Some(now), lastDisposition := Some(disposition))
  }

  /** The marker file on disk; a write to a disk that refuses leaves the old file in place. */
  class Disk {
    var file: MarkerFile
    var writable: bool

    constructor ()
      ensures file == Absent && writable
    {
      file, writable := Absent, true;
    }
  }

  class RelayMarker {
    const disk: Disk
    var startedAt: Option<Time>
    var lastMessageAt: Option<Time>
    var lastIngestAt: Option<Time>
    var messages: nat
    var ingests: nat
    var lastDisposition: Option<string>

    function Memory(): Memory
      reads this
    {
      Written(startedAt, lastMessageAt, lastIngestAt, messages, ingests, lastDisposition)
    }

    constructor (disk: Disk)
      ensures this.disk == disk && Memory() == FRESH
    {
      this.disk := disk;
      startedAt, lastMessageAt, lastIngestAt, lastDisposition := None, None, None, None;
      messages, ingests := 0, 0;
    }

    /** Never raises: the file is replaced if it can be. */
    method Write()
      modifies disk
      ensures disk.writable == old(disk.writable)
      ensures disk.file == if disk.writable then Memory() else old(disk.file)
    {
      if disk.writable { disk.file := Memory(); }
    }

    method RecordStart(now: Time)
      modifies this, disk
      ensures Memory() == Started(old(Memory()), old(disk.file), now)
      ensures disk.writable == old(disk.writable)
      ensures disk.file == if disk.writable then Memory() else old(disk.file)
    {
      var prior := ReadMarker(disk.file);
      if prior.Some? {
        lastMessageAt := prior.value.lastMessageAt;
        lastIngestAt := prior.value.lastIngestAt;
        lastDisposition := prior.value.lastDisposition;
      }
      startedAt := Some(now);
      messages, ingests := 0, 0;
      Write();
    }

    method RecordIngest(now: Time)
      modifies this, disk
      ensures Memory() == Ingested(old(Memory()), now)
      ensures disk.writable == old(disk.writable)
      ensures disk.file == if disk.writable then Memory() else old(disk.file)
    {
      ingests, messages := ingests + 1, messages + 1;
      lastIngestAt, lastMessageAt := Some(now), Some(now);
      lastDisposition := Some("ack");
      Write();
    }

    method RecordMessage(now: Time, disposition: string)
      modifies this, disk
      ensures Memory() == Received(old(Memory()), now, disposition)
      ensures disk.writable == old(disk.writable)
      ensures disk.file == if disk.writable then Memory() else old(disk.file)
    {
      messages := messages + 1;
      lastMessageAt := Some(now);
      lastDisposition := Some(disposition);
      Write();
    }
  }

  // ----------------------------------------------------------------- runs across restarts

  /** A relay process starting afresh, a committed ingest, or a message that was not ingested. */
  datatype Event = Restart(now: Time) | Ingest(now: Time) | Message(now: Time, disposition: string)

  /** The file after one event. Only the file outlives a restart; otherwise the memory is what it holds. */
  function NextFile(file: MarkerFile, e: Event): MarkerFile {
    match e
    case Restart(now) => Started(FRESH, file, now)
    case Ingest(now) => if file.Written? then Ingested(file, now) else Ingested(FRESH, now)
    case Message(now, d) => if file.Written? then Received(file, now, d) else Received(FRESH, now, d)
  }

  /** The file after a run in which every write succeeds. */
  function FileAfter(file: MarkerFile, events: seq<Event>): MarkerFile {
    if events == [] then file
    else NextFile(FileAfter(file, events[..|events| - 1]), events[|events| - 1])
  }

  /** A relay marks its start before its first message, and the clock never goes back. */
  ghost predicate ProperRun(events: seq<Event>) {
    && events != [] && events[0].Restart?
    && forall i, j :: 0 <= i < j < |events| ==> events[i].now <= events[j].now
  }

  /** `t` is the time of the last event of the run that satisfies `which`; nothing if there is none. */
  ghost predicate IsLatest(events: seq<Event>, which: Event -> bool, t: Option<Time>) {
    match t
    case Some(v) => exists i :: 0 <= i < |events| && which(events[i]) && events[i].now == v
                      && forall j :: i < j < |events| ==> !which(events[j])
    case None => forall i :: 0 <= i < |events| ==> !which(events[i])
  }

  function IsIngest(): Event -> bool { (e: Event) => e.Ingest? }
  function IsArrival(): Event -> bool { (e: Event) => !e.Restart? }
  function IsRestart(): Event -> bool { (e: Event) => e.Restart? }

  lemma LatestExtends(events: seq<Event>, e: Event, which: Event -> bool, t: Option<Time>)
    requires IsLatest(events, which, t)
    ensures IsLatest(events + [e], which, if which(e) then Some(e.now) else t)
  {
    var all := events + [e];
    if which(e) {
      assert which(all[|events|]) && all[|events|].now == e.now;
    } else if t.Some? {
      var i :| 0 <= i < |events| && which(events[i]) && events[i].now == t.value
        && forall j :: i < j < |events| ==> !which(events[j]);
      assert which(all[i]) && all[i].now == t.value;
    }
  }

  /** The events from `first` on that satisfy `which`. */
  ghost function EventsFrom(events: seq<Event>, first: nat, which: Event -> bool): set<int> {
    set i | first <= i < |events| && which(events[i])
  }

  /** There were `n` such events since the last start. */
  ghost predicate CountSince(events: seq<Event>, which: Event -> bool, n: nat) {
    exists r: nat :: SinceStart(events, r) && n == |EventsFrom(events, r, which)|
  }

  /** The last start is the event before the `r`-th. */
  ghost predicate SinceStart(events: seq<Event>, r: nat) {
    0 < r <= |events| && events[r - 1].Restart? && forall j :: r <= j < |events| ==> !events[j].Restart?
  }

  lemma OneMoreEvent(events: seq<Event>, e: Event, first: nat, which: Event -> bool)
    requires first <= |events|
    ensures |EventsFrom(events + [e], first, which)| == |EventsFrom(events, first, which)| + if which(e) then 1 else 0
  {
    var all, n := events + [e], |events|;
    forall i ensures i in EventsFrom(all, first, which) <==> i in EventsFrom(events, first, which) || (i == n && which(e)) {
      if first <= i < n { assert all[i] == events[i]; }
    }
    assert EventsFrom(all, first, which) == EventsFrom(events, first, which) + if which(e) then {n} else {};
  }

  lemma CountExtends(events: seq<Event>, e: Event, which: Event -> bool, n: nat)
    requires !e.Restart? ==> CountSince(events, which, n)
    ensures CountSince(events + [e], which, if e.Restart? then 0 else if which(e) then n + 1 else n)
  {
    var all := events + [e];
    if e.Restart? {
      assert SinceStart(all, |all|) && EventsFrom(all, |all|, which) == {};
    } else {
      var r: nat :| SinceStart(events, r) && n == |EventsFrom(events, r, which)|;
      OneMoreEvent(events, e, r, which);
      assert SinceStart(all, r);
    }
  }

  /** What the last message of the run came to: an ingest was acknowledged, anything else is named. */
  ghost predicate LastSaid(events: seq<Event>, said: Option<string>) {
    match said
    case None => forall i :: 0 <= i < |events| ==> events[i].Restart?
    case Some(d) => exists i :: 0 <= i < |events| && Says(events[i], d) && forall j :: i < j < |events| ==> events[j].Restart?
  }

  predicate Says(e: Event, d: string) { (e.Ingest? && d == "ack") || (e.Message? && e.disposition == d) }

  lemma SaidExtends(events: seq<Event>, e: Event, said: Option<string>)
    requires LastSaid(events, said)
    ensures LastSaid(events + [e], match e { case Restart(_) => said case Ingest(_) => Some("ack") case Message(_, d) => Some(d) })
  {
    var all := events + [e];
    if e.Restart? {
      if said.Some? {
        var i :| 0 <= i < |events| && Says(events[i], said.value) && forall j :: i < j < |events| ==> events[j].Restart?;
        assert Says(all[i], said.value);
      }
    } else {
      assert Says(all[|events|], if e.Ingest? then "ack" else e.disposition);
    }
  }

  /** The file's times are the latest of the whole run, and its counters those since the last start. */
  ghost predicate Tracks(s: MarkerState, events: seq<Event>) {
    && IsLatest(events, IsIngest(), s.lastIngestAt)
    && IsLatest(events, IsArrival(), s.lastMessageAt)
    && IsLatest(events, IsRestart(), Some(s.startedAt))
    && CountSince(events, IsIngest(), s.ingests) && CountSince(events, IsArrival(), s.messages)
    && LastSaid(events, s.lastDisposition)
    && s.ingests <= s.messages
    && (s.lastIngestAt.Some? ==> s.lastMessageAt.Some? && s.lastIngestAt.value <= s.lastMessageAt.value)
  }

  /** The file is readable and its state is the latest of the whole run. */
  ghost predicate HoldsLatest(file: MarkerFile, events: seq<Event>) {
    ReadMarker(file).Some? && Tracks(ReadMarker(file).value, events)
  }

  lemma HoldsFirst(file: MarkerFile, e: Event)
    requires ReadMarker(file) == None && e.Restart?
    ensures HoldsLatest(NextFile(file, e), [e])
  {
    var none: Option<Time> := None;
    assert [] + [e] == [e];
    LatestExtends([], e, IsIngest(), none);
    LatestExtends([], e, IsArrival(), none);
    LatestExtends([], e, IsRestart(), none);
    CountExtends([], e, IsIngest(), 0);
    CountExtends([], e, IsArrival(), 0);
    SaidExtends([], e, None);
  }

  lemma HoldsNext(file: MarkerFile, events: seq<Event>, e: Event)
    requires HoldsLatest(file, events)
    requires forall i :: 0 <= i < |events| ==> events[i].now <= e.now
    ensures HoldsLatest(NextFile(file, e), events + [e])
  {
    var s := ReadMarker(file).value;
    LatestExtends(events, e, IsIngest(), s.lastIngestAt);
    LatestExtends(events, e, IsArrival(), s.lastMessageAt);
    LatestExtends(events, e, IsRestart(), Some(s.startedAt));
    CountExtends(events, e, IsIngest(), s.ingests);
    CountExtends(events, e, IsArrival(), s.messages);
    SaidExtends(events, e, s.lastDisposition);
  }

  /**
   Over any run of restarts, ingests and failed messages from a missing or unreadable file, the file
   is readable, holds the latest start, message and ingest of the whole run and what the latest message came
   to, however many restarts lie between, and counts the messages and the ingests since the last start.
   */
  lemma {:induction false} MarkerHoldsLatest(file: MarkerFile, events: seq<Event>)
    requires ReadMarker(file) == None && ProperRun(events)
    ensures HoldsLatest(FileAfter(file, events), events)
  {
    var n := |events| - 1;
    var init, e := events[..n], events[n];
    assert events == init + [e];
    if n == 0 {
      assert events == [e] && FileAfter(file, init) == file;
      HoldsFirst(file, e);
    } else {
      MarkerHoldsLatest(file, init);
      HoldsNext(FileAfter(file, init), init, e);
    }
  }
}
