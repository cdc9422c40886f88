/** The liveness fence: facts in, verdict out. Times are whole seconds; messages are left out. */
module Fence {
  import opened Wrappers
  import opened Marker

  datatype Status = OK | ALARM | HELD

  datatype CheckResult = CheckResult(name: string, status: Status, reason: string)

  datatype Thresholds = Thresholds(
    storeMaxAgeHours: int, buildWindowHours: int, minBuilds: int, graceMinutes: int, watchProjects: seq<string>)

  datatype ProjectFacts = ProjectFacts(project: string, newest: Option<Time>, rowCount: nat)

  datatype StoreFacts = StoreFacts(
    reachable: bool, newest: Option<Time>, rowCount: nat, perProject: seq<ProjectFacts>)

  /** `None` stands for a receipts directory that could not be listed. */
  type BuildScan = Option<seq<Time>>

  /** A check that was not asked for has no facts. */
  datatype Facts = Facts(
    store: Option<StoreFacts>, builds: Option<BuildScan>, marker: Option<Option<MarkerState>>, ack: Ack)

  // ----------------------------------------------------------------- acknowledgement

  const ACK_MAX_DAYS := 14

  datatype Ack = Ack(active: bool, checks: seq<string>) {
    predicate Holds(name: string) { active && name in checks }
  }

  /** What a parsed acknowledgement file says; days are numbered. */
  datatype AckFile = AckFile(reason: Option<string>, until: Option<int>, checks: seq<string>)

  function ReadAck(file: Option<AckFile>, today: int): Ack {
    if file.None? then Ack(false, [])
    else
      var f := file.value;
      if f.until.None? || f.checks == [] || f.reason.None? || f.reason.value == "" then Ack(false, f.checks)
      else if f.until.value - today > ACK_MAX_DAYS then Ack(false, f.checks)
      else if f.until.value < today then Ack(false, f.checks)
      else Ack(true, f.checks)
  }

  // ----------------------------------------------------------------- the checks

  const BLIND := "BLIND"

  /** The verdict on one age, shared by the whole store and each watched project. */
  function AgeCheck(name: string, newest: Option<Time>, maxAgeHours: int, now: Time): CheckResult {
    if newest.None? then CheckResult(name, ALARM, BLIND)
    else if now - newest.value > maxAgeHours * 3600 then CheckResult(name, ALARM, "STORE_STALE")
    else CheckResult(name, OK, "")
  }

  function ProjectCheck(p: ProjectFacts, th: Thresholds, now: Time): CheckResult {
    if p.rowCount == 0 then CheckResult("store_age:" + p.project, ALARM, "STORE_EMPTY")
    else AgeCheck("store_age:" + p.project, p.newest, th.storeMaxAgeHours, now)
  }

  function StoreCheck(facts: StoreFacts, th: Thresholds, now: Time): seq<CheckResult> {
    if !facts.reachable then [CheckResult("store_age", ALARM, "STORE_UNREACHABLE")]
    else if facts.rowCount == 0 then [CheckResult("store_age", ALARM, "STORE_EMPTY")]
    else (
      var projects := facts.perProject;
      [AgeCheck("store_age", facts.newest, th.storeMaxAgeHours, now)]
      + seq(|projects|, i requires 0 <= i < |projects| => ProjectCheck(projects[i], th, now)))
  }

  /** The checks of the store: the first judges the whole store, the others one project each. */
  function StoreChecks(facts: Facts, th: Thresholds, now: Time): seq<CheckResult> {
    if facts.store.None? then [CheckResult("store_age", ALARM, BLIND)] else StoreCheck(facts.store.value, th, now)
  }

  function FinishedSince(receipts: seq<Time>, moment: Time): nat {
    if receipts == [] then 0 else
    var n := |receipts| - 1;
    FinishedSince(receipts[..n], moment) + if receipts[n] >= moment then 1 else 0
  }

  /** The newest write time among the watched projects' rows. */
  function NewestWatched(rows: seq<ProjectFacts>, watched: seq<string>): Option<Time> {
    if rows == [] then None else
    var rest := NewestWatched(rows[1..], watched);
    var p := rows[0];
    if p.project !in watched || p.newest.None? then rest
    else if rest.Some? && rest.value > p.newest.value then rest
    else p.newest
  }

  function WindowStart(th: Thresholds, now: Time): Time { now - th.buildWindowHours * 3600 }

  function RelayCheck(
    builds: Option<BuildScan>, marker: Option<Option<MarkerState>>, th: Thresholds, now: Time, store: Option<StoreFacts>
  ): CheckResult
  {
    if marker.None? || marker.value.None? then CheckResult("relay_idle", ALARM, BLIND)
    else if builds.None? || builds.value.None? then CheckResult("relay_idle", ALARM, BLIND)
    else
      var state := marker.value.value;
      var start := WindowStart(th, now);
      if FinishedSince(builds.value.value, start) < th.minBuilds then CheckResult("relay_idle", OK, "")
      else if state.lastIngestAt.Some? && state.lastIngestAt.value >= start then CheckResult("relay_idle", OK, "")
      else
        var rows := if store.Some? && store.value.reachable then store.value.perProject else [];
        var newest := NewestWatched(rows, th.watchProjects);
        if newest.Some? && newest.value >= start then CheckResult("relay_idle", OK, "")
        else if now < state.startedAt + th.graceMinutes * 60 then CheckResult("relay_idle", OK, "RELAY_RESTART_GRACE")
        else CheckResult("relay_idle", ALARM, "RELAY_IDLE")
  }

  function ApplyAck(c: CheckResult, ack: Ack): CheckResult {
    if c.status.ALARM? && ack.Holds(c.name) then c.(status := HELD) else c
  }

  datatype Report = Report(status: Status, checks: seq<CheckResult>)

  /** The checks as they come out before any acknowledgement is applied. */
  function RawChecks(facts: Facts, th: Thresholds, now: Time, storeOnly: bool, relayOnly: bool): seq<CheckResult> {
    (if relayOnly then [] else StoreChecks(facts, th, now))
    + (if storeOnly then [] else [RelayCheck(facts.builds, facts.marker, th, now, facts.store)])
  }

  function Evaluate(facts: Facts, th: Thresholds, now: Time, storeOnly: bool, relayOnly: bool): Report {
    var raw := RawChecks(facts, th, now, storeOnly, relayOnly);
    var checks := seq(|raw|, i requires 0 <= i < |raw| => ApplyAck(raw[i], facts.ack));
    Report(if exists i :: 0 <= i < |checks| && checks[i].status.ALARM? then ALARM else OK, checks)
  }

  // ----------------------------------------------------------------- properties

  lemma {:induction false} NewestWatchedIsMax(rows: seq<ProjectFacts>, watched: seq<string>, moment: Time)
    ensures
      var newest := NewestWatched(rows, watched);
      (newest.Some? && newest.value >= moment) <==>
        exists i :: 0 <= i < |rows| && rows[i].project in watched && rows[i].newest.Some? && rows[i].newest.value >= moment
  {
    if rows != [] {
      NewestWatchedIsMax(rows[1..], watched, moment);
      assert forall i :: 1 <= i < |rows| ==> rows[i] == rows[1..][i - 1];
      assert forall i :: 0 <= i < |rows[1..]| ==> rows[1..][i] == rows[i + 1];
    }
  }

  /** A reachable store holds a watched project's row written since `moment`. */
  ghost predicate WatchedRowSince(store: Option<StoreFacts>, watched: seq<string>, moment: Time) {
    && store.Some? && store.value.reachable
    && exists i :: 0 <= i < |store.value.perProject| && store.value.perProject[i].project in watched
         && store.value.perProject[i].newest.Some? && store.value.perProject[i].newest.value >= moment
  }

  /** The receipts written since that moment. */
  function InWindow(receipts: seq<Time>, moment: Time): set<int> {
    set i | 0 <= i < |receipts| && receipts[i] >= moment
  }

  lemma {:induction false} FinishedIsCount(receipts: seq<Time>, moment: Time)
    ensures FinishedSince(receipts, moment) == |InWindow(receipts, moment)|
  {
    if receipts != [] {
      var n := |receipts| - 1;
      FinishedIsCount(receipts[..n], moment);
      assert InWindow(receipts, moment) == InWindow(receipts[..n], moment) + if receipts[n] >= moment then {n} else {};
    } else {
      assert InWindow(receipts, moment) == {};
    }
  }

  /** The idle alarm fires exactly when builds finished and neither route wrote anything. */
  lemma RelayIdleIff(builds: seq<Time>, state: MarkerState, th: Thresholds, now: Time, store: Option<StoreFacts>)
    ensures
      var start := now - 3600 * th.buildWindowHours;
      var r := RelayCheck(Some(Some(builds)), Some(Some(state)), th, now, store);
      && (r.status.ALARM? <==> r.reason == "RELAY_IDLE")
      && (r.reason == "RELAY_IDLE" <==>
            && |InWindow(builds, start)| >= th.minBuilds
            && (state.lastIngestAt.Some? ==> state.lastIngestAt.value < start)
            && !WatchedRowSince(store, th.watchProjects, start)
            && now >= state.startedAt + th.graceMinutes * 60)
  {
    var rows := if store.Some? && store.value.reachable then store.value.perProject else [];
    NewestWatchedIsMax(rows, th.watchProjects, WindowStart(th, now));
    FinishedIsCount(builds, WindowStart(th, now));
  }

  /**
   From the relay's events to the verdict: if the relay ingested anything inside the build window,
   in whatever process and however many restarts ago, the check on its marker is not an alarm.
   */
  lemma IngestInWindowIsNeverIdle(
    file: MarkerFile, events: seq<Event>, k: nat, builds: seq<Time>, th: Thresholds, now: Time, store: Option<StoreFacts>)
    requires ReadMarker(file) == None && ProperRun(events)
    requires k < |events| && events[k].Ingest? && events[k].now >= WindowStart(th, now)
    ensures RelayCheck(Some(Some(builds)), Some(ReadMarker(FileAfter(file, events))), th, now, store).status == OK
  {
    MarkerHoldsLatest(file, events);
    var s := ReadMarker(FileAfter(file, events)).value;
    var which := IsIngest();
    assert which(events[k]);
    var i :| 0 <= i < |events| && which(events[i]) && events[i].now == s.lastIngestAt.value
      && forall j :: i < j < |events| ==> !which(events[j]);
    assert k <= i;
  }

  /**
   And back: with enough builds, no watched row and the grace over, a relay whose every ingest is
   older than the window does raise the alarm.
   */
  lemma DarkRelayIsIdle(
    file: MarkerFile, events: seq<Event>, builds: seq<Time>, th: Thresholds, now: Time, store: Option<StoreFacts>)
    requires ReadMarker(file) == None && ProperRun(events)
    requires forall i :: 0 <= i < |events| && events[i].Ingest? ==> events[i].now < WindowStart(th, now)
    requires forall i :: 0 <= i < |events| && events[i].Restart? ==> events[i].now + th.graceMinutes * 60 <= now
    requires |InWindow(builds, WindowStart(th, now))| >= th.minBuilds
    requires !WatchedRowSince(store, th.watchProjects, WindowStart(th, now))
    ensures RelayCheck(Some(Some(builds)), Some(ReadMarker(FileAfter(file, events))), th, now, store)
      == CheckResult("relay_idle", ALARM, "RELAY_IDLE")
  {
    MarkerHoldsLatest(file, events);
    RelayIdleIff(builds, ReadMarker(FileAfter(file, events)).value, th, now, store);
  }

  /** What a check of a store with rows judges: the first one the whole store, the others one project each. */
  predicate Judges(store: StoreFacts, i: nat, name: string, rowCount: nat, newest: Option<Time>) {
    if i == 0 then name == "store_age" && rowCount == store.rowCount && newest == store.newest
    else i <= |store.perProject| && name == "store_age:" + store.perProject[i - 1].project
         && rowCount == store.perProject[i - 1].rowCount && newest == store.perProject[i - 1].newest
  }

  /** There is a write time, and it is no more than so many hours ago. */
  predicate Fresh(newest: Option<Time>, hours: int, now: Time) { newest.Some? && newest.value + 3600 * hours >= now }

  /** What is said of an age: blind without a write time, stale past the limit, and nothing otherwise. */
  lemma AgeSaid(name: string, newest: Option<Time>, hours: int, now: Time)
    ensures
      var c := AgeCheck(name, newest, hours, now);
      && c.name == name && c.reason != "STORE_EMPTY"
      && (c.reason == "BLIND" <==> newest.None?)
      && (c.reason == "STORE_STALE" <==> newest.Some? && newest.value + 3600 * hours < now)
      && c.status == if Fresh(newest, hours, now) then OK else ALARM
  {
    assert "STORE_STALE"[6] != "STORE_EMPTY"[6];
  }

  /** A reachable store with rows is judged as a whole and project by project, each by its own rows and write time. */
  lemma StoreSaysIff(facts: Facts, th: Thresholds, now: Time, i: nat, name: string, rowCount: nat, newest: Option<Time>)
    requires facts.store.Some? && facts.store.value.reachable && facts.store.value.rowCount > 0
    requires Judges(facts.store.value, i, name, rowCount, newest)
    ensures |StoreChecks(facts, th, now)| == 1 + |facts.store.value.perProject|
    ensures
      var c := StoreChecks(facts, th, now)[i];
      && c.name == name
      && (c.reason == "STORE_EMPTY" <==> rowCount == 0)
      && (c.reason == "BLIND" <==> rowCount > 0 && newest.None?)
      && (c.reason == "STORE_STALE" <==> rowCount > 0 && newest.Some? && newest.value + 3600 * th.storeMaxAgeHours < now)
      && c.status == if rowCount > 0 && Fresh(newest, th.storeMaxAgeHours, now) then OK else ALARM
  {
    AgeSaid(name, newest, th.storeMaxAgeHours, now);
    assert "STORE_STALE"[6] != "STORE_EMPTY"[6];
    if i > 0 {
      assert StoreChecks(facts, th, now)[i] == ProjectCheck(facts.store.value.perProject[i - 1], th, now);
    }
  }

  predicate ProjectFresh(p: ProjectFacts, th: Thresholds, now: Time) {
    p.rowCount > 0 && Fresh(p.newest, th.storeMaxAgeHours, now)
  }

  /** The store and every watched project were seen, have rows, and the newest is recent. */
  ghost predicate AllFresh(store: Option<StoreFacts>, th: Thresholds, now: Time) {
    && store.Some? && store.value.reachable
    && store.value.rowCount > 0 && Fresh(store.value.newest, th.storeMaxAgeHours, now)
    && forall i :: 0 <= i < |store.value.perProject| ==> ProjectFresh(store.value.perProject[i], th, now)
  }

  ghost predicate Quiet(checks: seq<CheckResult>) { forall i :: 0 <= i < |checks| ==> !checks[i].status.ALARM? }

  /** None of the store's checks alarms exactly when everything in it is fresh. */
  lemma QuietIff(facts: Facts, th: Thresholds, now: Time)
    ensures Quiet(StoreChecks(facts, th, now)) <==> AllFresh(facts.store, th, now)
  {
    var checks := StoreChecks(facts, th, now);
    if facts.store.None? || !facts.store.value.reachable || facts.store.value.rowCount == 0 {
      assert checks[0].status.ALARM?;
    } else {
      var store := facts.store.value;
      StoreSaysIff(facts, th, now, 0, "store_age", store.rowCount, store.newest);
      forall i | 0 <= i < |store.perProject| ensures ProjectFresh(store.perProject[i], th, now) <==> !checks[i + 1].status.ALARM? {
        var p := store.perProject[i];
        StoreSaysIff(facts, th, now, i + 1, "store_age:" + p.project, p.rowCount, p.newest);
      }
      if AllFresh(facts.store, th, now) {
        forall i | 0 <= i < |checks| ensures !checks[i].status.ALARM? {
          if i > 0 { assert ProjectFresh(store.perProject[i - 1], th, now); }
        }
      }
    }
  }

  /** With nothing acknowledged, the run over the store alone is OK exactly when everything in it is fresh. */
  lemma StoreRunIff(facts: Facts, th: Thresholds, now: Time)
    requires !facts.ack.active
    ensures Evaluate(facts, th, now, true, false).status.OK? <==> AllFresh(facts.store, th, now)
  {
    VerdictIff(facts, th, now, true, false);
    QuietIff(facts, th, now);
    assert RawChecks(facts, th, now, true, false) == StoreChecks(facts, th, now);
  }

  /** The run is OK exactly when every alarm is acknowledged by name; an acknowledgement changes nothing else. */
  lemma VerdictIff(facts: Facts, th: Thresholds, now: Time, storeOnly: bool, relayOnly: bool)
    ensures
      var raw := RawChecks(facts, th, now, storeOnly, relayOnly);
      var report := Evaluate(facts, th, now, storeOnly, relayOnly);
      && (report.status.OK? <==> forall i :: 0 <= i < |raw| && raw[i].status.ALARM? ==> facts.ack.Holds(raw[i].name))
      && |report.checks| == |raw|
      && (forall i :: 0 <= i < |raw| ==> report.checks[i].name == raw[i].name && report.checks[i].reason == raw[i].reason)
  {
    var raw := RawChecks(facts, th, now, storeOnly, relayOnly);
    var report := Evaluate(facts, th, now, storeOnly, relayOnly);
    forall i | 0 <= i < |raw| ensures !raw[i].status.HELD? {
      RawIsNeverHeld(facts, th, now, storeOnly, relayOnly, i);
    }
    if i :| 0 <= i < |raw| && raw[i].status.ALARM? && !facts.ack.Holds(raw[i].name) {
      assert report.checks[i].status.ALARM?;
    }
  }

  lemma RawIsNeverHeld(facts: Facts, th: Thresholds, now: Time, storeOnly: bool, relayOnly: bool, i: nat)
    requires i < |RawChecks(facts, th, now, storeOnly, relayOnly)|
    ensures !RawChecks(facts, th, now, storeOnly, relayOnly)[i].status.HELD?
  {
  }

  /** The file gives a reason and holds on this day: until the named one, if that is at most fourteen days off. */
  predicate InForce(file: Option<AckFile>, today: int) {
    && file.Some? && file.value.reason.Some? && file.value.reason.value != ""
    && file.value.until.Some? && today <= file.value.until.value <= today + 14
  }

  /** What an acknowledgement file can do: the run is OK exactly when it is in force and names whatever trips, or nothing trips. */
  lemma AcknowledgedIff(
    file: Option<AckFile>, today: int, facts: Facts, th: Thresholds, now: Time, storeOnly: bool, relayOnly: bool)
    requires facts.ack == ReadAck(file, today)
    ensures
      var raw := RawChecks(facts, th, now, storeOnly, relayOnly);
      Evaluate(facts, th, now, storeOnly, relayOnly).status.OK? <==>
        || (forall i :: 0 <= i < |raw| ==> !raw[i].status.ALARM?)
        || (InForce(file, today) && forall i :: 0 <= i < |raw| && raw[i].status.ALARM? ==> raw[i].name in file.value.checks)
  {
    VerdictIff(facts, th, now, storeOnly, relayOnly);
    assert InForce(file, today) && file.value.checks != [] ==> facts.ack == Ack(true, file.value.checks);
    assert !InForce(file, today) ==> !facts.ack.active;
  }

  /** The input of the check of this name was asked for and could not be seen. */
  ghost predicate Unseen(facts: Facts, name: string, storeOnly: bool, relayOnly: bool) {
    || (!relayOnly && name == "store_age" && StoreUnseen(facts.store))
    || (!relayOnly && facts.store.Some? && exists i: nat :: ProjectUnseen(facts.store.value, i, name))
    || (!storeOnly && name == "relay_idle"
        && (facts.marker.None? || facts.marker.value.None? || facts.builds.None? || facts.builds.value.None?))
  }

  /** The store was not looked at or not reached, or its rows carry no write time. */
  predicate StoreUnseen(store: Option<StoreFacts>) {
    store.None? || !store.value.reachable || (store.value.rowCount > 0 && store.value.newest.None?)
  }

  /** The store was seen, and the rows of the watched project that the check is named after carry no write time. */
  predicate ProjectUnseen(store: StoreFacts, i: nat, name: string) {
    && store.reachable && store.rowCount > 0 && i < |store.perProject| && name == "store_age:" + store.perProject[i].project
    && store.perProject[i].rowCount > 0 && store.perProject[i].newest.None?
  }

  predicate SaysBlind(c: CheckResult) { c.reason == BLIND || c.reason == "STORE_UNREACHABLE" }

  /**
   A check says that it is blind exactly when the input it judges could not be seen; it is never OK, and
   the run is OK only if that very check is acknowledged by name.
   */
  lemma BlindIsNeverOK(facts: Facts, th: Thresholds, now: Time, storeOnly: bool, relayOnly: bool, name: string)
    ensures
      var report := Evaluate(facts, th, now, storeOnly, relayOnly);
      && (Unseen(facts, name, storeOnly, relayOnly) <==>
            exists i :: 0 <= i < |report.checks| && report.checks[i].name == name && SaysBlind(report.checks[i]))
      && (forall i :: 0 <= i < |report.checks| && SaysBlind(report.checks[i]) ==>
            !report.checks[i].status.OK? && (report.status.OK? ==> facts.ack.Holds(report.checks[i].name)))
  {
    var raw := RawChecks(facts, th, now, storeOnly, relayOnly);
    var report := Evaluate(facts, th, now, storeOnly, relayOnly);
    VerdictIff(facts, th, now, storeOnly, relayOnly);
    forall i | 0 <= i < |raw| && SaysBlind(raw[i]) ensures raw[i].status.ALARM? && Unseen(facts, raw[i].name, storeOnly, relayOnly) {
      BlindCheckIsUnseen(facts, th, now, storeOnly, relayOnly, i);
    }
    if Unseen(facts, name, storeOnly, relayOnly) {
      var i := UnseenIsBlindCheck(facts, th, now, storeOnly, relayOnly, name);
      assert report.checks[i] == ApplyAck(raw[i], facts.ack);
    }
    forall i | 0 <= i < |report.checks| && SaysBlind(report.checks[i]) ensures SaysBlind(raw[i]) {
      assert report.checks[i].reason == raw[i].reason;
    }
  }

  lemma AgeBlind(name: string, newest: Option<Time>, maxAgeHours: int, now: Time)
    ensures
      var c := AgeCheck(name, newest, maxAgeHours, now);
      c.name == name && (SaysBlind(c) <==> newest.None?) && (SaysBlind(c) ==> c.status.ALARM?)
  {
  }

  lemma ProjectBlind(p: ProjectFacts, th: Thresholds, now: Time)
    ensures
      var c := ProjectCheck(p, th, now);
      && c.name == "store_age:" + p.project
      && (SaysBlind(c) <==> p.rowCount > 0 && p.newest.None?) && (SaysBlind(c) ==> c.status.ALARM?)
  {
    AgeBlind("store_age:" + p.project, p.newest, th.storeMaxAgeHours, now);
  }

  lemma RelayBlind(builds: Option<BuildScan>, marker: Option<Option<MarkerState>>, th: Thresholds, now: Time, store: Option<StoreFacts>)
    ensures
      var c := RelayCheck(builds, marker, th, now, store);
      && c.name == "relay_idle" && (SaysBlind(c) ==> c.status.ALARM?)
      && (SaysBlind(c) <==> marker.None? || marker.value.None? || builds.None? || builds.value.None?)
  {
  }

  lemma StoreBlind(facts: Facts, th: Thresholds, now: Time)
    ensures StoreChecks(facts, th, now) != []
    ensures
      var c := StoreChecks(facts, th, now)[0];
      c.name == "store_age" && (SaysBlind(c) <==> StoreUnseen(facts.store)) && (SaysBlind(c) ==> c.status.ALARM?)
    ensures |StoreChecks(facts, th, now)| > 1 ==>
      && facts.store.Some? && facts.store.value.reachable && facts.store.value.rowCount > 0
      && |StoreChecks(facts, th, now)| == 1 + |facts.store.value.perProject|
  {
    if facts.store.Some? { AgeBlind("store_age", facts.store.value.newest, th.storeMaxAgeHours, now); }
  }

  lemma BlindCheckIsUnseen(facts: Facts, th: Thresholds, now: Time, storeOnly: bool, relayOnly: bool, i: nat)
    requires i < |RawChecks(facts, th, now, storeOnly, relayOnly)|
    requires SaysBlind(RawChecks(facts, th, now, storeOnly, relayOnly)[i])
    ensures RawChecks(facts, th, now, storeOnly, relayOnly)[i].status.ALARM?
    ensures Unseen(facts, RawChecks(facts, th, now, storeOnly, relayOnly)[i].name, storeOnly, relayOnly)
  {
    var raw := RawChecks(facts, th, now, storeOnly, relayOnly);
    StoreBlind(facts, th, now);
    var n := if relayOnly then 0 else |StoreChecks(facts, th, now)|;
    if i >= n {
      assert raw[i] == RelayCheck(facts.builds, facts.marker, th, now, facts.store);
      RelayBlind(facts.builds, facts.marker, th, now, facts.store);
    } else if i > 0 {
      var store := facts.store.value;
      assert raw[i] == ProjectCheck(store.perProject[i - 1], th, now);
      ProjectBlind(store.perProject[i - 1], th, now);
      assert ProjectUnseen(store, i - 1, raw[i].name);
    }
  }

  lemma UnseenIsBlindCheck(facts: Facts, th: Thresholds, now: Time, storeOnly: bool, relayOnly: bool, name: string) returns (i: nat)
    requires Unseen(facts, name, storeOnly, relayOnly)
    ensures i < |RawChecks(facts, th, now, storeOnly, relayOnly)|
    ensures
      var c := RawChecks(facts, th, now, storeOnly, relayOnly)[i];
      c.name == name && SaysBlind(c)
  {
    var raw := RawChecks(facts, th, now, storeOnly, relayOnly);
    StoreBlind(facts, th, now);
    if !relayOnly && name == "store_age" && StoreUnseen(facts.store) {
      i := 0;
    } else if !relayOnly && facts.store.Some? && exists k: nat :: ProjectUnseen(facts.store.value, k, name) {
      var k: nat :| ProjectUnseen(facts.store.value, k, name);
      i := k + 1;
      assert raw[i] == ProjectCheck(facts.store.value.perProject[k], th, now);
      ProjectBlind(facts.store.value.perProject[k], th, now);
    } else {
      i := |raw| - 1;
      RelayBlind(facts.builds, facts.marker, th, now, facts.store);
    }
  }

  /** Some check trips before any acknowledgement is applied. */
  ghost predicate Trips(facts: Facts, th: Thresholds, now: Time, storeOnly: bool, relayOnly: bool) {
    var raw := RawChecks(facts, th, now, storeOnly, relayOnly);
    exists i :: 0 <= i < |raw| && raw[i].status.ALARM?
  }

  /** The day on which something trips and an acknowledgement file keeps the run OK. */
  ghost predicate SilentDay(file: Option<AckFile>, today: int, facts: Facts, th: Thresholds, now: Time, storeOnly: bool, relayOnly: bool) {
    && facts.ack == ReadAck(file, today) && Trips(facts, th, now, storeOnly, relayOnly)
    && Evaluate(facts, th, now, storeOnly, relayOnly).status.OK?
  }

  lemma SilentDayIsCovered(file: Option<AckFile>, today: int, facts: Facts, th: Thresholds, now: Time, storeOnly: bool, relayOnly: bool)
    requires SilentDay(file, today, facts, th, now, storeOnly, relayOnly)
    ensures file.Some? && file.value.until.Some?
    ensures file.value.until.value - ACK_MAX_DAYS <= today <= file.value.until.value
  {
    VerdictIff(facts, th, now, storeOnly, relayOnly);
    var raw := RawChecks(facts, th, now, storeOnly, relayOnly);
    var i :| 0 <= i < |raw| && raw[i].status.ALARM?;
    assert facts.ack.Holds(raw[i].name);
  }

  /** `n` days from `first` on. */
  function Interval(first: int, n: nat): (r: set<int>)
    ensures |r| == n && forall d :: d in r <==> first <= d < first + n
  {
    if n == 0 then {} else Interval(first, n - 1) + {first + n - 1}
  }

  /**
   Nobody can silence the fence for good: whatever trips and however the facts and the clock move on, one
   acknowledgement file that is left as it is keeps the runs of at most fifteen days OK.
   */
  lemma SilenceIsBounded(
    file: Option<AckFile>, days: set<int>, factsOn: int -> Facts, nowOn: int -> Time, th: Thresholds, storeOnly: bool, relayOnly: bool)
    requires forall d :: d in days ==> SilentDay(file, d, factsOn(d), th, nowOn(d), storeOnly, relayOnly)
    ensures |days| <= ACK_MAX_DAYS + 1
  {
    if days != {} {
      var any :| any in days;
      SilentDayIsCovered(file, any, factsOn(any), th, nowOn(any), storeOnly, relayOnly);
      var covered := Interval(file.value.until.value - ACK_MAX_DAYS, ACK_MAX_DAYS + 1);
      forall d | d in days ensures d in covered {
        SilentDayIsCovered(file, d, factsOn(d), th, nowOn(d), storeOnly, relayOnly);
      }
      SubsetIsSmaller(days, covered);
    }
  }
}
