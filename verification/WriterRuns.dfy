/**
 What the writer keeps over whole runs: links between successors and predecessors, version counts,
 crash and replay, and the order in which two linked records are written.
 */
module WriterRuns {
  import opened Wrappers
  import opened Text
  import opened Records
  import opened Writer

  /** No row lists a stored row of its own namespace as superseded without that row being marked. */
  ghost predicate Linked(rows: Rows) {
    forall s, p :: s in rows && p in rows && s.ns == p.ns && rows[p].naturalKey in rows[s].supersedes
      ==> rows[p].supersededBy.Some?
  }

  // ----------------------------------------------------------------- one step

  lemma WriteKeepsWellFormed(rows: Rows, p: Payload, meta: Option<Meta>, forward: Option<string>)
    requires WellFormed(rows) && p.Valid() && p.Accepted()
    ensures WellFormed(Upserted(rows, p, meta, forward))
    ensures WellFormed(Wrote(rows, p, meta, forward))
  {
    HomeIsLocated(p);
    var put := Upserted(rows, p, meta, forward);
    forall l | l in put ensures WellPlaced(l, put[l]) {
      if l in rows { assert WellPlaced(l, rows[l]); }
    }
    MarkKeepsWellFormed(put, p.NaturalKey(), Elements(p.supersedes));
  }

  lemma ScanExists(rows: Rows, p: Payload) returns (scan: Option<string>)
    ensures Admissible(rows, p, scan)
  {
    if DeclaredNearby(rows, p) {
      var l :| l in rows && l.ns == p.Home().ns && p.NaturalKey() in rows[l].supersedes;
      scan := Some(rows[l].naturalKey);
    } else {
      scan := None;
    }
  }

  lemma StepKeepsWellFormed(rows: Rows, op: Op, after: Rows)
    requires WellFormed(rows) && Step(rows, op, after)
    requires op.WriteOp? ==> op.p.Valid()
    ensures WellFormed(after)
  {
    match op
    case WriteOp(p, meta) =>
      if p.Accepted() {
        var forward :| WritesTo(rows, p, meta, forward, after);
        WriteKeepsWellFormed(rows, p, meta, forward);
      }
    case MarkOp(successor, preds) => MarkKeepsWellFormed(rows, successor, Elements(WellShaped(preds)));
  }

  /** Whatever the row at `s` declares in its own namespace is marked, as far as it is stored. */
  ghost predicate LinkedFrom(rows: Rows, s: Loc) {
    forall q :: s in rows && q in rows && s.ns == q.ns && rows[q].naturalKey in rows[s].supersedes ==> rows[q].supersededBy.Some?
  }

  lemma CutKeepsWellFormed(rows: Rows, p: Payload, meta: Option<Meta>, scan: Option<string>, steps: nat)
    requires WellFormed(rows) && p.Valid() && p.Accepted()
    ensures WellFormed(Cut(rows, p, meta, scan, steps))
  {
    if steps > 0 {
      WriteKeepsWellFormed(rows, p, meta, scan);
      MarkKeepsWellFormed(Upserted(rows, p, meta, scan), p.NaturalKey(), Elements(p.supersedes[..Min(steps - 1, |p.supersedes|)]));
    }
  }

  /** A cut write keeps the links of every other row, and of its own row if that was not put. */
  lemma CutKeepsLinks(rows: Rows, p: Payload, meta: Option<Meta>, scan: Option<string>, steps: nat, s: Loc)
    requires WellFormed(rows) && p.Valid() && p.Accepted() && LinkedFrom(rows, s)
    requires steps > 0 ==> Unchanged(rows, p) || Admissible(rows, p, scan)
    requires s == p.Home() ==> steps == 0 || Unchanged(rows, p)
    ensures LinkedFrom(Cut(rows, p, meta, scan, steps), s)
  {
    if steps > 0 {
      UpsertKeepsLinks(rows, p, meta, scan, s);
      MarksKeepLinks(Upserted(rows, p, meta, scan), p.NaturalKey(), Elements(p.supersedes[..Min(steps - 1, |p.supersedes|)]), s);
    }
  }

  lemma MarksKeepLinks(rows: Rows, successor: string, preds: set<string>, s: Loc)
    requires LinkedFrom(rows, s)
    ensures LinkedFrom(MarkSet(rows, successor, preds), s)
  {
  }

  lemma UpsertKeepsLinks(rows: Rows, p: Payload, meta: Option<Meta>, scan: Option<string>, s: Loc)
    requires WellFormed(rows) && LinkedFrom(rows, s)
    requires Unchanged(rows, p) || (Admissible(rows, p, scan) && s != p.Home())
    ensures LinkedFrom(Upserted(rows, p, meta, scan), s)
  {
    var after := Upserted(rows, p, meta, scan);
    forall q | s in after && q in after && s.ns == q.ns && after[q].naturalKey in after[s].supersedes
      ensures after[q].supersededBy.Some?
    {
      if q == p.Home() && !Unchanged(rows, p) {
        assert s in rows && p.NaturalKey() in rows[s].supersedes;
        assert DeclaredNearby(rows, p);
      }
    }
  }

  /** A whole write links its own row. */
  lemma WholeWriteLinks(rows: Rows, p: Payload, meta: Option<Meta>, scan: Option<string>)
    requires WellFormed(rows) && p.Valid() && p.Accepted()
    ensures LinkedFrom(Cut(rows, p, meta, scan, WholeWrite(p)), p.Home())
  {
    WholeWriteIsWrote(rows, p, meta, scan);
    if Unchanged(rows, p) { assert WellPlaced(p.Home(), rows[p.Home()]); }
  }

  lemma WriteKeepsLinked(rows: Rows, p: Payload, meta: Option<Meta>, forward: Option<string>)
    requires WellFormed(rows) && Linked(rows) && p.Valid() && p.Accepted()
    requires Unchanged(rows, p) || Admissible(rows, p, forward)
    ensures Linked(Wrote(rows, p, meta, forward))
  {
    var after := Wrote(rows, p, meta, forward);
    WholeWriteIsWrote(rows, p, meta, forward);
    forall s | s in after ensures LinkedFrom(after, s) {
      if s == p.Home() {
        // declared by the payload itself: the last step of the write marks it
        WholeWriteLinks(rows, p, meta, forward);
      } else {
        // a row put by this write: the declarer `s` was there for the forward scan to find
        assert LinkedFrom(rows, s);
        CutKeepsLinks(rows, p, meta, forward, WholeWrite(p), s);
      }
    }
    FromEach(after);
  }

  lemma FromEach(rows: Rows)
    requires forall s :: s in rows ==> LinkedFrom(rows, s)
    ensures Linked(rows)
  {
    forall s, p | s in rows && p in rows && s.ns == p.ns && rows[p].naturalKey in rows[s].supersedes
      ensures rows[p].supersededBy.Some?
    {
      assert LinkedFrom(rows, s);
    }
  }

  lemma StepKeepsLinked(rows: Rows, op: Op, after: Rows)
    requires WellFormed(rows) && Linked(rows) && Step(rows, op, after)
    requires op.WriteOp? ==> op.p.Valid()
    ensures Linked(after)
  {
    if op.WriteOp? && op.p.Accepted() {
      var forward :| WritesTo(rows, op.p, op.meta, forward, after);
      WriteKeepsLinked(rows, op.p, op.meta, forward);
    }
  }

  // ----------------------------------------------------------------- every run

  /**
   In every sequential run, whichever of the two was written first and however often either is
   rewritten, a stored predecessor of the same namespace carries a mark after every call.
   */
  lemma {:induction false} RunKeepsLinked(trace: seq<Rows>, ops: seq<Op>, n: nat)
    requires Run(trace, ops) && ValidOps(ops) && n <= |ops|
    requires WellFormed(trace[0]) && Linked(trace[0])
    ensures WellFormed(trace[n]) && Linked(trace[n])
  {
    if n > 0 {
      RunKeepsLinked(trace, ops, n - 1);
      assert Step(trace[n - 1], ops[n - 1], trace[n]);
      StepKeepsWellFormed(trace[n - 1], ops[n - 1], trace[n]);
      StepKeepsLinked(trace[n - 1], ops[n - 1], trace[n]);
    }
  }

  /** The accepted payloads written to one location, in order. */
  function WritesAt(ops: seq<Op>, l: Loc): seq<Payload> {
    if ops == [] then [] else
    var before := WritesAt(ops[..|ops| - 1], l);
    var op := ops[|ops| - 1];
    if op.WriteOp? && op.p.Accepted() && op.p.Home() == l then before + [op.p] else before
  }

  /** The i-th write hashes differently from the one before it, or is the first. */
  predicate Differs(writes: seq<Payload>, i: nat)
    requires i < |writes|
  {
    i == 0 || Hash(writes[i]) != Hash(writes[i - 1])
  }

  function Changes(writes: seq<Payload>): nat { |set i: nat | i < |writes| && Differs(writes, i)| }

  lemma SameDiffers(writes: seq<Payload>, p: Payload, i: nat)
    requires i < |writes|
    ensures Differs(writes + [p], i) <==> Differs(writes, i)
  {
    assert (writes + [p])[i] == writes[i];
    if i > 0 { assert (writes + [p])[i - 1] == writes[i - 1]; }
  }

  lemma ChangesAppend(writes: seq<Payload>, p: Payload)
    ensures Changes(writes + [p]) ==
      Changes(writes) + if writes == [] || Hash(writes[|writes| - 1]) != Hash(p) then 1 else 0
  {
    var n := |writes|;
    var all := writes + [p];
    var fewer := set i: nat | i < n && Differs(writes, i);
    var more := set i: nat | i < |all| && Differs(all, i);
    forall i: nat | i < n ensures Differs(all, i) <==> Differs(writes, i) { SameDiffers(writes, p, i); }
    if Differs(all, n) {
      assert more == fewer + {n};
    } else {
      assert more == fewer;
    }
  }

  /** The row at `l` is what these writes to it leave behind. */
  ghost predicate Counted(rows: Rows, l: Loc, writes: seq<Payload>) {
    && (l in rows <==> writes != [])
    && (l in rows ==> rows[l].version == Changes(writes) && rows[l].hash == Hash(writes[|writes| - 1]))
  }

  lemma StepCounts(rows: Rows, op: Op, after: Rows, l: Loc, writes: seq<Payload>)
    requires Step(rows, op, after) && Counted(rows, l, writes)
    ensures Counted(after, l, if op.WriteOp? && op.p.Accepted() && op.p.Home() == l then writes + [op.p] else writes)
  {
    if op.WriteOp? && op.p.Accepted() && op.p.Home() == l {
      ChangesAppend(writes, op.p);
    }
  }

  /**
   Over a run from the empty store, a row exists exactly when its key was written, its version is the
   number of writes that changed the hash, and its hash is that of the last write, however many marks
   landed between.
   */
  lemma {:induction false} VersionCountsChanges(trace: seq<Rows>, ops: seq<Op>, n: nat, l: Loc)
    requires Run(trace, ops) && n <= |ops| && trace[0] == map[]
    ensures Counted(trace[n], l, WritesAt(ops[..n], l))
  {
    if n > 0 {
      VersionCountsChanges(trace, ops, n - 1, l);
      assert ops[..n][..n - 1] == ops[..n - 1];
      assert Step(trace[n - 1], ops[n - 1], trace[n]);
      StepCounts(trace[n - 1], ops[n - 1], trace[n], l, WritesAt(ops[..n - 1], l));
    }
  }

  // ----------------------------------------------------------------- crash and replay

  /** One attempt that was cut, with the answer its forward scan gave. */
  datatype Attempt = Attempt(forward: Option<string>, steps: nat)

  /** The store after the attempts, each of them scanning the store the one before left behind. */
  ghost predicate Attempts(rows: Rows, p: Payload, meta: Option<Meta>, cuts: seq<Attempt>, after: Rows)
    decreases |cuts|
  {
    if cuts == [] then after == rows else
    && (Unchanged(rows, p) || Admissible(rows, p, cuts[0].forward))
    && Attempts(Cut(rows, p, meta, cuts[0].forward, cuts[0].steps), p, meta, cuts[1..], after)
  }

  /** Once a row is put, further attempts and the final run only add marks of the same successor. */
  lemma {:induction false} AttemptsOnlyMark(rows: Rows, p: Payload, meta: Option<Meta>, done: set<string>, cuts: seq<Attempt>, after: Rows)
    requires Unchanged(rows, p)
    requires Attempts(MarkSet(rows, p.NaturalKey(), done), p, meta, cuts, after)
    ensures exists all: set<string> ::
      done <= all <= done + Elements(p.supersedes) && after == MarkSet(rows, p.NaturalKey(), all)
    decreases |cuts|
  {
    var marked := MarkSet(rows, p.NaturalKey(), done);
    if cuts == [] {
      assert done <= done <= done + Elements(p.supersedes);
    } else {
      var n := cuts[0].steps;
      var next := Cut(marked, p, meta, cuts[0].forward, n);
      var more := if n == 0 then {} else Elements(p.supersedes[..Min(n - 1, |p.supersedes|)]);
      if n > 0 {
        MarkTwice(rows, p.NaturalKey(), done, more);
      }
      assert done + more == (if n == 0 then done else done + more);
      assert next == MarkSet(rows, p.NaturalKey(), done + more);
      AttemptsOnlyMark(rows, p, meta, done + more, cuts[1..], after);
      var all :| done + more <= all <= done + more + Elements(p.supersedes) && after == MarkSet(rows, p.NaturalKey(), all);
      assert done <= all <= done + Elements(p.supersedes);
    }
  }

  /**
   A write cut after any store steps, any number of times, and then run to completion leaves a store
   that one uninterrupted write could have left: no extra version, no missing mark.
   */
  lemma {:induction false} ReplayIsOneWrite(rows: Rows, p: Payload, meta: Option<Meta>, cuts: seq<Attempt>, mid: Rows, forward: Option<string>, after: Rows)
    requires Attempts(rows, p, meta, cuts, mid)
    requires WritesTo(mid, p, meta, forward, after)
    ensures exists first :: WritesTo(rows, p, meta, first, after)
    decreases |cuts|
  {
    if cuts == [] {
      assert WritesTo(rows, p, meta, forward, after);
    } else if cuts[0].steps == 0 {
      ReplayIsOneWrite(rows, p, meta, cuts[1..], mid, forward, after);
    } else {
      var first := cuts[0].forward;
      var put := Upserted(rows, p, meta, first);
      var key := p.NaturalKey();
      var done := Elements(p.supersedes[..Min(cuts[0].steps - 1, |p.supersedes|)]);
      AttemptsOnlyMark(put, p, meta, done, cuts[1..], mid);
      var all :| done <= all <= done + Elements(p.supersedes) && mid == MarkSet(put, key, all);
      MarkTwice(put, key, all, Elements(p.supersedes));
      assert all + Elements(p.supersedes) == Elements(p.supersedes);
      assert WritesTo(rows, p, meta, first, after);
    }
  }

  /** A write that changes content leaves the payload, its references and the write's own metadata in the row. */
  lemma PutCarriesWrite(rows: Rows, p: Payload, meta: Option<Meta>, forward: Option<string>)
    requires p.Valid() && !Unchanged(rows, p)
    ensures
      var l, after := p.Home(), Wrote(rows, p, meta, forward);
      && l in after && after[l].content == p && after[l].meta == meta && after[l].supersedes == p.supersedes
      && after[l].naturalKey == p.NaturalKey() && after[l].supersededBy == forward
  {
  }

  // ----------------------------------------------------------------- write order

  /** The row a write leaves at the payload's own location. */
  ghost function OwnRow(rows: Rows, p: Payload, meta: Option<Meta>, forward: Option<string>): Row {
    var h := p.Home();
    if h !in rows then NewRow(p, meta, 1, forward)
    else if rows[h].hash == Hash(p) then rows[h]
    else NewRow(p, meta, rows[h].version + 1, forward)
  }

  /** A row at `h`, and marks by `k` on the listed keys everywhere else. */
  ghost predicate PutAndMark(rows: Rows, h: Loc, row: Row, k: string, preds: seq<string>, after: Rows) {
    && after.Keys == rows.Keys + {h}
    && after[h] == row
    && forall l :: l in rows && l != h ==>
         after[l] == if rows[l].naturalKey in preds then rows[l].(supersededBy := Some(k)) else rows[l]
  }

  lemma WriteIsPointwise(rows: Rows, p: Payload, meta: Option<Meta>, forward: Option<string>)
    requires WellFormed(rows) && p.Valid()
    ensures PutAndMark(rows, p.Home(), OwnRow(rows, p, meta, forward), p.NaturalKey(), p.supersedes, Wrote(rows, p, meta, forward))
  {
    if p.Home() in rows { assert WellPlaced(p.Home(), rows[p.Home()]); }
  }

  /** No row but `s`'s own, of whatever namespace, lists `k` as superseded. */
  ghost predicate OnlyDeclarer(rows: Rows, s: Loc, k: string) {
    forall l :: l in rows && k in rows[l].supersedes ==> l == s
  }

  /** A successor that is its predecessor's only declarer, in the same namespace, with nothing else shared. */
  ghost predicate SolePair(rows: Rows, s: Payload, p: Payload) {
    && s.Valid() && s.Accepted() && p.Valid() && p.Accepted() && s.Home().ns == p.Home().ns
    && p.NaturalKey() in s.supersedes && OnlyDeclarer(rows, s.Home(), p.NaturalKey())
    && s.NaturalKey() !in p.supersedes
    && (p.Home() in rows ==> s.NaturalKey() !in rows[p.Home()].supersedes)
    && (forall k :: k in s.supersedes ==> k !in p.supersedes)
  }

  /** Two puts with marks commute when the first marks the second's row and they share no other mark. */
  lemma PutsCommute(
    rows: Rows, hs: Loc, hp: Loc, rowS: Row, rowP: Row, ks: string, kp: string, ss: seq<string>, ps: seq<string>,
    mid1: Rows, end1: Rows, mid2: Rows, end2: Rows)
    requires hs != hp && rowS.naturalKey == ks && rowP.naturalKey == kp
    requires kp in ss && ks !in ps && forall k :: k in ss ==> k !in ps
    requires PutAndMark(rows, hs, rowS, ks, ss, mid1)
    requires PutAndMark(mid1, hp, rowP.(supersededBy := Some(ks)), kp, ps, end1)
    requires PutAndMark(rows, hp, rowP, kp, ps, mid2)
    requires PutAndMark(mid2, hs, rowS, ks, ss, end2)
    ensures end1 == end2
  {
    forall l | l in end1 ensures l in end2 && end1[l] == end2[l] {
      if l != hs && l != hp {
        assert l in rows && l in mid1 && l in mid2;
      }
    }
  }

  /**
   A successor and its predecessor of the same namespace may be written in either order: the stores
   are equal, with whatever the predecessor's own scan answered when it was written first.
   */
  lemma WriteOrderIrrelevant(
    rows: Rows, s: Payload, p: Payload, ms: Option<Meta>, mp: Option<Meta>,
    mid1: Rows, end1: Rows, mid2: Rows, end2: Rows, scanS: Option<string>, scanP1: Option<string>, scanP2: Option<string>)
    requires WellFormed(rows) && SolePair(rows, s, p)
    requires WritesTo(rows, s, ms, scanS, mid1) && WritesTo(mid1, p, mp, scanP1, end1)
    requires WritesTo(rows, p, mp, scanP2, mid2) && WritesTo(mid2, s, ms, scanS, end2)
    ensures end1 == end2
  {
    SuccessorFirst(rows, s, p, ms, mp, mid1, end1, scanS, scanP1, scanP2);
    PredecessorFirst(rows, s, p, ms, mp, mid2, end2, scanS, scanP2);
    PairCommutes(rows, s, p, ms, mp, scanS, scanP2, mid1, end1, mid2, end2);
  }

  lemma PairCommutes(
    rows: Rows, s: Payload, p: Payload, ms: Option<Meta>, mp: Option<Meta>, scanS: Option<string>, scanP: Option<string>,
    mid1: Rows, end1: Rows, mid2: Rows, end2: Rows)
    requires WellFormed(rows) && SolePair(rows, s, p)
    requires PutAndMark(rows, s.Home(), OwnRow(rows, s, ms, scanS), s.NaturalKey(), s.supersedes, mid1)
    requires PutAndMark(mid1, p.Home(), OwnRow(rows, p, mp, scanP).(supersededBy := Some(s.NaturalKey())),
                        p.NaturalKey(), p.supersedes, end1)
    requires PutAndMark(rows, p.Home(), OwnRow(rows, p, mp, scanP), p.NaturalKey(), p.supersedes, mid2)
    requires PutAndMark(mid2, s.Home(), OwnRow(rows, s, ms, scanS), s.NaturalKey(), s.supersedes, end2)
    ensures end1 == end2
  {
    OwnRowKey(rows, s, ms, scanS);
    OwnRowKey(rows, p, mp, scanP);
    PutsCommute(rows, s.Home(), p.Home(), OwnRow(rows, s, ms, scanS), OwnRow(rows, p, mp, scanP),
                s.NaturalKey(), p.NaturalKey(), s.supersedes, p.supersedes, mid1, end1, mid2, end2);
  }

  lemma OwnRowKey(rows: Rows, p: Payload, meta: Option<Meta>, forward: Option<string>)
    requires WellFormed(rows)
    ensures OwnRow(rows, p, meta, forward).naturalKey == p.NaturalKey()
  {
    KeyAtHome(rows, p);
  }

  /** Writing the successor first: its own put, then the predecessor's, already marked. */
  lemma SuccessorFirst(
    rows: Rows, s: Payload, p: Payload, ms: Option<Meta>, mp: Option<Meta>, mid: Rows, end: Rows,
    scanS: Option<string>, scanP: Option<string>, otherScan: Option<string>)
    requires WellFormed(rows) && SolePair(rows, s, p)
    requires WritesTo(rows, s, ms, scanS, mid) && WritesTo(mid, p, mp, scanP, end)
    ensures PutAndMark(rows, s.Home(), OwnRow(rows, s, ms, scanS), s.NaturalKey(), s.supersedes, mid)
    ensures PutAndMark(mid, p.Home(), OwnRow(rows, p, mp, otherScan).(supersededBy := Some(s.NaturalKey())),
                       p.NaturalKey(), p.supersedes, end)
  {
    WriteKeepsWellFormed(rows, s, ms, scanS);
    WriteIsPointwise(rows, s, ms, scanS);
    WriteIsPointwise(mid, p, mp, scanP);
    SuccessorIsFound(rows, s, p, ms, scanS, mid, scanP);
    KeyAtHome(rows, p);
    OwnRowMarked(rows, p, mp, scanP, otherScan, s.Home(), OwnRow(rows, s, ms, scanS), s.NaturalKey(), s.supersedes, mid);
  }

  /** Writing the predecessor first: its own put, then the successor's, which it left alone. */
  lemma PredecessorFirst(
    rows: Rows, s: Payload, p: Payload, ms: Option<Meta>, mp: Option<Meta>, mid: Rows, end: Rows,
    scanS: Option<string>, scanP: Option<string>)
    requires WellFormed(rows) && SolePair(rows, s, p)
    requires WritesTo(rows, p, mp, scanP, mid) && WritesTo(mid, s, ms, scanS, end)
    ensures PutAndMark(rows, p.Home(), OwnRow(rows, p, mp, scanP), p.NaturalKey(), p.supersedes, mid)
    ensures PutAndMark(mid, s.Home(), OwnRow(rows, s, ms, scanS), s.NaturalKey(), s.supersedes, end)
  {
    WriteKeepsWellFormed(rows, p, mp, scanP);
    WriteIsPointwise(rows, p, mp, scanP);
    WriteIsPointwise(mid, s, ms, scanS);
    KeyAtHome(rows, s);
    OwnRowUnmarked(rows, s, ms, scanS, p.Home(), OwnRow(rows, p, mp, scanP), p.NaturalKey(), p.supersedes, mid);
  }

  lemma KeyAtHome(rows: Rows, p: Payload)
    requires WellFormed(rows)
    ensures p.Home() in rows ==> rows[p.Home()].naturalKey == p.NaturalKey()
  {
    if p.Home() in rows { assert WellPlaced(p.Home(), rows[p.Home()]); }
  }

  /** A write that does not mark `s` leaves the row a later write of `s` puts. */
  lemma OwnRowUnmarked(rows: Rows, s: Payload, ms: Option<Meta>, scan: Option<string>, h: Loc, row: Row, k: string, preds: seq<string>, mid: Rows)
    requires PutAndMark(rows, h, row, k, preds, mid) && h != s.Home()
    requires s.Home() in rows ==> rows[s.Home()].naturalKey !in preds
    ensures OwnRow(mid, s, ms, scan) == OwnRow(rows, s, ms, scan)
  {
  }

  /** A write that marks `p` leaves the row a later write of `p` puts, but for the mark. */
  lemma OwnRowMarked(rows: Rows, p: Payload, mp: Option<Meta>, scan1: Option<string>, scan2: Option<string>, h: Loc, row: Row, k: string, preds: seq<string>, mid: Rows)
    requires PutAndMark(rows, h, row, k, preds, mid) && h != p.Home()
    requires p.Home() in rows ==> rows[p.Home()].naturalKey in preds
    requires Unchanged(mid, p) || scan1 == Some(k)
    ensures OwnRow(mid, p, mp, scan1) == OwnRow(rows, p, mp, scan2).(supersededBy := Some(k))
  {
  }

  /** After the successor's write, a scan for the predecessor can only answer with the successor. */
  lemma SuccessorIsFound(rows: Rows, s: Payload, p: Payload, ms: Option<Meta>, scanS: Option<string>, mid: Rows, scanP: Option<string>)
    requires WellFormed(rows) && SolePair(rows, s, p)
    requires PutAndMark(rows, s.Home(), OwnRow(rows, s, ms, scanS), s.NaturalKey(), s.supersedes, mid)
    ensures Admissible(mid, p, scanP) <==> scanP == Some(s.NaturalKey())
  {
    var hs := s.Home();
    if hs in rows { assert WellPlaced(hs, rows[hs]); }
    assert mid[hs].naturalKey == s.NaturalKey() && mid[hs].supersedes == s.supersedes;
    assert OnlyDeclarer(mid, hs, p.NaturalKey());
    assert DeclaredNearby(mid, p);
  }

  /** The same rows of both stores list `k`, under the same natural keys. */
  ghost predicate SameDeclarers(a: Rows, b: Rows, k: string) {
    && (forall l :: l in a && k in a[l].supersedes ==> l in b && k in b[l].supersedes && b[l].naturalKey == a[l].naturalKey)
    && (forall l :: l in b && k in b[l].supersedes ==> l in a && k in a[l].supersedes)
  }

  lemma PutKeepsDeclarers(rows: Rows, h: Loc, row: Row, k: string, preds: seq<string>, mid: Rows, ks: string)
    requires PutAndMark(rows, h, row, k, preds, mid)
    requires ks !in row.supersedes && (h in rows ==> ks !in rows[h].supersedes)
    ensures SameDeclarers(rows, mid, ks)
  {
  }

  lemma SameAnswers(a: Rows, b: Rows, s: Payload, scan: Option<string>)
    requires SameDeclarers(a, b, s.NaturalKey())
    ensures Admissible(a, s, scan) <==> Admissible(b, s, scan)
  {
    var ks := s.NaturalKey();
    match scan
    case None =>
    case Some(k) =>
      if Admissible(a, s, scan) {
        var l :| l in a && ks in a[l].supersedes && a[l].naturalKey == k;
        assert l in b && ks in b[l].supersedes && b[l].naturalKey == k;
      }
      if Admissible(b, s, scan) {
        var l :| l in b && ks in b[l].supersedes && b[l].naturalKey == k;
        assert l in a && ks in a[l].supersedes && a[l].naturalKey == k;
      }
  }

  /** The predecessor's write leaves every answer of a scan for the successor as it was. */
  lemma ScanForSuccessorUnaffected(rows: Rows, s: Payload, p: Payload, mp: Option<Meta>, scanP: Option<string>, scanS: Option<string>)
    requires WellFormed(rows) && SolePair(rows, s, p)
    ensures Admissible(Wrote(rows, p, mp, scanP), s, scanS) <==> Admissible(rows, s, scanS)
  {
    var mid := Wrote(rows, p, mp, scanP);
    WriteIsPointwise(rows, p, mp, scanP);
    PutKeepsDeclarers(rows, p.Home(), OwnRow(rows, p, mp, scanP), p.NaturalKey(), p.supersedes, mid, s.NaturalKey());
    SameAnswers(rows, mid, s, scanS);
  }

  /** The two orders as functions of the store: whatever each first scan answers, the results agree. */
  lemma OrdersAgree(rows: Rows, s: Payload, p: Payload, ms: Option<Meta>, mp: Option<Meta>, scanS: Option<string>, scanP: Option<string>)
    requires WellFormed(rows) && SolePair(rows, s, p)
    requires Admissible(rows, s, scanS) && Admissible(rows, p, scanP)
    ensures Wrote(Wrote(rows, s, ms, scanS), p, mp, Some(s.NaturalKey())) == Wrote(Wrote(rows, p, mp, scanP), s, ms, scanS)
  {
    var mid1, mid2 := Wrote(rows, s, ms, scanS), Wrote(rows, p, mp, scanP);
    WriteIsPointwise(rows, s, ms, scanS);
    SuccessorIsFound(rows, s, p, ms, scanS, mid1, Some(s.NaturalKey()));
    ScanForSuccessorUnaffected(rows, s, p, mp, scanP, scanS);
    WriteOrderIrrelevant(rows, s, p, ms, mp, mid1, Wrote(mid1, p, mp, Some(s.NaturalKey())), mid2, Wrote(mid2, s, ms, scanS),
                         scanS, Some(s.NaturalKey()), scanP);
  }

  // ----------------------------------------------------------------- where marks are lost

  /**
   Rewriting a record with changed content rebuilds its row, so a mark survives every possible scan
   exactly when some row of the record's own namespace declares it: a mark that came from another
   namespace, or from the marking call alone, can be lost.
   */
  lemma RewriteMayLoseMark(rows: Rows, p: Payload, meta: Option<Meta>)
    requires WellFormed(rows) && p.Valid() && p.Accepted() && !Unchanged(rows, p)
    ensures DeclaredNearby(rows, p) <==>
      forall forward, after: Rows :: WritesTo(rows, p, meta, forward, after) ==> after[p.Home()].supersededBy.Some?
  {
    HomeIsLocated(p);
    if !DeclaredNearby(rows, p) {
      var after := Wrote(rows, p, meta, None);
      assert WritesTo(rows, p, meta, None, after);
      assert after[p.Home()].supersededBy.None?;
    }
  }
  /** Writing `p`, then a successor of it from another namespace, then `p`'s key with other content. */
  lemma MarkIsLost(p: Payload, s: Payload, q: Payload) returns (trace: seq<Rows>)
    requires p.Valid() && p.Accepted() && s.Valid() && s.Accepted() && q.Valid() && q.Accepted()
    requires p.NaturalKey() == q.NaturalKey() && p.Home() == q.Home() && p.supersedes == q.supersedes == [] && Hash(p) != Hash(q)
    requires s.supersedes == [p.NaturalKey()] && s.Home().ns != p.Home().ns
    ensures Run(trace, [WriteOp(p, None), WriteOp(s, None), WriteOp(q, None)]) && trace[0] == map[]
    ensures p.Home() in trace[2] && trace[2][p.Home()].supersededBy == Some(s.NaturalKey())
    ensures p.Home() in trace[3] && trace[3][p.Home()].supersededBy.None?
    ensures s.Home() in trace[3] && p.NaturalKey() in trace[3][s.Home()].supersedes
  {
    var r0: Rows := map[];
    var r1, r2, r3 := MarkIsLostStores(p, s, q);
    assert WritesTo(r0, p, None, None, r1) && WritesTo(r1, s, None, None, r2) && WritesTo(r2, q, None, None, r3);
    trace := [r0, r1, r2, r3];
    var ops := [WriteOp(p, None), WriteOp(s, None), WriteOp(q, None)];
    assert Step(trace[0], ops[0], trace[1]) && Step(trace[1], ops[1], trace[2]) && Step(trace[2], ops[2], trace[3]);
  }

  lemma MarkIsLostStores(p: Payload, s: Payload, q: Payload) returns (r1: Rows, r2: Rows, r3: Rows)
    requires p.Accepted() && s.Accepted() && q.Accepted() && s.NaturalKey() != p.NaturalKey()
    requires p.NaturalKey() == q.NaturalKey() && p.Home() == q.Home() && p.supersedes == q.supersedes == [] && Hash(p) != Hash(q)
    requires s.supersedes == [p.NaturalKey()] && s.Home().ns != p.Home().ns
    ensures WritesTo(map[], p, None, None, r1) && WritesTo(r1, s, None, None, r2) && WritesTo(r2, q, None, None, r3)
    ensures p.Home() in r2 && r2[p.Home()].supersededBy == Some(s.NaturalKey())
    ensures p.Home() in r3 && r3[p.Home()].supersededBy.None?
    ensures s.Home() in r3 && p.NaturalKey() in r3[s.Home()].supersedes
  {
    r1 := Wrote(map[], p, None, None);
    assert r1 == map[p.Home() := NewRow(p, None, 1, None)];
    r2 := Wrote(r1, s, None, None);
    assert r2.Keys == {p.Home(), s.Home()} && r2[s.Home()].supersedes == [p.NaturalKey()];
    r3 := Wrote(r2, q, None, None);
  }

  /** Any record without references of its own can lose a mark this way, to a successor of another type. */
  lemma AnyMarkCanBeLost(p: Payload, ptype: string) returns (s: Payload, q: Payload, trace: seq<Rows>)
    requires p.Valid() && p.Accepted() && p.supersedes == []
    requires ptype in REGISTRY && IsSegment(ptype) && ptype != p.ptype
    ensures Run(trace, [WriteOp(p, None), WriteOp(s, None), WriteOp(q, None)]) && trace[0] == map[]
    ensures p.Home() in trace[2] && trace[2][p.Home()].supersededBy == Some(s.NaturalKey())
    ensures p.Home() in trace[3] && trace[3][p.Home()].supersededBy.None?
    ensures s.Home() in trace[3] && p.NaturalKey() in trace[3][s.Home()].supersedes
  {
    s := Successor(p, ptype);
    q := p.(body := p.body + ['x']);
    assert Hash(p).semantic.body == p.body && Hash(q).semantic.body == q.body;
    trace := MarkIsLost(p, s, q);
  }

  lemma Successor(p: Payload, ptype: string) returns (s: Payload)
    requires p.Valid() && p.Accepted() && ptype in REGISTRY && IsSegment(ptype) && ptype != p.ptype
    ensures s.Valid() && s.Accepted() && s.supersedes == [p.NaturalKey()] && s.Home().ns != p.Home().ns
  {
    s := Payload(ptype, p.project, p.identifier, [p.NaturalKey()], None, [], 1);
    HomeIsLocated(p);
    SplitThree(s.ptype, s.project, s.identifier, ':');
    assert Locate(s.NaturalKey()).ns.ptype == ptype;
  }
}
