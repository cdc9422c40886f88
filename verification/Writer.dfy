/**
 The deterministic writer over the record store: content-hash upsert, predecessor marks and the
 paged forward scan. Each method is proved against the functions of the first section; what those
 functions mean over whole runs is proved in WriterRuns.
 */
module Writer {
  import opened Wrappers
  import opened Text
  import opened Errors
  import opened Records

  // ----------------------------------------------------------------- specification

  /** The rows whose natural key is in `preds` carry the mark, all others are untouched. */
  ghost function MarkSet(rows: Rows, successor: string, preds: set<string>): (r: Rows)
    ensures r.Keys == rows.Keys
  {
    map l | l in rows ::
      if rows[l].naturalKey in preds then rows[l].(supersededBy := Some(successor)) else rows[l]
  }

  ghost function Elements(s: seq<string>): set<string> { set x | x in s }

  /** The row built for a payload; `forward` is the successor the forward scan found. */
  function NewRow(p: Payload, meta: Option<Meta>, version: int, forward: Option<string>): Row {
    Row(p, Hash(p), version, p.NaturalKey(), p.supersedes, meta, forward)
  }

  /** A row is put unless the stored hash is already the payload's. */
  ghost function Upserted(rows: Rows, p: Payload, meta: Option<Meta>, forward: Option<string>): Rows {
    var l := p.Home();
    if l !in rows then rows[l := NewRow(p, meta, 1, forward)]
    else if rows[l].hash == Hash(p) then rows
    else rows[l := NewRow(p, meta, rows[l].version + 1, forward)]
  }

  /** The store after one uninterrupted write. */
  ghost function Wrote(rows: Rows, p: Payload, meta: Option<Meta>, forward: Option<string>): Rows {
    MarkSet(Upserted(rows, p, meta, forward), p.NaturalKey(), Elements(p.supersedes))
  }

  /**
   The store when a write stops after its n-th step: the upsert is the first step, and every further
   step marks one declared predecessor.
   */
  ghost function Cut(rows: Rows, p: Payload, meta: Option<Meta>, forward: Option<string>, n: nat): Rows {
    if n == 0 then rows else
    MarkSet(Upserted(rows, p, meta, forward), p.NaturalKey(), Elements(p.supersedes[..Min(n - 1, |p.supersedes|)]))
  }

  /** The number of steps of a whole write. */
  function WholeWrite(p: Payload): nat { 1 + |p.supersedes| }

  lemma WholeWriteIsWrote(rows: Rows, p: Payload, meta: Option<Meta>, forward: Option<string>)
    ensures Cut(rows, p, meta, forward, WholeWrite(p)) == Wrote(rows, p, meta, forward)
  {
    assert p.supersedes[..|p.supersedes|] == p.supersedes;
  }

  /**
   What a forward scan that does not fail may answer. It reads at least every row of the payload's
   own namespace; the store's prefix search can add rows of others.
   */
  ghost predicate Admissible(rows: Rows, p: Payload, forward: Option<string>) {
    match forward
    case Some(k) => exists l :: l in rows && p.NaturalKey() in rows[l].supersedes && rows[l].naturalKey == k
    case None => !DeclaredNearby(rows, p)
  }

  /** Some row of the payload's own namespace declares that it supersedes the payload's key. */
  ghost predicate DeclaredNearby(rows: Rows, p: Payload) {
    exists l :: l in rows && l.ns == p.Home().ns && p.NaturalKey() in rows[l].supersedes
  }

  /** The stored row already has the payload's hash, so no row is put. */
  ghost predicate Unchanged(rows: Rows, p: Payload) {
    p.Home() in rows && rows[p.Home()].hash == Hash(p)
  }

  /** One accepted write, with the answer its forward scan gave if it put a row. */
  ghost predicate WritesTo(rows: Rows, p: Payload, meta: Option<Meta>, forward: Option<string>, after: Rows) {
    (Unchanged(rows, p) || Admissible(rows, p, forward)) && after == Wrote(rows, p, meta, forward)
  }

  /** Some of these keys has a row. */
  ghost predicate AnyStored(rows: Rows, keys: seq<string>) {
    exists k :: k in keys && IsNaturalKey(k) && Locate(k) in rows
  }

  /** A write of the payload has something to put: its own row or a mark. */
  ghost predicate PutDue(rows: Rows, p: Payload) { !Unchanged(rows, p) || AnyStored(rows, p.supersedes) }

  /** What one call does to the rows, when the store can be searched. */
  datatype Op = WriteOp(p: Payload, meta: Option<Meta>) | MarkOp(successor: string, preds: seq<string>)

  ghost predicate Step(rows: Rows, op: Op, after: Rows) {
    match op
    case WriteOp(p, meta) =>
      if p.Accepted() then exists forward :: WritesTo(rows, p, meta, forward, after) else after == rows
    case MarkOp(successor, preds) => after == MarkSet(rows, successor, Elements(WellShaped(preds)))
  }

  /** A sequential run: `trace[i]` is the store before the i-th call. */
  ghost predicate Run(trace: seq<Rows>, ops: seq<Op>) {
    |trace| == |ops| + 1 && forall i :: 0 <= i < |ops| ==> Step(trace[i], ops[i], trace[i + 1])
  }

  /** Every written payload is one that construction can produce. */
  ghost predicate ValidOps(ops: seq<Op>) {
    forall i :: 0 <= i < |ops| && ops[i].WriteOp? ==> ops[i].p.Valid()
  }

  /** The leading references that have natural-key shape. */
  ghost function WellShaped(preds: seq<string>): seq<string> {
    if preds == [] || !IsNaturalKey(preds[0]) then [] else [preds[0]] + WellShaped(preds[1..])
  }

  lemma {:induction false} WellShapedPrefix(preds: seq<string>, n: nat)
    requires n <= |preds|
    requires forall i :: 0 <= i < n ==> IsNaturalKey(preds[i])
    requires n < |preds| ==> !IsNaturalKey(preds[n])
    ensures WellShaped(preds) == preds[..n]
  {
    if n > 0 {
      WellShapedPrefix(preds[1..], n - 1);
      assert preds[..n] == [preds[0]] + preds[1..][..n - 1];
    } else {
      assert preds[..n] == [];
    }
  }

  lemma {:induction false} PrefixIsWellShaped(preds: seq<string>, n: nat)
    requires n <= |preds| && forall i :: 0 <= i < n ==> IsNaturalKey(preds[i])
    ensures preds[..n] <= WellShaped(preds)
  {
    if n > 0 {
      PrefixIsWellShaped(preds[1..], n - 1);
      assert preds[..n] == [preds[0]] + preds[1..][..n - 1];
    }
  }

  // ----------------------------------------------------------------- the store

  datatype StoreError = StoreError

  function Dotted(ns: Namespace): string { ns.root + ['.'] + ns.project + ['.'] + ns.ptype }

  /** The store selects by textual prefix of the dotted namespace. */
  predicate InScope(ns: Namespace, prefix: Namespace) { StartsWith(Dotted(ns), Dotted(prefix)) }

  /** The rows in scope, in the order the store lists them. */
  function Listing(rows: Rows, order: seq<Loc>, prefix: Namespace): (r: seq<Row>)
    requires forall i :: 0 <= i < |order| ==> order[i] in rows
  {
    if order == [] then []
    else (if InScope(order[0].ns, prefix) then [rows[order[0]]] else []) + Listing(rows, order[1..], prefix)
  }

  lemma {:induction false} ListingHas(rows: Rows, order: seq<Loc>, prefix: Namespace)
    requires forall i :: 0 <= i < |order| ==> order[i] in rows
    ensures forall r :: r in Listing(rows, order, prefix) <==>
      exists i :: 0 <= i < |order| && InScope(order[i].ns, prefix) && rows[order[i]] == r
  {
    if order != [] {
      ListingHas(rows, order[1..], prefix);
      var tail := Listing(rows, order[1..], prefix);
      forall r | r in Listing(rows, order, prefix)
        ensures exists i :: 0 <= i < |order| && InScope(order[i].ns, prefix) && rows[order[i]] == r
      {
        if r in tail {
          var i :| 0 <= i < |order[1..]| && InScope(order[1..][i].ns, prefix) && rows[order[1..][i]] == r;
          assert order[i + 1] == order[1..][i];
        } else {
          assert InScope(order[0].ns, prefix) && rows[order[0]] == r;
        }
      }
      forall i | 0 <= i < |order| && InScope(order[i].ns, prefix)
        ensures rows[order[i]] in Listing(rows, order, prefix)
      {
        if i > 0 { assert order[1..][i - 1] == order[i]; }
      }
    }
  }

  /** The store, and how it is going to fail. */
  class RecordStore {
    var rows: Rows
    var order: seq<Loc>
    var health: Health

    ghost predicate Valid()
      reads this`rows, this`order
    {
      && WellFormed(rows)
      && (forall i, j :: 0 <= i < j < |order| ==> order[i] != order[j])
      && (forall l :: l in order <==> l in rows)
    }

    constructor ()
      ensures Valid() && rows == map[] && health == HEALTHY
    {
      rows := map[];
      order := [];
      health := HEALTHY;
    }

    method AGet(l: Loc) returns (raised: Option<Exc>, r: Option<Row>)
      modifies this`health
      ensures raised == old(health).ReadRaises() && health == old(health).Sooner()
      ensures r == if raised.None? && l in rows then Some(rows[l]) else None
    {
      raised, r := health.ReadRaises(), None;
      health := health.Sooner();
      if raised.None? && l in rows { r := Some(rows[l]); }
    }

    /** A put says nothing about where in the listing the row ends up. */
    method APut(l: Loc, r: Row) returns (raised: Option<Exc>)
      requires Valid() && WellPlaced(l, r)
      modifies this
      ensures Valid() && raised == old(health).Raises() && health == old(health).Sooner()
      ensures rows == if raised.None? then old(rows)[l := r] else old(rows)
    {
      raised := health.Raises();
      health := health.Sooner();
      if raised.None? {
        if l !in rows {
          order := [l] + order;
        }
        rows := rows[l := r];
      }
    }

    /** One page of the listing, or an error. */
    method ASearch(prefix: Namespace, limit: nat, offset: nat) returns (page: Result<seq<Row>, StoreError>)
      requires Valid()
      modifies this`health
      ensures page.Failure? <==> old(health).searches == Some(0)
      ensures old(health).Leads(health)
      ensures page.Success? ==>
        var all := Listing(rows, order, prefix);
        page.value == all[Min(offset, |all|)..Min(offset + limit, |all|)]
    {
      if health.searches == Some(0) { return Failure(StoreError); }
      if health.searches.Some? { health := health.(searches := Some(health.searches.value - 1)); }
      var all := Listing(rows, order, prefix);
      return Success(all[Min(offset, |all|)..Min(offset + limit, |all|)]);
    }
  }

  // ----------------------------------------------------------------- supersession

  datatype WriteError =
    | UnknownType(ptype: string)
    | BadNamespace(invalid: seq<string>)
    | MalformedKey(key: string)
    | Raised(exc: Exc)

  /** Marks by one successor accumulate. */
  lemma MarkTwice(rows: Rows, successor: string, first: set<string>, second: set<string>)
    ensures MarkSet(MarkSet(rows, successor, first), successor, second) == MarkSet(rows, successor, first + second)
  {
  }

  /** Marking one located row is marking the set that holds only its key. */
  lemma MarkOne(rows: Rows, successor: string, k: string)
    requires WellFormed(rows) && IsNaturalKey(k)
    ensures Locate(k) in rows ==>
      rows[Locate(k) := rows[Locate(k)].(supersededBy := Some(successor))] == MarkSet(rows, successor, {k})
    ensures Locate(k) !in rows ==> rows == MarkSet(rows, successor, {k})
  {
    forall l | l in rows && rows[l].naturalKey == k ensures l == Locate(k) {
      assert WellPlaced(l, rows[l]);
    }
    if Locate(k) in rows {
      assert WellPlaced(Locate(k), rows[Locate(k)]);
      assert rows[Locate(k)].naturalKey == k;
    }
  }

  lemma MarkKeepsWellFormed(rows: Rows, successor: string, preds: set<string>)
    requires WellFormed(rows)
    ensures WellFormed(MarkSet(rows, successor, preds))
  {
    forall l | l in rows ensures WellPlaced(l, MarkSet(rows, successor, preds)[l]) {
      assert WellPlaced(l, rows[l]);
    }
  }

  lemma MarkedIsWellPlaced(rows: Rows, l: Loc, successor: string)
    requires WellFormed(rows) && l in rows
    ensures WellPlaced(l, rows[l].(supersededBy := Some(successor)))
  {
    assert WellPlaced(l, rows[l]);
  }

  /** Marks one predecessor if it is stored. */
  method MarkStored(store: RecordStore, successor: string, pred: string) returns (raised: Option<Exc>)
    requires store.Valid() && IsNaturalKey(pred)
    modifies store
    ensures store.Valid() && old(store.health).Leads(store.health) && (raised.Some? ==> old(store.health).MayRaise(raised.value))
    ensures raised.Some? && Embeds(raised.value) ==> Locate(pred) in old(store.rows)
    ensures store.rows == if raised.None? then MarkSet(old(store.rows), successor, {pred}) else old(store.rows)
  {
    MarkOne(store.rows, successor, pred);
    var l := Locate(pred);
    var existing;
    raised, existing := store.AGet(l);
    if raised.None? && existing.Some? {
      MarkedIsWellPlaced(store.rows, l, successor);
      raised := store.APut(l, existing.value.(supersededBy := Some(successor)));
    }
  }

  /** Marks each predecessor in turn; a malformed key or a failing store stops the loop after the marks before it. */
  method ApplySupersessions(store: RecordStore, successor: string, preds: seq<string>)
    returns (r: Result<(), WriteError>, ghost done: nat)
    requires store.Valid()
    modifies store
    ensures store.Valid() && old(store.health).Leads(store.health) && (r.Success? || r.error.MalformedKey? || r.error.Raised?)
    ensures done <= |preds| && store.rows == MarkSet(old(store.rows), successor, Elements(preds[..done]))
    ensures r.Success? ==> done == |preds| && preds == WellShaped(preds)
    ensures r.Failure? && r.error.MalformedKey? ==> preds[..done] == WellShaped(preds) != preds
    ensures r.Failure? && r.error.Raised? ==> preds[..done] <= WellShaped(preds) && old(store.health).MayRaise(r.error.exc)
    ensures r.Failure? && r.error.Raised? && Embeds(r.error.exc) ==> AnyStored(old(store.rows), preds)
  {
    ghost var before := store.rows;
    ghost var marked: set<string> := {};
    assert store.rows == MarkSet(before, successor, marked);
    for i := 0 to |preds|
      invariant store.Valid() && old(store.health).Leads(store.health)
      invariant forall j :: 0 <= j < i ==> IsNaturalKey(preds[j])
      invariant marked == Elements(preds[..i])
      invariant store.rows == MarkSet(before, successor, marked)
    {
      if !IsNaturalKey(preds[i]) {
        WellShapedPrefix(preds, i);
        return Failure(MalformedKey(preds[i])), i;
      }
      var raised := MarkStored(store, successor, preds[i]);
      if raised.Some? {
        PrefixIsWellShaped(preds, i);
        assert preds[i] in preds;
        return Failure(Raised(raised.value)), i;
      }
      MarkTwice(before, successor, marked, {preds[i]});
      marked := marked + {preds[i]};
    }
    WellShapedPrefix(preds, |preds|);
    assert preds[..|preds|] == preds;
    return Success(()), |preds|;
  }

  const FORWARD_PAGE: nat := 100

  ghost predicate NoDeclarer(all: seq<Row>, n: int, key: string) {
    n <= |all| && forall i :: 0 <= i < n ==> key !in all[i].supersedes
  }

  /** Some row declares the key, and `found` is the natural key of the first one. */
  ghost predicate FirstOf(all: seq<Row>, key: string, found: string) {
    exists i :: 0 <= i < |all| && key in all[i].supersedes && all[i].naturalKey == found && NoDeclarer(all, i, key)
  }

  /**
   Reads every page of the namespace until a row declares the key. An answer is the first declarer of
   the whole listing; no answer means that there is none, unless a search failed on the way.
   */
  method ForwardSuccessor(store: RecordStore, key: string, ns: Namespace) returns (found: Option<string>)
    requires store.Valid()
    modifies store`health
    ensures store.Valid() && old(store.health).Leads(store.health)
    ensures found.Some? ==> FirstOf(Listing(store.rows, store.order, ns), key, found.value)
    ensures found.None? && store.health.searches.None? ==>
      NoDeclarer(Listing(store.rows, store.order, ns), |Listing(store.rows, store.order, ns)|, key)
  {
    ghost var all := Listing(store.rows, store.order, ns);
    var offset: nat := 0;
    while true
      invariant store.Valid() && old(store.health).Leads(store.health)
      invariant NoDeclarer(all, Min(offset, |all|), key)
      invariant offset <= |all|
      decreases |all| + FORWARD_PAGE - offset
    {
      var page := store.ASearch(ns, FORWARD_PAGE, offset);
      if page.Failure? { return None; }
      var hit := FirstDeclarer(page.value, key, all, offset);
      if hit.Some? { return hit; }
      if |page.value| < FORWARD_PAGE { return None; }
      offset := offset + FORWARD_PAGE;
    }
  }

  /** The first row of the page that declares the key. */
  method FirstDeclarer(page: seq<Row>, key: string, ghost all: seq<Row>, ghost offset: nat) returns (hit: Option<string>)
    requires offset + |page| <= |all| && page == all[offset..offset + |page|] && NoDeclarer(all, offset, key)
    ensures hit.None? ==> NoDeclarer(all, offset + |page|, key)
    ensures hit.Some? ==> FirstOf(all, key, hit.value)
  {
    for i := 0 to |page|
      invariant NoDeclarer(all, offset + i, key)
    {
      assert page[i] == all[offset + i];
      if key in page[i].supersedes {
        return Some(page[i].naturalKey);
      }
    }
    return None;
  }

  // ----------------------------------------------------------------- write

  /** The segments of a namespace that break the naming rule, in order. */
  method ValidateNamespace(ns: Namespace) returns (invalid: seq<string>)
    ensures invalid == [] <==> ValidNamespace(ns)
    ensures forall x :: x in invalid ==> !IsSegment(x)
  {
    var parts := [ns.root, ns.project, ns.ptype];
    invalid := [];
    for i := 0 to 3
      invariant invalid == [] <==> forall j :: 0 <= j < i ==> IsSegment(parts[j])
      invariant forall x :: x in invalid ==> !IsSegment(x)
    {
      if !IsSegment(parts[i]) { invalid := invalid + [parts[i]]; }
    }
    assert ValidNamespace(ns) <==> IsSegment(parts[0]) && IsSegment(parts[1]) && IsSegment(parts[2]);
  }

  /** A declarer found in the listing is an admissible answer, and so is none if there is none. */
  lemma ScanIsAdmissible(rows: Rows, order: seq<Loc>, p: Payload, found: Option<string>)
    requires forall l :: l in order <==> l in rows
    requires
      var all := Listing(rows, order, p.Home().ns);
      match found
      case None => NoDeclarer(all, |all|, p.NaturalKey())
      case Some(k) => FirstOf(all, p.NaturalKey(), k)
    ensures Admissible(rows, p, found)
  {
    var all := Listing(rows, order, p.Home().ns);
    ListingHas(rows, order, p.Home().ns);
    match found
    case Some(k) =>
      var i :| 0 <= i < |all| && p.NaturalKey() in all[i].supersedes && all[i].naturalKey == k;
      assert all[i] in all;
    case None =>
      forall l | l in rows && l.ns == p.Home().ns ensures p.NaturalKey() !in rows[l].supersedes {
        var i :| 0 <= i < |order| && order[i] == l;
        assert rows[order[i]] in all;
      }
  }

  /** One payload per natural key, the last one of the batch, in the order the keys first occur. */
  function Collapse(payloads: seq<Payload>): (r: seq<Payload>)
    ensures |r| <= |payloads|
  {
    if payloads == [] then [] else
    var before := Collapse(payloads[..|payloads| - 1]);
    var p := payloads[|payloads| - 1];
    if exists i :: 0 <= i < |before| && before[i].NaturalKey() == p.NaturalKey()
    then seq(|before|, i requires 0 <= i < |before| => if before[i].NaturalKey() == p.NaturalKey() then p else before[i])
    else before + [p]
  }

  function Values(keys: seq<string>, m: map<string, Payload>): seq<Payload>
    requires forall k :: k in keys ==> k in m
  {
    seq(|keys|, i requires 0 <= i < |keys| => m[keys[i]])
  }

  /** Updating the dictionary follows the collapsed list. */
  lemma CollapseAppend(keys: seq<string>, m: map<string, Payload>, payloads: seq<Payload>, p: Payload)
    requires forall k :: k in keys <==> k in m
    requires forall k :: k in m ==> m[k].NaturalKey() == k
    requires Values(keys, m) == Collapse(payloads)
    ensures
      var keys' := if p.NaturalKey() in m then keys else keys + [p.NaturalKey()];
      var m' := m[p.NaturalKey() := p];
      (forall k :: k in keys' <==> k in m') && Values(keys', m') == Collapse(payloads + [p])
  {
    var all := payloads + [p];
    assert all[..|all| - 1] == payloads;
    var before := Collapse(payloads);
    assert forall i :: 0 <= i < |keys| ==> before[i].NaturalKey() == keys[i];
    if p.NaturalKey() in m {
      var i :| 0 <= i < |keys| && keys[i] == p.NaturalKey();
      assert before[i].NaturalKey() == p.NaturalKey();
    }
  }

  /** `p` is the last payload of the batch with its natural key. */
  ghost predicate IsLast(payloads: seq<Payload>, p: Payload) {
    exists i :: 0 <= i < |payloads| && payloads[i] == p
      && forall j :: i < j < |payloads| ==> payloads[j].NaturalKey() != p.NaturalKey()
  }

  /** Exactly one payload per natural key of the batch survives, and it is the last one. */
  lemma {:induction false} CollapseKeepsLast(payloads: seq<Payload>)
    ensures forall i, j :: 0 <= i < j < |Collapse(payloads)| ==>
      Collapse(payloads)[i].NaturalKey() != Collapse(payloads)[j].NaturalKey()
    ensures forall p :: p in Collapse(payloads) <==> IsLast(payloads, p)
  {
    if payloads != [] {
      var n := |payloads| - 1;
      var init, last := payloads[..n], payloads[n];
      CollapseKeepsLast(init);
      var before, r := Collapse(init), Collapse(payloads);
      assert IsLast(payloads, last);
      assert init + [last] == payloads;
      forall p: Payload | p.NaturalKey() != last.NaturalKey() ensures IsLast(payloads, p) <==> IsLast(init, p) {
        LastExtends(init, last, p);
      }
      forall p | p in r ensures IsLast(payloads, p) {
        if p.NaturalKey() != last.NaturalKey() { assert p in before; }
      }
      forall p | IsLast(payloads, p) ensures p in r {
        if p.NaturalKey() == last.NaturalKey() {
          assert p == last;
          if i :| 0 <= i < |before| && before[i].NaturalKey() == last.NaturalKey() {
            assert r[i] == last;
          } else {
            assert r == before + [last];
          }
        } else {
          var i :| 0 <= i < |before| && before[i] == p;
          assert r[i] == p;
        }
      }
    }
  }

  lemma LastExtends(init: seq<Payload>, last: Payload, p: Payload)
    requires p.NaturalKey() != last.NaturalKey()
    ensures IsLast(init + [last], p) <==> IsLast(init, p)
  {
    var all := init + [last];
    if IsLast(init, p) {
      var i :| 0 <= i < |init| && init[i] == p && forall j :: i < j < |init| ==> init[j].NaturalKey() != p.NaturalKey();
      assert all[i] == p;
    }
    if IsLast(all, p) {
      var i :| 0 <= i < |all| && all[i] == p && forall j :: i < j < |all| ==> all[j].NaturalKey() != p.NaturalKey();
      assert init[i] == p;
      forall j | i < j < |init| ensures init[j].NaturalKey() != p.NaturalKey() { assert all[j] == init[j]; }
    }
  }

  /** The dictionary is a list of keys in first-seen order and a map from key to the last payload seen. */
  function KeysOf(payloads: seq<Payload>): seq<string> {
    seq(|payloads|, i requires 0 <= i < |payloads| => payloads[i].NaturalKey())
  }

  /** The survivors are in the order in which their keys first occur in the batch. */
  lemma {:induction false} CollapseKeepsOrder(payloads: seq<Payload>)
    ensures KeysOf(Collapse(payloads)) == Distinct(KeysOf(payloads))
  {
    if payloads != [] {
      var n := |payloads| - 1;
      CollapseKeepsOrder(payloads[..n]);
      KeyAppended(payloads[..n], payloads[n]);
      assert KeysOf(payloads)[..n] == KeysOf(payloads[..n]);
    }
  }

  lemma KeyAppended(init: seq<Payload>, p: Payload)
    ensures
      var before, key := KeysOf(Collapse(init)), p.NaturalKey();
      KeysOf(Collapse(init + [p])) == if key in before then before else before + [key]
  {
    var all := init + [p];
    assert all[..|all| - 1] == init;
    var before, keys := Collapse(init), KeysOf(Collapse(init));
    if p.NaturalKey() in keys {
      var i :| 0 <= i < |keys| && keys[i] == p.NaturalKey();
      assert before[i].NaturalKey() == p.NaturalKey();
    } else {
      forall i | 0 <= i < |before| ensures before[i].NaturalKey() != p.NaturalKey() { assert keys[i] in keys; }
    }
  }

  method CollapseBatch(payloads: seq<Payload>) returns (unique: seq<Payload>)
    requires forall i :: 0 <= i < |payloads| ==> payloads[i].Valid()
    ensures unique == Collapse(payloads)
    ensures forall i :: 0 <= i < |unique| ==> unique[i].Valid()
  {
    var keys: seq<string> := [];
    var latest: map<string, Payload> := map[];
    for i := 0 to |payloads|
      invariant forall k :: k in keys <==> k in latest
      invariant forall k :: k in latest ==> latest[k].NaturalKey() == k && latest[k].Valid()
      invariant Values(keys, latest) == Collapse(payloads[..i])
    {
      var p := payloads[i];
      assert payloads[..i + 1] == payloads[..i] + [p];
      CollapseAppend(keys, latest, payloads[..i], p);
      if p.NaturalKey() !in latest {
        keys := keys + [p.NaturalKey()];
      }
      latest := latest[p.NaturalKey() := p];
    }
    assert payloads[..|payloads|] == payloads;
    unique := Values(keys, latest);
  }

  lemma RunExtends(trace: seq<Rows>, ops: seq<Op>, op: Op, after: Rows)
    requires Run(trace, ops) && Step(trace[|ops|], op, after)
    ensures Run(trace + [after], ops + [op])
  {
    var t, o := trace + [after], ops + [op];
    forall i | 0 <= i < |o| ensures Step(t[i], o[i], t[i + 1]) {
      if i < |ops| { assert Step(trace[i], ops[i], trace[i + 1]); }
    }
  }

  /** Writing these payloads in turn. */
  ghost function WriteOps(payloads: seq<Payload>): seq<Op> {
    seq(|payloads|, i requires 0 <= i < |payloads| => WriteOp(payloads[i], None))
  }

  lemma WriteOpsNext(payloads: seq<Payload>, i: nat)
    requires i < |payloads|
    ensures WriteOps(payloads[..i + 1]) == WriteOps(payloads[..i]) + [WriteOp(payloads[i], None)]
  {
  }

  /** A run that wrote the first `i` payloads led from one store to the other. */
  ghost predicate BatchRun(unique: seq<Payload>, i: nat, ops: seq<Op>, trace: seq<Rows>, first: Rows, now: Rows) {
    && i <= |unique| && |ops| == i && ops == WriteOps(unique[..i])
    && Run(trace, ops) && trace[0] == first && trace[i] == now
  }

  /** A whole write of the next payload extends the run. */
  lemma BatchNext(unique: seq<Payload>, i: nat, ops: seq<Op>, trace: seq<Rows>, first: Rows, now: Rows, forward: Option<string>, after: Rows)
    requires BatchRun(unique, i, ops, trace, first, now) && i < |unique| && unique[i].Accepted()
    requires Unchanged(now, unique[i]) || Admissible(now, unique[i], forward)
    requires after == Cut(now, unique[i], None, forward, WholeWrite(unique[i]))
    ensures BatchRun(unique, i + 1, ops + [WriteOp(unique[i], None)], trace + [after], first, after)
  {
    WholeWriteIsWrote(now, unique[i], None, forward);
    assert WritesTo(now, unique[i], None, forward, after);
    RunExtends(trace, ops, WriteOp(unique[i], None), after);
    WriteOpsNext(unique, i);
  }

  /** Putting the new row and then marking the first of the predecessors is a write cut there. */
  lemma PutThenMark(rows: Rows, p: Payload, meta: Option<Meta>, version: int, forward: Option<string>, done: nat, after: Rows)
    requires !Unchanged(rows, p) && done <= |p.supersedes|
    requires version == if p.Home() in rows then rows[p.Home()].version + 1 else 1
    requires after == MarkSet(rows[p.Home() := NewRow(p, meta, version, forward)], p.NaturalKey(), Elements(p.supersedes[..done]))
    ensures after == Cut(rows, p, meta, forward, 1 + done)
  {
  }

  lemma NothingCut(rows: Rows, p: Payload, meta: Option<Meta>)
    ensures Cut(rows, p, meta, None, 0) == rows
  {
  }

  /** With unchanged content there is no put, and the marks are the write. */
  lemma MarkOnly(rows: Rows, p: Payload, meta: Option<Meta>, done: nat)
    requires Unchanged(rows, p) && done <= |p.supersedes|
    ensures MarkSet(rows, p.NaturalKey(), Elements(p.supersedes[..done])) == Cut(rows, p, meta, None, 1 + done)
  {
  }

  lemma MarkNothing(rows: Rows, p: Payload)
    ensures MarkSet(rows, p.NaturalKey(), Elements(p.supersedes[..0])) == rows
  {
  }

  class DeterministicWriter {
    const store: RecordStore

    constructor (store: RecordStore)
      ensures this.store == store
    {
      this.store := store;
    }

    /** Builds the row, asks for a successor that was written first, and puts it. */
    method WriteRecord(p: Payload, version: int, meta: Option<Meta>) returns (raised: Option<Exc>, ghost forward: Option<string>)
      requires store.Valid() && p.Valid() && p.Accepted()
      modifies store
      ensures store.Valid() && old(store.health).Leads(store.health) && (raised.Some? ==> old(store.health).MayRaise(raised.value))
      ensures store.rows ==
        if raised.None? then old(store.rows)[p.Home() := NewRow(p, meta, version, forward)] else old(store.rows)
      ensures store.health.searches.None? || forward.Some? ==> Admissible(old(store.rows), p, forward)
    {
      var found := ForwardSuccessor(store, p.NaturalKey(), p.Home().ns);
      forward := found;
      if store.health.searches.None? || found.Some? {
        ScanIsAdmissible(store.rows, store.order, p, found);
      }
      HomeIsLocated(p);
      raised := store.APut(p.Home(), NewRow(p, meta, version, found));
    }

    /**
     One write. The ghost results name the successor the forward scan answered with and the number of
     steps that were made, so the whole new store is a function of the old one and those two; all steps
     are made unless the payload is refused or the store raises an exception on the way.
     */
    method Write(p: Payload, meta: Option<Meta>)
      returns (r: Result<(), WriteError>, ghost forward: Option<string>, ghost steps: nat)
      requires store.Valid() && p.Valid()
      modifies store
      ensures store.Valid() && old(store.health).Leads(store.health)
      ensures r.Success? || r.error.Raised? <==> p.Accepted()
      ensures r.Success? ==> steps == WholeWrite(p)
      ensures r.Failure? && r.error.Raised? ==> steps <= WholeWrite(p) && old(store.health).MayRaise(r.error.exc)
      ensures r.Failure? && r.error.Raised? && Embeds(r.error.exc) ==> PutDue(old(store.rows), p)
      ensures r.Failure? && !r.error.Raised? ==>
        steps == 0 && (r.error.UnknownType? || (r.error.BadNamespace? && r.error.invalid != []))
      ensures store.rows == Cut(old(store.rows), p, meta, forward, steps)
      ensures steps > 0 && store.health.searches.None? && !Unchanged(old(store.rows), p) ==> Admissible(old(store.rows), p, forward)
    {
      if p.ptype !in REGISTRY {
        return Failure(UnknownType(p.ptype)), None, 0;
      }
      var l := p.Home();
      var invalid := ValidateNamespace(l.ns);
      if invalid != [] {
        return Failure(BadNamespace(invalid)), None, 0;
      }
      r, forward, steps := Upsert(p, meta);
    }

    /** The upsert of an accepted payload: nothing is put if the stored row has the payload's hash. */
    method Upsert(p: Payload, meta: Option<Meta>)
      returns (r: Result<(), WriteError>, ghost forward: Option<string>, ghost steps: nat)
      requires store.Valid() && p.Valid() && p.Accepted()
      modifies store
      ensures store.Valid() && old(store.health).Leads(store.health) && (r.Success? || r.error.Raised?)
      ensures r.Success? ==> steps == WholeWrite(p)
      ensures r.Failure? ==> steps <= WholeWrite(p) && old(store.health).MayRaise(r.error.exc)
      ensures r.Failure? && Embeds(r.error.exc) ==> PutDue(old(store.rows), p)
      ensures store.rows == Cut(old(store.rows), p, meta, forward, steps)
      ensures steps > 0 && store.health.searches.None? && !Unchanged(old(store.rows), p) ==> Admissible(old(store.rows), p, forward)
    {
      var raised, existing := store.AGet(p.Home());
      if raised.Some? { return Failure(Raised(raised.value)), None, 0; }
      ghost var before := store.rows;
      if existing.Some? && existing.value.hash == Hash(p) {
        forward := None;
        r, steps := WriteUnchanged(p, meta);
      } else {
        r, forward, steps := WriteChanged(p, if existing.Some? then existing.value.version + 1 else 1, meta);
      }
    }

    /** A write of content that is stored already: only the marks are made. */
    method WriteUnchanged(p: Payload, ghost meta: Option<Meta>) returns (r: Result<(), WriteError>, ghost steps: nat)
      requires store.Valid() && p.Valid() && p.Accepted() && Unchanged(store.rows, p)
      modifies store
      ensures store.Valid() && old(store.health).Leads(store.health) && (r.Success? || r.error.Raised?)
      ensures r.Success? ==> steps == WholeWrite(p)
      ensures r.Failure? ==> steps <= WholeWrite(p) && old(store.health).MayRaise(r.error.exc)
      ensures r.Failure? && Embeds(r.error.exc) ==> AnyStored(old(store.rows), p.supersedes)
      ensures store.rows == Cut(old(store.rows), p, meta, None, steps)
    {
      ghost var before := store.rows;
      r, steps := MarkDeclared(p);
      MarkOnly(before, p, meta, steps);
      steps := 1 + steps;
    }

    /** A write whose content is new: put the row under its version, then mark the predecessors. */
    method WriteChanged(p: Payload, version: int, meta: Option<Meta>)
      returns (r: Result<(), WriteError>, ghost forward: Option<string>, ghost steps: nat)
      requires store.Valid() && p.Valid() && p.Accepted() && !Unchanged(store.rows, p)
      requires version == if p.Home() in store.rows then store.rows[p.Home()].version + 1 else 1
      modifies store
      ensures store.Valid() && old(store.health).Leads(store.health) && (r.Success? || r.error.Raised?)
      ensures r.Success? ==> steps == WholeWrite(p)
      ensures r.Failure? ==> steps <= WholeWrite(p) && old(store.health).MayRaise(r.error.exc)
      ensures store.rows == Cut(old(store.rows), p, meta, forward, steps)
      ensures steps > 0 && store.health.searches.None? ==> Admissible(old(store.rows), p, forward)
    {
      ghost var before := store.rows;
      var raised;
      raised, forward := WriteRecord(p, version, meta);
      if raised.Some? {
        NothingCut(before, p, meta);
        return Failure(Raised(raised.value)), None, 0;
      }
      ghost var done;
      r, done := MarkDeclared(p);
      PutThenMark(before, p, meta, version, forward, done, store.rows);
      steps := 1 + done;
    }

    /** The last step of a write: mark what the payload declares, if it declares anything. */
    method MarkDeclared(p: Payload) returns (r: Result<(), WriteError>, ghost done: nat)
      requires store.Valid() && p.Valid()
      modifies store
      ensures store.Valid() && old(store.health).Leads(store.health) && (r.Success? || r.error.Raised?)
      ensures done <= |p.supersedes| && (r.Success? ==> done == |p.supersedes|)
      ensures r.Failure? ==> old(store.health).MayRaise(r.error.exc)
      ensures r.Failure? && Embeds(r.error.exc) ==> AnyStored(old(store.rows), p.supersedes)
      ensures store.rows == MarkSet(old(store.rows), p.NaturalKey(), Elements(p.supersedes[..done]))
    {
      r, done := Success(()), 0;
      MarkNothing(store.rows, p);
      if p.supersedes != [] {
        WellShapedPrefix(p.supersedes, |p.supersedes|);
        assert p.supersedes[..|p.supersedes|] == p.supersedes;
        r, done := ApplySupersessions(store, p.NaturalKey(), p.supersedes);
      }
    }

    /**
     Collapses the batch to one payload per natural key and writes those in turn, up to the first that
     is refused or cut short by the store.
     */
    method WriteBatch(payloads: seq<Payload>)
      returns (r: Result<(), WriteError>, ghost ops: seq<Op>, ghost trace: seq<Rows>, ghost forward: Option<string>, ghost steps: nat)
      requires store.Valid() && store.health.searches.None?
      requires forall i :: 0 <= i < |payloads| ==> payloads[i].Valid()
      modifies store
      ensures store.Valid() && old(store.health).Leads(store.health)
      ensures Run(trace, ops) && trace[0] == old(store.rows)
      ensures |ops| <= |Collapse(payloads)| && ops == WriteOps(Collapse(payloads)[..|ops|])
      ensures r.Success? ==> |ops| == |Collapse(payloads)| && store.rows == trace[|ops|]
      ensures r.Failure? ==> |ops| < |Collapse(payloads)|
      ensures r.Failure? ==> (r.error.Raised? <==> Collapse(payloads)[|ops|].Accepted())
      ensures r.Failure? ==> store.rows == Cut(trace[|ops|], Collapse(payloads)[|ops|], None, forward, steps)
      ensures r.Failure? && !r.error.Raised? ==> steps == 0
    {
      var unique := CollapseBatch(payloads);
      ops, trace, forward, steps := [], [store.rows], None, 0;
      for i := 0 to |unique|
        invariant store.Valid() && old(store.health).Leads(store.health)
        invariant BatchRun(unique, i, ops, trace, old(store.rows), store.rows)
      {
        var p := unique[i];
        ghost var now := store.rows;
        r, forward, steps := Write(p, None);
        if r.Failure? { return r, ops, trace, forward, steps; }
        BatchNext(unique, i, ops, trace, old(store.rows), now, forward, store.rows);
        ops, trace := ops + [WriteOp(p, None)], trace + [store.rows];
      }
      return Success(()), ops, trace, None, 0;
    }
  }
}
