/**
 Typed payloads, natural keys and the rows of the memory store.

 The store is a map from a location, a namespace and a store key, to a row. Version-5 UUIDs and
 SHA-256 digests are modelled as injective constructors, so two of them are equal exactly when
 they were derived from equal inputs.
 */
module Records {
  import opened Wrappers
  import opened Text

  datatype StoreKey = Uuid5(seed: string)

  datatype Namespace = Namespace(root: string, project: string, ptype: string)

  datatype Loc = Loc(ns: Namespace, key: StoreKey)

  const ROOT := "fleet_memory"

  /** The payload types a writer accepts. */
  const REGISTRY: set<string> :=
    {"adr", "review_report", "build_outcome", "pattern", "warning", "seed_module", "document"}

  predicate IsLower(c: char) { 'a' <= c <= 'z' }
  predicate IsUpper(c: char) { 'A' <= c <= 'Z' }
  predicate IsDigit(c: char) { '0' <= c <= '9' }

  /** A payload's project or identifier: one or more of `[a-zA-Z0-9_]`. */
  predicate IsIdentifier(s: string) {
    s != "" && forall i :: 0 <= i < |s| ==> IsLower(s[i]) || IsUpper(s[i]) || IsDigit(s[i]) || s[i] == '_'
  }

  /** A namespace segment: one or more of `[a-z0-9_]`. */
  predicate IsSegment(s: string) {
    s != "" && forall i :: 0 <= i < |s| ==> IsLower(s[i]) || IsDigit(s[i]) || s[i] == '_'
  }

  predicate ValidNamespace(ns: Namespace) {
    IsSegment(ns.root) && IsSegment(ns.project) && IsSegment(ns.ptype)
  }

  /** A key has natural-key shape when it has three colon-separated segments. */
  predicate IsNaturalKey(k: string) { |Split(k, ':')| == 3 }

  /** Where a row with this natural key is kept, recomputed from the key alone. */
  function Locate(k: string): Loc
    requires IsNaturalKey(k)
  {
    var parts := Split(k, ':');
    Loc(Namespace(ROOT, parts[1], parts[0]), Uuid5(k))
  }

  /** A typed payload. `body` stands for every field that only the embedding and the hash read. */
  datatype Payload = Payload(
    ptype: string, project: string, identifier: string,
    supersedes: seq<string>, lessons: Option<string>, body: string, version: int)
  {
    function NaturalKey(): string { ptype + [':'] + project + [':'] + identifier }

    function Home(): Loc { Loc(Namespace(ROOT, project, ptype), Uuid5(NaturalKey())) }

    /** What construction guarantees of every payload object. */
    predicate Valid() {
      && IsIdentifier(project)
      && IsIdentifier(identifier)
      && (forall i :: 0 <= i < |supersedes| ==> IsNaturalKey(supersedes[i]))
      && (forall i, j :: 0 <= i < j < |supersedes| ==> supersedes[i] != supersedes[j])
      && NaturalKey() !in supersedes
    }

    /** The writer goes on to the store only past these two checks. */
    predicate Accepted() { ptype in REGISTRY && ValidNamespace(Home().ns) }
  }

  /** The digest covers every field but the version stamp. */
  datatype ContentHash = Sha256(semantic: Payload)

  function Hash(p: Payload): ContentHash { Sha256(p.(version := 0)) }

  /** Two payloads hash alike exactly if they differ in nothing but the version stamp. */
  lemma HashIff(p: Payload, q: Payload)
    ensures Hash(p) == Hash(q) <==>
      && p.ptype == q.ptype && p.project == q.project && p.identifier == q.identifier && p.supersedes == q.supersedes
      && p.lessons == q.lessons && p.body == q.body
  {
    assert Hash(p).semantic == p.(version := 0) && Hash(q).semantic == q.(version := 0);
  }

  /** Envelope metadata the relay persists beside a payload. */
  type Meta = string

  /** A stored value; an absent `supersedes` list is the empty one. */
  datatype Row = Row(
    content: Payload, hash: ContentHash, version: int, naturalKey: string,
    supersedes: seq<string>, meta: Option<Meta>, supersededBy: Option<string>)

  type Rows = map<Loc, Row>

  /** Every row sits at the location its natural key names and describes the payload it holds. */
  ghost predicate WellFormed(rows: Rows) {
    forall l :: l in rows ==> WellPlaced(l, rows[l])
  }

  ghost predicate WellPlaced(l: Loc, r: Row) {
    && IsNaturalKey(r.naturalKey)
    && l == Locate(r.naturalKey)
    && l == r.content.Home()
    && r.hash == Hash(r.content)
    && r.supersedes == r.content.supersedes
    && r.naturalKey !in r.supersedes
  }

  /** The payload's own location is the one its natural key parses back to. */
  lemma HomeIsLocated(p: Payload)
    requires p.Valid() && p.Accepted()
    ensures IsNaturalKey(p.NaturalKey())
    ensures Locate(p.NaturalKey()) == p.Home()
  {
    SplitThree(p.ptype, p.project, p.identifier, ':');
  }

  /** The list with every later repetition of an element removed. */
  function Distinct<T(==,!new)>(s: seq<T>): (r: seq<T>)
    ensures forall i, j :: 0 <= i < j < |r| ==> r[i] != r[j]
    ensures forall x :: x in r <==> x in s
  {
    if s == [] then [] else
    var init := Distinct(s[..|s| - 1]);
    var last := s[|s| - 1];
    assert s == s[..|s| - 1] + [last];
    if last in init then init else init + [last]
  }

  /** Elements stay in the order in which they first occur. */
  lemma {:induction false} DistinctIsInOrder<T(!new)>(s: seq<T>, i: nat, j: nat, n: nat)
    requires i < j < |Distinct(s)| && n < |s| && s[n] == Distinct(s)[j]
    ensures Distinct(s)[i] in s[..n]
  {
    var m := |s| - 1;
    var init := Distinct(s[..m]);
    if n < m {
      assert j < |init| by { assert s[..m][n] == s[n]; }
      DistinctIsInOrder(s[..m], i, j, n);
      assert s[..m][..n] == s[..n];
    } else {
      assert i < |init| && init[i] in init;
    }
  }

  /** A list without repetitions is left as it is. */
  lemma {:induction false} DistinctKeeps<T(!new)>(s: seq<T>)
    requires forall i, j :: 0 <= i < j < |s| ==> s[i] != s[j]
    ensures Distinct(s) == s
  {
    if s != [] {
      var m := |s| - 1;
      DistinctKeeps(s[..m]);
      assert s == s[..m] + [s[m]];
    }
  }
}
