/** Prose chunks are stored under keys derived from the episode and the chunk number. */
module ChunkStore {
  import opened Wrappers
  import opened Errors
  import opened Records

  datatype Chunk = Chunk(index: nat, text: string, sourceRef: Option<string>, project: string)

  datatype ChunkRow = ChunkRow(
    content: string, episodeId: string, index: nat, sourceRef: Option<string>, project: string, meta: Option<Meta>)

  type ChunkRows = map<Loc, ChunkRow>

  // ----------------------------------------------------------------- keys

  function Digit(d: nat): char
    requires d < 10
  {
    "0123456789"[d]
  }

  function Decimal(n: nat): (s: string)
    ensures s != "" && ':' !in s
  {
    if n < 10 then [Digit(n)] else Decimal(n / 10) + [Digit(n % 10)]
  }

  lemma {:induction false} DecimalInjective(a: nat, b: nat)
    requires Decimal(a) == Decimal(b)
    ensures a == b
  {
    var s, t := Decimal(a), Decimal(b);
    assert Digit(a % 10) == s[|s| - 1] && Digit(b % 10) == t[|t| - 1];
    if a >= 10 && b >= 10 {
      assert Decimal(a / 10) == s[..|s| - 1] && Decimal(b / 10) == t[..|t| - 1];
      DecimalInjective(a / 10, b / 10);
    }
  }

  function Seed(episodeId: string, index: nat): string { episodeId + [':'] + Decimal(index) }

  /** The seed tells episode and number apart, also when the episode id contains colons. */
  lemma SeedInjective(e1: string, i1: nat, e2: string, i2: nat)
    requires Seed(e1, i1) == Seed(e2, i2)
    ensures e1 == e2 && i1 == i2
  {
    var s, t := Seed(e1, i1), Seed(e2, i2);
    assert s[|e1|] == ':' && forall k :: |e1| < k < |s| ==> s[k] == Decimal(i1)[k - |e1| - 1];
    assert t[|e2|] == ':' && forall k :: |e2| < k < |t| ==> t[k] == Decimal(i2)[k - |e2| - 1];
    assert |e1| == |e2|;
    assert e1 == s[..|e1|] && e2 == t[..|e2|];
    assert Decimal(i1) == s[|e1| + 1..] && Decimal(i2) == t[|e2| + 1..];
    DecimalInjective(i1, i2);
  }

  function Home(episodeId: string, c: Chunk): Loc {
    Loc(Namespace(ROOT, c.project, "chunk"), Uuid5(Seed(episodeId, c.index)))
  }

  function RowOf(episodeId: string, c: Chunk, meta: Option<Meta>): ChunkRow {
    ChunkRow(c.text, episodeId, c.index, c.sourceRef, c.project, meta)
  }

  // ----------------------------------------------------------------- specification

  /** The store after these chunks are put in order. */
  function PutAll(rows: ChunkRows, episodeId: string, chunks: seq<Chunk>, meta: Option<Meta>): ChunkRows {
    if chunks == [] then rows else
    var last := chunks[|chunks| - 1];
    PutAll(rows, episodeId, chunks[..|chunks| - 1], meta)[Home(episodeId, last) := RowOf(episodeId, last, meta)]
  }

  predicate ChunkNamespaceOk(c: Chunk) { ValidNamespace(Namespace(ROOT, c.project, "chunk")) }

  /** How many chunks come before the first one whose namespace is refused. */
  function Accepted(chunks: seq<Chunk>): (n: nat)
    ensures n <= |chunks|
    ensures forall i :: 0 <= i < n ==> ChunkNamespaceOk(chunks[i])
    ensures n < |chunks| ==> !ChunkNamespaceOk(chunks[n])
  {
    if chunks == [] || !ChunkNamespaceOk(chunks[0]) then 0 else 1 + Accepted(chunks[1..])
  }

  /** Chunks of one episode as the chunker numbers them. */
  ghost predicate Numbered(chunks: seq<Chunk>) {
    forall i :: 0 <= i < |chunks| ==> chunks[i].index == i
  }

  // ----------------------------------------------------------------- the writer

  datatype ChunkError = Refused(ns: Namespace) | Raised(exc: Exc)

  class ChunkWriter {
    var rows: ChunkRows
    var health: Health

    constructor ()
      ensures rows == map[] && health == HEALTHY
    {
      rows, health := map[], HEALTHY;
    }

    method APut(l: Loc, r: ChunkRow) returns (raised: Option<Exc>)
      modifies this
      ensures raised == old(health).Raises() && health == old(health).Sooner()
      ensures rows == if raised.None? then old(rows)[l := r] else old(rows)
    {
      raised := health.Raises();
      health := health.Sooner();
      if raised.None? { rows := rows[l := r]; }
    }

    /**
     Puts the chunks in turn, up to the first that is refused or whose put raises an exception; the
     ghost result is the number of puts made.
     */
    method WriteChunks(episodeId: string, chunks: seq<Chunk>, meta: Option<Meta>)
      returns (r: Result<(), ChunkError>, ghost done: nat)
      modifies this
      ensures old(health).Leads(health)
      ensures done <= Accepted(chunks) && rows == PutAll(old(rows), episodeId, chunks[..done], meta)
      ensures r.Success? ==> done == Accepted(chunks) == |chunks|
      ensures r.Failure? && r.error.Refused? ==> done == Accepted(chunks) < |chunks|
      ensures r.Failure? && r.error.Raised? ==> done < Accepted(chunks) && old(health).MayRaise(r.error.exc)
    {
      for i := 0 to |chunks|
        invariant old(health).Leads(health)
        invariant i <= Accepted(chunks) && rows == PutAll(old(rows), episodeId, chunks[..i], meta)
      {
        var c := chunks[i];
        var ns := Namespace(ROOT, c.project, "chunk");
        if !ValidNamespace(ns) {
          return Failure(Refused(ns)), i;
        }
        NextIsAccepted(chunks, i);
        assert chunks[..i + 1][..i] == chunks[..i];
        var raised := APut(Home(episodeId, c), RowOf(episodeId, c, meta));
        if raised.Some? { return Failure(Raised(raised.value)), i; }
      }
      return Success(()), |chunks|;
    }
  }

  lemma NextIsAccepted(chunks: seq<Chunk>, i: nat)
    requires i < |chunks| && i <= Accepted(chunks) && ChunkNamespaceOk(chunks[i])
    ensures i < Accepted(chunks)
  {
  }

  // ----------------------------------------------------------------- properties

  /** Distinct episodes, or distinct numbers, never share a place. */
  lemma HomesDiffer(e1: string, c1: Chunk, e2: string, c2: Chunk)
    requires e1 != e2 || c1.index != c2.index
    ensures Home(e1, c1) != Home(e2, c2)
  {
    if Seed(e1, c1.index) == Seed(e2, c2.index) { SeedInjective(e1, c1.index, e2, c2.index); }
  }

  /** Each chunk of a numbered episode is found at its own place. */
  lemma {:induction false} PutAllOwn(rows: ChunkRows, episodeId: string, chunks: seq<Chunk>, meta: Option<Meta>, i: nat)
    requires Numbered(chunks) && i < |chunks|
    ensures
      var after := PutAll(rows, episodeId, chunks, meta);
      var l := Home(episodeId, chunks[i]);
      l in after && after[l] == RowOf(episodeId, chunks[i], meta)
  {
    var n := |chunks| - 1;
    if i < n {
      HomesDiffer(episodeId, chunks[i], episodeId, chunks[n]);
      PutAllOwn(rows, episodeId, chunks[..n], meta, i);
    }
  }

  /** Some chunk of the episode belongs at `l`. */
  ghost predicate Owns(episodeId: string, chunks: seq<Chunk>, l: Loc) {
    exists i :: 0 <= i < |chunks| && Home(episodeId, chunks[i]) == l
  }

  /** Every other place is left alone. */
  lemma {:induction false} PutAllOther(rows: ChunkRows, episodeId: string, chunks: seq<Chunk>, meta: Option<Meta>, l: Loc)
    requires !Owns(episodeId, chunks, l)
    ensures
      var after := PutAll(rows, episodeId, chunks, meta);
      (l in after <==> l in rows) && (l in rows ==> after[l] == rows[l])
  {
    if chunks != [] {
      var n := |chunks| - 1;
      assert forall i :: 0 <= i < n ==> chunks[..n][i] == chunks[i];
      assert !Owns(episodeId, chunks[..n], l);
      PutAllOther(rows, episodeId, chunks[..n], meta, l);
      assert Home(episodeId, chunks[n]) != l;
    }
  }

  /** A full run after one cut at any chunk leaves what the full run alone leaves. */
  lemma FullRunAbsorbsPrefix(rows: ChunkRows, episodeId: string, chunks: seq<Chunk>, meta: Option<Meta>, n: nat)
    requires Numbered(chunks) && n <= |chunks|
    ensures PutAll(PutAll(rows, episodeId, chunks[..n], meta), episodeId, chunks, meta) == PutAll(rows, episodeId, chunks, meta)
  {
    var cut := PutAll(rows, episodeId, chunks[..n], meta);
    var once, twice := PutAll(rows, episodeId, chunks, meta), PutAll(cut, episodeId, chunks, meta);
    forall l | l in once || l in twice
      ensures l in once && l in twice && once[l] == twice[l]
    {
      SamePlace(rows, episodeId, chunks, meta, n, l);
    }
  }

  lemma SamePlace(rows: ChunkRows, episodeId: string, chunks: seq<Chunk>, meta: Option<Meta>, n: nat, l: Loc)
    requires Numbered(chunks) && n <= |chunks|
    ensures
      var once := PutAll(rows, episodeId, chunks, meta);
      var twice := PutAll(PutAll(rows, episodeId, chunks[..n], meta), episodeId, chunks, meta);
      (l in once <==> l in twice) && (l in once ==> once[l] == twice[l])
  {
    var cut := PutAll(rows, episodeId, chunks[..n], meta);
    if i :| 0 <= i < |chunks| && Home(episodeId, chunks[i]) == l {
      PutAllOwn(rows, episodeId, chunks, meta, i);
      PutAllOwn(cut, episodeId, chunks, meta, i);
    } else {
      assert forall i :: 0 <= i < n ==> chunks[..n][i] == chunks[i];
      PutAllOther(rows, episodeId, chunks[..n], meta, l);
      PutAllOther(rows, episodeId, chunks, meta, l);
      PutAllOther(cut, episodeId, chunks, meta, l);
    }
  }

  /** The store after attempts that were cut at these chunk counts. */
  function Partial(rows: ChunkRows, episodeId: string, chunks: seq<Chunk>, meta: Option<Meta>, cuts: seq<nat>): ChunkRows
    requires forall i :: 0 <= i < |cuts| ==> cuts[i] <= |chunks|
  {
    if cuts == [] then rows else
    PutAll(Partial(rows, episodeId, chunks, meta, cuts[..|cuts| - 1]), episodeId, chunks[..cuts[|cuts| - 1]], meta)
  }

  /** Any number of partial runs followed by a full one has the effect of one full run. */
  lemma {:induction false} ExactlyOnceEffect(rows: ChunkRows, episodeId: string, chunks: seq<Chunk>, meta: Option<Meta>, cuts: seq<nat>)
    requires Numbered(chunks)
    requires forall i :: 0 <= i < |cuts| ==> cuts[i] <= |chunks|
    ensures PutAll(Partial(rows, episodeId, chunks, meta, cuts), episodeId, chunks, meta) == PutAll(rows, episodeId, chunks, meta)
  {
    if cuts != [] {
      var before := cuts[..|cuts| - 1];
      ExactlyOnceEffect(rows, episodeId, chunks, meta, before);
      FullRunAbsorbsPrefix(Partial(rows, episodeId, chunks, meta, before), episodeId, chunks, meta, cuts[|cuts| - 1]);
    }
  }

  /** The call with these chunks leaves the store as it was. */
  ghost predicate WritesNothing(rows: ChunkRows, episodeId: string, chunks: seq<Chunk>, meta: Option<Meta>) {
    PutAll(rows, episodeId, chunks[..Accepted(chunks)], meta) == rows
  }

  /**
   A refused batch leaves every store as it was exactly when its first chunk is the refused one: the
   namespace is checked chunk by chunk, so chunks of an accepted project before it are already put.
   */
  lemma RefusalWritesNothingIff(episodeId: string, chunks: seq<Chunk>, meta: Option<Meta>)
    requires Accepted(chunks) < |chunks|
    ensures (forall rows: ChunkRows :: WritesNothing(rows, episodeId, chunks, meta)) <==> !ChunkNamespaceOk(chunks[0])
  {
    if ChunkNamespaceOk(chunks[0]) {
      var none: ChunkRows := map[];
      LastIsPut(none, episodeId, chunks[..Accepted(chunks)], meta);
      assert !WritesNothing(none, episodeId, chunks, meta);
    } else {
      forall rows: ChunkRows ensures WritesNothing(rows, episodeId, chunks, meta) {
        assert chunks[..Accepted(chunks)] == [];
      }
    }
  }

  lemma LastIsPut(rows: ChunkRows, episodeId: string, chunks: seq<Chunk>, meta: Option<Meta>)
    requires chunks != []
    ensures PutAll(rows, episodeId, chunks, meta) != map[]
  {
    assert Home(episodeId, chunks[|chunks| - 1]) in PutAll(rows, episodeId, chunks, meta);
  }

  /** A batch that a caller can only put together itself: an accepted project before a refused one. */
  const Mixed: seq<Chunk> := [Chunk(0, "a", None, "guardkit"), Chunk(1, "b", None, "guard-kit")]

  /** It is refused and its first chunk is stored. */
  lemma MixedIsHalfWritten()
    ensures Accepted(Mixed) == 1 && !WritesNothing(map[], "ep", Mixed, None)
  {
    assert "guard-kit"[5] == '-';
    assert ChunkNamespaceOk(Mixed[0]) && !ChunkNamespaceOk(Mixed[1]);
    assert Mixed[1..][0] == Mixed[1];
    LastIsPut(map[], "ep", Mixed[..1], None);
  }

  /** Chunks of one project, as the chunker makes them, are refused all or none. */
  lemma {:induction false} OneProjectAllOrNone(chunks: seq<Chunk>, project: string)
    requires forall i :: 0 <= i < |chunks| ==> chunks[i].project == project
    ensures Accepted(chunks) == 0 || Accepted(chunks) == |chunks|
  {
    if chunks != [] && ChunkNamespaceOk(chunks[0]) {
      OneProjectAllOrNone(chunks[1..], project);
      if |chunks| > 1 { assert chunks[1..][0] == chunks[1]; }
    }
  }
}
