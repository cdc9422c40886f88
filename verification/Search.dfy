/**
 Filtered search: a paged scan of each type partition over a store that looks at a window of its
 ranking only, and the merge of the partitions' answers.
 */
module Search {
  import opened Wrappers
  import opened Text
  import opened Records
  import opened Sorting

  const RESULT_LIMIT: nat := 10
  const PAGE_SIZE: nat := 10
  const MAX_SCANNED: nat := 1024

  /** A ranked row; tags and substance are what the stored content says of them. */
  datatype Item = Item(
    key: string, namespace: seq<string>, naturalKey: string, tags: seq<string>,
    superseded: bool, substantive: bool, score: Option<real>)

  datatype Request = Request(
    project: string, payloadTypes: seq<string>, tags: seq<string>, includeSuperseded: bool, requireSubstantive: bool)

  // ----------------------------------------------------------------- filters

  predicate MatchesProject(x: Item, project: string) { |x.namespace| >= 2 && x.namespace[1] == project }

  predicate MatchesTypes(x: Item, types: seq<string>) { types == [] || Split(x.naturalKey, ':')[0] in types }

  predicate MatchesTags(x: Item, tags: seq<string>) {
    tags == [] || exists i :: 0 <= i < |tags| && tags[i] in x.tags
  }

  /** The filters of the scan of one partition; no type stands for the partition of all types. */
  predicate Accepts(req: Request, ptype: Option<string>, x: Item) {
    && MatchesProject(x, req.project)
    && (ptype.Some? ==> MatchesTypes(x, [ptype.value]))
    && MatchesTags(x, req.tags)
    && (req.includeSuperseded || !x.superseded)
    && (req.requireSubstantive ==> x.substantive)
  }

  // ----------------------------------------------------------------- the scan's meaning

  predicate HasKey(s: seq<Item>, key: string) { exists i :: 0 <= i < |s| && s[i].key == key }

  /** The accepted items in rank order, one per key. */
  function Picks(req: Request, ptype: Option<string>, items: seq<Item>): seq<Item> {
    if items == [] then [] else
    var before := Picks(req, ptype, items[..|items| - 1]);
    var x := items[|items| - 1];
    if Accepts(req, ptype, x) && !HasKey(before, x.key) then before + [x] else before
  }

  function TopTen(s: seq<Item>): seq<Item> { s[..Min(RESULT_LIMIT, |s|)] }

  /** A scan never looks past this many candidates. */
  function Candidates(ranking: seq<Item>): seq<Item> { ranking[..Min(MAX_SCANNED, |ranking|)] }

  /** The bound leaves candidates unseen while fewer than ten were accepted. */
  predicate BoundHit(req: Request, ptype: Option<string>, ranking: seq<Item>) {
    |ranking| > MAX_SCANNED && |Picks(req, ptype, Candidates(ranking))| < RESULT_LIMIT
  }

  lemma {:induction false} PicksGrow(req: Request, ptype: Option<string>, items: seq<Item>, n: nat)
    requires n <= |items|
    ensures Picks(req, ptype, items[..n]) <= Picks(req, ptype, items)
    decreases |items|
  {
    if n == |items| {
      assert items[..n] == items;
    } else {
      PicksGrow(req, ptype, items[..|items| - 1], n);
      assert items[..|items| - 1][..n] == items[..n];
    }
  }

  /** Ten picks are already the ten of any longer stretch of the ranking. */
  lemma TenAreEnough(req: Request, ptype: Option<string>, ranking: seq<Item>, n: nat, m: nat)
    requires n <= m <= |ranking|
    requires |Picks(req, ptype, ranking[..n])| >= RESULT_LIMIT || n == m
    ensures TopTen(Picks(req, ptype, ranking[..n])) == TopTen(Picks(req, ptype, ranking[..m]))
  {
    PicksGrow(req, ptype, ranking[..m], n);
    assert ranking[..m][..n] == ranking[..n];
  }

  // ----------------------------------------------------------------- the paged scan

  /**
   The store widens its candidate window with the limit alone and then skips the offset: at most
   `2 * limit + 1` ranked rows are ever considered.
   */
  function Fetch(ranking: seq<Item>, limit: nat, offset: nat): (r: seq<Item>)
  {
    var window := Min(|ranking|, 2 * limit + 1);
    ranking[Min(offset, window)..Min(offset + limit, window)]
  }

  /** Asking for the whole range up to the page's end returns the page, and what follows it, unshortened. */
  lemma FetchIsWideEnough(ranking: seq<Item>, offset: nat, size: nat)
    requires offset <= |ranking|
    ensures Fetch(ranking, offset + size, offset) == ranking[offset..Min(|ranking|, offset + offset + size)]
  {
  }

  /** A smaller request, for the page alone, does fall short once the offset passes the window. */
  lemma PageLimitFallsShort(ranking: seq<Item>, offset: nat, size: nat)
    requires size > 0 && offset >= 2 * size + 1
    ensures Fetch(ranking, size, offset) == []
  {
  }

  datatype ScanError = IncompleteScan

  /** The page is the next stretch of the ranking, and the two signs of exhaustion are right. */
  lemma PageIsNext(ranking: seq<Item>, offset: nat, size: nat)
    requires offset <= |ranking|
    ensures
      var fetched := Fetch(ranking, offset + size, offset);
      var page := fetched[..Min(size, |fetched|)];
      && offset + |page| <= |ranking| && page == ranking[offset..offset + |page|]
      && (|fetched| < offset + size && |fetched| <= size ==> offset + |page| == |ranking|)
      && (|page| < size ==> offset + |page| == |ranking|)
  {
    FetchIsWideEnough(ranking, offset, size);
    var fetched := Fetch(ranking, offset + size, offset);
    var n := Min(size, |fetched|);
    assert fetched[..n] == ranking[offset..offset + n];
  }

  /** The keys of the accepted items have been seen, and no others. */
  ghost predicate SeenAre(seen: set<string>, accepted: seq<Item>) { forall k :: k in seen <==> HasKey(accepted, k) }

  lemma FullScan(req: Request, ptype: Option<string>, ranking: seq<Item>, offset: nat)
    requires offset <= Min(MAX_SCANNED, |ranking|)
    requires |Picks(req, ptype, ranking[..offset])| >= RESULT_LIMIT || offset == Min(MAX_SCANNED, |ranking|)
    ensures TopTen(Picks(req, ptype, ranking[..offset])) == TopTen(Picks(req, ptype, Candidates(ranking)))
    ensures |Picks(req, ptype, ranking[..offset])| >= RESULT_LIMIT ==> !BoundHit(req, ptype, ranking)
  {
    TenAreEnough(req, ptype, ranking, offset, Min(MAX_SCANNED, |ranking|));
    PicksGrow(req, ptype, Candidates(ranking), offset);
    assert Candidates(ranking)[..offset] == ranking[..offset];
  }

  /**
   The first ten distinct accepted items among the first 1024 of the ranking. `bounded` tells whether
   the scan stopped at its bound; a substantive search then fails instead of answering.
   */
  method SearchPartition(req: Request, ptype: Option<string>, ranking: seq<Item>)
    returns (r: Result<seq<Item>, ScanError>, bounded: bool)
    ensures bounded <==> BoundHit(req, ptype, ranking)
    ensures r.Failure? <==> bounded && req.requireSubstantive
    ensures r.Success? ==> r.value == TopTen(Picks(req, ptype, Candidates(ranking)))
  {
    var accepted: seq<Item> := [];
    var seen: set<string> := {};
    var offset: nat := 0;
    var exhausted := false;
    while |accepted| < RESULT_LIMIT && !exhausted
      invariant offset <= Min(MAX_SCANNED, |ranking|)
      invariant accepted == TopTen(Picks(req, ptype, ranking[..offset]))
      invariant SeenAre(seen, accepted)
      invariant exhausted ==> offset == |ranking|
      invariant offset == MAX_SCANNED ==> exhausted || |accepted| == RESULT_LIMIT
      decreases MAX_SCANNED - offset, if exhausted then 0 else 1
    {
      var size := Min(PAGE_SIZE, MAX_SCANNED - offset);
      var fetched := Fetch(ranking, offset + size, offset);
      PageIsNext(ranking, offset, size);
      var page := fetched[..Min(size, |fetched|)];
      exhausted := |fetched| < offset + size && |fetched| <= size;
      accepted, seen := AcceptPage(req, ptype, ranking, offset, page, accepted, seen);
      offset := offset + |page|;
      if |page| < size { exhausted := true; }
      if offset >= MAX_SCANNED && |accepted| < RESULT_LIMIT && !exhausted {
        assert ranking[..offset] == Candidates(ranking);
        r := if req.requireSubstantive then Failure(IncompleteScan) else Success(accepted);
        return r, true;
      }
    }
    FullScan(req, ptype, ranking, offset);
    return Success(accepted), false;
  }

  /** Fewer than ten are all of them. */
  lemma TopOfFew(s: seq<Item>)
    ensures |TopTen(s)| < RESULT_LIMIT || |s| < RESULT_LIMIT ==> TopTen(s) == s
    ensures |s| == RESULT_LIMIT ==> TopTen(s) == s
  {
  }

  /** The first `n` ranked items gave fewer than ten picks. */
  ghost predicate Scanned(req: Request, ptype: Option<string>, ranking: seq<Item>, n: nat, accepted: seq<Item>, seen: set<string>) {
    && n <= |ranking| && |accepted| < RESULT_LIMIT
    && accepted == Picks(req, ptype, ranking[..n]) && SeenAre(seen, accepted)
  }

  lemma ScanNext(req: Request, ptype: Option<string>, ranking: seq<Item>, n: nat, accepted: seq<Item>, seen: set<string>, end: nat)
    requires Scanned(req, ptype, ranking, n, accepted, seen) && n < end <= |ranking|
    ensures
      var x := ranking[n];
      var more, keys := accepted + [x], seen + {x.key};
      if !Accepts(req, ptype, x) || x.key in seen then Scanned(req, ptype, ranking, n + 1, accepted, seen)
      else if |more| < RESULT_LIMIT then Scanned(req, ptype, ranking, n + 1, more, keys)
      else more == TopTen(Picks(req, ptype, ranking[..end])) && SeenAre(keys, more)
  {
    var x := ranking[n];
    assert ranking[..n + 1][..n] == ranking[..n];
    KeysExtend(accepted, x);
    if Accepts(req, ptype, x) && x.key !in seen {
      assert Picks(req, ptype, ranking[..n + 1]) == accepted + [x];
      if |accepted + [x]| >= RESULT_LIMIT {
        TenAreEnough(req, ptype, ranking, n + 1, end);
        TopOfFew(accepted + [x]);
      }
    }
  }

  /** Runs the filters over one page, stopping as soon as ten items are accepted. */
  method AcceptPage(
    req: Request, ptype: Option<string>, ranking: seq<Item>, offset: nat, page: seq<Item>,
    accepted0: seq<Item>, seen0: set<string>) returns (accepted: seq<Item>, seen: set<string>)
    requires offset + |page| <= |ranking| && page == ranking[offset..offset + |page|]
    requires |accepted0| < RESULT_LIMIT && accepted0 == TopTen(Picks(req, ptype, ranking[..offset]))
    requires SeenAre(seen0, accepted0)
    ensures accepted == TopTen(Picks(req, ptype, ranking[..offset + |page|]))
    ensures SeenAre(seen, accepted)
  {
    accepted, seen := accepted0, seen0;
    TopOfFew(Picks(req, ptype, ranking[..offset]));
    for i := 0 to |page|
      invariant Scanned(req, ptype, ranking, offset + i, accepted, seen)
    {
      var x := page[i];
      ScanNext(req, ptype, ranking, offset + i, accepted, seen, offset + |page|);
      if Accepts(req, ptype, x) && x.key !in seen {
        seen := seen + {x.key};
        accepted := accepted + [x];
        if |accepted| >= RESULT_LIMIT {
          return;
        }
      }
    }
    TopOfFew(accepted);
  }

  lemma KeysExtend(s: seq<Item>, x: Item)
    ensures forall k :: HasKey(s + [x], k) <==> HasKey(s, k) || k == x.key
  {
    var all := s + [x];
    assert all[|s|].key == x.key;
    forall k | HasKey(s, k) ensures HasKey(all, k) {
      var i :| 0 <= i < |s| && s[i].key == k;
      assert all[i].key == k;
    }
  }

  // ----------------------------------------------------------------- merging the partitions

  function Score(x: Item): real { if x.score.Some? then x.score.value else 0.0 }

  /** Score descending, then natural key ascending. */
  predicate ItemLe(a: Item, b: Item) {
    Score(a) > Score(b) || (Score(a) == Score(b) && StrLe(a.naturalKey, b.naturalKey))
  }

  lemma ItemOrder()
    ensures TotalPreorder(ItemLe)
  {
    StrOrder();
  }

  function Filter(p: Item -> bool, s: seq<Item>): seq<Item> {
    if s == [] then [] else (if p(s[0]) then [s[0]] else []) + Filter(p, s[1..])
  }

  /** The first item of each key. */
  function Deduplicated(s: seq<Item>): seq<Item> {
    if s == [] then [] else
    var before := Deduplicated(s[..|s| - 1]);
    var x := s[|s| - 1];
    if HasKey(before, x.key) then before else before + [x]
  }

  /** The filters applied once more to the merged answers, one after the other. */
  function SecondPass(req: Request, raw: seq<Item>): seq<Item> {
    var scoped := Filter(x => MatchesProject(x, req.project), raw);
    var typed := Filter(x => MatchesTypes(x, req.payloadTypes), scoped);
    var tagged := Filter(x => MatchesTags(x, req.tags), typed);
    if req.includeSuperseded then tagged else Filter((x: Item) => !x.superseded, tagged)
  }

  /** One partition per distinct requested type in order, or the one of all types. */
  function Partitions(req: Request): (r: seq<Option<string>>)
    ensures r != []
  {
    if req.payloadTypes == [] then [None]
    else
      var types := SortBy(StrLe, Distinct(req.payloadTypes));
      var some := seq(|types|, i requires 0 <= i < |types| => Some(types[i]));
      SortKeepsLength(StrLe, Distinct(req.payloadTypes));
      assert req.payloadTypes[0] in Distinct(req.payloadTypes);
      some
  }

  lemma {:induction false} SortKeepsLength<T>(le: (T, T) -> bool, s: seq<T>)
    ensures |SortBy(le, s)| == |s|
  {
    if s != [] {
      SortKeepsLength(le, s[1..]);
      InsertKeepsLength(le, s[0], SortBy(le, s[1..]));
    }
  }

  lemma {:induction false} InsertKeepsLength<T>(le: (T, T) -> bool, x: T, s: seq<T>)
    ensures |Insert(le, x, s)| == |s| + 1
  {
    if s != [] { InsertKeepsLength(le, x, s[1..]); }
  }

  type Ranking = Option<string> -> seq<Item>

  function Answer(req: Request, rank: Ranking, p: Option<string>): seq<Item> {
    TopTen(Picks(req, p, Candidates(rank(p))))
  }

  /** What the partitions answer, one after the other. */
  function Answers(req: Request, rank: Ranking, parts: seq<Option<string>>): seq<Item> {
    if parts == [] then [] else Answer(req, rank, parts[0]) + Answers(req, rank, parts[1..])
  }

  lemma {:induction false} AnswersAppend(req: Request, rank: Ranking, parts: seq<Option<string>>, p: Option<string>)
    ensures Answers(req, rank, parts + [p]) == Answers(req, rank, parts) + Answer(req, rank, p)
  {
    if parts == [] {
      assert (parts + [p])[1..] == [];
    } else {
      AnswersAppend(req, rank, parts[1..], p);
      assert (parts + [p])[1..] == parts[1..] + [p];
    }
  }

  /** What a search returns. */
  function Found(req: Request, rank: Ranking): seq<Item> {
    TopTen(SortBy(ItemLe, Deduplicated(SecondPass(req, Answers(req, rank, Partitions(req))))))
  }

  /** The whole search: every partition in turn, the second pass, and the ten first in order. */
  method Search(req: Request, rank: Ranking) returns (r: Result<seq<Item>, ScanError>)
    ensures r.Failure? <==> req.requireSubstantive && exists p :: Requested(req, p) && BoundHit(req, p, rank(p))
    ensures r.Success? ==> r.value == Found(req, rank)
  {
    var parts := Partitions(req);
    PartitionsAre(req);
    var raw: seq<Item> := [];
    for i := 0 to |parts|
      invariant raw == Answers(req, rank, parts[..i])
      invariant req.requireSubstantive ==> forall j :: 0 <= j < i ==> !BoundHit(req, parts[j], rank(parts[j]))
    {
      var answer, bounded := SearchPartition(req, parts[i], rank(parts[i]));
      if answer.Failure? {
        assert parts[i] in parts;
        return answer;
      }
      AnswersAppend(req, rank, parts[..i], parts[i]);
      assert parts[..i + 1] == parts[..i] + [parts[i]];
      raw := raw + answer.value;
    }
    assert parts[..|parts|] == parts;
    var unique := Deduplicate(SecondPass(req, raw));
    r := Success(TopTen(SortBy(ItemLe, unique)));
  }

  /** The first item of every key. */
  method Deduplicate(filtered: seq<Item>) returns (unique: seq<Item>)
    ensures unique == Deduplicated(filtered)
  {
    unique := [];
    var seen: set<string> := {};
    for i := 0 to |filtered|
      invariant unique == Deduplicated(filtered[..i])
      invariant SeenAre(seen, unique)
    {
      assert filtered[..i + 1][..i] == filtered[..i];
      if filtered[i].key !in seen {
        KeysExtend(unique, filtered[i]);
        seen := seen + {filtered[i].key};
        unique := unique + [filtered[i]];
      }
    }
    assert filtered[..|filtered|] == filtered;
  }

  // ----------------------------------------------------------------- the ten best

  ghost predicate ScoreDescending(s: seq<Item>) {
    forall i, j :: 0 <= i < j < |s| ==> Score(s[i]) >= Score(s[j])
  }

  ghost predicate DistinctKeys(s: seq<Item>) {
    forall i, j :: 0 <= i < j < |s| ==> s[i].key != s[j].key
  }

  /** Everything the partitions rank, and everything in it their filters accept. */
  function All(rank: Ranking, parts: seq<Option<string>>): seq<Item> {
    if parts == [] then [] else rank(parts[0]) + All(rank, parts[1..])
  }

  function Pool(req: Request, rank: Ranking, parts: seq<Option<string>>): seq<Item> {
    if parts == [] then [] else Picks(req, parts[0], rank(parts[0])) + Pool(req, rank, parts[1..])
  }

  /** Picks are accepted items of the ranking, one per key, and every accepted key has one. */
  lemma {:induction false} PicksAre(req: Request, p: Option<string>, items: seq<Item>)
    ensures forall x :: x in Picks(req, p, items) ==> x in items && Accepts(req, p, x)
    ensures DistinctKeys(Picks(req, p, items))
    ensures forall x :: x in items && Accepts(req, p, x) ==> HasKey(Picks(req, p, items), x.key)
  {
    if items != [] {
      var n := |items| - 1;
      PicksAre(req, p, items[..n]);
      assert items == items[..n] + [items[n]];
      var before := Picks(req, p, items[..n]);
      KeysExtend(before, items[n]);
    }
  }

  /** Picks keep the order of the ranking. */
  lemma {:induction false} PicksDescend(req: Request, p: Option<string>, items: seq<Item>)
    requires ScoreDescending(items)
    ensures ScoreDescending(Picks(req, p, items))
  {
    if items != [] {
      var n := |items| - 1;
      PicksDescend(req, p, items[..n]);
      PicksAre(req, p, items[..n]);
      var before := Picks(req, p, items[..n]);
      forall i | 0 <= i < |before| ensures Score(before[i]) >= Score(items[n]) {
        assert before[i] in items[..n];
        var j :| 0 <= j < n && items[..n][j] == before[i];
        assert items[j] == before[i];
      }
    }
  }

  /** The preconditions of the ranking theorem: what the store and the keys provide. */
  ghost predicate WellRanked(req: Request, rank: Ranking, parts: seq<Option<string>>) {
    && DistinctKeys(All(rank, parts))
    && forall i :: 0 <= i < |parts| ==> ScoreDescending(rank(parts[i])) && !BoundHit(req, parts[i], rank(parts[i]))
  }

  lemma WellRankedTail(req: Request, rank: Ranking, parts: seq<Option<string>>)
    requires WellRanked(req, rank, parts) && parts != []
    ensures WellRanked(req, rank, parts[1..]) && DistinctKeys(rank(parts[0]))
    ensures forall x, y :: x in rank(parts[0]) && y in All(rank, parts[1..]) ==> x.key != y.key
  {
    var a, b := rank(parts[0]), All(rank, parts[1..]);
    var all := a + b;
    assert All(rank, parts) == all;
    forall i, j | 0 <= i < j < |b| ensures b[i].key != b[j].key {
      assert all[|a| + i].key != all[|a| + j].key;
    }
    forall i, j | 0 <= i < j < |a| ensures a[i].key != a[j].key {
      assert all[i].key != all[j].key;
    }
    forall x, y | x in a && y in b ensures x.key != y.key {
      var i :| 0 <= i < |a| && a[i] == x;
      var j :| 0 <= j < |b| && b[j] == y;
      assert all[i].key != all[|a| + j].key;
    }
  }

  /** Without a bound hit, a partition's answer is the top of all its accepted items. */
  lemma AnswerIsTop(req: Request, rank: Ranking, p: Option<string>)
    requires !BoundHit(req, p, rank(p))
    ensures Answer(req, rank, p) == TopTen(Picks(req, p, rank(p)))
  {
    var r := rank(p);
    TenAreEnough(req, p, r, Min(MAX_SCANNED, |r|), |r|);
    assert r[..|r|] == r;
  }

  lemma {:induction false} PoolInAll(req: Request, rank: Ranking, parts: seq<Option<string>>)
    ensures forall x :: x in Pool(req, rank, parts) ==> x in All(rank, parts)
  {
    if parts != [] {
      PoolInAll(req, rank, parts[1..]);
      PicksAre(req, parts[0], rank(parts[0]));
    }
  }

  /** `block` is ten items of `raw`, none of them scored below `y`. */
  ghost predicate TenAbove(block: seq<Item>, raw: seq<Item>, y: Item) {
    && |block| == RESULT_LIMIT && DistinctKeys(block)
    && forall i :: 0 <= i < |block| ==> block[i] in raw && Score(block[i]) >= Score(y)
  }

  /** The answers come from the pool with distinct keys, and there are ten of them or they are all of it. */
  lemma {:induction false} AnswersFromPool(req: Request, rank: Ranking, parts: seq<Option<string>>)
    requires WellRanked(req, rank, parts)
    ensures forall x :: x in Answers(req, rank, parts) ==> x in Pool(req, rank, parts)
    ensures DistinctKeys(Answers(req, rank, parts))
    ensures
      var found, all := |Answers(req, rank, parts)|, |Pool(req, rank, parts)|;
      found == all || RESULT_LIMIT <= found <= all
  {
    if parts != [] {
      var p := parts[0];
      WellRankedTail(req, rank, parts);
      AnswersFromPool(req, rank, parts[1..]);
      AnswerIsTop(req, rank, p);
      PicksAre(req, p, rank(p));
      PoolInAll(req, rank, parts[1..]);
      DistinctJoin(Answer(req, rank, p), Answers(req, rank, parts[1..]));
    }
  }

  /** An item of the pool that was cut has ten answers at least as high. */
  lemma {:induction false} CutHasTenAbove(req: Request, rank: Ranking, parts: seq<Option<string>>, y: Item)
    requires WellRanked(req, rank, parts)
    requires y in Pool(req, rank, parts) && y !in Answers(req, rank, parts)
    ensures exists block :: TenAbove(block, Answers(req, rank, parts), y)
  {
    var p := parts[0];
    var raw, tail := Answers(req, rank, parts), Answers(req, rank, parts[1..]);
    WellRankedTail(req, rank, parts);
    if y in Picks(req, p, rank(p)) {
      AnswerIsTop(req, rank, p);
      HeadTenAbove(req, rank, p, y);
      assert TenAbove(Answer(req, rank, p), raw, y);
    } else {
      CutHasTenAbove(req, rank, parts[1..], y);
      var block :| TenAbove(block, tail, y);
      assert TenAbove(block, raw, y);
    }
  }

  lemma HeadTenAbove(req: Request, rank: Ranking, p: Option<string>, y: Item)
    requires ScoreDescending(rank(p)) && !BoundHit(req, p, rank(p))
    requires y in Picks(req, p, rank(p)) && y !in Answer(req, rank, p)
    ensures TenAbove(Answer(req, rank, p), Answer(req, rank, p), y)
  {
    AnswerIsTop(req, rank, p);
    PicksAre(req, p, rank(p));
    PicksDescend(req, p, rank(p));
    TopIsAbove(Picks(req, p, rank(p)), y);
  }

  lemma TopIsAbove(picks: seq<Item>, y: Item)
    requires ScoreDescending(picks) && DistinctKeys(picks) && y in picks && y !in TopTen(picks)
    ensures TenAbove(TopTen(picks), TopTen(picks), y)
  {
    var j :| 0 <= j < |picks| && picks[j] == y;
    var top := TopTen(picks);
    forall t | 0 <= t < |top| ensures top[t] == picks[t] && top[t] in top && t < j {
      assert picks[t] != y;
    }
    assert |top| == RESULT_LIMIT;
  }

  lemma DistinctJoin(a: seq<Item>, b: seq<Item>)
    requires DistinctKeys(a) && DistinctKeys(b)
    requires forall x, y :: x in a && y in b ==> x.key != y.key
    ensures DistinctKeys(a + b)
  {
  }

  /** Fewer than ten places cannot hold ten items of distinct keys. */
  lemma TooFewPlaces(block: seq<Item>, s: seq<Item>, n: nat)
    requires |block| == RESULT_LIMIT && DistinctKeys(block) && n < RESULT_LIMIT && n <= |s|
    ensures exists i :: 0 <= i < |block| && block[i] !in s[..n]
  {
    var keys := set i | 0 <= i < |block| :: block[i].key;
    KeyCount(block, |block|);
    var places := set i | 0 <= i < n :: s[i].key;
    PlaceCount(s, n);
    if forall i :: 0 <= i < |block| ==> block[i] in s[..n] {
      forall k | k in keys ensures k in places {
        var i :| 0 <= i < |block| && block[i].key == k;
        var j :| 0 <= j < n && s[..n][j] == block[i];
      }
      SubsetIsSmaller(keys, places);
    }
  }

  lemma {:induction false} KeyCount(s: seq<Item>, n: nat)
    requires DistinctKeys(s) && n <= |s|
    ensures |set i | 0 <= i < n :: s[i].key| == n
  {
    if n > 0 {
      KeyCount(s, n - 1);
      assert (set i | 0 <= i < n :: s[i].key) == (set i | 0 <= i < n - 1 :: s[i].key) + {s[n - 1].key};
    }
  }

  lemma {:induction false} PlaceCount(s: seq<Item>, n: nat)
    requires n <= |s|
    ensures |set i | 0 <= i < n :: s[i].key| <= n
  {
    if n > 0 {
      PlaceCount(s, n - 1);
      assert (set i | 0 <= i < n :: s[i].key) == (set i | 0 <= i < n - 1 :: s[i].key) + {s[n - 1].key};
    }
  }

  /** Nothing that was cut, from a partition or from the merge, is scored above anything returned. */
  lemma CutIsNotAbove(raw: seq<Item>, y: Item, x: Item)
    requires y in raw || exists block :: TenAbove(block, raw, y)
    requires x in TopTen(SortBy(ItemLe, raw)) && y !in TopTen(SortBy(ItemLe, raw))
    ensures Score(x) >= Score(y)
  {
    var sorted := SortBy(ItemLe, raw);
    ItemOrder();
    SortSorts(ItemLe, raw);
    var top := TopTen(sorted);
    var i :| 0 <= i < |top| && top[i] == x;
    if y in raw {
      var j := PlaceOutside(raw, sorted, |top|, y);
      assert ItemLe(sorted[i], sorted[j]);
    } else {
      var block :| TenAbove(block, raw, y);
      TooFewPlaces(block, sorted, i);
      var b :| 0 <= b < |block| && block[b] !in sorted[..i];
      var j := PlaceOutside(raw, sorted, i, block[b]);
      assert j > i ==> ItemLe(sorted[i], sorted[j]);
    }
  }

  /** What is not among the first `n` of a rearrangement stands behind them. */
  lemma PlaceOutside(raw: seq<Item>, sorted: seq<Item>, n: nat, z: Item) returns (j: nat)
    requires multiset(raw) == multiset(sorted) && z in raw && n <= |sorted| && z !in sorted[..n]
    ensures n <= j < |sorted| && sorted[j] == z
  {
    assert z in multiset(raw);
    assert z in sorted;
    j :| 0 <= j < |sorted| && sorted[j] == z;
    forall t | 0 <= t < n ensures sorted[t] != z { assert sorted[..n][t] == sorted[t]; }
  }

  /** The partition is one of those the request asks for. */
  predicate Requested(req: Request, p: Option<string>) {
    if p.Some? then p.value in req.payloadTypes else req.payloadTypes == []
  }

  /** What the second filters ask of one item. */
  predicate PassesAgain(req: Request, x: Item) {
    && MatchesProject(x, req.project) && MatchesTypes(x, req.payloadTypes) && MatchesTags(x, req.tags)
    && (req.includeSuperseded || !x.superseded)
  }

  lemma AcceptedPassesAgain(req: Request, p: Option<string>, x: Item)
    requires Requested(req, p) && Accepts(req, p, x)
    ensures PassesAgain(req, x)
  {
    if p.Some? {
      assert Split(x.naturalKey, ':')[0] in [p.value];
    }
  }

  /** An item that passed its partition's scan passes the second filters too. */
  lemma {:induction false} SecondPassKeepsAll(req: Request, rank: Ranking, parts: seq<Option<string>>)
    requires forall i :: 0 <= i < |parts| ==> Requested(req, parts[i])
    ensures forall x :: x in Answers(req, rank, parts) ==> PassesAgain(req, x)
  {
    if parts != [] {
      var p := parts[0];
      PicksAre(req, p, Candidates(rank(p)));
      forall x | x in Answer(req, rank, p) ensures PassesAgain(req, x) { AcceptedPassesAgain(req, p, x); }
      SecondPassKeepsAll(req, rank, parts[1..]);
    }
  }

  lemma {:induction false} FilterKeepsAll(p: Item -> bool, s: seq<Item>)
    requires forall x :: x in s ==> p(x)
    ensures Filter(p, s) == s
  {
    if s != [] {
      FilterKeepsAll(p, s[1..]);
      assert s == [s[0]] + s[1..];
    }
  }

  lemma {:induction false} DeduplicateKeepsAll(s: seq<Item>)
    requires DistinctKeys(s)
    ensures Deduplicated(s) == s
  {
    if s != [] {
      var n := |s| - 1;
      DeduplicateKeepsAll(s[..n]);
      assert s == s[..n] + [s[n]];
    }
  }

  /** Every requested type has exactly one partition, and there is the one of all types exactly if none is requested. */
  lemma PartitionsAre(req: Request)
    ensures forall p :: p in Partitions(req) <==> Requested(req, p)
    ensures forall i, j :: 0 <= i < j < |Partitions(req)| ==> Partitions(req)[i] != Partitions(req)[j]
  {
    if req.payloadTypes != [] {
      var distinct := Distinct(req.payloadTypes);
      var types := SortBy(StrLe, distinct);
      StrOrder();
      SortSorts(StrLe, distinct);
      RearrangedTypes(distinct, types);
      forall t ensures t in types <==> t in req.payloadTypes {
        assert t in types <==> t in multiset(types);
        assert t in distinct <==> t in multiset(distinct);
      }
      forall p ensures p in Partitions(req) <==> Requested(req, p) {
        if p.Some? && p.value in types {
          var i :| 0 <= i < |types| && types[i] == p.value;
          assert Partitions(req)[i] == p;
        }
      }
    }
  }

  /** Rearranging keeps a list without repetitions free of them. */
  lemma RearrangedTypes(raw: seq<string>, sorted: seq<string>)
    requires NoRepeats(raw) && multiset(raw) == multiset(sorted)
    ensures forall i, j :: 0 <= i < j < |sorted| ==> sorted[i] != sorted[j]
  {
    forall i, j | 0 <= i < j < |sorted| ensures sorted[i] != sorted[j] {
      assert sorted[i] in multiset(raw) && sorted[j] in multiset(raw);
      var a :| 0 <= a < |raw| && raw[a] == sorted[i];
      var b :| 0 <= b < |raw| && raw[b] == sorted[j];
      if a == b {
        Once(raw, a);
        Twice(sorted, i, j);
      }
    }
  }

  /** The second pass of filters and the removal of duplicates change nothing. */
  lemma SecondPassIsIdle(req: Request, rank: Ranking)
    requires WellRanked(req, rank, Partitions(req))
    ensures
      var raw := Answers(req, rank, Partitions(req));
      SecondPass(req, raw) == raw && Deduplicated(raw) == raw
  {
    var raw := Answers(req, rank, Partitions(req));
    PartitionsAre(req);
    forall i | 0 <= i < |Partitions(req)| ensures Requested(req, Partitions(req)[i]) { assert Partitions(req)[i] in Partitions(req); }
    SecondPassKeepsAll(req, rank, Partitions(req));
    FilterKeepsAll(x => MatchesProject(x, req.project), raw);
    FilterKeepsAll(x => MatchesTypes(x, req.payloadTypes), raw);
    FilterKeepsAll(x => MatchesTags(x, req.tags), raw);
    if !req.includeSuperseded { FilterKeepsAll((x: Item) => !x.superseded, raw); }
    AnswersFromPool(req, rank, Partitions(req));
    DeduplicateKeepsAll(raw);
  }

  /** Rearranging keeps distinct keys distinct. */
  lemma RearrangedIsDistinct(raw: seq<Item>, sorted: seq<Item>)
    requires DistinctKeys(raw) && multiset(raw) == multiset(sorted)
    ensures DistinctKeys(sorted)
  {
    forall i, j | 0 <= i < j < |sorted| ensures sorted[i].key != sorted[j].key {
      assert sorted[i] in multiset(raw) && sorted[j] in multiset(raw);
      var a :| 0 <= a < |raw| && raw[a] == sorted[i];
      var b :| 0 <= b < |raw| && raw[b] == sorted[j];
      if a == b {
        Once(raw, a);
        Twice(sorted, i, j);
      }
    }
  }

  lemma SortedTop(raw: seq<Item>)
    requires DistinctKeys(raw)
    ensures
      var top := TopTen(SortBy(ItemLe, raw));
      && |top| == Min(RESULT_LIMIT, |raw|)
      && DistinctKeys(top)
      && SortedBy(ItemLe, top)
      && forall x :: x in top ==> x in raw
  {
    var top := TopTen(SortBy(ItemLe, raw));
    ItemOrder();
    SortSorts(ItemLe, raw);
    SortKeepsLength(ItemLe, raw);
    RearrangedIsDistinct(raw, SortBy(ItemLe, raw));
    forall x | x in top ensures x in raw {
      assert x in multiset(SortBy(ItemLe, raw));
    }
  }

  /** The ten best of a pool, in order and each once: nothing left out scores above anything in the list. */
  ghost predicate IsBestTen(found: seq<Item>, pool: seq<Item>) {
    && DistinctKeys(found) && |found| == Min(RESULT_LIMIT, |pool|)
    && SortedBy(ItemLe, found)
    && (forall x :: x in found ==> x in pool)
    && (forall x, y :: x in found && y in pool && y !in found ==> Score(x) >= Score(y))
  }

  lemma FoundIsBestTen(req: Request, rank: Ranking)
    requires WellRanked(req, rank, Partitions(req))
    ensures IsBestTen(Found(req, rank), Pool(req, rank, Partitions(req)))
  {
    var parts := Partitions(req);
    var raw, pool, found := Answers(req, rank, parts), Pool(req, rank, parts), Found(req, rank);
    AnswersFromPool(req, rank, parts);
    SecondPassIsIdle(req, rank);
    assert found == TopTen(SortBy(ItemLe, raw));
    SortedTop(raw);
    forall x, y | x in found && y in pool && y !in found ensures Score(x) >= Score(y) {
      if y !in raw { CutHasTenAbove(req, rank, parts, y); }
      CutIsNotAbove(raw, y, x);
    }
  }

  // ----------------------------------------------------------------- the search in terms of its request

  /** The part of the natural key before the first colon is this type. */
  predicate IsOfType(x: Item, ptype: string) {
    ':' !in ptype && (x.naturalKey == ptype || StartsWith(x.naturalKey, ptype + [':']))
  }

  lemma TypeIff(x: Item, ptype: string)
    ensures MatchesTypes(x, [ptype]) <==> IsOfType(x, ptype)
  {
    var k := x.naturalKey;
    JoinSplit(k, ':');
    var first := Split(k, ':')[0];
    assert MatchesTypes(x, [ptype]) <==> first == ptype by { assert [ptype][0] == ptype; }
    if ':' in k {
      FirstColon(k);
      assert StartsWith(k, first + [':']);
      if ':' !in ptype && StartsWith(k, ptype + [':']) {
        assert k == ptype + [':'] + k[|ptype| + 1..];
        SplitFirst(ptype, k[|ptype| + 1..], ':');
      }
    } else {
      SplitWithout(k, ':');
      ColonIn(k, ptype);
    }
  }

  lemma ColonIn(k: string, word: string)
    ensures StartsWith(k, word + [':']) ==> ':' in k
  {
    if StartsWith(k, word + [':']) { assert k[|word|] == (word + [':'])[|word|]; }
  }

  /** A text with a colon begins with its first part and that colon. */
  lemma {:induction false} FirstColon(k: string)
    requires ':' in k
    ensures StartsWith(k, Split(k, ':')[0] + [':'])
  {
    if k[0] != ':' {
      FirstColon(k[1..]);
      var first := Split(k[1..], ':')[0];
      assert k == [k[0]] + k[1..];
      assert Split(k, ':')[0] == [k[0]] + first;
      assert k[..|first| + 2] == [k[0]] + k[1..][..|first| + 1];
    }
  }

  /** What the request asks of an item beyond its type: project, a common tag, not superseded, substance. */
  ghost predicate Wanted(req: Request, x: Item) {
    && |x.namespace| >= 2 && x.namespace[1] == req.project
    && (req.tags != [] ==> exists tag :: tag in req.tags && tag in x.tags)
    && (x.superseded ==> req.includeSuperseded)
    && (req.requireSubstantive ==> x.substantive)
  }

  lemma AcceptsIff(req: Request, p: Option<string>, x: Item)
    ensures Accepts(req, p, x) <==> Wanted(req, x) && (p.Some? ==> IsOfType(x, p.value))
  {
    if p.Some? { TypeIff(x, p.value); }
  }

  /** Scores descend, and among equal scores the natural keys ascend. */
  ghost predicate InOrder(found: seq<Item>) {
    forall i, j :: 0 <= i < j < |found| ==>
      Score(found[i]) > Score(found[j]) || (Score(found[i]) == Score(found[j]) && Before(found[i].naturalKey, found[j].naturalKey))
  }

  /** What the store and the keys provide: rankings by score, different keys, and no scan that meets its bound. */
  ghost predicate Answerable(req: Request, rank: Ranking) {
    && (forall p :: Requested(req, p) ==> ScoreDescending(rank(p)) && DistinctKeys(rank(p)) && !BoundHit(req, p, rank(p)))
    && (forall p, q, x, y :: Requested(req, p) && Requested(req, q) && p != q && x in rank(p) && y in rank(q) ==> x.key != y.key)
  }

  /** An item of some requested ranking that has its type and is wanted. */
  ghost predicate Sought(req: Request, rank: Ranking, x: Item) {
    && Wanted(req, x)
    && if req.payloadTypes == [] then x in rank(None)
       else exists t :: t in req.payloadTypes && x in rank(Some(t)) && IsOfType(x, t)
  }

  /**
   A search returns at most ten different items, in order, all of them sought; and whatever else is sought,
   in the ranking of whichever requested type, is left out only for ten that score at least as much.
   */
  lemma SearchReturnsBestTen(req: Request, rank: Ranking)
    requires Answerable(req, rank)
    ensures
      var found := Found(req, rank);
      && |found| <= 10 && DistinctKeys(found) && InOrder(found)
      && (forall x :: x in found ==> Sought(req, rank, x))
      && (forall x :: Sought(req, rank, x) && x !in found ==>
            |found| == 10 && forall y :: y in found ==> Score(y) >= Score(x))
  {
    var parts, found := Partitions(req), Found(req, rank);
    PartitionsAre(req);
    AnswerableIsRanked(req, rank, parts);
    FoundIsBestTen(req, rank);
    InOrderIff(found);
    forall x ensures x in Pool(req, rank, parts) <==> Sought(req, rank, x) { PoolIsSought(req, rank, x); }
    forall x | Sought(req, rank, x) && x !in found ensures |found| == 10 { LeftOut(found, Pool(req, rank, parts), x); }
  }

  /** If fewer than ten items are returned, nothing of the pool is left out. */
  lemma LeftOut(found: seq<Item>, pool: seq<Item>, x: Item)
    requires DistinctKeys(found) && |found| == Min(RESULT_LIMIT, |pool|) && x in pool && x !in found
    requires forall y :: y in found ==> y in pool
    ensures |found| == RESULT_LIMIT
  {
    Spread(found);
    Crowd(pool);
    SubsetIsSmaller(Members(found), Members(pool) - {x});
  }

  function Members(s: seq<Item>): set<Item> { set y | y in s }

  lemma {:induction false} Spread(s: seq<Item>)
    requires DistinctKeys(s)
    ensures |Members(s)| == |s|
  {
    if s != [] {
      var init, last := s[..|s| - 1], s[|s| - 1];
      Spread(init);
      assert s == init + [last];
      assert Members(s) == Members(init) + {last};
    }
  }

  lemma {:induction false} Crowd(s: seq<Item>)
    ensures |Members(s)| <= |s|
  {
    if s != [] {
      var init, last := s[..|s| - 1], s[|s| - 1];
      Crowd(init);
      assert s == init + [last];
      assert Members(s) == Members(init) + {last};
    }
  }

  lemma InOrderIff(found: seq<Item>)
    ensures SortedBy(ItemLe, found) <==> InOrder(found)
  {
    forall i, j | 0 <= i < j < |found|
      ensures StrLe(found[i].naturalKey, found[j].naturalKey) <==> Before(found[i].naturalKey, found[j].naturalKey)
    {
      StrLeIff(found[i].naturalKey, found[j].naturalKey);
    }
  }

  lemma {:induction false} AnswerableIsRanked(req: Request, rank: Ranking, parts: seq<Option<string>>)
    requires Answerable(req, rank) && forall p :: p in parts ==> Requested(req, p)
    requires forall i, j :: 0 <= i < j < |parts| ==> parts[i] != parts[j]
    ensures WellRanked(req, rank, parts)
    ensures forall x :: x in All(rank, parts) ==> exists p :: p in parts && x in rank(p)
  {
    if parts != [] {
      var rest := parts[1..];
      assert parts == [parts[0]] + rest;
      AnswerableIsRanked(req, rank, rest);
      forall x, y | x in rank(parts[0]) && y in All(rank, rest) ensures x.key != y.key {
        var p :| p in rest && y in rank(p);
        var i :| 0 <= i < |rest| && rest[i] == p;
        assert parts[0] != parts[i + 1];
        assert Requested(req, parts[0]) && Requested(req, p);
      }
      DistinctJoin(rank(parts[0]), All(rank, rest));
      forall i | 0 <= i < |parts| ensures ScoreDescending(rank(parts[i])) && !BoundHit(req, parts[i], rank(parts[i])) {
        assert parts[i] in parts && Requested(req, parts[i]);
      }
    }
  }

  lemma {:induction false} PoolHas(req: Request, rank: Ranking, parts: seq<Option<string>>, x: Item)
    ensures x in Pool(req, rank, parts) <==> exists p :: p in parts && x in Picks(req, p, rank(p))
  {
    if parts != [] {
      PoolHas(req, rank, parts[1..], x);
      assert parts == [parts[0]] + parts[1..];
    }
  }

  /** With different keys in a ranking, the picks are all of its accepted items. */
  lemma PicksAreAll(req: Request, p: Option<string>, items: seq<Item>, x: Item)
    requires DistinctKeys(items)
    ensures x in Picks(req, p, items) <==> x in items && Accepts(req, p, x)
  {
    PicksAre(req, p, items);
    if x in items && Accepts(req, p, x) {
      var picks := Picks(req, p, items);
      assert HasKey(picks, x.key);
      var i :| 0 <= i < |picks| && picks[i].key == x.key;
      var a :| 0 <= a < |items| && items[a] == x;
      assert picks[i] in items;
      var b :| 0 <= b < |items| && items[b] == picks[i];
    }
  }

  lemma PoolIsSought(req: Request, rank: Ranking, x: Item)
    requires Answerable(req, rank)
    ensures x in Pool(req, rank, Partitions(req)) <==> Sought(req, rank, x)
  {
    var parts := Partitions(req);
    PartitionsAre(req);
    PoolHas(req, rank, parts, x);
    forall p | Requested(req, p)
      ensures x in Picks(req, p, rank(p)) <==> x in rank(p) && Wanted(req, x) && (p.Some? ==> IsOfType(x, p.value))
    {
      PicksAreAll(req, p, rank(p), x);
      AcceptsIff(req, p, x);
    }
    if Sought(req, rank, x) {
      if req.payloadTypes == [] {
        assert Requested(req, None);
        assert None in parts && x in Picks(req, None, rank(None));
      } else {
        var t :| t in req.payloadTypes && x in rank(Some(t)) && IsOfType(x, t);
        assert Requested(req, Some(t));
        assert Some(t) in parts && x in Picks(req, Some(t), rank(Some(t)));
      }
    }
    if p :| p in parts && x in Picks(req, p, rank(p)) {
      assert Requested(req, p);
    }
  }
}
