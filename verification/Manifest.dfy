/**
 The corpus manifest: which pipeline owns which directory, resolution of a path by its longest
 directory, and the validation that is meant to keep the two pipelines apart.
 */
module Manifest {
  import opened Wrappers
  import opened Text

  datatype Entry = Entry(kind: string, directories: seq<string>, owner: string)

  datatype Claim = Claim(kind: string, owner: string)

  /** Backslashes become slashes. */
  function Slashed(s: string): (r: string)
    ensures |r| == |s| && forall i :: 0 <= i < |s| ==> r[i] == if s[i] == '\\' then '/' else s[i]
  {
    seq(|s|, i requires 0 <= i < |s| => if s[i] == '\\' then '/' else s[i])
  }

  /** Trailing slashes are removed. */
  function Trimmed(s: string): (r: string)
    ensures |r| <= |s| && r == s[..|r|]
    ensures r != "" ==> r[|r| - 1] != '/'
    ensures forall i :: |r| <= i < |s| ==> s[i] == '/'
  {
    if s != "" && s[|s| - 1] == '/' then Trimmed(s[..|s| - 1]) else s
  }

  /** The file or directory is `dir` or lies below it. */
  predicate Under(path: string, dir: string) { path == dir || StartsWith(path, dir + "/") }

  // ----------------------------------------------------------------- positions

  predicate At(entries: seq<Entry>, i: int, j: int) {
    0 <= i < |entries| && 0 <= j < |entries[i].directories|
  }

  /** The directory at a position, as resolution compares it. */
  function Dir(entries: seq<Entry>, i: int, j: int): string
    requires At(entries, i, j)
  {
    Slashed(entries[i].directories[j])
  }

  /** The directory at a position, as validation compares it. */
  function Norm(entries: seq<Entry>, i: int, j: int): string
    requires At(entries, i, j)
  {
    Trimmed(Dir(entries, i, j))
  }

  predicate Earlier(i: int, j: int, i': int, j': int) { i < i' || (i == i' && j < j') }

  // ----------------------------------------------------------------- resolution

  ghost predicate Matches(entries: seq<Entry>, path: string, i: int, j: int) {
    At(entries, i, j) && Dir(entries, i, j) != "" && Under(path, Dir(entries, i, j))
  }

  /** The match at (i, j) is longer than every earlier one and at least as long as every other. */
  ghost predicate Longest(entries: seq<Entry>, path: string, i: int, j: int) {
    && Matches(entries, path, i, j)
    && forall i', j' :: Matches(entries, path, i', j') ==>
         if Earlier(i', j', i, j) then |Dir(entries, i', j')| < |Dir(entries, i, j)|
         else |Dir(entries, i', j')| <= |Dir(entries, i, j)|
  }

  ghost predicate IsAnswer(entries: seq<Entry>, path: string, answer: Option<Claim>) {
    match answer
    case None => forall i, j :: !Matches(entries, path, i, j)
    case Some(claim) => exists i, j :: Longest(entries, path, i, j) && claim == Claim(entries[i].kind, entries[i].owner)
  }

  /** What is found among the positions before (i, j). */
  ghost predicate Found(entries: seq<Entry>, path: string, i: int, j: int, answer: Option<Claim>, length: nat, bi: int, bj: int) {
    if answer.None? then
      length == 0 && forall i', j' :: Earlier(i', j', i, j) ==> !Matches(entries, path, i', j')
    else
      && Matches(entries, path, bi, bj) && Earlier(bi, bj, i, j) && length == |Dir(entries, bi, bj)|
      && answer == Some(Claim(entries[bi].kind, entries[bi].owner))
      && forall i', j' :: Matches(entries, path, i', j') && Earlier(i', j', i, j) ==>
           if Earlier(i', j', bi, bj) then |Dir(entries, i', j')| < length else |Dir(entries, i', j')| <= length
  }

  /** The claim of the longest directory over the path. */
  method ResolveKind(entries: seq<Entry>, repoRelative: string) returns (answer: Option<Claim>)
    ensures IsAnswer(entries, Slashed(repoRelative), answer)
  {
    var path := Slashed(repoRelative);
    var length: nat := 0;
    answer := None;
    ghost var bi, bj := 0, 0;
    for i := 0 to |entries|
      invariant Found(entries, path, i, 0, answer, length, bi, bj)
    {
      var entry := entries[i];
      for j := 0 to |entry.directories|
        invariant Found(entries, path, i, j, answer, length, bi, bj)
      {
        var directory := Slashed(entry.directories[j]);
        if path == directory || StartsWith(path, directory + "/") {
          if |directory| > length {
            length := |directory|;
            answer := Some(Claim(entry.kind, entry.owner));
            bi, bj := i, j;
          }
        }
      }
    }
    if answer.Some? {
      assert Longest(entries, path, bi, bj);
    }
  }

  // ----------------------------------------------------------------- validation

  datatype ManifestError = UnknownOwner(owner: string) | CoveredTwice(dir: string) | Nested(reindexDir: string, harvestDir: string)

  predicate KnownOwner(owner: string) { owner == "harvest" || owner == "reindex" }

  ghost predicate OwnersKnown(entries: seq<Entry>) {
    forall i :: 0 <= i < |entries| ==> KnownOwner(entries[i].owner)
  }

  ghost predicate CoveredOnce(entries: seq<Entry>) {
    forall i, j, i', j' :: At(entries, i, j) && At(entries, i', j') && Earlier(i, j, i', j') ==>
      Norm(entries, i, j) != Norm(entries, i', j')
  }

  /** The position holds this normalised directory and is owned by `owner`. */
  ghost predicate Owns(entries: seq<Entry>, owner: string, i: int, j: int, dir: string) {
    At(entries, i, j) && entries[i].owner == owner && Norm(entries, i, j) == dir
  }

  ghost predicate Owned(entries: seq<Entry>, owner: string, dir: string) {
    exists i, j :: Owns(entries, owner, i, j, dir)
  }

  ghost predicate NotNested(entries: seq<Entry>) {
    forall r, h :: Owned(entries, "reindex", r) && Owned(entries, "harvest", h) ==> !StartsWith(r, h + "/")
  }

  ghost predicate Accepted(entries: seq<Entry>) {
    OwnersKnown(entries) && CoveredOnce(entries) && NotNested(entries)
  }

  /** The directories of this owner at the positions before (i, j). */
  ghost predicate Collected(entries: seq<Entry>, owner: string, i: int, j: int, dirs: seq<string>) {
    && (forall k :: 0 <= k < |dirs| ==> Owned(entries, owner, dirs[k]))
    && (forall i', j', d :: Owns(entries, owner, i', j', d) && Earlier(i', j', i, j) ==> d in dirs)
  }

  /** The directories seen before (i, j), all different. */
  ghost predicate Seen(entries: seq<Entry>, i: int, j: int, seen: set<string>) {
    && (forall i', j' :: At(entries, i', j') && Earlier(i', j', i, j) ==> Norm(entries, i', j') in seen)
    && (forall d :: d in seen ==> exists i', j' :: At(entries, i', j') && Earlier(i', j', i, j) && Norm(entries, i', j') == d)
    && (forall i1, j1, i2, j2 :: At(entries, i1, j1) && At(entries, i2, j2) && Earlier(i1, j1, i2, j2) && Earlier(i2, j2, i, j) ==>
          Norm(entries, i1, j1) != Norm(entries, i2, j2))
  }

  lemma SeeNext(entries: seq<Entry>, i: int, j: int, seen: set<string>)
    requires At(entries, i, j) && Seen(entries, i, j, seen)
    ensures Norm(entries, i, j) in seen ==> !CoveredOnce(entries)
    ensures Norm(entries, i, j) !in seen ==> Seen(entries, i, j + 1, seen + {Norm(entries, i, j)})
  {
    var d := Norm(entries, i, j);
    if d in seen {
      var i', j' :| At(entries, i', j') && Earlier(i', j', i, j) && Norm(entries, i', j') == d;
      assert !CoveredOnce(entries);
    } else {
      var more := seen + {d};
      forall e | e in more ensures exists i', j' :: At(entries, i', j') && Earlier(i', j', i, j + 1) && Norm(entries, i', j') == e {
        if e in seen {
          var i', j' :| At(entries, i', j') && Earlier(i', j', i, j) && Norm(entries, i', j') == e;
          assert Earlier(i', j', i, j + 1);
        } else {
          assert Earlier(i, j, i, j + 1);
        }
      }
    }
  }

  lemma CollectNext(entries: seq<Entry>, owner: string, i: int, j: int, dirs: seq<string>)
    requires At(entries, i, j) && Collected(entries, owner, i, j, dirs)
    ensures Collected(entries, owner, i, j + 1, if entries[i].owner == owner then dirs + [Norm(entries, i, j)] else dirs)
  {
    var here := Norm(entries, i, j);
    var more := if entries[i].owner == owner then dirs + [here] else dirs;
    if entries[i].owner == owner {
      assert Owns(entries, owner, i, j, here);
    }
    forall i', j', d | Owns(entries, owner, i', j', d) && Earlier(i', j', i, j + 1) ensures d in more {
      if Earlier(i', j', i, j) { assert d in dirs; }
    }
  }

  /** What validation has gathered from the positions before (i, j). */
  ghost predicate Gathered(entries: seq<Entry>, i: int, j: int, seen: set<string>, harvest: seq<string>, reindex: seq<string>) {
    && Seen(entries, i, j, seen)
    && Collected(entries, "harvest", i, j, harvest)
    && Collected(entries, "reindex", i, j, reindex)
  }

  lemma GatherNext(entries: seq<Entry>, i: int, j: int, seen: set<string>, harvest: seq<string>, reindex: seq<string>)
    requires At(entries, i, j) && Gathered(entries, i, j, seen, harvest, reindex) && KnownOwner(entries[i].owner)
    ensures Norm(entries, i, j) in seen ==> !CoveredOnce(entries)
    ensures
      var d := Norm(entries, i, j);
      d !in seen ==>
        if entries[i].owner == "harvest" then Gathered(entries, i, j + 1, seen + {d}, harvest + [d], reindex)
        else Gathered(entries, i, j + 1, seen + {d}, harvest, reindex + [d])
  {
    SeeNext(entries, i, j, seen);
    CollectNext(entries, "harvest", i, j, harvest);
    CollectNext(entries, "reindex", i, j, reindex);
  }

  lemma GatherRow(entries: seq<Entry>, i: int, seen: set<string>, harvest: seq<string>, reindex: seq<string>)
    requires 0 <= i < |entries| && Gathered(entries, i, |entries[i].directories|, seen, harvest, reindex)
    ensures Gathered(entries, i + 1, 0, seen, harvest, reindex)
  {
    SeenRow(entries, i, seen);
    CollectedRow(entries, "harvest", i, harvest);
    CollectedRow(entries, "reindex", i, reindex);
  }

  lemma SeenRow(entries: seq<Entry>, i: int, seen: set<string>)
    requires 0 <= i < |entries| && Seen(entries, i, |entries[i].directories|, seen)
    ensures Seen(entries, i + 1, 0, seen)
  {
  }

  lemma CollectedRow(entries: seq<Entry>, owner: string, i: int, dirs: seq<string>)
    requires 0 <= i < |entries| && Collected(entries, owner, i, |entries[i].directories|, dirs)
    ensures Collected(entries, owner, i + 1, 0, dirs)
  {
  }

  lemma SeenAll(entries: seq<Entry>, seen: set<string>)
    requires Seen(entries, |entries|, 0, seen)
    ensures CoveredOnce(entries)
  {
  }

  lemma CollectedAll(entries: seq<Entry>, owner: string, dirs: seq<string>)
    requires Collected(entries, owner, |entries|, 0, dirs)
    ensures forall d :: d in dirs <==> Owned(entries, owner, d)
  {
  }

  /** Accepts exactly the manifests that satisfy all three rules, and names a rule that is broken. */
  method ValidateManifest(entries: seq<Entry>) returns (r: Result<(), ManifestError>)
    ensures r.Success? <==> Accepted(entries)
    ensures r.Failure? && r.error.UnknownOwner? ==>
      !KnownOwner(r.error.owner) && exists i :: 0 <= i < |entries| && entries[i].owner == r.error.owner
    ensures r.Failure? && r.error.CoveredTwice? ==> !CoveredOnce(entries)
    ensures r.Failure? && r.error.Nested? ==>
      && OwnersKnown(entries) && CoveredOnce(entries)
      && Owned(entries, "reindex", r.error.reindexDir) && Owned(entries, "harvest", r.error.harvestDir)
      && StartsWith(r.error.reindexDir, r.error.harvestDir + "/")
  {
    var harvest, reindex: seq<string>, seen: set<string> := [], [], {};
    for i := 0 to |entries|
      invariant forall k :: 0 <= k < i ==> KnownOwner(entries[k].owner)
      invariant Gathered(entries, i, 0, seen, harvest, reindex)
    {
      var entry := entries[i];
      if !KnownOwner(entry.owner) {
        return Failure(UnknownOwner(entry.owner));
      }
      for j := 0 to |entry.directories|
        invariant Gathered(entries, i, j, seen, harvest, reindex)
      {
        var normalized := Trimmed(Slashed(entry.directories[j]));
        GatherNext(entries, i, j, seen, harvest, reindex);
        if normalized in seen {
          return Failure(CoveredTwice(normalized));
        }
        seen := seen + {normalized};
        if entry.owner == "harvest" {
          harvest := harvest + [normalized];
        } else {
          reindex := reindex + [normalized];
        }
      }
      GatherRow(entries, i, seen, harvest, reindex);
    }
    SeenAll(entries, seen);
    CollectedAll(entries, "harvest", harvest);
    CollectedAll(entries, "reindex", reindex);
    var nested := FindNested(reindex, harvest);
    if nested.Some? {
      return Failure(Nested(nested.value.0, nested.value.1));
    }
    return Success(());
  }

  /** A reindex directory inside a harvest directory, if there is one. */
  method FindNested(reindex: seq<string>, harvest: seq<string>) returns (nested: Option<(string, string)>)
    ensures nested.None? <==> forall r, h :: r in reindex && h in harvest ==> !StartsWith(r, h + "/")
    ensures nested.Some? ==>
      nested.value.0 in reindex && nested.value.1 in harvest && StartsWith(nested.value.0, nested.value.1 + "/")
  {
    for k := 0 to |reindex|
      invariant forall a, b :: 0 <= a < k && 0 <= b < |harvest| ==> !StartsWith(reindex[a], harvest[b] + "/")
    {
      for l := 0 to |harvest|
        invariant forall b :: 0 <= b < l ==> !StartsWith(reindex[k], harvest[b] + "/")
      {
        if StartsWith(reindex[k], harvest[l] + "/") {
          assert reindex[k] in reindex && harvest[l] in harvest;
          return Some((reindex[k], harvest[l]));
        }
      }
    }
    return None;
  }

  // ----------------------------------------------------------------- entry order

  /** Two directories over one path that are equally long are the same. */
  lemma SameLengthSame(path: string, a: string, b: string)
    requires Under(path, a) && Under(path, b) && |a| == |b|
    ensures a == b
  {
    assert path[..|a|] == a && path[..|b|] == b;
  }

  /** The shorter of two directories over one path is over the longer one. */
  lemma ShorterIsAbove(path: string, short: string, long: string)
    requires Under(path, short) && Under(path, long) && |short| < |long|
    ensures StartsWith(long, short + "/")
  {
    assert path[..|short| + 1] == short + "/";
    assert path[..|long|] == long;
    assert long[..|short| + 1] == path[..|short| + 1];
  }

  /** `dir` is listed, as written with slashes, under this claim. */
  ghost predicate Claims(entries: seq<Entry>, dir: string, claim: Claim) {
    exists i, j :: At(entries, i, j) && Dir(entries, i, j) == dir && claim == Claim(entries[i].kind, entries[i].owner)
  }

  ghost predicate SameClaims(a: seq<Entry>, b: seq<Entry>) {
    forall dir, claim :: Claims(a, dir, claim) <==> Claims(b, dir, claim)
  }

  lemma ClaimedOnce(entries: seq<Entry>, dir: string, x: Claim, y: Claim)
    requires CoveredOnce(entries) && Claims(entries, dir, x) && Claims(entries, dir, y)
    ensures x == y
  {
    var i, j :| At(entries, i, j) && Dir(entries, i, j) == dir && x == Claim(entries[i].kind, entries[i].owner);
    var i', j' :| At(entries, i', j') && Dir(entries, i', j') == dir && y == Claim(entries[i'].kind, entries[i'].owner);
    assert Norm(entries, i, j) == Norm(entries, i', j');
  }

  /** The answer seen through the claims alone: a longest directory over the path and its claim. */
  ghost predicate AnswersWith(entries: seq<Entry>, path: string, dir: string, claim: Claim) {
    && dir != "" && Under(path, dir) && Claims(entries, dir, claim)
    && forall d, c :: d != "" && Under(path, d) && Claims(entries, d, c) ==> |d| <= |dir|
  }

  lemma AnswerIsClaim(entries: seq<Entry>, path: string, claim: Claim) returns (dir: string)
    requires IsAnswer(entries, path, Some(claim))
    ensures AnswersWith(entries, path, dir, claim)
  {
    var i, j :| Longest(entries, path, i, j) && claim == Claim(entries[i].kind, entries[i].owner);
    dir := Dir(entries, i, j);
    forall d, c | d != "" && Under(path, d) && Claims(entries, d, c) ensures |d| <= |dir| {
      var i', j' :| At(entries, i', j') && Dir(entries, i', j') == d && c == Claim(entries[i'].kind, entries[i'].owner);
      assert Matches(entries, path, i', j');
    }
  }

  lemma ClaimIsAnswered(entries: seq<Entry>, path: string, dir: string, claim: Claim)
    requires Claims(entries, dir, claim) && dir != "" && Under(path, dir)
    ensures !IsAnswer(entries, path, None)
  {
    var i, j :| At(entries, i, j) && Dir(entries, i, j) == dir;
    assert Matches(entries, path, i, j);
  }

  /** Whatever the order of an accepted manifest's entries and directories, a path has one answer. */
  lemma OrderIrrelevant(a: seq<Entry>, b: seq<Entry>, path: string, x: Option<Claim>, y: Option<Claim>)
    requires Accepted(a) && SameClaims(a, b)
    requires IsAnswer(a, path, x) && IsAnswer(b, path, y)
    ensures x == y
  {
    if x.Some? && y.Some? {
      var d := AnswerIsClaim(a, path, x.value);
      var e := AnswerIsClaim(b, path, y.value);
      SameLengthSame(path, d, e);
      ClaimedOnce(a, d, x.value, y.value);
    } else if x.Some? {
      var d := AnswerIsClaim(a, path, x.value);
      ClaimIsAnswered(b, path, d, x.value);
    } else if y.Some? {
      var e := AnswerIsClaim(b, path, y.value);
      ClaimIsAnswered(a, path, e, y.value);
    }
  }

  /** Reordering the entries changes no claim. */
  lemma PermutedClaims(a: seq<Entry>, b: seq<Entry>)
    requires multiset(a) == multiset(b)
    ensures SameClaims(a, b)
  {
    forall dir, claim ensures Claims(a, dir, claim) <==> Claims(b, dir, claim) {
      if Claims(a, dir, claim) { ClaimMoves(a, b, dir, claim); }
      if Claims(b, dir, claim) { ClaimMoves(b, a, dir, claim); }
    }
  }

  lemma ClaimMoves(a: seq<Entry>, b: seq<Entry>, dir: string, claim: Claim)
    requires multiset(a) == multiset(b) && Claims(a, dir, claim)
    ensures Claims(b, dir, claim)
  {
    var i, j :| At(a, i, j) && Dir(a, i, j) == dir && claim == Claim(a[i].kind, a[i].owner);
    assert a[i] in multiset(b);
    var k :| 0 <= k < |b| && b[k] == a[i];
    assert At(b, k, j) && Dir(b, k, j) == dir;
  }

  // ----------------------------------------------------------------- ownership

  /** A path as the path library renders it: not empty, no doubled or trailing slash. */
  ghost predicate NormalPath(path: string) {
    && path != "" && path[|path| - 1] != '/'
    && forall i :: 0 <= i < |path| - 1 ==> !(path[i] == '/' && path[i + 1] == '/')
  }

  /** No directory is written with a trailing slash. */
  ghost predicate NormalForm(entries: seq<Entry>) {
    forall i, j :: At(entries, i, j) ==> Dir(entries, i, j) == Norm(entries, i, j)
  }

  ghost predicate ForReindex(entries: seq<Entry>, path: string) {
    exists kind :: IsAnswer(entries, path, Some(Claim(kind, "reindex")))
  }

  ghost predicate InHarvest(entries: seq<Entry>, path: string) {
    exists h :: Owned(entries, "harvest", h) && Under(path, h)
  }

  /** No path is given to the reindex pipeline and lies in a directory of the harvest pipeline. */
  ghost predicate KeptApart(entries: seq<Entry>) {
    forall path :: NormalPath(path) && ForReindex(entries, path) ==> !InHarvest(entries, path)
  }

  /** A directory with trailing slashes is over no normal path. */
  lemma OnlyTrimmedMatch(path: string, dir: string)
    requires NormalPath(path) && Under(path, dir) && dir != ""
    ensures Trimmed(dir) == dir
  {
    if path != dir {
      var n := |dir|;
      var longer := path[..n + 1];
      assert longer == dir + "/";
      assert path[n] == longer[n] == '/' && path[n - 1] == longer[n - 1] == dir[n - 1];
    }
  }

  lemma PrefixIsNormal(path: string, dir: string)
    requires NormalPath(path) && Under(path, dir) && dir != ""
    ensures NormalPath(dir)
  {
    OnlyTrimmedMatch(path, dir);
    forall i | 0 <= i < |dir| - 1 ensures !(dir[i] == '/' && dir[i + 1] == '/') {
      assert path[..|dir|] == dir;
      assert path[i] == dir[i] && path[i + 1] == dir[i + 1];
    }
  }

  lemma UnderTransitive(path: string, mid: string, top: string)
    requires Under(path, mid) && Under(mid, top)
    ensures Under(path, top)
  {
    if path != mid && mid != top {
      assert path[..|mid|] == mid;
      assert path[..|top| + 1] == mid[..|top| + 1];
    }
  }

  lemma NotBoth(entries: seq<Entry>, dir: string)
    requires CoveredOnce(entries) && Owned(entries, "reindex", dir)
    ensures !Owned(entries, "harvest", dir)
  {
    var i, j :| Owns(entries, "reindex", i, j, dir);
    forall i', j' | At(entries, i', j') && entries[i'].owner == "harvest" ensures Norm(entries, i', j') != dir {
      assert Earlier(i, j, i', j') || Earlier(i', j', i, j);
    }
  }

  /**
   A path given to the reindex owner below a harvest directory shows that the harvest directory itself
   is given to the reindex owner.
   */
  lemma HarvestDirIsGivenAway(entries: seq<Entry>, path: string, kind: string, h: string)
    requires Accepted(entries) && NormalPath(path) && IsAnswer(entries, path, Some(Claim(kind, "reindex")))
    requires Owned(entries, "harvest", h) && Under(path, h)
    ensures NormalPath(h) && IsAnswer(entries, h, Some(Claim(kind, "reindex")))
  {
    var claim := Claim(kind, "reindex");
    var i, j :| Longest(entries, path, i, j) && claim == Claim(entries[i].kind, entries[i].owner);
    var r := Dir(entries, i, j);
    OnlyTrimmedMatch(path, r);
    assert Owns(entries, "reindex", i, j, r) && Owned(entries, "reindex", r);
    if |h| < |r| {
      ShorterIsAbove(path, h, r);
      assert false;
    }
    NotBoth(entries, r);
    if |h| == |r| { SameLengthSame(path, h, r); }
    ShorterIsAbove(path, r, h);
    PrefixIsNormal(path, h);
    assert Matches(entries, h, i, j);
    forall i', j' | Matches(entries, h, i', j') ensures Matches(entries, path, i', j') {
      UnderTransitive(path, h, Dir(entries, i', j'));
    }
    assert Longest(entries, h, i, j);
  }

  /**
   An accepted manifest keeps the pipelines apart exactly when no harvest directory, resolved as a
   path of its own, is given to the reindex owner.
   */
  lemma KeptApartIff(entries: seq<Entry>)
    requires Accepted(entries)
    ensures KeptApart(entries) <==> forall h :: Owned(entries, "harvest", h) && NormalPath(h) ==> !ForReindex(entries, h)
  {
    if KeptApart(entries) {
      forall h | Owned(entries, "harvest", h) && NormalPath(h) ensures !ForReindex(entries, h) {
        assert Under(h, h);
        assert InHarvest(entries, h);
      }
    }
    if forall h :: Owned(entries, "harvest", h) && NormalPath(h) ==> !ForReindex(entries, h) {
      forall path | NormalPath(path) && ForReindex(entries, path) ensures !InHarvest(entries, path) {
        if InHarvest(entries, path) {
          var h :| Owned(entries, "harvest", h) && Under(path, h);
          var kind :| IsAnswer(entries, path, Some(Claim(kind, "reindex")));
          HarvestDirIsGivenAway(entries, path, kind, h);
          assert ForReindex(entries, h);
        }
      }
    }
  }

  /** With no trailing slashes, every accepted manifest keeps the pipelines apart. */
  lemma NormalFormKeepsApart(entries: seq<Entry>)
    requires Accepted(entries) && NormalForm(entries)
    ensures KeptApart(entries)
  {
    forall h | Owned(entries, "harvest", h) && NormalPath(h) ensures !ForReindex(entries, h) {
      if ForReindex(entries, h) {
        var kind :| IsAnswer(entries, h, Some(Claim(kind, "reindex")));
        var i, j :| Owns(entries, "harvest", i, j, h);
        var dir := AnswerIsClaim(entries, h, Claim(kind, "reindex"));
        assert Under(h, h) && Claims(entries, h, Claim(entries[i].kind, "harvest"));
        assert |dir| == |h|;
        SameLengthSame(h, dir, h);
        ClaimedOnce(entries, h, Claim(kind, "reindex"), Claim(entries[i].kind, "harvest"));
      }
    }
    KeptApartIff(entries);
  }

  /** Two entries, the harvest directory with a trailing slash below the reindex directory. */
  const Slashing: seq<Entry> := [Entry("adr", ["docs/x/"], "harvest"), Entry("task", ["docs"], "reindex")]

  lemma SlashingDirs()
    ensures forall i, j :: At(Slashing, i, j) <==> (i == 0 || i == 1) && j == 0
    ensures Dir(Slashing, 0, 0) == "docs/x/" && Dir(Slashing, 1, 0) == "docs"
    ensures Norm(Slashing, 0, 0) == "docs/x" && Norm(Slashing, 1, 0) == "docs"
  {
    assert Trimmed("docs/x/") == Trimmed("docs/x");
  }

  lemma SlashingAccepted()
    ensures Accepted(Slashing)
  {
    SlashingDirs();
    forall r, h | Owned(Slashing, "reindex", r) && Owned(Slashing, "harvest", h) ensures !StartsWith(r, h + "/") {
      assert |r| == 4 && |h| == 6;
    }
  }

  lemma SlashingAnswer()
    ensures IsAnswer(Slashing, "docs/x/a", Some(Claim("task", "reindex")))
  {
    SlashingDirs();
    var path := "docs/x/a";
    assert path[..5] == "docs" + "/";
    assert Matches(Slashing, path, 1, 0);
    assert path[7] != '/' && Dir(Slashing, 0, 0) + "/" == "docs/x//";
    assert !Matches(Slashing, path, 0, 0);
    assert Longest(Slashing, path, 1, 0);
  }

  /** Validation accepts it and a file of the harvest directory is given to the reindex pipeline. */
  lemma TrailingSlashDefeats()
    ensures Accepted(Slashing) && !KeptApart(Slashing)
  {
    var path := "docs/x/a";
    SlashingDirs();
    SlashingAccepted();
    SlashingAnswer();
    assert path[..7] == "docs/x" + "/";
    assert Owns(Slashing, "harvest", 0, 0, "docs/x") && Under(path, "docs/x");
    assert InHarvest(Slashing, path) && ForReindex(Slashing, path) && NormalPath(path);
  }
}
