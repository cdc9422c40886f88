/** Candidates of one reindex run that share an identifier: one of them is published, or none. */
module Collisions {
  import opened Wrappers
  import opened Text
  import opened Records
  import opened Sorting

  // ----------------------------------------------------------------- candidates

  datatype Candidate = Candidate(path: string, title: Option<string>, payload: Payload, kind: string)

  datatype Reason = Named(reason: string) | DistinctTasks | Shadowed(path: string) | TooLarge

  /** Number of path components: empty and single-dot components do not count, a leading slash does. */
  function Parts(path: string): nat {
    CountParts(Split(path, '/')) + if StartsWith(path, "/") then 1 else 0
  }

  function CountParts(parts: seq<string>): nat {
    if parts == [] then 0 else (if parts[0] == "" || parts[0] == "." then 0 else 1) + CountParts(parts[1..])
  }

  /** A directory or file name as it stands in a path. */
  predicate IsName(c: string) { c != "" && c != "." && '/' !in c }

  /** A path of names is as deep as there are names, and a leading slash makes it one deeper. */
  lemma {:induction false} PartsOfNames(names: seq<string>)
    requires names != [] && forall i :: 0 <= i < |names| ==> IsName(names[i])
    ensures Parts(Join(names, '/')) == |names| && Parts("/" + Join(names, '/')) == |names| + 1
  {
    var path := Join(names, '/');
    CountNames(names);
    assert path[0] == names[0][0] && names[0][0] in names[0];
    assert Split("/" + path, '/') == [""] + Split(path, '/') by { assert ("/" + path)[1..] == path; }
    assert ([""] + Split(path, '/'))[1..] == Split(path, '/');
  }

  lemma {:induction false} CountNames(names: seq<string>)
    requires names != [] && forall i :: 0 <= i < |names| ==> IsName(names[i])
    ensures CountParts(Split(Join(names, '/'), '/')) == |names|
  {
    if |names| == 1 {
      SplitWithout(names[0], '/');
    } else {
      var rest := Join(names[1..], '/');
      CountNames(names[1..]);
      SplitFirst(names[0], rest, '/');
      assert ([names[0]] + Split(rest, '/'))[1..] == Split(rest, '/');
    }
  }

  /** Deeper paths come later, equally deep ones in text order. */
  predicate PathLe(a: string, b: string) { Parts(a) < Parts(b) || (Parts(a) == Parts(b) && StrLe(a, b)) }

  /** Path order is total and transitive. */
  lemma PathOrder(a: string, b: string, c: string)
    ensures PathLe(a, b) || PathLe(b, a)
    ensures PathLe(a, b) && PathLe(b, c) ==> PathLe(a, c)
  {
    StrTotal(a, b);
    if StrLe(a, b) && StrLe(b, c) { StrTransitive(a, b, c); }
  }

  predicate SameId(a: Candidate, b: Candidate) { a.payload.identifier == b.payload.identifier }

  /** All candidates of the identifier tell of one task, and this one's path is the deepest, the first of equals. */
  ghost predicate Wins(cs: seq<Candidate>, i: int) {
    && 0 <= i < |cs|
    && forall j :: 0 <= j < |cs| && SameId(cs[j], cs[i]) ==>
         cs[j].title == cs[i].title && PathLe(cs[j].path, cs[i].path) && (PathLe(cs[i].path, cs[j].path) ==> i <= j)
  }

  /** At most one candidate of an identifier wins. */
  lemma WinnerIsUnique(cs: seq<Candidate>, i: int, j: int)
    requires Wins(cs, i) && Wins(cs, j) && SameId(cs[i], cs[j])
    ensures i == j
  {
  }

  // ----------------------------------------------------------------- collision resolution

  datatype Loss = Loss(index: nat, reason: Reason)

  predicate HasId(cs: seq<Candidate>, i: nat, id: string) { i < |cs| && cs[i].payload.identifier == id }

  ghost predicate Ascending(g: seq<nat>) { forall a, b :: 0 <= a < b < |g| ==> g[a] < g[b] }

  /** `g` lists the candidates of an identifier among the first `n`, in order. */
  ghost predicate IsGroup(cs: seq<Candidate>, n: nat, id: string, g: seq<nat>) {
    && Ascending(g)
    && (forall a :: 0 <= a < |g| ==> g[a] < n && HasId(cs, g[a], id))
    && (forall i: nat :: i < n && HasId(cs, i, id) ==> i in g)
  }

  ghost predicate NoRepeat(s: seq<nat>) { forall a, b :: 0 <= a < b < |s| ==> s[a] != s[b] }

  function Indices(losses: seq<Loss>): seq<nat> {
    seq(|losses|, k requires 0 <= k < |losses| => losses[k].index)
  }

  /** The deepest candidate of a group, the first of equals. */
  method Deepest(cs: seq<Candidate>, g: seq<nat>) returns (best: nat)
    requires g != [] && Ascending(g) && forall a :: 0 <= a < |g| ==> g[a] < |cs|
    ensures best in g && best < |cs|
    ensures forall j :: j in g ==> PathLe(cs[j].path, cs[best].path) && (PathLe(cs[best].path, cs[j].path) ==> best <= j)
  {
    best := g[0];
    PathOrder(cs[best].path, cs[best].path, cs[best].path);
    for k := 1 to |g|
      invariant best in g[..k] && best < |cs|
      invariant forall a :: 0 <= a < k ==>
        PathLe(cs[g[a]].path, cs[best].path) && (PathLe(cs[best].path, cs[g[a]].path) ==> best <= g[a])
    {
      forall a | 0 <= a <= k
        ensures PathLe(cs[g[a]].path, cs[best].path) && PathLe(cs[best].path, cs[g[k]].path) ==> PathLe(cs[g[a]].path, cs[g[k]].path)
        ensures PathLe(cs[g[k]].path, cs[g[a]].path) && PathLe(cs[g[a]].path, cs[best].path) ==> PathLe(cs[g[k]].path, cs[best].path)
      {
        PathOrder(cs[g[a]].path, cs[best].path, cs[g[k]].path);
        PathOrder(cs[g[k]].path, cs[g[a]].path, cs[best].path);
      }
      PathOrder(cs[g[k]].path, cs[best].path, cs[g[k]].path);
      PathOrder(cs[g[k]].path, cs[g[k]].path, cs[g[k]].path);
      assert best < g[k] by { var t :| 0 <= t < k && g[t] == best; }
      assert g[..k + 1] == g[..k] + [g[k]];
      if !PathLe(cs[g[k]].path, cs[best].path) {
        best := g[k];
      }
    }
  }

  /** The outcome of one group: its winner, if it has one, and everyone else with the reason. */
  ghost predicate GroupResolved(cs: seq<Candidate>, g: seq<nat>, winner: Option<nat>, losses: seq<Loss>) {
    && (winner.Some? ==> winner.value in g && winner.value < |cs|)
    && (forall i :: i in g ==> (winner == Some(i) <==> Wins(cs, i)))
    && NoRepeat(Indices(losses))
    && (forall i: nat :: i in Indices(losses) <==> i in g && winner != Some(i))
    && (forall k :: 0 <= k < |losses| ==> losses[k].reason == ReasonOf(cs, winner))
  }

  method ResolveGroup(cs: seq<Candidate>, id: string, g: seq<nat>) returns (winner: Option<nat>, losses: seq<Loss>)
    requires IsGroup(cs, |cs|, id, g) && g != []
    ensures GroupResolved(cs, g, winner, losses)
  {
    if |g| == 1 {
      PathOrder(cs[g[0]].path, cs[g[0]].path, cs[g[0]].path);
      forall j: nat | j < |cs| && SameId(cs[j], cs[g[0]]) ensures j == g[0] {
        assert HasId(cs, j, id) && j in g;
      }
      assert Wins(cs, g[0]);
      return Some(g[0]), [];
    }
    var distinct := false;
    for k := 0 to |g|
      invariant distinct <==> exists a :: 0 <= a < k && cs[g[a]].title != cs[g[0]].title
    {
      if cs[g[k]].title != cs[g[0]].title { distinct := true; }
    }
    if distinct {
      winner := None;
      DistinctTitlesLose(cs, id, g);
    } else {
      var best := Deepest(cs, g);
      winner := Some(best);
      DeepestWins(cs, id, g, best);
    }
    losses := LossesOf(cs, g, winner);
  }

  function ReasonOf(cs: seq<Candidate>, winner: Option<nat>): Reason
    requires winner.Some? ==> winner.value < |cs|
  {
    if winner.Some? then Shadowed(cs[winner.value].path) else DistinctTasks
  }

  /** Everyone in the group but the winner is skipped. */
  method LossesOf(cs: seq<Candidate>, g: seq<nat>, winner: Option<nat>) returns (losses: seq<Loss>)
    requires winner.Some? ==> winner.value < |cs|
    requires Ascending(g)
    ensures NoRepeat(Indices(losses))
    ensures forall i: nat :: i in Indices(losses) <==> i in g && winner != Some(i)
    ensures forall k :: 0 <= k < |losses| ==> losses[k].reason == ReasonOf(cs, winner)
  {
    losses := [];
    for k := 0 to |g|
      invariant NoRepeat(Indices(losses))
      invariant forall i: nat :: i in Indices(losses) <==> i in g[..k] && winner != Some(i)
      invariant forall j :: 0 <= j < |losses| ==> losses[j].reason == ReasonOf(cs, winner)
    {
      assert g[..k + 1] == g[..k] + [g[k]];
      if winner != Some(g[k]) {
        var loss := Loss(g[k], ReasonOf(cs, winner));
        assert Indices(losses + [loss]) == Indices(losses) + [g[k]];
        losses := losses + [loss];
      }
    }
    assert g[..|g|] == g;
  }

  lemma DistinctTitlesLose(cs: seq<Candidate>, id: string, g: seq<nat>)
    requires IsGroup(cs, |cs|, id, g) && g != [] && exists a :: 0 <= a < |g| && cs[g[a]].title != cs[g[0]].title
    ensures forall i :: i in g ==> !Wins(cs, i)
  {
    var a :| 0 <= a < |g| && cs[g[a]].title != cs[g[0]].title;
    forall i | i in g ensures !Wins(cs, i) {
      assert SameId(cs[g[a]], cs[i]) && SameId(cs[g[0]], cs[i]);
    }
  }

  lemma DeepestWins(cs: seq<Candidate>, id: string, g: seq<nat>, best: nat)
    requires IsGroup(cs, |cs|, id, g) && g != [] && best in g
    requires forall a :: 0 <= a < |g| ==> cs[g[a]].title == cs[g[0]].title
    requires forall j :: j in g ==> PathLe(cs[j].path, cs[best].path) && (PathLe(cs[best].path, cs[j].path) ==> best <= j)
    ensures forall i :: i in g ==> (best == i <==> Wins(cs, i))
  {
    forall j | 0 <= j < |cs| && SameId(cs[j], cs[best]) ensures cs[j].title == cs[best].title && j in g {
    }
    assert Wins(cs, best);
    forall i | i in g && Wins(cs, i) ensures i == best { WinnerIsUnique(cs, i, best); }
  }

  /** The keys of the dictionary in the order they were entered. */
  ghost predicate KeysAre(keys: seq<string>, groups: map<string, seq<nat>>) {
    && (forall a, b :: 0 <= a < b < |keys| ==> keys[a] != keys[b])
    && (forall k :: k in keys <==> k in groups)
  }

  ghost predicate GroupsAre(cs: seq<Candidate>, n: nat, groups: map<string, seq<nat>>) {
    && n <= |cs|
    && (forall k :: k in groups ==> groups[k] != [] && IsGroup(cs, n, k, groups[k]))
    && (forall i :: 0 <= i < n ==> cs[i].payload.identifier in groups)
  }

  /** The dictionary after the first `n` candidates: their identifiers, and each one's group. */
  ghost predicate Grouped(cs: seq<Candidate>, n: nat, keys: seq<string>, groups: map<string, seq<nat>>) {
    KeysAre(keys, groups) && GroupsAre(cs, n, groups)
  }

  lemma KeysNext(keys: seq<string>, groups: map<string, seq<nat>>, id: string, g: seq<nat>)
    requires KeysAre(keys, groups)
    ensures KeysAre(if id in groups then keys else keys + [id], groups[id := g])
  {
  }

  lemma GroupGrows(cs: seq<Candidate>, n: nat, id: string, g: seq<nat>)
    requires n < |cs| && IsGroup(cs, n, id, g)
    ensures IsGroup(cs, n + 1, id, if cs[n].payload.identifier == id then g + [n] else g)
  {
  }

  lemma NoGroupYet(cs: seq<Candidate>, n: nat, id: string)
    requires n <= |cs| && forall i :: 0 <= i < n ==> cs[i].payload.identifier != id
    ensures IsGroup(cs, n, id, [])
  {
  }

  lemma GroupsNext(cs: seq<Candidate>, n: nat, groups: map<string, seq<nat>>)
    requires GroupsAre(cs, n, groups) && n < |cs|
    ensures
      var id := cs[n].payload.identifier;
      var g := if id in groups then groups[id] else [];
      GroupsAre(cs, n + 1, groups[id := g + [n]])
  {
    var id := cs[n].payload.identifier;
    var g := if id in groups then groups[id] else [];
    var next := groups[id := g + [n]];
    if id !in groups { NoGroupYet(cs, n, id); }
    assert IsGroup(cs, n, id, g);
    forall k | k in next ensures next[k] != [] && IsGroup(cs, n + 1, k, next[k]) {
      GroupGrows(cs, n, k, if k == id then g else groups[k]);
    }
  }

  method GroupByIdentifier(cs: seq<Candidate>) returns (keys: seq<string>, groups: map<string, seq<nat>>)
    ensures Grouped(cs, |cs|, keys, groups)
  {
    keys, groups := [], map[];
    for i := 0 to |cs|
      invariant Grouped(cs, i, keys, groups)
    {
      var id := cs[i].payload.identifier;
      GroupsNext(cs, i, groups);
      var g := if id in groups then groups[id] else [];
      KeysNext(keys, groups, id, g + [i]);
      keys := if id in groups then keys else keys + [id];
      groups := groups[id := g + [i]];
    }
  }

  /** A loss is explained by the winner it is shadowed by, or by two titles under one identifier. */
  ghost predicate Explained(cs: seq<Candidate>, loss: Loss) {
    && loss.index < |cs|
    && match loss.reason
       case Shadowed(path) => exists w :: Wins(cs, w) && SameId(cs[w], cs[loss.index]) && path == cs[w].path
       case DistinctTasks => forall w :: Wins(cs, w) ==> !SameId(cs[w], cs[loss.index])
       case _ => false
  }

  lemma NoRepeatAppend(a: seq<nat>, b: seq<nat>)
    requires NoRepeat(a) && NoRepeat(b) && forall i :: i in a ==> i !in b
    ensures NoRepeat(a + b)
  {
    var s := a + b;
    forall x, y | 0 <= x < y < |s| ensures s[x] != s[y] {
      if x < |a| <= y { assert s[x] in a && s[y] in b; }
    }
  }

  /** The indices are those of the candidates with an identifier in `done` that win, or that do not. */
  ghost predicate Exactly(cs: seq<Candidate>, done: set<string>, wins: bool, s: seq<nat>) {
    NoRepeat(s) && forall i: nat :: i in s <==> i < |cs| && cs[i].payload.identifier in done && Wins(cs, i) == wins
  }

  lemma ExactlyNext(cs: seq<Candidate>, done: set<string>, wins: bool, s: seq<nat>, id: string, more: seq<nat>)
    requires Exactly(cs, done, wins, s) && Exactly(cs, {id}, wins, more) && id !in done
    ensures Exactly(cs, done + {id}, wins, s + more)
  {
    NoRepeatAppend(s, more);
  }

  lemma GroupIsExact(cs: seq<Candidate>, id: string, g: seq<nat>, winner: Option<nat>, more: seq<Loss>)
    requires IsGroup(cs, |cs|, id, g) && GroupResolved(cs, g, winner, more)
    ensures Exactly(cs, {id}, true, if winner.Some? then [winner.value] else [])
    ensures Exactly(cs, {id}, false, Indices(more))
  {
    var ws := if winner.Some? then [winner.value] else [];
    forall i: nat ensures i in g <==> HasId(cs, i, id) {
    }
    forall i: nat ensures i in ws <==> HasId(cs, i, id) && Wins(cs, i) {
      if i in g { assert winner == Some(i) <==> Wins(cs, i); }
    }
    forall i: nat ensures i in Indices(more) <==> HasId(cs, i, id) && !Wins(cs, i) {
      if i in g { assert winner == Some(i) <==> Wins(cs, i); }
    }
  }

  lemma LossesExplained(cs: seq<Candidate>, id: string, g: seq<nat>, winner: Option<nat>, more: seq<Loss>)
    requires IsGroup(cs, |cs|, id, g) && GroupResolved(cs, g, winner, more)
    ensures forall k :: 0 <= k < |more| ==> Explained(cs, more[k])
  {
    forall k | 0 <= k < |more| ensures Explained(cs, more[k]) {
      assert more[k].index == Indices(more)[k] && more[k].index in g;
      if winner.Some? {
        assert winner.value in g && Wins(cs, winner.value);
      } else {
        forall w: nat | HasId(cs, w, id) ensures !Wins(cs, w) {
          assert w in g && (winner == Some(w) <==> Wins(cs, w));
        }
      }
    }
  }

  lemma GroupNext(
    cs: seq<Candidate>, done: set<string>, winners: seq<nat>, losses: seq<Loss>, id: string, g: seq<nat>,
    winner: Option<nat>, more: seq<Loss>)
    requires Exactly(cs, done, true, winners) && Exactly(cs, done, false, Indices(losses)) && id !in done
    requires IsGroup(cs, |cs|, id, g) && GroupResolved(cs, g, winner, more)
    ensures Exactly(cs, done + {id}, true, winners + if winner.Some? then [winner.value] else [])
    ensures Exactly(cs, done + {id}, false, Indices(losses + more))
  {
    GroupIsExact(cs, id, g, winner, more);
    ExactlyNext(cs, done, true, winners, id, if winner.Some? then [winner.value] else []);
    ExactlyNext(cs, done, false, Indices(losses), id, Indices(more));
    assert Indices(losses + more) == Indices(losses) + Indices(more);
  }

  ghost function KeySet(keys: seq<string>): set<string> { set k | k in keys }

  /** One winner for each identifier that names one task; all other candidates are skipped with a reason. */
  method ResolveCollisions(cs: seq<Candidate>) returns (winners: seq<nat>, losses: seq<Loss>)
    ensures NoRepeat(winners) && NoRepeat(Indices(losses))
    ensures forall i: nat :: i in winners <==> Wins(cs, i)
    ensures forall i: nat :: i in Indices(losses) <==> i < |cs| && !Wins(cs, i)
    ensures forall k :: 0 <= k < |losses| ==> Explained(cs, losses[k])
  {
    var keys, groups := GroupByIdentifier(cs);
    winners, losses := [], [];
    ghost var done: set<string> := {};
    for k := 0 to |keys|
      invariant done == KeySet(keys[..k])
      invariant Exactly(cs, done, true, winners) && Exactly(cs, done, false, Indices(losses))
      invariant forall j :: 0 <= j < |losses| ==> Explained(cs, losses[j])
    {
      var g := groups[keys[k]];
      var winner, more := ResolveGroup(cs, keys[k], g);
      GroupNext(cs, done, winners, losses, keys[k], g, winner, more);
      LossesExplained(cs, keys[k], g, winner, more);
      assert keys[..k + 1] == keys[..k] + [keys[k]];
      done := done + {keys[k]};
      winners := winners + if winner.Some? then [winner.value] else [];
      losses := losses + more;
    }
    assert keys[..|keys|] == keys;
  }
}
