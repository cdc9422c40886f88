/**
 Selecting one project's rows by prefix. The LIKE operand is built by three replacements and
 interpreted by the matcher of section 8.5, <like predicate>, of ISO/IEC 9075-2 with escape `\`.
 */
module LikeOperand {
  import opened Wrappers
  import opened Text
  import opened Records

  /** `s LIKE pattern ESCAPE '\'`; a pattern that ends in the escape character matches nothing. */
  predicate Like(s: string, pattern: string)
    decreases |pattern|, |s|
  {
    if pattern == [] then s == []
    else if pattern[0] == '\\' then |pattern| >= 2 && s != [] && s[0] == pattern[1] && Like(s[1..], pattern[2..])
    else if pattern[0] == '%' then Like(s, pattern[1..]) || (s != [] && Like(s[1..], pattern))
    else if pattern[0] == '_' then s != [] && Like(s[1..], pattern[1..])
    else s != [] && s[0] == pattern[0] && Like(s[1..], pattern[1..])
  }

  /** `s.replace(c, r)` for a one-character `c`. */
  function Replace(s: string, c: char, r: string): string {
    if s == [] then [] else (if s[0] == c then r else [s[0]]) + Replace(s[1..], c, r)
  }

  function Exact(project: string): string { ROOT + ['.'] + project }

  /** The literal part with its three metacharacters replaced one after the other, then `.%`. */
  function Operand(literal: string): string {
    Replace(Replace(Replace(literal, '\\', "\\\\"), '_', "\\_"), '%', "\\%") + ".%"
  }

  /** The match clause of the delete and age queries. */
  predicate Selects(project: string, prefix: string) {
    prefix == Exact(project) || Like(prefix, Operand(Exact(project)))
  }

  // ----------------------------------------------------------------- escaping

  /** Every metacharacter behind an escape character, in one pass. */
  function Escaped(s: string): string {
    if s == [] then []
    else (if s[0] == '\\' || s[0] == '_' || s[0] == '%' then ['\\', s[0]] else [s[0]]) + Escaped(s[1..])
  }

  lemma {:induction false} ReplaceConcat(a: string, b: string, c: char, r: string)
    ensures Replace(a + b, c, r) == Replace(a, c, r) + Replace(b, c, r)
  {
    if a == [] {
      assert a + b == b;
    } else {
      assert (a + b)[1..] == a[1..] + b;
      ReplaceConcat(a[1..], b, c, r);
    }
  }

  lemma ReplaceOne(x: char, c: char, r: string)
    ensures Replace([x], c, r) == if x == c then r else [x]
  {
    assert [x][1..] == [];
  }

  lemma ReplaceTwo(x: char, y: char, c: char, r: string)
    ensures Replace([x, y], c, r) == (if x == c then r else [x]) + (if y == c then r else [y])
  {
    assert [x, y] == [x] + [y];
    ReplaceConcat([x], [y], c, r);
    ReplaceOne(x, c, r);
    ReplaceOne(y, c, r);
  }

  /** Three passes in this order never touch an escape character that an earlier pass put in. */
  lemma {:induction false} ThreePassesAreOne(s: string)
    ensures Replace(Replace(Replace(s, '\\', "\\\\"), '_', "\\_"), '%', "\\%") == Escaped(s)
  {
    if s != [] {
      ThreePassesAreOne(s[1..]);
      var c := s[0];
      var a1, b1 := Replace([c], '\\', "\\\\"), Replace(s[1..], '\\', "\\\\");
      ReplaceOne(c, '\\', "\\\\");
      ReplaceConcat(a1, b1, '_', "\\_");
      var a2, b2 := Replace(a1, '_', "\\_"), Replace(b1, '_', "\\_");
      ReplaceConcat(a2, b2, '%', "\\%");
      if c == '\\' {
        ReplaceTwo('\\', '\\', '_', "\\_");
        ReplaceTwo('\\', '\\', '%', "\\%");
      } else if c == '_' {
        ReplaceOne('_', '_', "\\_");
        ReplaceTwo('\\', '_', '%', "\\%");
      } else {
        ReplaceOne(c, '_', "\\_");
        ReplaceOne(c, '%', "\\%");
      }
    }
  }

  // ----------------------------------------------------------------- matching

  lemma {:induction false} EscapedIsLiteral(e: string, s: string, rest: string)
    ensures Like(s, Escaped(e) + rest) <==> StartsWith(s, e) && Like(s[|e|..], rest)
  {
    if e == [] {
      assert Escaped(e) + rest == rest;
      assert s[0..] == s;
    } else {
      var p := Escaped(e) + rest;
      var tail := Escaped(e[1..]) + rest;
      assert if e[0] == '\\' || e[0] == '_' || e[0] == '%' then p[0] == '\\' && p[1] == e[0] && p[2..] == tail
             else p[0] == e[0] && p[1..] == tail;
      if s != [] {
        EscapedIsLiteral(e[1..], s[1..], rest);
        assert StartsWith(s, e) <==> s[0] == e[0] && StartsWith(s[1..], e[1..]) by {
          if |e| <= |s| { assert s[..|e|] == [s[0]] + s[1..][..|e| - 1]; assert e == [e[0]] + e[1..]; }
        }
        if |e| <= |s| { assert s[|e|..] == s[1..][|e| - 1..]; }
      }
    }
  }

  lemma {:induction false} PercentMatchesAll(s: string)
    ensures Like(s, "%")
  {
    assert "%"[1..] == [];
    if s != [] { PercentMatchesAll(s[1..]); }
  }

  /** The operand matches exactly the texts that continue the literal with a dot. */
  lemma OperandIff(literal: string, s: string)
    ensures Like(s, Operand(literal)) <==> StartsWith(s, literal + ".")
  {
    ThreePassesAreOne(literal);
    EscapedIsLiteral(literal, s, ".%");
    assert StartsWith(s, literal + ".") ==> StartsWith(s, literal) by {
      if StartsWith(s, literal + ".") { assert s[..|literal|] == (literal + ".")[..|literal|]; }
    }
    if StartsWith(s, literal) {
      var t := s[|literal|..];
      assert ".%"[1..] == "%";
      if t != [] { PercentMatchesAll(t[1..]); }
      assert Like(t, ".%") <==> t != [] && t[0] == '.';
      if t != [] { assert s[..|literal| + 1] == literal + [t[0]]; }
    }
  }

  /**
   Two projects have a possible common row exactly when one is the other or continues it with a dot;
   two different projects without dots never do.
   */
  lemma CommonRowIff(p: string, q: string)
    ensures (exists row :: Selects(p, row) && Selects(q, row))
      <==> p == q || StartsWith(p, q + ".") || StartsWith(q, p + ".")
    ensures '.' !in p && '.' !in q && (exists row :: Selects(p, row) && Selects(q, row)) ==> p == q
  {
    if row :| Selects(p, row) && Selects(q, row) {
      OperandIff(Exact(p), row);
      OperandIff(Exact(q), row);
      if |p| < |q| {
        SharedRow(p, q, row);
      } else {
        SharedRow(q, p, row);
      }
      if StartsWith(p, q + ".") { assert p[|q|] == '.'; }
      if StartsWith(q, p + ".") { assert q[|p|] == '.'; }
    }
    if p == q || StartsWith(p, q + ".") {
      ContinuationShares(p, q);
    } else if StartsWith(q, p + ".") {
      ContinuationShares(q, p);
    }
  }

  lemma SharedRow(p: string, q: string, row: string)
    requires |p| <= |q|
    requires row == Exact(p) || StartsWith(row, Exact(p) + ".")
    requires row == Exact(q) || StartsWith(row, Exact(q) + ".")
    ensures p == q || StartsWith(q, p + ".")
  {
    var n := |ROOT| + 1;
    var longer := Exact(q);
    assert row[..n + |q|] == longer by {
      if row != longer { assert (longer + ".")[..n + |q|] == longer; }
    }
    assert longer[n..] == q;
    if |p| < |q| {
      assert row[..n + |p| + 1] == Exact(p) + ".";
      assert longer[..n + |p| + 1] == Exact(p) + ".";
      assert q[..|p| + 1] == longer[..n + |p| + 1][n..];
      assert (Exact(p) + ".")[n..] == p + ".";
    } else {
      assert row[..n + |p|] == Exact(p) by {
        if row != Exact(p) { assert (Exact(p) + ".")[..n + |p|] == Exact(p); }
      }
      assert Exact(p)[n..] == p;
    }
  }

  lemma ContinuationShares(p: string, q: string)
    requires p == q || StartsWith(p, q + ".")
    ensures Selects(p, Exact(p)) && Selects(q, Exact(p))
  {
    if p != q {
      OperandIff(Exact(q), Exact(p));
      assert Exact(p)[..|Exact(q)| + 1] == ROOT + ['.'] + p[..|q| + 1] == Exact(q) + ".";
    }
  }

  // ----------------------------------------------------------------- scratch projects

  const SCRATCH := "scratch_"

  /** The scratch project of a rollout, or nothing: an id is refused rather than rewritten. */
  function ScratchProject(rolloutId: string): (r: Option<string>)
    ensures r.Some? ==> r.value == SCRATCH + rolloutId && '.' !in r.value
  {
    if rolloutId == "" || !IsSegment(SCRATCH + rolloutId) then None else Some(SCRATCH + rolloutId)
  }

  /** A row belongs to the project its second dotted segment names. */
  predicate InProject(prefix: string, project: string) {
    var parts := Split(prefix, '.');
    |parts| >= 2 && parts[0] == ROOT && parts[1] == project
  }

  /** The match clause of a dot-free project selects exactly the rows whose second segment it is. */
  lemma SelectsIsInProject(project: string, prefix: string)
    requires '.' !in project
    ensures Selects(project, prefix) <==> InProject(prefix, project)
  {
    OperandIff(Exact(project), prefix);
    var parts := Split(prefix, '.');
    JoinSplit(prefix, '.');
    if prefix == Exact(project) {
      SplitFirst(ROOT, project, '.');
      SplitWithout(project, '.');
    } else if StartsWith(prefix, Exact(project) + ".") {
      var rest := prefix[|Exact(project)| + 1..];
      assert prefix == ROOT + ['.'] + (project + ['.'] + rest) by {
        assert prefix == prefix[..|Exact(project)| + 1] + rest;
      }
      SplitFirst(ROOT, project + ['.'] + rest, '.');
      SplitFirst(project, rest, '.');
    }
    if InProject(prefix, project) {
      if |parts| == 2 {
        assert parts[1..] == [project];
        assert prefix == Exact(project);
      } else {
        assert prefix == ROOT + ['.'] + (project + ['.'] + Join(parts[1..][1..], '.'));
        assert prefix[..|Exact(project)| + 1] == Exact(project) + ".";
      }
    }
  }

  function Keep(rows: seq<string>, project: string): seq<string> {
    if rows == [] then [] else (if Selects(project, rows[0]) then [] else [rows[0]]) + Keep(rows[1..], project)
  }

  /** The scratch projects with at least one row. */
  ghost function ScratchProjects(rows: seq<string>): set<string> {
    set r | r in rows && |Split(r, '.')| >= 2 && Split(r, '.')[0] == ROOT && StartsWith(Split(r, '.')[1], SCRATCH)
      :: Split(r, '.')[1]
  }

  lemma {:induction false} KeepHas(rows: seq<string>, project: string)
    ensures forall r :: r in Keep(rows, project) <==> r in rows && !Selects(project, r)
  {
    if rows != [] { KeepHas(rows[1..], project); }
  }

  /** Rows and vector rows of the store, each by its dotted prefix. */
  class ScratchStore {
    var rows: seq<string>
    var vectors: seq<string>

    constructor (rows: seq<string>, vectors: seq<string>)
      ensures this.rows == rows && this.vectors == vectors
    {
      this.rows, this.vectors := rows, vectors;
    }

    /** Deletes a rollout's rows and vectors; an invalid id deletes nothing. */
    method Discard(rolloutId: string) returns (deleted: Option<nat>)
      modifies this
      ensures deleted.None? <==> ScratchProject(rolloutId).None?
      ensures deleted.None? ==> rows == old(rows) && vectors == old(vectors)
      ensures deleted.Some? ==>
        var project := ScratchProject(rolloutId).value;
        && rows == Keep(old(rows), project) && vectors == Keep(old(vectors), project)
        && deleted.value == |old(rows)| - |rows|
    {
      var project := ScratchProject(rolloutId);
      if project.None? { return None; }
      vectors := Keep(vectors, project.value);
      var before := |rows|;
      KeepShrinks(rows, project.value);
      rows := Keep(rows, project.value);
      return Some(before - |rows|);
    }

    /** The scratch project segments present in the store. */
    method ListProjects() returns (projects: set<string>)
      ensures projects == ScratchProjects(rows)
    {
      projects := {};
      for i := 0 to |rows|
        invariant projects == ScratchProjects(rows[..i])
      {
        var parts := Split(rows[i], '.');
        assert rows[..i + 1] == rows[..i] + [rows[i]];
        if |parts| >= 2 && parts[0] == ROOT && StartsWith(parts[1], SCRATCH) {
          projects := projects + {parts[1]};
        }
      }
      assert rows[..|rows|] == rows;
    }
  }

  lemma {:induction false} KeepShrinks(rows: seq<string>, project: string)
    ensures |Keep(rows, project)| <= |rows|
  {
    if rows != [] { KeepShrinks(rows[1..], project); }
  }

  /** Discarding a rollout removes its project from the listing, and no other project or row. */
  lemma DiscardRemovesExactly(rows: seq<string>, rolloutId: string)
    requires ScratchProject(rolloutId).Some?
    ensures
      var project := ScratchProject(rolloutId).value;
      && ScratchProjects(Keep(rows, project)) == ScratchProjects(rows) - {project}
      && (forall r :: r in rows && !InProject(r, project) ==> r in Keep(rows, project))
  {
    var project := ScratchProject(rolloutId).value;
    KeepHas(rows, project);
    forall r | r in rows ensures Selects(project, r) <==> InProject(r, project) {
      SelectsIsInProject(project, r);
    }
  }
}
