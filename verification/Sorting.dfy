/** Stable sorting by a total preorder, and the lexicographic order of strings. */
module Sorting {

  ghost predicate TotalPreorder<T(!new)>(le: (T, T) -> bool) {
    && (forall a, b :: le(a, b) || le(b, a))
    && (forall a, b, c :: le(a, b) && le(b, c) ==> le(a, c))
  }

  ghost predicate SortedBy<T(!new)>(le: (T, T) -> bool, s: seq<T>) {
    forall i, j :: 0 <= i < j < |s| ==> le(s[i], s[j])
  }

  /** `x` goes in front of the first element it is not above. */
  function Insert<T>(le: (T, T) -> bool, x: T, s: seq<T>): seq<T> {
    if s == [] then [x]
    else if le(x, s[0]) then [x] + s
    else [s[0]] + Insert(le, x, s[1..])
  }

  function SortBy<T>(le: (T, T) -> bool, s: seq<T>): seq<T> {
    if s == [] then [] else Insert(le, s[0], SortBy(le, s[1..]))
  }

  lemma {:induction false} InsertSorts<T(!new)>(le: (T, T) -> bool, x: T, s: seq<T>)
    requires TotalPreorder(le) && SortedBy(le, s)
    ensures SortedBy(le, Insert(le, x, s))
    ensures multiset(Insert(le, x, s)) == multiset{x} + multiset(s)
  {
    if s != [] {
      assert s == [s[0]] + s[1..];
      if le(x, s[0]) {
        var r := [x] + s;
        forall i, j | 0 <= i < j < |r| ensures le(r[i], r[j]) {
          if i == 0 { assert le(x, s[0]) && (j == 1 || le(s[0], s[j - 1])); }
        }
      } else {
        InsertSorts(le, x, s[1..]);
        var tail := Insert(le, x, s[1..]);
        var r := [s[0]] + tail;
        forall i, j | 0 <= i < j < |r| ensures le(r[i], r[j]) {
          if i == 0 {
            assert tail[j - 1] in multiset(tail);
            if tail[j - 1] != x { assert tail[j - 1] in s[1..]; }
          }
        }
      }
    }
  }

  lemma {:induction false} SortSorts<T(!new)>(le: (T, T) -> bool, s: seq<T>)
    requires TotalPreorder(le)
    ensures SortedBy(le, SortBy(le, s))
    ensures multiset(SortBy(le, s)) == multiset(s)
  {
    if s != [] {
      SortSorts(le, s[1..]);
      InsertSorts(le, s[0], SortBy(le, s[1..]));
      assert s == [s[0]] + s[1..];
    }
  }

  ghost predicate NoRepeats<T>(s: seq<T>) { forall i, j :: 0 <= i < j < |s| ==> s[i] != s[j] }

  lemma Once<T>(s: seq<T>, i: nat)
    requires NoRepeats(s) && i < |s|
    ensures multiset(s)[s[i]] == 1
  {
    assert s == s[..i] + [s[i]] + s[i + 1..];
  }

  lemma Twice<T>(s: seq<T>, i: nat, j: nat)
    requires i < j < |s| && s[i] == s[j]
    ensures multiset(s)[s[i]] > 1
  {
    assert s == s[..j] + s[j..];
    assert s[i] in s[..j] && s[i] in s[j..];
  }

  // ----------------------------------------------------------------- strings

  predicate StrLe(a: string, b: string) {
    if a == [] then true
    else if b == [] then false
    else if a[0] != b[0] then a[0] < b[0]
    else StrLe(a[1..], b[1..])
  }

  lemma {:induction false} StrTotal(a: string, b: string)
    ensures StrLe(a, b) || StrLe(b, a)
  {
    if a != [] && b != [] { StrTotal(a[1..], b[1..]); }
  }

  lemma {:induction false} StrTransitive(a: string, b: string, c: string)
    requires StrLe(a, b) && StrLe(b, c)
    ensures StrLe(a, c)
  {
    if a != [] && a[0] == b[0] == c[0] { StrTransitive(a[1..], b[1..], c[1..]); }
  }

  lemma StrOrder()
    ensures TotalPreorder(StrLe)
  {
    forall a: string, b: string ensures StrLe(a, b) || StrLe(b, a) { StrTotal(a, b); }
    forall a: string, b: string, c: string | StrLe(a, b) && StrLe(b, c) ensures StrLe(a, c) { StrTransitive(a, b, c); }
  }

  /** One string is the other's beginning, or has the smaller character where they first differ. */
  ghost predicate Before(a: string, b: string) {
    a <= b || exists k: nat :: Differs(a, b, k)
  }

  ghost predicate Differs(a: string, b: string, k: nat) { k < |a| && k < |b| && a[..k] == b[..k] && a[k] < b[k] }

  /** A common first character decides nothing. */
  lemma BeforeBehind(c: char, x: string, y: string)
    ensures Before([c] + x, [c] + y) <==> Before(x, y)
  {
    var a, b := [c] + x, [c] + y;
    assert a[1..] == x && b[1..] == y;
    if k: nat :| Differs(x, y, k) {
      assert a[..k + 1] == [c] + x[..k] && b[..k + 1] == [c] + y[..k];
      assert Differs(a, b, k + 1);
    }
    if n: nat :| Differs(a, b, n) {
      assert n > 0;
      var k := n - 1;
      assert x[..k] == a[..n][1..] && y[..k] == b[..n][1..];
      assert Differs(x, y, k);
    }
    assert a <= b <==> x <= y;
  }

  lemma {:induction false} StrLeIff(a: string, b: string)
    ensures StrLe(a, b) <==> Before(a, b)
  {
    if a != [] && b != [] && a[0] == b[0] {
      StrLeIff(a[1..], b[1..]);
      assert a == [a[0]] + a[1..] && b == [b[0]] + b[1..];
      BeforeBehind(a[0], a[1..], b[1..]);
    } else if a != [] && b != [] {
      if a[0] < b[0] { assert Differs(a, b, 0); }
      if k: nat :| Differs(a, b, k) {
        if k > 0 { assert a[..k][0] == b[..k][0]; }
      }
    }
  }
}
