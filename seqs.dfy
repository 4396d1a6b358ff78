/** Sequence operations with the semantics of JavaScript's `Array.prototype`
    helpers: `filter` and the `[...new Set(xs)]` idiom that keeps the first
    occurrence of every element in order. */
module Seqs {

  ghost predicate NoDuplicates<T>(s: seq<T>) {
    forall i, j :: 0 <= i < j < |s| ==> s[i] != s[j]
  }

  /** `a` is `b` with some elements left out, the rest in their order. */
  ghost predicate IsSubsequence<T>(a: seq<T>, b: seq<T>)
    decreases |b|
  {
    if a == [] then true
    else if b == [] then false
    else (a[0] == b[0] && IsSubsequence(a[1..], b[1..])) || IsSubsequence(a, b[1..])
  }

  /** `s.filter(f)`. */
  function Filter<T(!new)>(f: T -> bool, s: seq<T>): (r: seq<T>)
    ensures |r| <= |s|
    ensures forall x :: x in r <==> x in s && f(x)
    decreases |s|
  {
    if s == [] then []
    else
      assert s == [s[0]] + s[1..];
      if f(s[0]) then [s[0]] + Filter(f, s[1..])
      else Filter(f, s[1..])
  }

  lemma {:induction false} FilterIsSubsequence<T(!new)>(f: T -> bool, s: seq<T>)
    ensures IsSubsequence(Filter(f, s), s)
    decreases |s|
  {
    if s != [] {
      FilterIsSubsequence(f, s[1..]);
      var r := Filter(f, s[1..]);
      if f(s[0]) {
        assert ([s[0]] + r)[1..] == r;
      } else if r != [] {
        assert IsSubsequence(r, s[1..]);
      }
    }
  }

  /** An element added at the end is kept at the end exactly when it passes. */
  lemma {:induction false} FilterAppend<T(!new)>(f: T -> bool, s: seq<T>, x: T)
    ensures Filter(f, s + [x]) == Filter(f, s) + (if f(x) then [x] else [])
    decreases |s|
  {
    if s == [] {
      assert [x][1..] == [];
    } else {
      FilterAppend(f, s[1..], x);
      assert (s + [x])[1..] == s[1..] + [x];
    }
  }

  /** Filtering with a predicate every element satisfies changes nothing. */
  lemma {:induction false} FilterAllKept<T(!new)>(f: T -> bool, s: seq<T>)
    requires forall i :: 0 <= i < |s| ==> f(s[i])
    ensures Filter(f, s) == s
    decreases |s|
  {
    if s != [] {
      FilterAllKept(f, s[1..]);
      assert [s[0]] + s[1..] == s;
    }
  }

  /** Two filters in a row are one filter with the conjunction `h`. */
  lemma {:induction false} FilterFilter<T(!new)>(f: T -> bool, g: T -> bool, h: T -> bool, s: seq<T>)
    requires forall x :: h(x) == (f(x) && g(x))
    ensures Filter(g, Filter(f, s)) == Filter(h, s)
    decreases |s|
  {
    if s != [] {
      FilterFilter(f, g, h, s[1..]);
      if f(s[0]) {
        assert ([s[0]] + Filter(f, s[1..]))[1..] == Filter(f, s[1..]);
      }
    }
  }

  /** Filters with predicates that agree on every element of `s` agree. */
  lemma {:induction false} FilterExt<T(!new)>(f: T -> bool, g: T -> bool, s: seq<T>)
    requires forall i :: 0 <= i < |s| ==> f(s[i]) == g(s[i])
    ensures Filter(f, s) == Filter(g, s)
    decreases |s|
  {
    if s != [] {
      assert forall i :: 0 <= i < |s| - 1 ==> s[1..][i] == s[i + 1];
      FilterExt(f, g, s[1..]);
    }
  }

  lemma {:induction false} FilterNoDuplicates<T(!new)>(f: T -> bool, s: seq<T>)
    requires NoDuplicates(s)
    ensures NoDuplicates(Filter(f, s))
    decreases |s|
  {
    if s != [] {
      assert NoDuplicates(s[1..]) by {
        forall i, j | 0 <= i < j < |s| - 1 ensures s[1..][i] != s[1..][j] {
          assert s[1..][i] == s[i + 1] && s[1..][j] == s[j + 1];
        }
      }
      FilterNoDuplicates(f, s[1..]);
      var r := Filter(f, s[1..]);
      if f(s[0]) {
        assert s[0] !in s[1..] by {
          forall k | 0 <= k < |s| - 1 ensures s[1..][k] != s[0] {
            assert s[1..][k] == s[k + 1];
          }
        }
        assert s[0] !in r;
        var t := [s[0]] + r;
        forall i, j | 0 <= i < j < |t| ensures t[i] != t[j] {
          if i == 0 {
            assert t[j] == r[j - 1];
            assert t[j] in r;
          } else {
            assert t[i] == r[i - 1] && t[j] == r[j - 1];
          }
        }
      }
    }
  }

  /** The elements `f` keeps and those it drops together are `s` again. */
  lemma {:induction false} FilterPartition<T(!new)>(f: T -> bool, s: seq<T>)
    ensures |Filter(f, s)| + |Filter(x => !f(x), s)| == |s|
    ensures multiset(Filter(f, s)) + multiset(Filter(x => !f(x), s)) == multiset(s)
    decreases |s|
  {
    if s != [] {
      FilterPartition(f, s[1..]);
      assert s == [s[0]] + s[1..];
    }
  }

  /** `a` inside `b` inside `c` is `a` inside `c`. */
  lemma {:induction false} SubsequenceTransitive<T>(a: seq<T>, b: seq<T>, c: seq<T>)
    requires IsSubsequence(a, b) && IsSubsequence(b, c)
    ensures IsSubsequence(a, c)
    decreases |c|
  {
    if a != [] {
      if b[0] == c[0] && IsSubsequence(b[1..], c[1..]) {
        if a[0] == b[0] && IsSubsequence(a[1..], b[1..]) {
          SubsequenceTransitive(a[1..], b[1..], c[1..]);
        } else {
          SubsequenceTransitive(a, b[1..], c[1..]);
        }
      } else {
        SubsequenceTransitive(a, b, c[1..]);
      }
    }
  }

  lemma {:induction false} SubsequenceOfItself<T>(s: seq<T>)
    ensures IsSubsequence(s, s)
    decreases |s|
  {
    if s != [] {
      SubsequenceOfItself(s[1..]);
    }
  }

  /** `s.filter(y => y !== x)`. */
  function Remove<T(==,!new)>(s: seq<T>, x: T): (r: seq<T>)
    ensures |r| <= |s|
    ensures forall y :: y in r <==> y in s && y != x
    ensures x !in s ==> r == s
    decreases |s|
  {
    if s == [] then []
    else if s[0] == x then Remove(s[1..], x)
    else
      var r := Remove(s[1..], x);
      assert x !in s ==> s == [s[0]] + s[1..];
      [s[0]] + r
  }

  lemma {:induction false} RemoveIsSubsequence<T(!new)>(s: seq<T>, x: T)
    ensures IsSubsequence(Remove(s, x), s)
    decreases |s|
  {
    if s != [] {
      RemoveIsSubsequence(s[1..], x);
      var r := Remove(s[1..], x);
      if s[0] != x {
        assert ([s[0]] + r)[1..] == r;
      } else if r != [] {
        assert IsSubsequence(r, s[1..]);
      }
    }
  }

  /** Removing from a duplicate-free list takes out exactly one copy of an
      element that is there. */
  lemma {:induction false} RemoveOne<T(!new)>(s: seq<T>, x: T)
    requires NoDuplicates(s) && x in s
    ensures |Remove(s, x)| == |s| - 1
    ensures multiset(Remove(s, x)) == multiset(s) - multiset{x}
    decreases |s|
  {
    assert s == [s[0]] + s[1..];
    if s[0] == x {
      assert x !in s[1..] by {
        forall k | 0 <= k < |s| - 1 ensures s[1..][k] != x { assert s[1..][k] == s[k + 1]; }
      }
    } else {
      assert NoDuplicates(s[1..]) by {
        forall i, j | 0 <= i < j < |s| - 1 ensures s[1..][i] != s[1..][j] {
          assert s[1..][i] == s[i + 1] && s[1..][j] == s[j + 1];
        }
      }
      RemoveOne(s[1..], x);
    }
  }

  lemma {:induction false} RemoveNoDuplicates<T(!new)>(s: seq<T>, x: T)
    requires NoDuplicates(s)
    ensures NoDuplicates(Remove(s, x))
    decreases |s|
  {
    if s != [] {
      assert NoDuplicates(s[1..]) by {
        forall i, j | 0 <= i < j < |s| - 1 ensures s[1..][i] != s[1..][j] {
          assert s[1..][i] == s[i + 1] && s[1..][j] == s[j + 1];
        }
      }
      RemoveNoDuplicates(s[1..], x);
      if s[0] != x {
        var r := Remove(s[1..], x);
        assert s[0] !in s[1..] by {
          forall k | 0 <= k < |s| - 1 ensures s[1..][k] != s[0] { assert s[1..][k] == s[k + 1]; }
        }
        var t := [s[0]] + r;
        forall i, j | 0 <= i < j < |t| ensures t[i] != t[j] {
          if i > 0 { assert t[i] == r[i - 1] && t[j] == r[j - 1]; }
          else { assert t[j] == r[j - 1]; assert t[j] in s[1..]; }
        }
      }
    }
  }

  /** Removing the element just appended removes it everywhere. */
  lemma {:induction false} RemoveAppended<T(!new)>(s: seq<T>, x: T)
    ensures Remove(s + [x], x) == Remove(s, x)
    decreases |s|
  {
    if s == [] {
      assert [] + [x] == [x];
    } else {
      assert (s + [x])[1..] == s[1..] + [x];
      RemoveAppended(s[1..], x);
    }
  }

  /** `[...new Set(s)]`: the first occurrence of each element, in order. */
  function Distinct<T(==,!new)>(s: seq<T>): (r: seq<T>)
    ensures NoDuplicates(r)
    ensures forall x :: x in r <==> x in s
    ensures |r| <= |s|
    decreases |s|
  {
    if s == [] then []
    else
      var d := Distinct(s[..|s| - 1]);
      var x := s[|s| - 1];
      assert s == s[..|s| - 1] + [x];
      if x in d then d else d + [x]
  }

  /** A list that is already duplicate-free is its own distinct list. */
  lemma {:induction false} DistinctOfNoDuplicates<T(!new)>(s: seq<T>)
    requires NoDuplicates(s)
    ensures Distinct(s) == s
    decreases |s|
  {
    if s != [] {
      var p := s[..|s| - 1];
      assert NoDuplicates(p) by {
        forall i, j | 0 <= i < j < |p| ensures p[i] != p[j] {
          assert p[i] == s[i] && p[j] == s[j];
        }
      }
      DistinctOfNoDuplicates(p);
      assert s[|s| - 1] !in p by {
        forall k | 0 <= k < |p| ensures p[k] != s[|s| - 1] {
          assert p[k] == s[k];
        }
      }
      assert p + [s[|s| - 1]] == s;
    }
  }

  /** Appending elements only adds to the end of the distinct list. */
  lemma {:induction false} DistinctExtends<T(!new)>(a: seq<T>, b: seq<T>)
    ensures |Distinct(a)| <= |Distinct(a + b)|
    ensures Distinct(a + b)[..|Distinct(a)|] == Distinct(a)
    decreases |b|
  {
    if b == [] {
      assert a + b == a;
    } else {
      var b' := b[..|b| - 1];
      DistinctExtends(a, b');
      assert (a + b)[..|a + b| - 1] == a + b';
      assert (a + b)[|a + b| - 1] == b[|b| - 1];
    }
  }

  /** The distinct list of `a + b` is that of `a` followed by the elements of
      `b` not in `a`, each once. */
  lemma {:induction false} DistinctAppend<T(!new)>(a: seq<T>, b: seq<T>)
    ensures var r := Distinct(a + b);
      && |Distinct(a)| <= |r|
      && r[..|Distinct(a)|] == Distinct(a)
      && (forall i :: |Distinct(a)| <= i < |r| ==> r[i] in b && r[i] !in a)
  {
    DistinctExtends(a, b);
    var r := Distinct(a + b);
    var d := Distinct(a);
    forall i | |d| <= i < |r| ensures r[i] in b && r[i] !in a {
      assert r[i] in a + b;
      assert forall k :: 0 <= k < |d| ==> r[k] == d[k];
    }
  }
}
