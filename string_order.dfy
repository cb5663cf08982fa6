/**
  Python's ordering of `str` values (lexicographic by code point) and
  `sorted` on a list of strings, as an insertion sort.
 */
module StringOrder {

  /** `a <= b` on Python strings: a prefix comes first, otherwise the first differing character decides. */
  predicate StrLe(a: string, b: string)
    decreases |a|
  {
    if a == [] then true
    else if b == [] then false
    else if a[0] != b[0] then a[0] < b[0]
    else StrLe(a[1..], b[1..])
  }

  /** Any two strings are ordered one way or the other. */
  lemma {:induction false} StrLeTotal(a: string, b: string)
    ensures StrLe(a, b) || StrLe(b, a)
    decreases |a|
  {
    if a != [] && b != [] && a[0] == b[0] {
      StrLeTotal(a[1..], b[1..]);
    }
  }

  /** Strings ordered both ways are equal. */
  lemma {:induction false} StrLeAntisymmetric(a: string, b: string)
    requires StrLe(a, b) && StrLe(b, a)
    ensures a == b
    decreases |a|
  {
    if a != [] && b != [] {
      StrLeAntisymmetric(a[1..], b[1..]);
      assert a == [a[0]] + a[1..] && b == [b[0]] + b[1..];
    }
  }

  /** The order is transitive. */
  lemma {:induction false} StrLeTransitive(a: string, b: string, c: string)
    requires StrLe(a, b) && StrLe(b, c)
    ensures StrLe(a, c)
    decreases |a|
  {
    if a != [] && b != [] && c != [] && a[0] == b[0] && b[0] == c[0] {
      StrLeTransitive(a[1..], b[1..], c[1..]);
    }
  }

  /** Every string is below itself. */
  lemma {:induction false} StrLeReflexive(a: string)
    ensures StrLe(a, a)
    decreases |a|
  {
    if a != [] {
      StrLeReflexive(a[1..]);
    }
  }

  /** Each string of `xs` is below every later one. */
  predicate Sorted(xs: seq<string>) {
    forall i, j :: 0 <= i < j < |xs| ==> StrLe(xs[i], xs[j])
  }

  /** No string occurs twice in `xs`. */
  predicate NoDuplicates(xs: seq<string>) {
    forall i, j :: 0 <= i < j < |xs| ==> xs[i] != xs[j]
  }

  /** `x` placed into the sorted `xs` before the first string it is below. */
  function Insert(x: string, xs: seq<string>): (ys: seq<string>)
    ensures multiset(ys) == multiset(xs) + multiset{x}
    decreases |xs|
  {
    if xs == [] then [x]
    else if StrLe(x, xs[0]) then [x] + xs
    else
      assert xs == [xs[0]] + xs[1..];
      [xs[0]] + Insert(x, xs[1..])
  }

  /** Every string of `Insert(x, xs)` is `x` or one of `xs`. */
  lemma {:induction false} InsertElements(x: string, xs: seq<string>)
    ensures forall j :: 0 <= j < |Insert(x, xs)| ==> Insert(x, xs)[j] == x || Insert(x, xs)[j] in xs
    decreases |xs|
  {
    if xs != [] && !StrLe(x, xs[0]) {
      InsertElements(x, xs[1..]);
      var tail := Insert(x, xs[1..]);
      assert Insert(x, xs) == [xs[0]] + tail;
      forall j | 1 <= j < |Insert(x, xs)| ensures Insert(x, xs)[j] == x || Insert(x, xs)[j] in xs {
        assert Insert(x, xs)[j] == tail[j - 1];
      }
    }
  }

  /** A string below every string of a sorted list can head it. */
  lemma {:induction false} ConsSorted(h: string, t: seq<string>)
    requires Sorted(t)
    requires forall j :: 0 <= j < |t| ==> StrLe(h, t[j])
    ensures Sorted([h] + t)
  {
    var ys := [h] + t;
    forall i, j | 0 <= i < j < |ys| ensures StrLe(ys[i], ys[j]) {
      if i == 0 {
        assert ys[j] == t[j - 1];
      } else {
        assert ys[i] == t[i - 1] && ys[j] == t[j - 1];
      }
    }
  }

  /** Inserting into a sorted list keeps it sorted. */
  lemma {:induction false} InsertSorted(x: string, xs: seq<string>)
    requires Sorted(xs)
    ensures Sorted(Insert(x, xs))
    decreases |xs|
  {
    if xs == [] {
    } else if StrLe(x, xs[0]) {
      forall j | 0 <= j < |xs| ensures StrLe(x, xs[j]) {
        if j > 0 {
          StrLeTransitive(x, xs[0], xs[j]);
        }
      }
      ConsSorted(x, xs);
    } else {
      var rest := xs[1..];
      assert Sorted(rest) by {
        forall i, j | 0 <= i < j < |rest| ensures StrLe(rest[i], rest[j]) {
          assert rest[i] == xs[i + 1] && rest[j] == xs[j + 1];
        }
      }
      InsertSorted(x, rest);
      InsertElements(x, rest);
      StrLeTotal(x, xs[0]);
      var tail := Insert(x, rest);
      forall j | 0 <= j < |tail| ensures StrLe(xs[0], tail[j]) {
        if tail[j] != x {
          var k :| 0 <= k < |rest| && rest[k] == tail[j];
          assert xs[k + 1] == tail[j];
        }
      }
      ConsSorted(xs[0], tail);
    }
  }

  /** Python's `sorted(xs)`: the same strings, in order. */
  function SortStrings(xs: seq<string>): (ys: seq<string>)
    ensures multiset(ys) == multiset(xs)
    decreases |xs|
  {
    if xs == [] then []
    else
      assert xs == xs[..|xs| - 1] + [xs[|xs| - 1]];
      Insert(xs[|xs| - 1], SortStrings(xs[..|xs| - 1]))
  }

  /** `sorted` returns an ordered list. */
  lemma {:induction false} SortStringsSorted(xs: seq<string>)
    ensures Sorted(SortStrings(xs))
    decreases |xs|
  {
    if xs != [] {
      SortStringsSorted(xs[..|xs| - 1]);
      InsertSorted(xs[|xs| - 1], SortStrings(xs[..|xs| - 1]));
    }
  }

  /** A sorted list holds each string of a list without duplicates just once, so its order is strict. */
  lemma {:induction false} SortStringsStrict(xs: seq<string>)
    requires NoDuplicates(xs)
    ensures NoDuplicates(SortStrings(xs))
  {
    var ys := SortStrings(xs);
    forall i, j | 0 <= i < j < |ys| ensures ys[i] != ys[j] {
      if ys[i] == ys[j] {
        var v := ys[i];
        assert multiset(ys)[v] >= 2 by {
          assert ys == ys[..j] + ys[j..];
          assert v in multiset(ys[..j]) by { assert ys[..j][i] == v; }
          assert v in multiset(ys[j..]) by { assert ys[j..][0] == v; }
          assert multiset(ys) == multiset(ys[..j]) + multiset(ys[j..]);
        }
        MultiplicityOne(xs, v);
      }
    }
  }

  /** In a list without duplicates every string occurs at most once. */
  lemma {:induction false} MultiplicityOne(xs: seq<string>, v: string)
    requires NoDuplicates(xs)
    ensures multiset(xs)[v] <= 1
    decreases |xs|
  {
    if xs != [] {
      var front := xs[..|xs| - 1];
      assert xs == front + [xs[|xs| - 1]];
      assert NoDuplicates(front);
      MultiplicityOne(front, v);
      if xs[|xs| - 1] == v {
        assert v !in front by {
          forall k | 0 <= k < |front| ensures front[k] != v {
            assert front[k] == xs[k];
          }
        }
      }
    }
  }
}
