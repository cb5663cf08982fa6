/**
  The string operations of Python that the program's rules are built from:
  `p in s`, `s.find(p)`, `s.replace(p, r)`, `s.strip()`, `s.split(',')`,
  `s.lower()`, `"".join(...)` and the decimal formatting of integers.
  Characters are Unicode code points; the character classes
  (`isspace`, `isalnum`, `lower`) are stated for the code points the
  program's inputs use and documented where they approximate Python's.
 */
module Strings {
  import opened Wrappers

  // ---------------------------------------------------------------------
  // Substrings, `in` and `find`

  /** `p` occurs in `s` starting at index `i`. */
  predicate OccursAt(s: string, p: string, i: int) {
    0 <= i && i + |p| <= |s| && s[i..i + |p|] == p
  }

  /** Python's `p in s`. */
  predicate Contains(s: string, p: string) {
    exists i | 0 <= i <= |s| :: OccursAt(s, p, i)
  }

  /** Python's `s.find(p, i)`, as an option: the leftmost occurrence at or after `i`. */
  function FindFrom(s: string, p: string, i: nat): (r: Option<nat>)
    requires i <= |s|
    ensures r.Some? ==> i <= r.value && OccursAt(s, p, r.value)
    ensures r.Some? ==> forall j :: i <= j < r.value ==> !OccursAt(s, p, j)
    ensures r.None? ==> forall j :: i <= j ==> !OccursAt(s, p, j)
    decreases |s| - i
  {
    if i + |p| > |s| then None
    else if s[i..i + |p|] == p then Some(i)
    else FindFrom(s, p, i + 1)
  }

  /** Python's `s.find(p)`: the leftmost occurrence, present exactly when `p in s`. */
  function Find(s: string, p: string): (r: Option<nat>)
    ensures r.Some? <==> Contains(s, p)
    ensures r.Some? ==> OccursAt(s, p, r.value)
    ensures r.Some? ==> forall j :: 0 <= j < r.value ==> !OccursAt(s, p, j)
  {
    FindFrom(s, p, 0)
  }

  /** The leftmost occurrence determines `Find`. */
  lemma {:induction false} FindIsLeftmost(s: string, p: string, i: nat)
    requires OccursAt(s, p, i)
    requires forall j :: 0 <= j < i ==> !OccursAt(s, p, j)
    ensures Find(s, p) == Some(i)
  {
  }

  /** Python's `s.rfind(c)` for one character, as an option. */
  function LastIndexOf(s: string, c: char): (r: Option<nat>)
    ensures r.Some? ==> r.value < |s| && s[r.value] == c
    ensures r.Some? ==> forall k :: r.value < k < |s| ==> s[k] != c
    ensures r.None? ==> forall k :: 0 <= k < |s| ==> s[k] != c
    decreases |s|
  {
    if s == [] then None
    else if s[|s| - 1] == c then Some(|s| - 1)
    else LastIndexOf(s[..|s| - 1], c)
  }

  /** The last occurrence of `c` determines `LastIndexOf`. */
  lemma {:induction false} LastIndexOfIs(s: string, c: char, i: nat)
    requires i < |s| && s[i] == c
    requires forall k :: i < k < |s| ==> s[k] != c
    ensures LastIndexOf(s, c) == Some(i)
  {
  }

  /** Every character of `s` satisfies `P`. */
  predicate AllChars(s: string, P: char -> bool) {
    forall k :: 0 <= k < |s| ==> P(s[k])
  }

  // ---------------------------------------------------------------------
  // `str.replace`

  /**
    Python's `s.replace(p, r)` for a non-empty `p`: every occurrence, scanning
    left to right, replaced without overlap.
   */
  function ReplaceAll(s: string, p: string, r: string): string
    requires |p| > 0
    decreases |s|
  {
    match Find(s, p)
    case None => s
    case Some(i) => s[..i] + r + ReplaceAll(s[i + |p|..], p, r)
  }

  /** Without an occurrence, replacing changes nothing. */
  lemma {:induction false} ReplaceAllAbsent(s: string, p: string, r: string)
    requires |p| > 0 && !Contains(s, p)
    ensures ReplaceAll(s, p, r) == s
  {
  }

  /** An occurrence inside the left part of a concatenation is an occurrence there. */
  lemma {:induction false} OccursInLeft(x: string, y: string, p: string, q: int)
    requires q + |p| <= |x|
    ensures OccursAt(x + y, p, q) <==> OccursAt(x, p, q)
  {
    if 0 <= q {
      assert (x + y)[q..q + |p|] == x[q..q + |p|];
    }
  }

  /** An occurrence inside the right part of a concatenation is an occurrence there. */
  lemma {:induction false} OccursInRight(x: string, y: string, p: string, q: int)
    requires |x| <= q
    ensures OccursAt(x + y, p, q) <==> OccursAt(y, p, q - |x|)
  {
    if q + |p| <= |x| + |y| {
      assert (x + y)[q..q + |p|] == y[q - |x|..q - |x| + |p|];
    }
  }

  /** The rewritten prefix: one replacement step of `ReplaceAll`. */
  lemma {:induction false} ReplaceAllStep(s: string, p: string, r: string, i: nat)
    requires |p| > 0 && Find(s, p) == Some(i)
    ensures ReplaceAll(s, p, r) == s[..i] + r + ReplaceAll(s[i + |p|..], p, r)
  {
  }

  /**
    After the replacement no occurrence of `p` is left, provided the
    replacement is non-empty and shares no character with `p`.
   */
  lemma {:induction false} ReplaceAllRemoves(s: string, p: string, r: string)
    requires |p| > 0 && |r| > 0
    requires forall c :: c in r ==> c !in p
    ensures !Contains(ReplaceAll(s, p, r), p)
    decreases |s|
  {
    match Find(s, p)
    case None =>
    case Some(i) =>
      var rest := s[i + |p|..];
      var u := ReplaceAll(rest, p, r);
      ReplaceAllRemoves(rest, p, r);
      var head := s[..i] + r;
      var t := head + u;
      ReplaceAllStep(s, p, r, i);
      forall q | 0 <= q <= |t| ensures !OccursAt(t, p, q) {
        if q + |p| <= i {
          OccursInLeft(head, u, p, q);
          OccursInLeft(s[..i], r, p, q);
          OccursInLeft(s[..i], s[i..], p, q);
          assert s[..i] + s[i..] == s;
        } else if q < |head| {
          NoOccurrenceOverReplacement(s[..i], r, u, p, q);
        } else {
          OccursInRight(head, u, p, q);
        }
      }
  }

  /** An occurrence overlapping the inserted `r` would share a character with it. */
  lemma {:induction false} NoOccurrenceOverReplacement(x: string, r: string, u: string, p: string, q: int)
    requires |p| > 0 && |r| > 0
    requires forall c :: c in r ==> c !in p
    requires 0 <= q < |x| + |r| && |x| < q + |p|
    ensures !OccursAt(x + r + u, p, q)
  {
    var m := if q < |x| then |x| else q;
    assert (x + r + u)[m] == r[m - |x|] && r[m - |x|] in r;
  }

  /** No occurrence of `p` in `a + b` starts inside `a` and ends inside `b`. */
  predicate NoStraddle(a: string, b: string, p: string) {
    forall i :: 0 <= i < |a| < i + |p| ==> !OccursAt(a + b, p, i)
  }

  /**
    Replacing in a concatenation equals concatenating the replacements,
    as long as no occurrence straddles the seam.
   */
  lemma {:induction false} ReplaceAllConcat(a: string, b: string, p: string, r: string)
    requires |p| > 0 && NoStraddle(a, b, p)
    ensures ReplaceAll(a + b, p, r) == ReplaceAll(a, p, r) + ReplaceAll(b, p, r)
    decreases |a|
  {
    match Find(a, p)
    case Some(i) =>
      var a' := a[i + |p|..];
      var front := a[..i + |p|];
      assert a + b == front + (a' + b);
      forall j | 0 <= j < |a'| < j + |p| ensures !OccursAt(a' + b, p, j) {
        OccursInRight(front, a' + b, p, j + |front|);
      }
      ReplaceAllConcat(a', b, p, r);
      ReplaceAllConcatFirst(a, b, p, r, i);
      ReplaceAllStep(a, p, r, i);
      Assoc3(a[..i], r, ReplaceAll(a', p, r), ReplaceAll(b, p, r));
    case None =>
      ReplaceAllConcatNone(a, b, p, r);
  }

  /** The first occurrence in `a` is the first occurrence in `a + b`. */
  lemma {:induction false} ReplaceAllConcatFirst(a: string, b: string, p: string, r: string, i: nat)
    requires |p| > 0 && NoStraddle(a, b, p) && Find(a, p) == Some(i)
    ensures ReplaceAll(a + b, p, r) == a[..i] + r + ReplaceAll(a[i + |p|..] + b, p, r)
  {
    var ab := a + b;
    OccursInLeft(a, b, p, i);
    forall j | 0 <= j < i ensures !OccursAt(ab, p, j) {
      if j + |p| <= |a| {
        OccursInLeft(a, b, p, j);
      }
    }
    FindIsLeftmost(ab, p, i);
    assert ab[..i] == a[..i];
    assert ab[i + |p|..] == a[i + |p|..] + b;
    ReplaceAllStep(ab, p, r, i);
  }

  /** Without an occurrence in `a`, replacing in `a + b` only rewrites `b`. */
  lemma {:induction false} ReplaceAllConcatNone(a: string, b: string, p: string, r: string)
    requires |p| > 0 && NoStraddle(a, b, p) && Find(a, p) == None
    ensures ReplaceAll(a + b, p, r) == a + ReplaceAll(b, p, r)
  {
    forall j | 0 <= j < |a| ensures !OccursAt(a + b, p, j) {
      if j + |p| <= |a| {
        OccursInLeft(a, b, p, j);
      }
    }
    match Find(b, p)
    case None =>
      ReplaceAllConcatNeither(a, b, p, r);
    case Some(k) =>
      ReplaceAllConcatInRight(a, b, p, r, k);
  }

  lemma {:induction false} ReplaceAllConcatNeither(a: string, b: string, p: string, r: string)
    requires |p| > 0 && Find(b, p) == None
    requires forall j :: 0 <= j < |a| ==> !OccursAt(a + b, p, j)
    ensures ReplaceAll(a + b, p, r) == a + ReplaceAll(b, p, r)
  {
    forall j | |a| <= j <= |a + b| ensures !OccursAt(a + b, p, j) {
      OccursInRight(a, b, p, j);
    }
    assert !Contains(a + b, p);
    ReplaceAllAbsent(b, p, r);
    ReplaceAllAbsent(a + b, p, r);
  }

  lemma {:induction false} ReplaceAllConcatInRight(a: string, b: string, p: string, r: string, k: nat)
    requires |p| > 0 && Find(b, p) == Some(k)
    requires forall j :: 0 <= j < |a| ==> !OccursAt(a + b, p, j)
    ensures ReplaceAll(a + b, p, r) == a + ReplaceAll(b, p, r)
  {
    var ab := a + b;
    OccursInRight(a, b, p, |a| + k);
    forall j | |a| <= j < |a| + k ensures !OccursAt(ab, p, j) {
      OccursInRight(a, b, p, j);
    }
    FindIsLeftmost(ab, p, |a| + k);
    ReplaceAllShifted(a, b, p, r, k);
    ReplaceAllStep(b, p, r, k);
    Assoc(a, b[..k], r, ReplaceAll(b[k + |p|..], p, r));
  }

  /** `ReplaceAll` on `a + b` whose first occurrence is the one found at `k` in `b`. */
  lemma {:induction false} ReplaceAllShifted(a: string, b: string, p: string, r: string, k: nat)
    requires |p| > 0 && Find(b, p) == Some(k) && Find(a + b, p) == Some(|a| + k)
    ensures ReplaceAll(a + b, p, r) == (a + b[..k]) + r + ReplaceAll(b[k + |p|..], p, r)
  {
    var pre, post := b[..k], b[k + |p|..];
    OccurrenceSplits(b, p, k);
    Assoc(a, pre, p, post);
    ReplaceAllSplit(a + b, p, r, a + pre, post);
  }

  /** An occurrence cuts its string into the part before, the pattern and the part after. */
  lemma {:induction false} OccurrenceSplits(s: string, p: string, i: nat)
    requires OccursAt(s, p, i)
    ensures s == s[..i] + p + s[i + |p|..]
  {
    assert s == s[..i] + s[i..i + |p|] + s[i + |p|..];
  }

  /** One replacement step, for a string given as its three parts. */
  lemma {:induction false} ReplaceAllSplit(s: string, p: string, r: string, pre: string, post: string)
    requires |p| > 0 && s == pre + p + post && Find(s, p) == Some(|pre|)
    ensures ReplaceAll(s, p, r) == pre + r + ReplaceAll(post, p, r)
  {
    assert s[..|pre|] == pre;
    assert s[|pre| + |p|..] == post;
    ReplaceAllStep(s, p, r, |pre|);
  }

  lemma {:induction false} Assoc3(a: string, b: string, c: string, d: string)
    ensures a + b + (c + d) == (a + b + c) + d
  {
  }

  lemma {:induction false} Assoc(a: string, b: string, c: string, d: string)
    ensures (a + b) + c + d == a + (b + c + d)
  {
  }

  // ---------------------------------------------------------------------
  // Patterns that open with a doubled character, such as `{{VENDEUR}}`

  /** `p` opens with two copies of `c` and holds `c` nowhere else. */
  predicate PairOpened(p: string, c: char) {
    |p| >= 3 && p[0] == c && p[1] == c && forall k :: 2 <= k < |p| ==> p[k] != c
  }

  /** Index `i` of `s` is one of the first two of an occurrence of `p`. */
  predicate Opening(s: string, p: string, i: int) {
    OccursAt(s, p, i) || (0 < i && OccursAt(s, p, i - 1))
  }

  /** Every `c` of `s` is one of the two opening characters of an occurrence of `p`. */
  predicate Covered(s: string, p: string, c: char) {
    forall i :: 0 <= i < |s| && s[i] == c ==> Opening(s, p, i)
  }

  /** An occurrence fixes the characters it spans. */
  lemma {:induction false} OccursAtChar(s: string, p: string, i: int, k: int)
    requires 0 <= k < |p|
    ensures OccursAt(s, p, i) ==> s[i + k] == p[k]
  {
    if OccursAt(s, p, i) {
      assert s[i..i + |p|][k] == s[i + k];
    }
  }

  /** Two occurrences of a pair-opened pattern never overlap. */
  lemma {:induction false} PairOpenedNoOverlap(s: string, p: string, c: char, j: int, m: int)
    requires PairOpened(p, c) && OccursAt(s, p, j) && j < m
    ensures OccursAt(s, p, m) ==> j + |p| <= m
  {
    OccursAtChar(s, p, m, 0);
    OccursAtChar(s, p, m, 1);
    if m < j + |p| {
      OccursAtChar(s, p, j, m - j);
      if m + 1 < j + |p| {
        OccursAtChar(s, p, j, m + 1 - j);
      }
    }
  }

  /** A string without `c` holds no occurrence of a pattern opened by `c`. */
  lemma {:induction false} PairOpenerAbsent(t: string, p: string, c: char)
    requires PairOpened(p, c) && c !in t
    ensures !Contains(t, p)
  {
    forall i | 0 <= i <= |t| ensures !OccursAt(t, p, i) {
      OccursAtChar(t, p, i, 0);
      if i < |t| {
        assert t[i] in t;
      }
    }
  }

  /** Every `c` of `s` after index `n`, where `s[n - 1]` closes an occurrence, is covered in `s[n..]`. */
  lemma {:induction false} CoveredAfter(s: string, p: string, c: char, n: nat)
    requires PairOpened(p, c) && Covered(s, p, c)
    requires 0 < n <= |s| && s[n - 1] != c
    ensures Covered(s[n..], p, c)
  {
    var front := s[..n];
    var post := s[n..];
    assert s == front + post;
    forall q | 0 <= q < |post| && post[q] == c ensures Opening(post, p, q) {
      assert s[n + q] == c;
      OccursAtChar(s, p, n + q - 1, 0);
      OccursInRight(front, post, p, n + q);
      if 0 < q {
        OccursInRight(front, post, p, n + q - 1);
      }
    }
  }

  /** Before the first occurrence, a covered string holds no `c`. */
  lemma {:induction false} CoveredPrefixFree(s: string, p: string, c: char, n: nat)
    requires Covered(s, p, c) && n <= |s|
    requires forall j :: 0 <= j < n ==> !OccursAt(s, p, j)
    ensures c !in s[..n]
  {
    forall k | 0 <= k < n ensures s[k] != c {
      assert !Opening(s, p, k);
    }
  }

  /**
    Replacing `p` by a text without `c`, in a string whose every `c` opens
    an occurrence of `p`, leaves no `c` at all.
   */
  lemma {:induction false} ReplaceAllClearsCovered(s: string, p: string, c: char, r: string)
    requires PairOpened(p, c) && c !in r && Covered(s, p, c)
    ensures c !in ReplaceAll(s, p, r)
    decreases |s|
  {
    var f := Find(s, p);
    if f.None? {
      CoveredPrefixFree(s, p, c, |s|);
      assert s[..|s|] == s;
    } else {
      var i := f.value;
      var post := s[i + |p|..];
      CoveredPrefixFree(s, p, c, i);
      OccursAtChar(s, p, i, |p| - 1);
      CoveredAfter(s, p, c, i + |p|);
      ReplaceAllClearsCovered(post, p, c, r);
      ReplaceAllStep(s, p, r, i);
      assert ReplaceAll(s, p, r) == s[..i] + r + ReplaceAll(post, p, r);
    }
  }

  /** The part before an occurrence keeps each of its `c` at an occurrence of its own. */
  lemma {:induction false} CoveredBefore(s: string, p: string, c: char, n: nat)
    requires PairOpened(p, c) && Covered(s, p, c) && OccursAt(s, p, n)
    ensures Covered(s[..n], p, c)
  {
    var front := s[..n];
    assert s == front + s[n..];
    forall i | 0 <= i < |front| && front[i] == c ensures Opening(front, p, i) {
      assert s[i] == c;
      var j := if OccursAt(s, p, i) then i else i - 1;
      PairOpenedNoOverlap(s, p, c, j, n);
      OccursInLeft(front, s[n..], p, j);
    }
  }

  /** A text without `c` is covered. */
  lemma {:induction false} CoveredWithout(r: string, p: string, c: char)
    requires c !in r
    ensures Covered(r, p, c)
  {
  }

  /** Two covered strings make a covered concatenation. */
  lemma {:induction false} CoveredJoin(x: string, y: string, p: string, c: char)
    requires PairOpened(p, c) && Covered(x, p, c) && Covered(y, p, c)
    ensures Covered(x + y, p, c)
  {
    var s := x + y;
    forall i | 0 <= i < |s| && s[i] == c ensures Opening(s, p, i) {
      if i < |x| {
        assert x[i] == c;
        var j := if OccursAt(x, p, i) then i else i - 1;
        OccursInLeft(x, y, p, j);
      } else {
        assert y[i - |x|] == c;
        OccursInRight(x, y, p, i);
        if OccursAt(y, p, i - |x| - 1) {
          OccursInRight(x, y, p, i - 1);
        }
      }
    }
  }

  /**
    Replacing one occurrence by a text without `c` keeps every remaining
    `c` at the opening of an occurrence.
   */
  lemma {:induction false} CoveredSwap(a: string, b: string, p: string, c: char, r: string)
    requires PairOpened(p, c) && c !in r && Covered(a + p + b, p, c)
    ensures Covered(a + r + b, p, c)
  {
    var s := a + p + b;
    assert OccursAt(s, p, |a|) by { assert s[|a|..|a| + |p|] == p; }
    assert s[..|a|] == a && s[|a| + |p|..] == b;
    assert s[|a| + |p| - 1] == p[|p| - 1];
    CoveredBefore(s, p, c, |a|);
    CoveredAfter(s, p, c, |a| + |p|);
    CoveredWithout(r, p, c);
    CoveredJoin(a, r, p, c);
    CoveredJoin(a + r, b, p, c);
  }

  lemma {:induction false} Regroup(a: string, x: string, y: string, z: string, b: string)
    ensures a + (x + y + z) + b == (a + x) + y + (z + b)
    ensures (a + x) + y + (z + b) == (a + x + y) + z + b
  {
  }

  /** `ReplaceAll` on a middle part, by a text without `c`, keeps the whole string covered. */
  lemma {:induction false} CoveredReplaceInside(a: string, u: string, b: string, p: string, c: char, r: string)
    requires PairOpened(p, c) && c !in r && Covered(a + u + b, p, c)
    ensures Covered(a + ReplaceAll(u, p, r) + b, p, c)
    decreases |u|
  {
    match Find(u, p)
    case None =>
    case Some(i) =>
      var pre := u[..i];
      var post := u[i + |p|..];
      var rest := ReplaceAll(post, p, r);
      OccurrenceSplits(u, p, i);
      Regroup(a, pre, p, post, b);
      CoveredSwap(a + pre, post + b, p, c, r);
      Regroup(a, pre, r, post, b);
      CoveredReplaceInside(a + pre + r, post, b, p, c, r);
      ReplaceAllStep(u, p, r, i);
      Regroup(a, pre, r, rest, b);
  }

  /** Replacing in each part of a concatenation, by a text without `c`, keeps it covered. */
  lemma {:induction false} CoveredReplaceEach(a: string, parts: seq<string>, p: string, c: char, r: string)
    requires PairOpened(p, c) && c !in r && Covered(a + Concat(parts), p, c)
    ensures Covered(a + Concat(seq(|parts|, k requires 0 <= k < |parts| => ReplaceAll(parts[k], p, r))), p, c)
    decreases |parts|
  {
    var rs := seq(|parts|, k requires 0 <= k < |parts| => ReplaceAll(parts[k], p, r));
    if parts == [] {
      assert rs == [];
    } else {
      var rest := parts[1..];
      var head := ReplaceAll(parts[0], p, r);
      assert a + Concat(parts) == a + parts[0] + Concat(rest);
      CoveredReplaceInside(a, parts[0], Concat(rest), p, c, r);
      CoveredReplaceEach(a + head, rest, p, c, r);
      assert rs[1..] == seq(|rest|, k requires 0 <= k < |rest| => ReplaceAll(rest[k], p, r));
      assert a + Concat(rs) == a + head + Concat(rs[1..]);
    }
  }

  /** Replacing one character by another is a character-wise map. */
  lemma {:induction false} ReplaceCharIsMap(s: string, a: char, b: char)
    ensures |ReplaceAll(s, [a], [b])| == |s|
    ensures forall k :: 0 <= k < |s| ==>
      ReplaceAll(s, [a], [b])[k] == (if s[k] == a then b else s[k])
    decreases |s|
  {
    match Find(s, [a])
    case None =>
      ReplaceAllAbsent(s, [a], [b]);
      forall k | 0 <= k < |s| ensures s[k] != a {
        assert !OccursAt(s, [a], k) && s[k..k + 1] == [s[k]];
      }
    case Some(i) =>
      var pre, rest := s[..i], s[i + 1..];
      OccurrenceSplits(s, [a], i);
      ReplaceAllSplit(s, [a], [b], pre, rest);
      ReplaceCharIsMap(rest, a, b);
      var u := ReplaceAll(rest, [a], [b]);
      var t := pre + [b] + u;
      forall k | 0 <= k < |s| ensures t[k] == (if s[k] == a then b else s[k]) {
        if k < i {
          assert !OccursAt(s, [a], k) && s[k..k + 1] == [s[k]];
        } else if k > i {
          assert s[k] == rest[k - i - 1] && t[k] == u[k - i - 1];
        }
      }
  }

  // ---------------------------------------------------------------------
  // `"".join(...)`

  /** Python's `"".join(parts)`: the visible text of a sequence of runs. */
  function Concat(parts: seq<string>): string {
    if parts == [] then "" else parts[0] + Concat(parts[1..])
  }

  lemma {:induction false} ConcatAppend(xs: seq<string>, ys: seq<string>)
    ensures Concat(xs + ys) == Concat(xs) + Concat(ys)
    decreases |xs|
  {
    if xs == [] {
      assert xs + ys == ys;
    } else {
      assert (xs + ys)[0] == xs[0];
      assert (xs + ys)[1..] == xs[1..] + ys;
      ConcatAppend(xs[1..], ys);
    }
  }

  // ---------------------------------------------------------------------
  // Character classes

  /** `str.isspace` restricted to the ASCII range, where it is exact. */
  predicate IsSpace(c: char) {
    c == ' ' || c == '\t' || c == '\n' || c == '\r' || c == '\U{B}' || c == '\U{C}'
    || ('\U{1C}' <= c <= '\U{1F}')
  }

  predicate IsDigit(c: char) { '0' <= c <= '9' }

  predicate IsAsciiLetter(c: char) { 'a' <= c <= 'z' || 'A' <= c <= 'Z' }

  /**
    `str.isalnum` on one character, exact for the Latin-1 range (U+0000 to
    U+00FF); code points above it count as not alphanumeric.
   */
  predicate IsAlnum(c: char) {
    IsAsciiLetter(c) || IsDigit(c)
    || ('\U{C0}' <= c <= '\U{FF}' && c != '\U{D7}' && c != '\U{F7}')
    || c == '\U{AA}' || c == '\U{B2}' || c == '\U{B3}' || c == '\U{B5}'
    || c == '\U{B9}' || c == '\U{BA}' || ('\U{BC}' <= c <= '\U{BE}')
  }

  /** `str.lower` on ASCII letters; other characters are left as they are. */
  function LowerChar(c: char): (d: char)
    ensures 'A' <= c <= 'Z' ==> 'a' <= d <= 'z'
    ensures !('A' <= c <= 'Z') ==> d == c
  {
    if 'A' <= c <= 'Z' then (c as int + 32) as char else c
  }

  function Lower(s: string): (t: string)
    ensures |t| == |s| && forall k :: 0 <= k < |s| ==> t[k] == LowerChar(s[k])
  {
    seq(|s|, k requires 0 <= k < |s| => LowerChar(s[k]))
  }

  /** The characters of `s` that satisfy `keep`, in order. */
  function FilterChars(s: string, keep: char -> bool): (t: string)
    ensures |t| <= |s|
    ensures forall k :: 0 <= k < |t| ==> keep(t[k])
    ensures (forall k :: 0 <= k < |s| ==> keep(s[k])) ==> t == s
    decreases |s|
  {
    if s == [] then ""
    else if keep(s[0]) then [s[0]] + FilterChars(s[1..], keep)
    else FilterChars(s[1..], keep)
  }

  lemma {:induction false} FilterCharsConcat(a: string, b: string, keep: char -> bool)
    ensures FilterChars(a + b, keep) == FilterChars(a, keep) + FilterChars(b, keep)
    decreases |a|
  {
    if a == [] {
      assert a + b == b;
    } else {
      assert (a + b)[0] == a[0];
      assert (a + b)[1..] == a[1..] + b;
      FilterCharsConcat(a[1..], b, keep);
    }
  }

  // ---------------------------------------------------------------------
  // `str.strip`

  /** The number of whitespace characters `s` starts with. */
  function LeadingSpaces(s: string): (n: nat)
    ensures n <= |s|
    decreases |s|
  {
    if |s| > 0 && IsSpace(s[0]) then 1 + LeadingSpaces(s[1..]) else 0
  }

  /** The number of whitespace characters `s` ends with. */
  function TrailingSpaces(s: string): (n: nat)
    ensures n <= |s|
    decreases |s|
  {
    if |s| > 0 && IsSpace(s[|s| - 1]) then 1 + TrailingSpaces(s[..|s| - 1]) else 0
  }

  /** `LeadingSpaces` counts exactly the whitespace run at the front. */
  lemma {:induction false} LeadingSpacesExact(s: string)
    ensures forall k :: 0 <= k < LeadingSpaces(s) ==> IsSpace(s[k])
    ensures LeadingSpaces(s) < |s| ==> !IsSpace(s[LeadingSpaces(s)])
    decreases |s|
  {
    if |s| > 0 && IsSpace(s[0]) {
      LeadingSpacesExact(s[1..]);
      forall k | 0 < k < LeadingSpaces(s) ensures IsSpace(s[k]) {
        assert s[k] == s[1..][k - 1];
      }
      if LeadingSpaces(s) < |s| {
        assert s[LeadingSpaces(s)] == s[1..][LeadingSpaces(s[1..])];
      }
    }
  }

  /** `TrailingSpaces` counts exactly the whitespace run at the back. */
  lemma {:induction false} TrailingSpacesExact(s: string)
    ensures forall k :: |s| - TrailingSpaces(s) <= k < |s| ==> IsSpace(s[k])
    ensures TrailingSpaces(s) < |s| ==> !IsSpace(s[|s| - 1 - TrailingSpaces(s)])
    decreases |s|
  {
    if |s| > 0 && IsSpace(s[|s| - 1]) {
      var u := s[..|s| - 1];
      TrailingSpacesExact(u);
      forall k | |s| - TrailingSpaces(s) <= k < |s| - 1 ensures IsSpace(s[k]) {
        assert s[k] == u[k];
      }
      if TrailingSpaces(s) < |s| {
        assert s[|s| - 1 - TrailingSpaces(s)] == u[|u| - 1 - TrailingSpaces(u)];
      }
    }
  }

  /** Python's `s.strip()`: leading and trailing whitespace removed. */
  function Strip(s: string): (t: string)
    ensures |t| <= |s|
  {
    var a := LeadingSpaces(s);
    var rest := s[a..];
    rest[..|rest| - TrailingSpaces(rest)]
  }

  /**
    `s.strip()` is the slice of `s` between its leading and its trailing
    whitespace: everything cut off is whitespace, and what remains neither
    starts nor ends with whitespace.
   */
  lemma {:induction false} StripSlice(s: string)
    ensures var t := Strip(s); var a := LeadingSpaces(s);
      a + |t| <= |s| && t == s[a..a + |t|]
      && (forall k :: 0 <= k < a ==> IsSpace(s[k]))
      && (forall k :: a + |t| <= k < |s| ==> IsSpace(s[k]))
      && (t == [] || (!IsSpace(t[0]) && !IsSpace(t[|t| - 1])))
  {
    LeadingSpacesExact(s);
    StripBack(s);
    StripTrimmed(s);
  }

  lemma {:induction false} StripBack(s: string)
    ensures var t := Strip(s); var a := LeadingSpaces(s);
      a + |t| <= |s| && t == s[a..a + |t|]
      && forall k :: a + |t| <= k < |s| ==> IsSpace(s[k])
  {
    var a := LeadingSpaces(s);
    var rest := s[a..];
    var t := Strip(s);
    TrailingSpacesExact(rest);
    forall k | a + |t| <= k < |s| ensures IsSpace(s[k]) {
      assert s[k] == rest[k - a];
    }
  }

  /** Nothing of `s.strip()` starts or ends with whitespace. */
  lemma {:induction false} StripTrimmed(s: string)
    ensures Strip(s) == [] || (!IsSpace(Strip(s)[0]) && !IsSpace(Strip(s)[|Strip(s)| - 1]))
  {
    var a := LeadingSpaces(s);
    var rest := s[a..];
    var t := Strip(s);
    LeadingSpacesExact(s);
    TrailingSpacesExact(rest);
    if t != [] {
      assert t[0] == s[a];
      assert t[|t| - 1] == rest[|rest| - 1 - TrailingSpaces(rest)];
    }
  }

  /** Some character of `s` is not whitespace. */
  predicate NonBlank(s: string)
    decreases |s|
  {
    |s| > 0 && (!IsSpace(s[0]) || NonBlank(s[1..]))
  }

  lemma {:induction false} NonBlankIff(s: string)
    ensures NonBlank(s) <==> exists k :: 0 <= k < |s| && !IsSpace(s[k])
    decreases |s|
  {
    if |s| > 0 {
      NonBlankIff(s[1..]);
      if NonBlank(s) && IsSpace(s[0]) {
        var k :| 0 <= k < |s[1..]| && !IsSpace(s[1..][k]);
        assert !IsSpace(s[k + 1]);
      }
      if !NonBlank(s) {
        forall k | 0 <= k < |s| ensures IsSpace(s[k]) {
          if k > 0 { assert s[k] == s[1..][k - 1]; }
        }
      }
    }
  }

  /** `s.strip()` is non-empty exactly when `s` holds a character that is not whitespace. */
  lemma {:induction false} StripNonEmptyIff(s: string)
    ensures Strip(s) != "" <==> NonBlank(s)
  {
    StripSlice(s);
    NonBlankIff(s);
    var t := Strip(s);
    var a := LeadingSpaces(s);
    if t != "" {
      assert s[a] == t[0];
    } else {
      forall k | 0 <= k < |s| ensures IsSpace(s[k]) {
        if k < a {
          assert IsSpace(s[k]);
        } else {
          assert a + |t| <= k;
        }
      }
    }
  }

  /** A leading space is stripped away. */
  lemma {:induction false} StripPadFront(s: string)
    ensures Strip(" " + s) == Strip(s)
  {
    var x := " " + s;
    assert x[1..] == s;
    assert LeadingSpaces(x) == 1 + LeadingSpaces(s);
    assert x[LeadingSpaces(x)..] == s[LeadingSpaces(s)..];
  }

  /** A trailing space is stripped away. */
  lemma {:induction false} StripPadBack(s: string)
    ensures Strip(s + " ") == Strip(s)
  {
    var x := s + " ";
    var a := LeadingSpaces(s);
    LeadingSpacesSnoc(s, ' ');
    if a < |s| {
      var rest := s[a..];
      assert x[a..] == rest + " ";
      assert (rest + " ")[..|rest|] == rest;
      assert TrailingSpaces(rest + " ") == 1 + TrailingSpaces(rest);
    }
  }

  /** A character appended to `s` extends the leading whitespace only when all of `s` is whitespace. */
  lemma {:induction false} LeadingSpacesSnoc(s: string, c: char)
    ensures LeadingSpaces(s + [c])
      == if LeadingSpaces(s) == |s| && IsSpace(c) then |s| + 1 else LeadingSpaces(s)
    decreases |s|
  {
    if s == [] {
      assert [c][1..] == [];
    } else {
      assert (s + [c])[0] == s[0];
      assert (s + [c])[1..] == s[1..] + [c];
      if IsSpace(s[0]) {
        LeadingSpacesSnoc(s[1..], c);
      }
    }
  }

  /** `s.strip()` is a slice of `s`, so it keeps any property every character of `s` has. */
  lemma {:induction false} StripKeeps(s: string, P: char -> bool)
    requires forall k :: 0 <= k < |s| ==> P(s[k])
    ensures forall k :: 0 <= k < |Strip(s)| ==> P(Strip(s)[k])
  {
    StripSlice(s);
    var a := LeadingSpaces(s);
    var t := Strip(s);
    forall k | 0 <= k < |t| ensures P(t[k]) {
      assert t[k] == s[a + k];
    }
  }

  /** `s.strip()` is empty exactly when every character of `s` is whitespace. */
  lemma {:induction false} StripEmptyIffBlank(s: string)
    ensures Strip(s) == [] <==> forall k :: 0 <= k < |s| ==> IsSpace(s[k])
  {
    StripSlice(s);
    var t := Strip(s);
    if t != [] {
      assert !IsSpace(t[0]) && t[0] == s[LeadingSpaces(s)];
    }
  }

  /** Stripping twice is stripping once. */
  lemma {:induction false} StripIdempotent(s: string)
    ensures Strip(Strip(s)) == Strip(s)
  {
    StripTrimmed(s);
    StripUnpadded(Strip(s));
  }

  /** A string that neither starts nor ends with whitespace is its own strip. */
  lemma {:induction false} StripUnpadded(s: string)
    requires s == [] || (!IsSpace(s[0]) && !IsSpace(s[|s| - 1]))
    ensures Strip(s) == s
  {
    assert LeadingSpaces(s) == 0;
    assert s[0..] == s;
    assert TrailingSpaces(s) == 0;
  }

  // ---------------------------------------------------------------------
  // `str.split(sep)` with a one-character separator

  /** Python's `s.split(sep)` for a one-character `sep`. */
  function Split(s: string, sep: char): (parts: seq<string>)
    ensures |parts| >= 1
    ensures forall k :: 0 <= k < |parts| ==> sep !in parts[k]
    decreases |s|
  {
    match Find(s, [sep])
    case None =>
      assert forall k :: 0 <= k < |s| ==> s[k] != sep by {
        forall k | 0 <= k < |s| ensures s[k] != sep {
          if s[k] == sep {
            assert s[k..k + 1] == [sep];
            assert OccursAt(s, [sep], k);
          }
        }
      }
      [s]
    case Some(i) =>
      assert sep !in s[..i] by {
        forall k | 0 <= k < i ensures s[k] != sep {
          if s[k] == sep {
            assert s[k..k + 1] == [sep];
            assert OccursAt(s, [sep], k);
          }
        }
      }
      [s[..i]] + Split(s[i + 1..], sep)
  }

  /** Python's `sep.join(parts)`. */
  function Join(parts: seq<string>, sep: char): string
    requires |parts| >= 1
  {
    if |parts| == 1 then parts[0] else parts[0] + [sep] + Join(parts[1..], sep)
  }

  /** Splitting loses nothing: joining the pieces back gives the input. */
  lemma {:induction false} JoinSplit(s: string, sep: char)
    ensures Join(Split(s, sep), sep) == s
    decreases |s|
  {
    match Find(s, [sep])
    case None =>
    case Some(i) =>
      JoinSplit(s[i + 1..], sep);
      assert s[i..i + 1] == [sep];
      assert s == s[..i] + [sep] + s[i + 1..];
  }

  /** Joining pieces that do not hold the separator and splitting again gives the pieces back. */
  lemma {:induction false} SplitJoin(parts: seq<string>, sep: char)
    requires |parts| >= 1
    requires forall k :: 0 <= k < |parts| ==> sep !in parts[k]
    ensures Split(Join(parts, sep), sep) == parts
    decreases |parts|
  {
    var s := Join(parts, sep);
    if |parts| == 1 {
      forall j | 0 <= j < |s| ensures !OccursAt(s, [sep], j) {
        assert s[j] != sep;
      }
    } else {
      var h := parts[0];
      var rest := Join(parts[1..], sep);
      assert s == h + [sep] + rest;
      assert s[|h|..|h| + 1] == [sep];
      forall j | 0 <= j < |h| ensures !OccursAt(s, [sep], j) {
        assert s[j] == h[j] != sep;
      }
      FindIsLeftmost(s, [sep], |h|);
      assert s[..|h|] == h && s[|h| + 1..] == rest;
      SplitJoin(parts[1..], sep);
    }
  }

  // ---------------------------------------------------------------------
  // Decimal formatting

  function DigitChar(d: nat): (c: char)
    requires d < 10
    ensures IsDigit(c)
  {
    (48 + d) as char
  }

  function DigitValue(c: char): nat
    requires IsDigit(c)
  {
    c as int - 48
  }

  /** Python's `str(n)` for a natural number. */
  function NatToString(n: nat): (s: string)
    ensures |s| >= 1
    ensures forall k :: 0 <= k < |s| ==> IsDigit(s[k])
    ensures n >= 10 <==> |s| >= 2
    decreases n
  {
    if n < 10 then [DigitChar(n)] else NatToString(n / 10) + [DigitChar(n % 10)]
  }

  /** The value of a string of decimal digits. */
  function ParseNat(s: string): nat
    requires forall k :: 0 <= k < |s| ==> IsDigit(s[k])
  {
    if s == [] then 0 else ParseNat(s[..|s| - 1]) * 10 + DigitValue(s[|s| - 1])
  }

  /** Formatting then parsing gives the number back. */
  lemma {:induction false} ParseNatToString(n: nat)
    ensures ParseNat(NatToString(n)) == n
    decreases n
  {
    if n >= 10 {
      var s := NatToString(n);
      assert s[..|s| - 1] == NatToString(n / 10);
      ParseNatToString(n / 10);
    }
  }

  /** Python's `str(i)`. */
  function IntToString(i: int): string {
    if i < 0 then "-" + NatToString(-i) else NatToString(i)
  }

  /** Python's `f"{i:02d}"`: at least two characters, zero-padded after the sign. */
  function ZeroPad2(i: int): (s: string)
    ensures |s| >= 2
    ensures i >= 0 ==> (forall k :: 0 <= k < |s| ==> IsDigit(s[k])) && ParseNat(s) == i
    ensures i < 0 ==> s == IntToString(i)
  {
    if 0 <= i < 10 then
      assert ParseNat("0" + NatToString(i)) == i by {
        var t := "0" + NatToString(i);
        assert t == ['0', DigitChar(i)];
        assert t[..1] == "0" && "0"[..0] == "";
      }
      "0" + NatToString(i)
    else
      assert i >= 0 ==> ParseNat(NatToString(i)) == i by {
        if i >= 0 { ParseNatToString(i); }
      }
      IntToString(i)
  }
}
