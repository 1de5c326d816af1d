/** The permutation generator of the "add pentagon" command: every ordered
    selection of `length` distinct elements of a list, built by extending each
    shorter selection with every list element it does not yet contain. */
module Permutations {

  /** No element occurs twice. */
  ghost predicate Distinct<T>(s: seq<T>) {
    forall i, j :: 0 <= i < j < |s| ==> s[i] != s[j]
  }

  /** Every element of `s` is an element of `list`. */
  ghost predicate DrawnFrom<T>(s: seq<T>, list: seq<T>) {
    forall i :: 0 <= i < |s| ==> s[i] in list
  }

  /** A non-empty sequence is its front followed by its last element. */
  lemma SplitLast<T>(s: seq<T>)
    requires |s| >= 1
    ensures s == s[..|s| - 1] + [s[|s| - 1]]
  {
  }

  /** The one-element selections, in list order (the `length == 1` case). */
  function Singletons<T>(list: seq<T>): seq<seq<T>> {
    seq(|list|, i requires 0 <= i < |list| => [list[i]])
  }

  /** The `length == 1` case yields exactly the one-element sequences whose
      element is on the list. */
  lemma SingletonsMember<T>(list: seq<T>, s: seq<T>)
    ensures s in Singletons(list) <==> |s| == 1 && s[0] in list
  {
    var r := Singletons(list);
    if s in r {
      var i :| 0 <= i < |r| && r[i] == s;
      assert s == [list[i]];
    }
    if |s| == 1 && s[0] in list {
      var i :| 0 <= i < |list| && list[i] == s[0];
      assert s == [s[0]] && r[i] == s;
    }
  }

  /** `prefix` followed by each element of `list` that `prefix` does not
      contain, in list order. */
  function Extend<T(==)>(prefix: seq<T>, list: seq<T>): seq<seq<T>> {
    if list == [] then []
    else (if list[0] in prefix then [] else [prefix + [list[0]]]) + Extend(prefix, list[1..])
  }

  /** The extensions of every prefix, prefix by prefix. */
  function ExtendAll<T(==)>(prefixes: seq<seq<T>>, list: seq<T>): seq<seq<T>> {
    if prefixes == [] then []
    else Extend(prefixes[0], list) + ExtendAll(prefixes[1..], list)
  }

  /** `y` is an extension of `prefix` iff it is `prefix` plus one element of
      `list` that `prefix` lacks. */
  lemma {:induction false} ExtendMember<T>(prefix: seq<T>, list: seq<T>, y: seq<T>)
    ensures y in Extend(prefix, list) <==>
      (|y| == |prefix| + 1 && y[..|prefix|] == prefix && y[|prefix|] in list && y[|prefix|] !in prefix)
  {
    if list != [] {
      ExtendMember(prefix, list[1..], y);
      if |y| == |prefix| + 1 && y[..|prefix|] == prefix {
        assert y == prefix + [y[|prefix|]];
      }
    }
  }

  /** `y` is produced from `prefixes` iff dropping its last element gives one
      of them and that last element is a fresh element of `list`. */
  lemma {:induction false} ExtendAllMember<T>(prefixes: seq<seq<T>>, list: seq<T>, y: seq<T>)
    ensures y in ExtendAll(prefixes, list) <==>
      (|y| >= 1 && y[..|y| - 1] in prefixes && y[|y| - 1] in list && y[|y| - 1] !in y[..|y| - 1])
  {
    if prefixes != [] {
      ExtendAllMember(prefixes[1..], list, y);
      ExtendMember(prefixes[0], list, y);
      assert prefixes == [prefixes[0]] + prefixes[1..];
      if |y| >= 1 {
        var q := y[..|y| - 1];
        assert q in prefixes <==> q == prefixes[0] || q in prefixes[1..];
      }
    }
  }

  /** A well-formed selection of length n with one fresh element of `list`
      appended is a well-formed selection of length n + 1. */
  lemma ExtendWellFormed<T>(q: seq<T>, list: seq<T>, p: seq<T>)
    requires Distinct(q) && DrawnFrom(q, list)
    requires |p| >= 1 && p[..|p| - 1] == q && p[|p| - 1] in list && p[|p| - 1] !in q
    ensures |p| == |q| + 1 && Distinct(p) && DrawnFrom(p, list)
  {
    assert forall i :: 0 <= i < |q| ==> p[i] == q[i];
    forall i, j | 0 <= i < j < |p| ensures p[i] != p[j] {
      if j == |p| - 1 {
        assert p[i] == q[i];
      } else {
        assert p[i] == q[i] && p[j] == q[j];
      }
    }
    forall i | 0 <= i < |p| ensures p[i] in list {
      if i < |q| {
        assert p[i] == q[i];
      }
    }
  }

  /** GetPermutations(list, length): the ordered selections of `length`
      elements of `list`. The C# method recurses on `length - 1` without a
      case for 0, so a call with length 0 never returns. */
  function GetPermutations<T(==)>(list: seq<T>, length: nat): seq<seq<T>>
    requires length >= 1
  {
    if length == 1 then Singletons(list)
    else ExtendAll(GetPermutations(list, length - 1), list)
  }

  /** Every produced selection has the requested length, distinct elements,
      and elements drawn from `list`. */
  lemma {:induction false} GetPermutationsSound<T>(list: seq<T>, length: nat, p: seq<T>)
    requires length >= 1 && p in GetPermutations(list, length)
    ensures |p| == length && Distinct(p) && DrawnFrom(p, list)
  {
    if length == 1 {
      SingletonsMember(list, p);
    } else {
      var shorter := GetPermutations(list, length - 1);
      assert p in ExtendAll(shorter, list);
      ExtendAllMember(shorter, list, p);
      var q := p[..|p| - 1];
      GetPermutationsSound(list, length - 1, q);
      ExtendWellFormed(q, list, p);
    }
  }

  /** Dropping the last element of a well-formed selection leaves a
      well-formed selection that lacks that element. */
  lemma FrontWellFormed<T>(p: seq<T>, list: seq<T>)
    requires |p| >= 1 && Distinct(p) && DrawnFrom(p, list)
    ensures Distinct(p[..|p| - 1]) && DrawnFrom(p[..|p| - 1], list)
    ensures p[|p| - 1] in list && p[|p| - 1] !in p[..|p| - 1]
  {
    var q := p[..|p| - 1];
    var last := p[|p| - 1];
    assert forall i :: 0 <= i < |q| ==> q[i] == p[i];
    assert last !in q by {
      forall i | 0 <= i < |q| ensures q[i] != last {
        assert q[i] == p[i];
      }
    }
  }

  /** A fresh element of `list` appended to one of the prefixes is produced. */
  lemma ExtendAllComplete<T>(prefixes: seq<seq<T>>, list: seq<T>, q: seq<T>, x: T)
    requires q in prefixes && x in list && x !in q
    ensures q + [x] in ExtendAll(prefixes, list)
  {
    var y := q + [x];
    assert y[..|y| - 1] == q && y[|y| - 1] == x;
    ExtendAllMember(prefixes, list, y);
  }

  /** Every well-formed selection is produced. */
  lemma {:induction false} GetPermutationsComplete<T>(list: seq<T>, length: nat, p: seq<T>)
    requires length >= 1 && |p| == length && Distinct(p) && DrawnFrom(p, list)
    ensures p in GetPermutations(list, length)
  {
    if length == 1 {
      assert p[0] in list;
      SingletonsMember(list, p);
      assert GetPermutations(list, length) == Singletons(list);
    } else {
      var q, last := p[..|p| - 1], p[|p| - 1];
      FrontWellFormed(p, list);
      GetPermutationsComplete(list, length - 1, q);
      var shorter := GetPermutations(list, length - 1);
      ExtendAllComplete(shorter, list, q, last);
      SplitLast(p);
      assert GetPermutations(list, length) == ExtendAll(shorter, list);
    }
  }

  /** Membership in both directions: a sequence is produced iff it has the
      requested length, its elements are distinct and all come from `list`. */
  lemma GetPermutationsMembers<T>(list: seq<T>, length: nat, p: seq<T>)
    requires length >= 1
    ensures p in GetPermutations(list, length) <==> (|p| == length && Distinct(p) && DrawnFrom(p, list))
  {
    if p in GetPermutations(list, length) {
      GetPermutationsSound(list, length, p);
    }
    if |p| == length && Distinct(p) && DrawnFrom(p, list) {
      GetPermutationsComplete(list, length, p);
    }
  }

  // ---------------------------------------------------------------------
  // Counting: the number of k-arrangements of n distinct elements.

  /** n * (n - 1) * ... * (n - k + 1), and 0 once k exceeds n. */
  function Arrangements(n: nat, k: nat): nat {
    if k == 0 then 1
    else if k > n then 0
    else Arrangements(n, k - 1) * (n - k + 1)
  }

  /** The elements common to two sequences. */
  ghost function Common<T>(a: seq<T>, b: seq<T>): set<T> {
    set x | x in a && x in b
  }

  lemma {:induction false} DistinctCardinality<T>(s: seq<T>)
    requires Distinct(s)
    ensures |set x | x in s| == |s|
  {
    if s != [] {
      DistinctCardinality(s[1..]);
      assert (set x | x in s) == {s[0]} + (set x | x in s[1..]);
      assert s[0] !in s[1..] by {
        forall i | 0 <= i < |s[1..]| ensures s[1..][i] != s[0] {
          assert s[1..][i] == s[i + 1];
        }
      }
    }
  }

  lemma {:induction false} ExtendLengthCommon<T>(prefix: seq<T>, list: seq<T>)
    requires Distinct(list)
    ensures |Extend(prefix, list)| == |list| - |Common(list, prefix)|
  {
    if list != [] {
      var rest := list[1..];
      assert Distinct(rest) by {
        forall i, j | 0 <= i < j < |rest| ensures rest[i] != rest[j] {
          assert rest[i] == list[i + 1] && rest[j] == list[j + 1];
        }
      }
      assert list[0] !in rest by {
        forall i | 0 <= i < |rest| ensures rest[i] != list[0] {
          assert rest[i] == list[i + 1];
        }
      }
      ExtendLengthCommon(prefix, rest);
      assert forall x :: x in list <==> x == list[0] || x in rest;
      if list[0] in prefix {
        assert Common(list, prefix) == {list[0]} + Common(rest, prefix);
      } else {
        assert Common(list, prefix) == Common(rest, prefix);
      }
    }
  }

  /** A distinct prefix drawn from a distinct list of n has n - |prefix| extensions. */
  lemma ExtendLength<T>(prefix: seq<T>, list: seq<T>)
    requires Distinct(list) && Distinct(prefix) && DrawnFrom(prefix, list)
    ensures |Extend(prefix, list)| == |list| - |prefix|
  {
    ExtendLengthCommon(prefix, list);
    assert Common(list, prefix) == set x | x in prefix;
    DistinctCardinality(prefix);
  }

  lemma MultiplySuccessor(a: nat, m: nat)
    ensures (a + 1) * m == m + a * m
  {
  }

  lemma {:induction false} ExtendAllLength<T>(prefixes: seq<seq<T>>, list: seq<T>, m: nat)
    requires forall p :: p in prefixes ==> |Extend(p, list)| == m
    ensures |ExtendAll(prefixes, list)| == |prefixes| * m
  {
    if prefixes != [] {
      var rest := prefixes[1..];
      assert prefixes[0] in prefixes;
      assert forall p :: p in rest ==> p in prefixes;
      ExtendAllLength(rest, list, m);
      assert |ExtendAll(prefixes, list)| == m + |rest| * m;
      MultiplySuccessor(|rest|, m);
    }
  }

  /** For a distinct list of n elements there are n! / (n - k)! selections of length k. */
  lemma {:induction false} GetPermutationsCount<T>(list: seq<T>, length: nat)
    requires Distinct(list) && 1 <= length <= |list|
    ensures |GetPermutations(list, length)| == Arrangements(|list|, length)
  {
    if length > 1 {
      var shorter := GetPermutations(list, length - 1);
      var m := |list| - (length - 1);
      GetPermutationsCount(list, length - 1);
      forall p | p in shorter ensures |Extend(p, list)| == m {
        GetPermutationsSound(list, length - 1, p);
        ExtendLength(p, list);
      }
      ExtendAllLength(shorter, list, m);
      assert GetPermutations(list, length) == ExtendAll(shorter, list);
      assert Arrangements(|list|, length) == Arrangements(|list|, length - 1) * m;
    }
  }

  // ---------------------------------------------------------------------
  // Order: for an ascending list, the selections come out in
  // lexicographic order, because each prefix is extended in list order.

  ghost predicate StrictlyIncreasing(s: seq<int>) {
    forall i, j :: 0 <= i < j < |s| ==> s[i] < s[j]
  }

  /** Lexicographic "less than" on sequences of equal length. */
  ghost predicate LexLess(a: seq<int>, b: seq<int>) {
    |a| == |b| && exists i :: 0 <= i < |a| && a[..i] == b[..i] && a[i] < b[i]
  }

  /** Every earlier element is lexicographically below every later one. */
  ghost predicate LexSorted(ss: seq<seq<int>>) {
    forall i, j :: 0 <= i < j < |ss| ==> LexLess(ss[i], ss[j])
  }

  lemma LexLessIrreflexive(a: seq<int>)
    ensures !LexLess(a, a)
  {
  }

  lemma LexLessAsymmetric(a: seq<int>, b: seq<int>)
    requires LexLess(a, b)
    ensures !LexLess(b, a)
  {
    var i :| 0 <= i < |a| && a[..i] == b[..i] && a[i] < b[i];
    forall j | 0 <= j < |b| && b[..j] == a[..j] ensures b[j] >= a[j] {
      if j < i {
        assert a[..i][j] == a[j] && b[..i][j] == b[j];
      }
    }
  }

  lemma LexLessAppend(a: seq<int>, b: seq<int>, e: int, f: int)
    requires LexLess(a, b)
    ensures LexLess(a + [e], b + [f])
  {
    var i :| 0 <= i < |a| && a[..i] == b[..i] && a[i] < b[i];
    assert (a + [e])[..i] == a[..i] && (b + [f])[..i] == b[..i];
    assert (a + [e])[i] == a[i] && (b + [f])[i] == b[i];
  }

  lemma LexSortedConcat(a: seq<seq<int>>, b: seq<seq<int>>)
    requires LexSorted(a) && LexSorted(b)
    requires forall x, y :: x in a && y in b ==> LexLess(x, y)
    ensures LexSorted(a + b)
  {
    forall i, j | 0 <= i < j < |a + b| ensures LexLess((a + b)[i], (a + b)[j]) {
      if j < |a| {
        assert (a + b)[i] == a[i] && (a + b)[j] == a[j];
      } else if i >= |a| {
        assert (a + b)[i] == b[i - |a|] && (a + b)[j] == b[j - |a|];
      } else {
        assert (a + b)[i] == a[i] && (a + b)[j] == b[j - |a|];
      }
    }
  }

  lemma {:induction false} ExtendSorted(prefix: seq<int>, list: seq<int>)
    requires StrictlyIncreasing(list)
    ensures LexSorted(Extend(prefix, list))
  {
    if list != [] {
      var rest := list[1..];
      var head := if list[0] in prefix then [] else [prefix + [list[0]]];
      assert StrictlyIncreasing(rest) by {
        forall i, j | 0 <= i < j < |rest| ensures rest[i] < rest[j] {
          assert rest[i] == list[i + 1] && rest[j] == list[j + 1];
        }
      }
      ExtendSorted(prefix, rest);
      forall x, y | x in head && y in Extend(prefix, rest) ensures LexLess(x, y) {
        var k := |prefix|;
        ExtendMember(prefix, rest, y);
        var m :| 0 <= m < |rest| && rest[m] == y[k];
        assert list[0] < list[m + 1];
        assert x[..k] == prefix == y[..k] && x[k] == list[0];
      }
      LexSortedConcat(head, Extend(prefix, rest));
    }
  }

  /** An extension of the first prefix is below every extension of a later one. */
  lemma ExtendCrossLess(prefixes: seq<seq<int>>, list: seq<int>, m: nat, x: seq<int>, y: seq<int>)
    requires prefixes != [] && LexSorted(prefixes)
    requires forall p :: p in prefixes ==> |p| == m
    requires x in Extend(prefixes[0], list) && y in ExtendAll(prefixes[1..], list)
    ensures LexLess(x, y)
  {
    var first := prefixes[0];
    assert first in prefixes;
    ExtendMember(first, list, x);
    ExtendAllMember(prefixes[1..], list, y);
    var q := y[..|y| - 1];
    var j :| 0 <= j < |prefixes[1..]| && prefixes[1..][j] == q;
    assert q == prefixes[j + 1];
    assert LexLess(first, q);
    SplitLast(x);
    SplitLast(y);
    LexLessAppend(first, q, x[m], y[|y| - 1]);
  }

  lemma {:induction false} ExtendAllSorted(prefixes: seq<seq<int>>, list: seq<int>, m: nat)
    requires StrictlyIncreasing(list) && LexSorted(prefixes)
    requires forall p :: p in prefixes ==> |p| == m
    ensures LexSorted(ExtendAll(prefixes, list))
  {
    if prefixes != [] {
      var rest := prefixes[1..];
      assert LexSorted(rest) by {
        forall i, j | 0 <= i < j < |rest| ensures LexLess(rest[i], rest[j]) {
          assert rest[i] == prefixes[i + 1] && rest[j] == prefixes[j + 1];
        }
      }
      ExtendSorted(prefixes[0], list);
      ExtendAllSorted(rest, list, m);
      forall x, y | x in Extend(prefixes[0], list) && y in ExtendAll(rest, list) ensures LexLess(x, y) {
        ExtendCrossLess(prefixes, list, m, x, y);
      }
      LexSortedConcat(Extend(prefixes[0], list), ExtendAll(rest, list));
    }
  }

  /** For an ascending list the permutations are listed in strictly
      increasing lexicographic order (so none is listed twice). */
  lemma {:induction false} GetPermutationsSorted(list: seq<int>, length: nat)
    requires length >= 1 && StrictlyIncreasing(list)
    ensures LexSorted(GetPermutations(list, length))
  {
    if length == 1 {
      var r := Singletons(list);
      forall i, j | 0 <= i < j < |r| ensures LexLess(r[i], r[j]) {
        assert r[i][..0] == r[j][..0];
        assert r[i][0] == list[i] < list[j] == r[j][0];
      }
    } else {
      var shorter := GetPermutations(list, length - 1);
      GetPermutationsSorted(list, length - 1);
      forall p | p in shorter ensures |p| == length - 1 {
        GetPermutationsSound(list, length - 1, p);
      }
      ExtendAllSorted(shorter, list, length - 1);
    }
  }

  /** A lexicographically sorted list holds no sequence twice. */
  lemma LexSortedDistinct(ss: seq<seq<int>>)
    requires LexSorted(ss)
    ensures Distinct(ss)
  {
    forall i, j | 0 <= i < j < |ss| ensures ss[i] != ss[j] {
      LexLessIrreflexive(ss[i]);
    }
  }
}
