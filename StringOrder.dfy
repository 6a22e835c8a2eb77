/**
  Go's ordering of strings (`a < b` on `string`, the order `sort.Strings`
  uses), the unique ascending arrangement of a finite set of keys, and an
  in-place sort of an array of keys.

  Go compares strings byte by byte. Dafny strings are sequences of Unicode
  scalar values; for well-formed UTF-8 the byte-wise order of the encodings
  coincides with the order of the code points, so comparing characters here
  gives the same answer Go gives on the encoded keys.
 */
module StringOrder {

  /** Lexicographic "strictly less": the first differing character decides,
      and a proper prefix comes before every extension of it. */
  predicate Less(a: string, b: string)
    decreases |a|
  {
    if |a| == 0 then |b| > 0
    else if |b| == 0 then false
    else if a[0] != b[0] then a[0] < b[0]
    else Less(a[1..], b[1..])
  }

  /** `a` is a proper prefix of `b`. */
  predicate ProperPrefix(a: string, b: string) {
    |a| < |b| && a == b[..|a|]
  }

  /** Position `i` is where `a` and `b` first differ, and `a` has the smaller character there. */
  predicate LowerAtFirstDifference(a: string, b: string, i: int) {
    0 <= i < |a| && i < |b| && a[..i] == b[..i] && a[i] < b[i]
  }

  /** Go's rule for `a < b`: `a` is a proper prefix of `b`, or at the first position where
      they differ `a` has the smaller character. */
  lemma {:induction false} LessAtFirstDifference(a: string, b: string)
    ensures Less(a, b) <==> ProperPrefix(a, b) || exists i :: LowerAtFirstDifference(a, b, i)
    decreases |a|
  {
    if |a| > 0 && |b| > 0 {
      if a[0] != b[0] {
        forall i | 0 < i <= |a| && i <= |b| ensures a[..i] != b[..i] {
          assert a[..i][0] == a[0] && b[..i][0] == b[0];
        }
        if a[0] < b[0] {
          assert LowerAtFirstDifference(a, b, 0);
        }
      } else {
        LessAtFirstDifference(a[1..], b[1..]);
        ProperPrefixShift(a, b);
        FirstDifferenceShift(a, b);
      }
    }
  }

  lemma ProperPrefixShift(a: string, b: string)
    requires |a| > 0 && |b| > 0 && a[0] == b[0]
    ensures ProperPrefix(a, b) <==> ProperPrefix(a[1..], b[1..])
  {
    var a', b' := a[1..], b[1..];
    if ProperPrefix(a', b') {
      assert a == [a[0]] + a' && b[..|a|] == [b[0]] + b'[..|a'|];
    }
    if ProperPrefix(a, b) {
      assert a' == a[..|a|][1..] && b'[..|a'|] == b[..|a|][1..];
    }
  }

  lemma FirstDifferenceShift(a: string, b: string)
    requires |a| > 0 && |b| > 0 && a[0] == b[0]
    ensures (exists i :: LowerAtFirstDifference(a, b, i)) <==>
      (exists i :: LowerAtFirstDifference(a[1..], b[1..], i))
  {
    var a', b' := a[1..], b[1..];
    if exists i :: LowerAtFirstDifference(a, b, i) {
      var i :| LowerAtFirstDifference(a, b, i);
      assert i > 0;
      assert a'[..i - 1] == a[..i][1..] && b'[..i - 1] == b[..i][1..];
      assert LowerAtFirstDifference(a', b', i - 1);
    }
    if exists i :: LowerAtFirstDifference(a', b', i) {
      var i :| LowerAtFirstDifference(a', b', i);
      assert a[..i + 1] == [a[0]] + a'[..i] && b[..i + 1] == [b[0]] + b'[..i];
      assert LowerAtFirstDifference(a, b, i + 1);
    }
  }

  lemma {:induction false} LessIrreflexive(a: string)
    ensures !Less(a, a)
    decreases |a|
  {
    if |a| > 0 {
      LessIrreflexive(a[1..]);
    }
  }

  lemma {:induction false} LessAsymmetric(a: string, b: string)
    requires Less(a, b)
    ensures !Less(b, a)
    decreases |a|
  {
    if |a| > 0 && |b| > 0 && a[0] == b[0] {
      LessAsymmetric(a[1..], b[1..]);
    }
  }

  lemma {:induction false} LessTransitive(a: string, b: string, c: string)
    requires Less(a, b) && Less(b, c)
    ensures Less(a, c)
    decreases |a|
  {
    if |a| > 0 && a[0] == b[0] && b[0] == c[0] {
      LessTransitive(a[1..], b[1..], c[1..]);
    }
  }

  /** Two different strings are always ordered one way or the other. */
  lemma {:induction false} LessTotal(a: string, b: string)
    requires a != b
    ensures Less(a, b) || Less(b, a)
    decreases |a|
  {
    if |a| > 0 && |b| > 0 && a[0] == b[0] {
      assert a == [a[0]] + a[1..] && b == [b[0]] + b[1..];
      LessTotal(a[1..], b[1..]);
    }
  }

  /** Every pair of positions is in strictly ascending order: sorted and free of duplicates. */
  predicate StrictlyIncreasing(s: seq<string>) {
    forall i, j :: 0 <= i < j < |s| ==> Less(s[i], s[j])
  }

  /** Each element is no smaller than the one before it (what `sort.Strings` leaves behind). */
  predicate AdjacentSorted(s: seq<string>) {
    forall k :: 0 < k < |s| ==> !Less(s[k], s[k - 1])
  }

  predicate Distinct(s: seq<string>) {
    forall i, j :: 0 <= i < j < |s| ==> s[i] != s[j]
  }

  /** `k` is the least element of `s`. */
  predicate IsLeast(k: string, s: set<string>) {
    k in s && forall j :: j in s && j != k ==> Less(k, j)
  }

  lemma {:induction false} LeastExists(s: set<string>)
    requires s != {}
    ensures exists k :: IsLeast(k, s)
    decreases |s|
  {
    var x :| x in s;
    if s != {x} {
      LeastExists(s - {x});
      var y :| IsLeast(y, s - {x});
      if Less(x, y) {
        forall j | j in s && j != x
          ensures Less(x, j)
        {
          if j != y {
            LessTransitive(x, y, j);
          }
        }
        assert IsLeast(x, s);
      } else {
        LessTotal(x, y);
        assert IsLeast(y, s);
      }
    } else {
      assert IsLeast(x, s);
    }
  }

  lemma LeastUnique(k1: string, k2: string, s: set<string>)
    requires IsLeast(k1, s) && IsLeast(k2, s)
    ensures k1 == k2
  {
    if k1 != k2 {
      LessAsymmetric(k1, k2);
    }
  }

  lemma LeastUniqueAll(s: set<string>)
    ensures forall k1, k2 :: IsLeast(k1, s) && IsLeast(k2, s) ==> k1 == k2
  {
    forall k1, k2 | IsLeast(k1, s) && IsLeast(k2, s) ensures k1 == k2 {
      LeastUnique(k1, k2, s);
    }
  }

  lemma ConsStrictlyIncreasing(k: string, rest: seq<string>)
    requires StrictlyIncreasing(rest)
    requires forall j :: j in rest ==> Less(k, j)
    ensures StrictlyIncreasing([k] + rest)
  {
    var r := [k] + rest;
    forall i, j | 0 <= i < j < |r| ensures Less(r[i], r[j]) {
      assert r[j] == rest[j - 1];
      if i > 0 {
        assert r[i] == rest[i - 1];
      }
    }
  }

  /** The keys of `s` in ascending order. */
  function SortedKeys(s: set<string>): (r: seq<string>)
    ensures StrictlyIncreasing(r)
    ensures |r| == |s|
    ensures forall k :: k in r <==> k in s
    decreases |s|
  {
    if s == {} then []
    else
      LeastExists(s);
      LeastUniqueAll(s);
      var k :| k in s && IsLeast(k, s);
      var rest := SortedKeys(s - {k});
      ConsStrictlyIncreasing(k, rest);
      [k] + rest
  }

  lemma SameElementsEmpty(a: seq<string>, b: seq<string>)
    requires forall k :: k in a <==> k in b
    ensures a == [] <==> b == []
  {
    if a != [] {
      assert a[0] in b;
    }
    if b != [] {
      assert b[0] in a;
    }
  }

  /** A strictly increasing sequence is determined by its set of elements:
      however the elements were gathered, sorting them gives one answer. */
  lemma {:induction false} StrictlyIncreasingUnique(a: seq<string>, b: seq<string>)
    requires StrictlyIncreasing(a) && StrictlyIncreasing(b)
    requires forall k :: k in a <==> k in b
    ensures a == b
    decreases |a|
  {
    SameElementsEmpty(a, b);
    if a != [] {
      var s := set k | k in a;
      assert IsLeast(a[0], s) by {
        forall j | j in s && j != a[0] ensures Less(a[0], j) {
          var i :| 0 <= i < |a| && a[i] == j;
        }
      }
      assert IsLeast(b[0], s) by {
        forall j | j in s && j != b[0] ensures Less(b[0], j) {
          var i :| 0 <= i < |b| && b[i] == j;
        }
      }
      LeastUnique(a[0], b[0], s);
      forall k ensures k in a[1..] <==> k in b[1..] {
        if k in a[1..] {
          var i :| 1 <= i < |a| && a[i] == k;
          assert Less(a[0], a[i]);
          LessIrreflexive(k);
          assert k in a;
          var i' :| 0 <= i' < |b| && b[i'] == k;
          assert i' != 0;
          assert b[1..][i' - 1] == k;
        }
        if k in b[1..] {
          var i :| 1 <= i < |b| && b[i] == k;
          assert Less(b[0], b[i]);
          LessIrreflexive(k);
          assert k in b;
          var i' :| 0 <= i' < |a| && a[i'] == k;
          assert i' != 0;
          assert a[1..][i' - 1] == k;
        }
      }
      StrictlyIncreasingUnique(a[1..], b[1..]);
      assert a == [a[0]] + a[1..] && b == [b[0]] + b[1..];
    }
  }

  /** Adjacent-sorted and duplicate-free is strictly increasing. */
  lemma {:induction false} AdjacentSortedDistinctStrict(s: seq<string>)
    requires AdjacentSorted(s) && Distinct(s)
    ensures StrictlyIncreasing(s)
    decreases |s|
  {
    if |s| > 1 {
      AdjacentSortedDistinctStrict(s[1..]);
      LessTotal(s[0], s[1]);
      forall j | 1 < j < |s| ensures Less(s[0], s[j]) {
        assert Less(s[1..][0], s[1..][j - 1]);
        LessTransitive(s[0], s[1], s[j]);
      }
      forall i, j | 0 <= i < j < |s| ensures Less(s[i], s[j]) {
        if i > 0 {
          assert Less(s[1..][i - 1], s[1..][j - 1]);
        }
      }
    }
  }

  /** Ascending at each neighbouring pair is ascending everywhere. */
  lemma {:induction false} ChainStrictlyIncreasing(s: seq<string>)
    requires forall k :: 0 < k < |s| ==> Less(s[k - 1], s[k])
    ensures StrictlyIncreasing(s)
    decreases |s|
  {
    if |s| > 1 {
      var t := s[1..];
      assert forall k :: 0 < k < |t| ==> Less(t[k - 1], t[k]) by {
        forall k | 0 < k < |t| ensures Less(t[k - 1], t[k]) {
          assert t[k - 1] == s[k] && t[k] == s[k + 1];
        }
      }
      ChainStrictlyIncreasing(t);
      forall i, j | 0 <= i < j < |s| ensures Less(s[i], s[j]) {
        if i == 0 {
          if j > 1 {
            assert Less(t[0], t[j - 1]);
            LessTransitive(s[0], s[1], s[j]);
          }
        } else {
          assert Less(t[i - 1], t[j - 1]);
        }
      }
    }
  }

  /** Sorts `a` in place in ascending order (Go's `sort.Strings`), by insertion. */
  method SortStrings(a: array<string>)
    modifies a
    ensures AdjacentSorted(a[..])
    ensures multiset(a[..]) == multiset(old(a[..]))
  {
    for i := 0 to a.Length
      invariant forall k :: 0 < k < i ==> !Less(a[k], a[k - 1])
      invariant multiset(a[..]) == multiset(old(a[..]))
    {
      var j := i;
      // a[j] moves down; only the pair (j - 1, j) may be out of order.
      while j > 0 && Less(a[j], a[j - 1])
        invariant 0 <= j <= i
        invariant forall k :: 0 < k <= i && k != j ==> !Less(a[k], a[k - 1])
        invariant 0 < j < i ==> !Less(a[j + 1], a[j - 1])
        invariant multiset(a[..]) == multiset(old(a[..]))
      {
        LessAsymmetric(a[j], a[j - 1]);
        Swap(a, j - 1, j);
        j := j - 1;
      }
    }
  }

  method Swap(a: array<string>, i: int, j: int)
    requires 0 <= i < j < a.Length
    modifies a
    ensures a[i] == old(a[j]) && a[j] == old(a[i])
    ensures forall k :: 0 <= k < a.Length && k != i && k != j ==> a[k] == old(a[k])
    ensures multiset(a[..]) == multiset(old(a[..]))
  {
    a[i], a[j] := a[j], a[i];
  }
}
