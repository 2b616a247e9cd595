/** Python's ordering of strings (character by character, a proper prefix
    first) and `sorted()` on a list of strings. */
module StrOrder {

  /** `a < b` on Python strings. */
  predicate Less(a: string, b: string)
    decreases |a|
  {
    |b| > 0 && (|a| == 0 || a[0] < b[0] || (a[0] == b[0] && Less(a[1..], b[1..])))
  }

  lemma {:induction false} LessIrreflexive(a: string)
    ensures !Less(a, a)
    decreases |a|
  {
    if |a| > 0 {
      LessIrreflexive(a[1..]);
    }
  }

  lemma {:induction false} LessTransitive(a: string, b: string, c: string)
    requires Less(a, b) && Less(b, c)
    ensures Less(a, c)
    decreases |a|
  {
    if |a| > 0 && a[0] == b[0] && b[0] == c[0] {
      LessTransitive(a[1..], b[1..], c[1..]);
    }
  }

  lemma {:induction false} LessTotal(a: string, b: string)
    ensures a == b || Less(a, b) || Less(b, a)
    decreases |a|
  {
    if |a| > 0 && |b| > 0 && a[0] == b[0] {
      LessTotal(a[1..], b[1..]);
      if a[1..] == b[1..] {
        assert a == [a[0]] + a[1..];
        assert b == [b[0]] + b[1..];
      }
    }
  }

  lemma LessAsymmetric(a: string, b: string)
    requires Less(a, b)
    ensures !Less(b, a)
  {
    if Less(b, a) {
      LessTransitive(a, b, a);
      LessIrreflexive(a);
    }
  }

  /** `a <= b` chained with `b <= c`. */
  lemma NotLessTransitive(a: string, b: string, c: string)
    requires !Less(b, a) && !Less(c, b)
    ensures !Less(c, a)
  {
    if a != b && b != c {
      LessTotal(a, b);
      LessTotal(b, c);
      LessTransitive(a, b, c);
      LessAsymmetric(a, c);
    }
  }

  /** Every element is at most every later one. */
  predicate Sorted(xs: seq<string>) {
    forall i, j :: 0 <= i < j < |xs| ==> !Less(xs[j], xs[i])
  }

  /** Sortedness checked on neighbours only implies sortedness. */
  lemma {:induction false} SortedFromNeighbours(xs: seq<string>)
    requires forall i :: 0 < i < |xs| ==> !Less(xs[i], xs[i - 1])
    ensures Sorted(xs)
    decreases |xs|
  {
    if |xs| > 1 {
      var t := xs[1..];
      assert forall i :: 0 < i < |t| ==> t[i] == xs[i + 1] && t[i - 1] == xs[i];
      SortedFromNeighbours(t);
      forall j | 1 <= j < |xs| ensures !Less(xs[j], xs[0]) {
        if j > 1 {
          assert t[j - 1] == xs[j] && t[0] == xs[1];
          NotLessTransitive(xs[0], xs[1], xs[j]);
        }
      }
    }
  }

  /** `x` inserted before the first element that is not less than it. */
  function Insert(x: string, xs: seq<string>): (r: seq<string>)
    ensures multiset(r) == multiset(xs) + multiset{x}
  {
    if xs == [] then [x]
    else if Less(xs[0], x) then
      assert xs == [xs[0]] + xs[1..];
      [xs[0]] + Insert(x, xs[1..])
    else [x] + xs
  }

  lemma SortedCons(h: string, t: seq<string>)
    requires Sorted(t) && forall k :: 0 <= k < |t| ==> !Less(t[k], h)
    ensures Sorted([h] + t)
  {
    assert forall i :: 0 < i < |t| + 1 ==> ([h] + t)[i] == t[i - 1];
  }

  lemma {:induction false} InsertSorted(x: string, xs: seq<string>)
    requires Sorted(xs)
    ensures Sorted(Insert(x, xs))
    decreases |xs|
  {
    if xs != [] {
      if Less(xs[0], x) {
        var rest := Insert(x, xs[1..]);
        InsertSorted(x, xs[1..]);
        forall k | 0 <= k < |rest| ensures !Less(rest[k], xs[0]) {
          assert rest[k] in multiset(rest);
          if rest[k] == x {
            LessAsymmetric(xs[0], x);
          } else {
            assert rest[k] in multiset(xs[1..]);
            var j :| 0 <= j < |xs[1..]| && xs[1..][j] == rest[k];
            assert xs[j + 1] == rest[k];
          }
        }
        SortedCons(xs[0], rest);
      } else {
        forall j | 0 <= j < |xs| ensures !Less(xs[j], x) {
          if j > 0 {
            NotLessTransitive(x, xs[0], xs[j]);
          }
        }
        SortedCons(x, xs);
      }
    }
  }

  /** Python's `sorted()` on a list of strings. */
  function Sort(xs: seq<string>): (r: seq<string>)
    ensures multiset(r) == multiset(xs)
    ensures Sorted(r)
  {
    if xs == [] then []
    else
      assert xs == [xs[0]] + xs[1..];
      InsertSorted(xs[0], Sort(xs[1..]));
      Insert(xs[0], Sort(xs[1..]))
  }

  /** Two sorted lists holding the same elements are the same list. */
  lemma {:induction false} SortedUnique(a: seq<string>, b: seq<string>)
    requires Sorted(a) && Sorted(b) && multiset(a) == multiset(b)
    ensures a == b
    decreases |a|
  {
    assert |a| == |multiset(a)| == |b|;
    if |a| > 0 {
      assert a[0] in multiset(b) && b[0] in multiset(a);
      if a[0] != b[0] {
        var j :| 0 <= j < |b| && b[j] == a[0];
        var i :| 0 <= i < |a| && a[i] == b[0];
        assert !Less(b[j], b[0]);
        assert !Less(a[i], a[0]);
        LessTotal(a[0], b[0]);
        assert false;
      }
      assert a == [a[0]] + a[1..];
      assert b == [b[0]] + b[1..];
      assert multiset(a) == multiset{a[0]} + multiset(a[1..]);
      assert multiset(b) == multiset{b[0]} + multiset(b[1..]);
      assert multiset(a[1..]) == multiset(a) - multiset{a[0]};
      SortedTail(a);
      SortedTail(b);
      SortedUnique(a[1..], b[1..]);
    }
  }

  lemma SortedTail(a: seq<string>)
    requires Sorted(a) && |a| > 0
    ensures Sorted(a[1..])
  {
    assert forall i :: 0 <= i < |a| - 1 ==> a[1..][i] == a[i + 1];
  }

  /** Sorting gives a sorted list back unchanged. */
  lemma SortSorted(xs: seq<string>)
    requires Sorted(xs)
    ensures Sort(xs) == xs
  {
    SortedUnique(Sort(xs), xs);
  }

  /** Sorting depends only on the elements, not on their order. */
  lemma SortPermutation(xs: seq<string>, ys: seq<string>)
    requires multiset(xs) == multiset(ys)
    ensures Sort(xs) == Sort(ys)
  {
    SortedUnique(Sort(xs), Sort(ys));
  }
}
