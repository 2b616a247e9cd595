/** The parts of Python's `list` that the back end relies on: `remove`,
    `index`, membership filters and de-duplication in order. */
module PyList {
  import opened Strs

  /** Python's `list.remove(x)` when `x` is present, and the list itself
      otherwise (where Python raises, callers check membership first). */
  function RemoveFirst<T(==)>(xs: seq<T>, x: T): (r: seq<T>)
    ensures x !in xs ==> r == xs
    ensures x in xs ==> |r| == |xs| - 1
  {
    if xs == [] then []
    else if xs[0] == x then xs[1..]
    else [xs[0]] + RemoveFirst(xs[1..], x)
  }

  /** Python's `list.index(x)`: the first index of `x` in `xs`. */
  function FirstIndex<T(==)>(xs: seq<T>, x: T): (i: nat)
    requires x in xs
    ensures i < |xs| && xs[i] == x
    ensures forall j :: 0 <= j < i ==> xs[j] != x
  {
    if xs[0] == x then 0 else 1 + FirstIndex(xs[1..], x)
  }

  /** `list.remove` keeps every other element, in order. */
  lemma {:induction false} RemoveFirstSplice<T>(xs: seq<T>, x: T)
    requires x in xs
    ensures RemoveFirst(xs, x) == xs[..FirstIndex(xs, x)] + xs[FirstIndex(xs, x) + 1..]
  {
    if xs[0] != x {
      var t := xs[1..];
      RemoveFirstSplice(t, x);
      var k := FirstIndex(t, x);
      assert FirstIndex(xs, x) == k + 1;
      assert RemoveFirst(xs, x) == [xs[0]] + (t[..k] + t[k + 1..]);
      assert t[k + 1..] == xs[k + 2..];
      assert [xs[0]] + t[..k] == xs[..k + 1];
      AppendAssoc([xs[0]], t[..k], t[k + 1..]);
    }
  }

  /** `list.remove` takes away exactly one occurrence. */
  lemma {:induction false} RemoveFirstMultiset<T>(xs: seq<T>, x: T)
    requires x in xs
    ensures multiset(RemoveFirst(xs, x)) == multiset(xs) - multiset{x}
  {
    var i := FirstIndex(xs, x);
    RemoveFirstSplice(xs, x);
    assert xs == xs[..i] + [x] + xs[i + 1..];
  }

  /** Removing an element just appended to a list without it gives the list back. */
  lemma {:induction false} RemoveFirstAppended<T>(xs: seq<T>, x: T)
    requires x !in xs
    ensures RemoveFirst(xs + [x], x) == xs
  {
    if xs != [] {
      assert (xs + [x])[1..] == xs[1..] + [x];
      RemoveFirstAppended(xs[1..], x);
    }
  }

  /** `[x for x in xs if x in allowed]`. */
  function KeepIn<T(==,!new)>(xs: seq<T>, allowed: seq<T>): (r: seq<T>)
    ensures forall x :: x in r <==> x in xs && x in allowed
    ensures |r| <= |xs|
  {
    if xs == [] then []
    else if xs[0] in allowed then [xs[0]] + KeepIn(xs[1..], allowed)
    else KeepIn(xs[1..], allowed)
  }
}
