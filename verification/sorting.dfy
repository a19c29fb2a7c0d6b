/** The library sorts of Go and JavaScript: a stable sort under a "comes before"
    test, keeping every element, ordered when the test is a weak order, and the same
    for every order of the input when no two elements are tied. */
module Sorting {

  function Insert<T>(x: T, s: seq<T>, before: (T, T) -> bool): (r: seq<T>)
    ensures |r| == |s| + 1
  {
    if s == [] then [x]
    else if before(x, s[0]) then [x] + s
    else [s[0]] + Insert(x, s[1..], before)
  }

  function Sort<T>(xs: seq<T>, before: (T, T) -> bool): (r: seq<T>)
    ensures |r| == |xs|
  {
    if xs == [] then [] else Insert(xs[|xs| - 1], Sort(xs[..|xs| - 1], before), before)
  }

  lemma {:induction false} InsertContents<T>(x: T, s: seq<T>, before: (T, T) -> bool)
    ensures multiset(Insert(x, s, before)) == multiset{x} + multiset(s)
  {
    if s == [] {
    } else if before(x, s[0]) {
      assert multiset([x] + s) == multiset{x} + multiset(s);
    } else {
      InsertContents(x, s[1..], before);
      assert s == [s[0]] + s[1..];
    }
  }

  /** Sorting keeps every element as often as it was there. */
  lemma {:induction false} SortContents<T>(xs: seq<T>, before: (T, T) -> bool)
    ensures multiset(Sort(xs, before)) == multiset(xs)
  {
    if xs != [] {
      var n := |xs| - 1;
      SortContents(xs[..n], before);
      InsertContents(xs[n], Sort(xs[..n], before), before);
      assert xs == xs[..n] + [xs[n]];
    }
  }

  lemma SortElements<T>(xs: seq<T>, before: (T, T) -> bool)
    ensures forall x :: x in Sort(xs, before) <==> x in xs
  {
    SortContents(xs, before);
    assert forall x :: x in Sort(xs, before) <==> x in multiset(Sort(xs, before));
    assert forall x :: x in xs <==> x in multiset(xs);
  }

  ghost predicate Pairwise<T>(s: seq<T>, rel: (T, T) -> bool) {
    forall i, j :: 0 <= i < j < |s| ==> rel(s[i], s[j])
  }

  lemma {:induction false} InsertPairwise<T(!new)>(x: T, s: seq<T>, before: (T, T) -> bool, rel: (T, T) -> bool)
    requires Pairwise(s, rel) && (forall a, b :: rel(a, b) ==> rel(b, a))
    requires forall y :: y in s ==> rel(x, y)
    ensures Pairwise(Insert(x, s, before), rel)
  {
    if s != [] && !before(x, s[0]) {
      var r := Insert(x, s[1..], before);
      InsertPairwise(x, s[1..], before, rel);
      InsertContents(x, s[1..], before);
      forall y | y in r ensures rel(s[0], y) {
        assert y in multiset(r);
        if y != x {
          assert y in multiset(s[1..]);
        }
      }
    }
  }

  /** A symmetric relation between all the elements survives sorting. */
  lemma {:induction false} SortPairwise<T(!new)>(xs: seq<T>, before: (T, T) -> bool, rel: (T, T) -> bool)
    requires Pairwise(xs, rel) && (forall a, b :: rel(a, b) ==> rel(b, a))
    ensures Pairwise(Sort(xs, before), rel)
  {
    if xs != [] {
      var n := |xs| - 1;
      SortPairwise(xs[..n], before, rel);
      SortElements(xs[..n], before);
      forall y | y in Sort(xs[..n], before) ensures rel(xs[n], y) {
        assert y in xs[..n];
        var i :| 0 <= i < n && xs[i] == y;
        assert rel(xs[i], xs[n]);
      }
      InsertPairwise(xs[n], Sort(xs[..n], before), before, rel);
    }
  }

  /** A strict order on the elements of xs in which equals may stand side by side. */
  ghost predicate Weak<T(!new)>(xs: seq<T>, before: (T, T) -> bool) {
    && (forall x, y :: x in xs && y in xs && before(x, y) ==> !before(y, x))
    && (forall x, y, z :: x in xs && y in xs && z in xs && !before(y, x) && !before(z, y) ==> !before(z, x))
  }

  ghost predicate Ordered<T>(s: seq<T>, before: (T, T) -> bool) {
    forall i, j :: 0 <= i < j < |s| ==> !before(s[j], s[i])
  }

  lemma {:induction false} InsertOrdered<T(!new)>(x: T, s: seq<T>, before: (T, T) -> bool)
    requires Weak([x] + s, before) && Ordered(s, before)
    ensures Ordered(Insert(x, s, before), before)
  {
    var u := [x] + s;
    if s == [] {
    } else if before(x, s[0]) {
      forall j | 0 <= j < |s| ensures !before(s[j], x) {
        assert s[0] in u && s[j] in u && x in u;
        assert j > 0 ==> !before(s[j], s[0]);
      }
    } else {
      var t := [x] + s[1..];
      assert forall y :: y in t ==> y in u;
      InsertOrdered(x, s[1..], before);
      var r := Insert(x, s[1..], before);
      InsertContents(x, s[1..], before);
      forall j | 0 <= j < |r| ensures !before(r[j], s[0]) {
        assert r[j] in multiset(r);
        if r[j] != x {
          var k :| 0 <= k < |s[1..]| && s[1..][k] == r[j];
          assert r[j] == s[k + 1];
        }
      }
    }
  }

  lemma {:induction false} SortOrdered<T(!new)>(xs: seq<T>, before: (T, T) -> bool)
    requires Weak(xs, before)
    ensures Ordered(Sort(xs, before), before)
  {
    if xs != [] {
      var n := |xs| - 1;
      var s := Sort(xs[..n], before);
      assert forall y :: y in xs[..n] ==> y in xs;
      SortOrdered(xs[..n], before);
      SortElements(xs[..n], before);
      assert forall y :: y in [xs[n]] + s ==> y in xs;
      InsertOrdered(xs[n], s, before);
    }
  }

  /** A ranking that `before` never contradicts: what comes before ranks as high at
      least, and so does what does not come behind. */
  ghost predicate Ranks<T(!new)>(before: (T, T) -> bool, high: (T, T) -> bool) {
    && (forall x, y :: before(x, y) ==> high(x, y))
    && (forall x, y :: !before(x, y) ==> high(y, x))
    && (forall x, y, z :: high(x, y) && high(y, z) ==> high(x, z))
  }

  lemma {:induction false} InsertRanked<T(!new)>(x: T, s: seq<T>, before: (T, T) -> bool, high: (T, T) -> bool)
    requires Ranks(before, high) && Pairwise(s, high)
    ensures Pairwise(Insert(x, s, before), high)
  {
    if s == [] {
    } else if before(x, s[0]) {
      forall j | 0 <= j < |s| ensures high(x, s[j]) {
        assert j > 0 ==> high(s[0], s[j]);
      }
    } else {
      var r := Insert(x, s[1..], before);
      InsertRanked(x, s[1..], before, high);
      InsertContents(x, s[1..], before);
      forall j | 0 <= j < |r| ensures high(s[0], r[j]) {
        assert r[j] in multiset(r);
        if r[j] != x {
          var k :| 0 <= k < |s[1..]| && s[1..][k] == r[j];
          assert r[j] == s[k + 1];
        }
      }
    }
  }

  /** Sorting ranks the elements, however ties within a rank are broken. */
  lemma {:induction false} SortRanked<T(!new)>(xs: seq<T>, before: (T, T) -> bool, high: (T, T) -> bool)
    requires Ranks(before, high)
    ensures Pairwise(Sort(xs, before), high)
  {
    if xs != [] {
      var n := |xs| - 1;
      SortRanked(xs[..n], before, high);
      InsertRanked(xs[n], Sort(xs[..n], before), before, high);
    }
  }

  /** Different elements are never tied. */
  ghost predicate Strict<T(!new)>(xs: seq<T>, before: (T, T) -> bool) {
    forall x, y :: x in xs && y in xs && x != y ==> before(x, y) || before(y, x)
  }

  /** The first of an ordered arrangement is before none of the others' firsts. */
  lemma FirstSame<T(!new)>(s: seq<T>, t: seq<T>, before: (T, T) -> bool)
    requires s != [] && t != [] && Ordered(s, before) && Ordered(t, before) && Strict(s, before)
    requires forall y :: y in s <==> y in t
    ensures s[0] == t[0]
  {
    var a, b := s[0], t[0];
    assert a in t && b in s;
    var i :| 0 <= i < |s| && s[i] == b;
    var j :| 0 <= j < |t| && t[j] == a;
    assert i > 0 ==> !before(s[i], s[0]);
    assert j > 0 ==> !before(t[j], t[0]);
  }

  lemma TailContents<T>(s: seq<T>)
    requires s != []
    ensures multiset(s[1..]) == multiset(s) - multiset{s[0]}
    ensures forall y :: y in s[1..] ==> y in s
  {
    assert s == [s[0]] + s[1..];
  }

  lemma SameElements<T>(s: seq<T>, t: seq<T>)
    requires multiset(s) == multiset(t)
    ensures |s| == |t| && forall y :: y in s <==> y in t
  {
    assert |s| == |multiset(s)| == |multiset(t)| == |t|;
    assert forall y :: y in s <==> y in multiset(s);
    assert forall y :: y in t <==> y in multiset(t);
  }

  /** Without ties there is one ordered arrangement of given elements. */
  lemma {:induction false} OrderedUnique<T(!new)>(s: seq<T>, t: seq<T>, before: (T, T) -> bool)
    requires Ordered(s, before) && Ordered(t, before) && multiset(s) == multiset(t)
    requires Strict(s, before)
    ensures s == t
  {
    SameElements(s, t);
    if s != [] {
      FirstSame(s, t, before);
      TailContents(s);
      TailContents(t);
      OrderedUnique(s[1..], t[1..], before);
      assert s == [s[0]] + s[1..] && t == [t[0]] + t[1..];
    }
  }

  /** The order in which the elements were handed over does not matter. */
  lemma SortUnique<T(!new)>(xs: seq<T>, ys: seq<T>, before: (T, T) -> bool)
    requires multiset(xs) == multiset(ys) && Strict(xs, before) && Weak(xs, before)
    ensures Sort(xs, before) == Sort(ys, before)
  {
    SortContents(xs, before);
    SortContents(ys, before);
    SortElements(xs, before);
    assert forall x :: x in ys ==> x in multiset(ys);
    assert forall x :: x in multiset(xs) ==> x in xs;
    SortOrdered(xs, before);
    SortOrdered(ys, before);
    OrderedUnique(Sort(xs, before), Sort(ys, before), before);
  }
}
