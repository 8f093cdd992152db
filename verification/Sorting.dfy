/** The sorting of values that a strict order tells apart. */
module Sorting {
  type Order<!T> = (T, T) -> bool

  function Insert<T>(before: Order<T>, x: T, sorted: seq<T>): (r: seq<T>)
    ensures |r| == |sorted| + 1 && multiset(r) == multiset(sorted) + multiset{x}
  {
    if sorted == [] then [x]
    else if before(sorted[0], x) then
      assert sorted == [sorted[0]] + sorted[1..];
      [sorted[0]] + Insert(before, x, sorted[1..])
    else [x] + sorted
  }

  function Sorted<T>(before: Order<T>, s: seq<T>): (r: seq<T>)
    ensures |r| == |s| && multiset(r) == multiset(s)
  {
    if s == [] then []
    else
      assert s == [s[0]] + s[1..];
      Insert(before, s[0], Sorted(before, s[1..]))
  }

  predicate Ordered<T>(before: Order<T>, s: seq<T>) {
    forall i, j :: 0 <= i < j < |s| ==> before(s[i], s[j])
  }

  ghost predicate Transitive<T(!new)>(before: Order<T>) {
    forall a, b, c :: before(a, b) && before(b, c) ==> before(a, c)
  }

  lemma {:induction false} InsertOrdered<T(!new)>(before: Order<T>, x: T, sorted: seq<T>)
    requires Transitive(before) && Ordered(before, sorted)
    requires forall t :: t in sorted ==> before(t, x) || before(x, t)
    ensures Ordered(before, Insert(before, x, sorted))
  {
    if sorted != [] {
      if before(sorted[0], x) {
        InsertOrdered(before, x, sorted[1..]);
        var rest := Insert(before, x, sorted[1..]);
        forall t | t in rest ensures before(sorted[0], t) {
          assert t in multiset(rest);
          assert t in multiset(sorted[1..]) || t == x;
        }
      } else {
        forall t | t in sorted ensures before(x, t) {
          assert t == sorted[0] || before(sorted[0], t);
        }
      }
    }
  }

  /** Values any two of which are told apart come out in order. */
  lemma {:induction false} SortedOrdered<T(!new)>(before: Order<T>, s: seq<T>)
    requires Transitive(before)
    requires forall i, j :: 0 <= i < j < |s| ==> before(s[i], s[j]) || before(s[j], s[i])
    ensures Ordered(before, Sorted(before, s))
  {
    if s != [] {
      var rest := Sorted(before, s[1..]);
      SortedOrdered(before, s[1..]);
      forall t | t in rest ensures before(t, s[0]) || before(s[0], t) {
        assert t in multiset(rest);
        assert t in s[1..];
      }
      InsertOrdered(before, s[0], rest);
    }
  }

  lemma NoneOrBoth<T(!new)>(a: seq<T>, b: seq<T>)
    requires forall x :: x in a ==> x in b
    ensures a != [] ==> b != []
  {
    if a != [] {
      assert a[0] in b;
    }
  }

  /** Two orderings of the same values are the same. */
  lemma {:induction false} OrderUnique<T(!new)>(before: Order<T>, a: seq<T>, b: seq<T>)
    requires Transitive(before) && Ordered(before, a) && Ordered(before, b)
    requires forall x :: !before(x, x)
    requires forall x :: x in a <==> x in b
    ensures a == b
  {
    NoneOrBoth(a, b);
    NoneOrBoth(b, a);
    if a != [] {
      assert a[0] in b && b[0] in a;
      assert a == [a[0]] + a[1..] && b == [b[0]] + b[1..];
      forall x ensures x in a[1..] <==> x in b[1..] {
        assert x in a <==> x == a[0] || x in a[1..];
        assert x in b <==> x == b[0] || x in b[1..];
      }
      OrderUnique(before, a[1..], b[1..]);
    }
  }

  /** Nothing stands behind what it should stand before. */
  predicate Unforced<T>(before: Order<T>, s: seq<T>) {
    forall i, j :: 0 <= i < j < |s| ==> !before(s[j], s[i])
  }

  /** The order tells values apart by what it compares, whether or not they are the same. */
  ghost predicate Weak<T(!new)>(before: Order<T>) {
    && (forall a, b :: before(a, b) ==> !before(b, a))
    && (forall a, b, c :: before(a, c) ==> before(a, b) || before(b, c))
  }

  lemma {:induction false} InsertUnforced<T(!new)>(before: Order<T>, x: T, sorted: seq<T>)
    requires Weak(before) && Unforced(before, sorted)
    ensures Unforced(before, Insert(before, x, sorted))
  {
    if sorted != [] && before(sorted[0], x) {
      InsertUnforced(before, x, sorted[1..]);
      var rest := Insert(before, x, sorted[1..]);
      forall t | t in rest ensures !before(t, sorted[0]) {
        assert t in multiset(rest);
        assert t in multiset(sorted[1..]) || t == x;
      }
    }
  }

  /** Whatever is sorted comes out with nothing behind what it should stand before. */
  lemma {:induction false} SortedUnforced<T(!new)>(before: Order<T>, s: seq<T>)
    requires Weak(before)
    ensures Unforced(before, Sorted(before, s))
  {
    if s != [] {
      SortedUnforced(before, s[1..]);
      InsertUnforced(before, s[0], Sorted(before, s[1..]));
    }
  }

  /** Sorts from the back, one value at a time. */
  method InsertionSort<T>(before: Order<T>, s: seq<T>) returns (sorted: seq<T>)
    ensures sorted == Sorted(before, s)
  {
    sorted := [];
    var i := |s|;
    while i > 0
      invariant 0 <= i <= |s|
      invariant sorted == Sorted(before, s[i..])
    {
      i := i - 1;
      assert s[i..][1..] == s[i + 1..];
      sorted := Insert(before, s[i], sorted);
    }
    assert s[0..] == s;
  }
}
