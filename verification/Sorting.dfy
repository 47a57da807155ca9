// The built-in stable sort, as insertion from the right.
module Sorting {
  type Ordering<!T> = (T, T) -> bool

  ghost predicate IsOrdering<T(!new)>(le: Ordering<T>) {
    && (forall a, b :: le(a, b) || le(b, a))
    && (forall a, b, c :: le(a, b) && le(b, c) ==> le(a, c))
  }

  ghost predicate Sorted<T>(xs: seq<T>, le: Ordering<T>) {
    forall i, j :: 0 <= i < j < |xs| ==> le(xs[i], xs[j])
  }

  function Insert<T>(x: T, xs: seq<T>, le: Ordering<T>): (r: seq<T>)
    ensures multiset(r) == multiset(xs) + multiset{x}
  {
    if xs == [] then [x]
    else
      var n := |xs| - 1;
      assert xs == xs[..n] + [xs[n]];
      if le(xs[n], x) then xs + [x] else Insert(x, xs[..n], le) + [xs[n]]
  }

  function Sort<T>(xs: seq<T>, le: Ordering<T>): (r: seq<T>)
    ensures multiset(r) == multiset(xs)
  {
    if xs == [] then []
    else
      var n := |xs| - 1;
      assert xs == xs[..n] + [xs[n]];
      Insert(xs[n], Sort(xs[..n], le), le)
  }

  lemma {:induction false} InsertSorts<T(!new)>(x: T, xs: seq<T>, le: Ordering<T>)
    requires IsOrdering(le) && Sorted(xs, le)
    ensures Sorted(Insert(x, xs, le), le)
  {
    if xs != [] {
      var n := |xs| - 1;
      if le(xs[n], x) {
        InsertLast(x, xs, le);
      } else {
        var s := Insert(x, xs[..n], le);
        InsertSorts(x, xs[..n], le);
        forall i | 0 <= i < |s|
          ensures le(s[i], xs[n])
        {
          assert s[i] in multiset(s);
          assert s[i] == x || s[i] in xs[..n];
        }
      }
    }
  }

  lemma InsertLast<T(!new)>(x: T, xs: seq<T>, le: Ordering<T>)
    requires IsOrdering(le) && Sorted(xs, le) && xs != [] && le(xs[|xs| - 1], x)
    ensures Sorted(xs + [x], le)
  {
    forall i | 0 <= i < |xs|
      ensures le(xs[i], x)
    {
      assert i < |xs| - 1 ==> le(xs[i], xs[|xs| - 1]);
    }
  }

  lemma {:induction false} SortSorts<T(!new)>(xs: seq<T>, le: Ordering<T>)
    requires IsOrdering(le)
    ensures Sorted(Sort(xs, le), le)
  {
    hide Insert, IsOrdering;
    if xs != [] {
      SortSorts(xs[..|xs| - 1], le);
      InsertSorts(xs[|xs| - 1], Sort(xs[..|xs| - 1], le), le);
    }
  }

  // Orderings that agree sort alike.
  lemma {:induction false} InsertsAlike<T(!new)>(x: T, xs: seq<T>, le: Ordering<T>, same: Ordering<T>)
    requires forall a, b :: le(a, b) == same(a, b)
    ensures Insert(x, xs, le) == Insert(x, xs, same)
  {
    if xs != [] {
      InsertsAlike(x, xs[..|xs| - 1], le, same);
    }
  }

  lemma {:induction false} SortsAlike<T(!new)>(xs: seq<T>, le: Ordering<T>, same: Ordering<T>)
    requires forall a, b :: le(a, b) == same(a, b)
    ensures Sort(xs, le) == Sort(xs, same)
  {
    hide Insert;
    if xs != [] {
      SortsAlike(xs[..|xs| - 1], le, same);
      InsertsAlike(xs[|xs| - 1], Sort(xs[..|xs| - 1], le), le, same);
    }
  }

  lemma SameElements<T>(a: seq<T>, b: seq<T>)
    requires multiset(a) == multiset(b)
    ensures |a| == |b| && forall x :: x in a <==> x in b
  {
    assert |multiset(a)| == |a| && |multiset(b)| == |b|;
    forall x
      ensures x in a <==> x in b
    {
      assert x in a <==> x in multiset(a);
      assert x in b <==> x in multiset(b);
    }
  }
}
