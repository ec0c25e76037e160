/** Facts about sequences and finite sets that several components count with. */
module Collections {

  /** Every element has the property; recursive, so that it is unfolded only where `AllAt` is used. */
  predicate All<T>(xs: seq<T>, p: T -> bool) { xs == [] || (All(xs[..|xs| - 1], p) && p(xs[|xs| - 1])) }

  lemma {:induction false} AllAt<T>(xs: seq<T>, p: T -> bool)
    ensures All(xs, p) <==> forall i :: 0 <= i < |xs| ==> p(xs[i])
  {
    if xs != [] {
      var n := |xs| - 1;
      AllAt(xs[..n], p);
      assert forall i :: 0 <= i < n ==> xs[..n][i] == xs[i];
    }
  }

  predicate Distinct<T(==)>(xs: seq<T>) { forall i, j :: 0 <= i < j < |xs| ==> xs[i] != xs[j] }

  function Elements<T>(xs: seq<T>): set<T> { if xs == [] then {} else Elements(xs[..|xs| - 1]) + {xs[|xs| - 1]} }

  lemma {:induction false} ElementsAre<T>(xs: seq<T>, x: T)
    ensures x in Elements(xs) <==> x in xs
  {
    if xs != [] {
      ElementsAre(xs[..|xs| - 1], x);
      assert xs == xs[..|xs| - 1] + [xs[|xs| - 1]];
    }
  }

  lemma {:induction false} DistinctSize<T>(xs: seq<T>)
    requires Distinct(xs)
    ensures |Elements(xs)| == |xs|
  {
    if xs != [] {
      var n := |xs| - 1;
      DistinctSize(xs[..n]);
      ElementsAre(xs[..n], xs[n]);
    }
  }

  lemma SameElementsSameLength<T(!new)>(xs: seq<T>, ys: seq<T>)
    requires Distinct(xs) && Distinct(ys) && forall x :: x in xs <==> x in ys
    ensures |xs| == |ys|
  {
    DistinctSize(xs);
    DistinctSize(ys);
    forall x ensures x in Elements(xs) <==> x in Elements(ys) {
      ElementsAre(xs, x);
      ElementsAre(ys, x);
    }
    assert Elements(xs) == Elements(ys);
  }

  lemma {:induction false} Smaller<T>(a: set<T>, b: set<T>)
    requires a <= b
    ensures |a| <= |b|
  {
    if x :| x in a { Smaller(a - {x}, b - {x}); }
  }

  lemma SameSize<T>(a: set<T>, b: set<T>)
    requires a <= b && |a| == |b|
    ensures a == b
  {
    if x :| x in b && x !in a {
      assert a <= b - {x};
      Smaller(a, b - {x});
    }
  }

  /** As many distinct elements, all among those of `ys`, are all of them. */
  lemma EveryElementIsMet<T(!new)>(xs: seq<T>, ys: seq<T>)
    requires Distinct(xs) && Distinct(ys) && |xs| == |ys| && forall x :: x in xs ==> x in ys
    ensures forall y :: y in ys ==> y in xs
  {
    DistinctSize(xs);
    DistinctSize(ys);
    forall x ensures (x in Elements(xs) <==> x in xs) && (x in Elements(ys) <==> x in ys) {
      ElementsAre(xs, x);
      ElementsAre(ys, x);
    }
    SameSize(Elements(xs), Elements(ys));
  }

  function Union<T>(sets: seq<set<T>>): set<T> {
    if sets == [] then {} else Union(sets[..|sets| - 1]) + sets[|sets| - 1]
  }

  lemma {:induction false} UnionHas<T>(sets: seq<set<T>>, x: T)
    ensures x in Union(sets) <==> exists i :: 0 <= i < |sets| && x in sets[i]
  {
    if sets != [] {
      var n := |sets| - 1;
      UnionHas(sets[..n], x);
      if i :| 0 <= i < n && x in sets[..n][i] { assert x in sets[i]; }
      if i :| 0 <= i < |sets| && x in sets[i] { if i < n { assert x in sets[..n][i]; } }
    }
  }

  // ---------------------------------------------------------------- strict orders

  ghost predicate Strict<T(!new)>(less: (T, T) -> bool) {
    && (forall a :: !less(a, a))
    && (forall a, b, c :: less(a, b) && less(b, c) ==> less(a, c))
    && (forall a, b :: a != b ==> less(a, b) || less(b, a))
  }

  predicate SeqLess<T(==)>(less: (T, T) -> bool, a: seq<T>, b: seq<T>) {
    b != [] && (a == [] || less(a[0], b[0]) || (a[0] == b[0] && SeqLess(less, a[1..], b[1..])))
  }

  function Lexicographic<T(==)>(less: (T, T) -> bool): (seq<T>, seq<T>) -> bool {
    (a: seq<T>, b: seq<T>) => SeqLess(less, a, b)
  }

  lemma {:induction false} SeqIrreflexive<T(!new)>(less: (T, T) -> bool, a: seq<T>)
    requires Strict(less)
    ensures !SeqLess(less, a, a)
  {
    if a != [] { SeqIrreflexive(less, a[1..]); }
  }

  lemma {:induction false} SeqTransitive<T(!new)>(less: (T, T) -> bool, a: seq<T>, b: seq<T>, c: seq<T>)
    requires Strict(less) && SeqLess(less, a, b) && SeqLess(less, b, c)
    ensures SeqLess(less, a, c)
  {
    if a != [] && a[0] == b[0] == c[0] && !less(a[0], b[0]) && !less(b[0], c[0]) {
      SeqTransitive(less, a[1..], b[1..], c[1..]);
    }
  }

  lemma {:induction false} SeqTotal<T(!new)>(less: (T, T) -> bool, a: seq<T>, b: seq<T>)
    requires Strict(less) && a != b
    ensures SeqLess(less, a, b) || SeqLess(less, b, a)
  {
    if a != [] && b != [] && a[0] == b[0] {
      assert a[1..] != b[1..] by { assert a == [a[0]] + a[1..] && b == [b[0]] + b[1..]; }
      SeqTotal(less, a[1..], b[1..]);
    }
  }

  lemma LexicographicIsStrict<T(!new)>(less: (T, T) -> bool)
    requires Strict(less)
    ensures Strict(Lexicographic(less))
  {
    forall a ensures !SeqLess(less, a, a) { SeqIrreflexive(less, a); }
    forall a, b, c | SeqLess(less, a, b) && SeqLess(less, b, c) ensures SeqLess(less, a, c) {
      SeqTransitive(less, a, b, c);
    }
    forall a, b | a != b ensures SeqLess(less, a, b) || SeqLess(less, b, a) { SeqTotal(less, a, b); }
  }

  // ---------------------------------------------------------------- numbers

  /** What holds at zero and passes from each number below `limit` to the next holds up to `limit`. */
  lemma {:induction false} Upwards(p: nat -> bool, limit: nat, n: nat)
    requires p(0) && n <= limit && forall k: nat :: k < limit && p(k) ==> p(k + 1)
    ensures p(n)
  {
    if n > 0 { Upwards(p, limit, n - 1); }
  }
}
