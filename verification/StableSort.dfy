/** Python's `sorted`: a stable sort under a comparison.  `IsStableSort` is the promise,
    `StableSortUnique` shows that it leaves only one possible result, so the insertion sort
    used here stands for whatever algorithm the runtime picks. */
module StableSort {

  ghost predicate TotalPreorder<T(!new)>(leq: (T, T) -> bool) {
    && (forall x, y :: leq(x, y) || leq(y, x))
    && (forall x, y, z :: leq(x, y) && leq(y, z) ==> leq(x, z))
  }

  ghost predicate Sorted<T>(s: seq<T>, leq: (T, T) -> bool) {
    forall i, j :: 0 <= i < j < |s| ==> leq(s[i], s[j])
  }

  predicate Tied<T>(x: T, z: T, leq: (T, T) -> bool) {
    leq(x, z) && leq(z, x)
  }

  /** The elements of `s` that tie with `z`, in their order in `s`. */
  function TiesWith<T>(s: seq<T>, z: T, leq: (T, T) -> bool): seq<T> {
    if s == [] then []
    else
      var rest, last := s[..|s| - 1], s[|s| - 1];
      TiesWith(rest, z, leq) + if Tied(last, z, leq) then [last] else []
  }

  /** `ys` is `xs` in order, with ties left in their original order. */
  ghost predicate IsStableSort<T(!new)>(xs: seq<T>, ys: seq<T>, leq: (T, T) -> bool) {
    && Sorted(ys, leq)
    && multiset(ys) == multiset(xs)
    && forall z :: TiesWith(ys, z, leq) == TiesWith(xs, z, leq)
  }

  function Insert<T>(s: seq<T>, x: T, leq: (T, T) -> bool): seq<T> {
    if s == [] then [x]
    else if leq(s[|s| - 1], x) then s + [x]
    else Insert(s[..|s| - 1], x, leq) + [s[|s| - 1]]
  }

  function Sort<T>(s: seq<T>, leq: (T, T) -> bool): seq<T> {
    if s == [] then [] else Insert(Sort(s[..|s| - 1], leq), s[|s| - 1], leq)
  }

  lemma {:induction false} InsertPermutes<T>(s: seq<T>, x: T, leq: (T, T) -> bool)
    ensures multiset(Insert(s, x, leq)) == multiset(s) + multiset{x}
  {
    if s != [] && !leq(s[|s| - 1], x) {
      InsertPermutes(s[..|s| - 1], x, leq);
      assert s == s[..|s| - 1] + [s[|s| - 1]];
    }
  }

  lemma {:induction false} InsertSorts<T(!new)>(s: seq<T>, x: T, leq: (T, T) -> bool)
    requires TotalPreorder(leq) && Sorted(s, leq)
    ensures Sorted(Insert(s, x, leq), leq)
  {
    if s != [] {
      var rest, last := s[..|s| - 1], s[|s| - 1];
      if leq(last, x) {
        forall i | 0 <= i < |s| ensures leq(s[i], x) {
          assert i < |s| - 1 ==> leq(s[i], last);
        }
      } else {
        InsertSorts(rest, x, leq);
        InsertPermutes(rest, x, leq);
        var r := Insert(rest, x, leq);
        forall i | 0 <= i < |r| ensures leq(r[i], last) {
          assert r[i] in multiset(r);
          assert r[i] == x || r[i] in rest;
        }
      }
    }
  }

  lemma {:induction false} InsertKeepsTies<T(!new)>(s: seq<T>, x: T, z: T, leq: (T, T) -> bool)
    requires TotalPreorder(leq)
    ensures TiesWith(Insert(s, x, leq), z, leq) == TiesWith(s, z, leq) + if Tied(x, z, leq) then [x] else []
  {
    if s == [] {
      assert [x][..0] == [];
    } else {
      var rest, last := s[..|s| - 1], s[|s| - 1];
      var r := Insert(s, x, leq);
      if leq(last, x) {
        assert r[..|r| - 1] == s;
      } else {
        InsertKeepsTies(rest, x, z, leq);
        assert r[..|r| - 1] == Insert(rest, x, leq);
        assert !(Tied(x, z, leq) && Tied(last, z, leq));
      }
    }
  }

  /** `Sort` keeps its promise. */
  lemma {:induction false} SortIsStable<T(!new)>(s: seq<T>, leq: (T, T) -> bool)
    requires TotalPreorder(leq)
    ensures IsStableSort(s, Sort(s, leq), leq)
  {
    if s != [] {
      var rest, last := s[..|s| - 1], s[|s| - 1];
      assert s == rest + [last];
      SortIsStable(rest, leq);
      InsertSorts(Sort(rest, leq), last, leq);
      InsertPermutes(Sort(rest, leq), last, leq);
      forall z ensures TiesWith(Sort(s, leq), z, leq) == TiesWith(s, z, leq) {
        InsertKeepsTies(Sort(rest, leq), last, z, leq);
      }
    }
  }

  lemma {:induction false} TiesComeFrom<T>(s: seq<T>, z: T, x: T, leq: (T, T) -> bool)
    ensures x in TiesWith(s, z, leq) <==> x in s && Tied(x, z, leq)
  {
    if s != [] {
      assert s == s[..|s| - 1] + [s[|s| - 1]];
      TiesComeFrom(s[..|s| - 1], z, x, leq);
    }
  }

  lemma LastIsGreatest<T(!new)>(s: seq<T>, x: T, leq: (T, T) -> bool)
    requires TotalPreorder(leq) && Sorted(s, leq) && x in s
    ensures leq(x, s[|s| - 1])
  {
  }

  lemma TiesEnd<T>(s: seq<T>, z: T, leq: (T, T) -> bool)
    requires s != [] && Tied(s[|s| - 1], z, leq)
    ensures TiesWith(s, z, leq) == TiesWith(s[..|s| - 1], z, leq) + [s[|s| - 1]]
  {
  }

  /** Two ordered lists with the same ties end in the same element. */
  lemma SameLast<T(!new)>(a: seq<T>, b: seq<T>, leq: (T, T) -> bool)
    requires TotalPreorder(leq) && Sorted(a, leq) && Sorted(b, leq) && a != []
    requires forall z :: TiesWith(a, z, leq) == TiesWith(b, z, leq)
    ensures b != [] && a[|a| - 1] == b[|b| - 1]
  {
    var x := a[|a| - 1];
    TiesComeFrom(a, x, x, leq);
    TiesComeFrom(b, x, x, leq);
    var y := b[|b| - 1];
    TiesComeFrom(b, y, y, leq);
    TiesComeFrom(a, y, y, leq);
    LastIsGreatest(a, y, leq);
    LastIsGreatest(b, x, leq);
    TiesEnd(a, x, leq);
    TiesEnd(b, x, leq);
    assert TiesWith(a, x, leq)[|TiesWith(a, x, leq)| - 1] == x;
  }

  lemma SameInit<T>(a: seq<T>, b: seq<T>, m: seq<T>)
    requires a + m == b + m
    ensures a == b
  {
    assert |a + m| == |b + m|;
    assert a == (a + m)[..|a|] && b == (b + m)[..|b|];
  }

  /** Order and ties determine a list. */
  lemma {:induction false} SortedTiesUnique<T(!new)>(a: seq<T>, b: seq<T>, leq: (T, T) -> bool)
    requires TotalPreorder(leq) && Sorted(a, leq) && Sorted(b, leq)
    requires forall z :: TiesWith(a, z, leq) == TiesWith(b, z, leq)
    ensures a == b
    decreases |a|
  {
    if a == [] {
      if b != [] {
        SameLast(b, a, leq);
      }
    } else {
      SameLast(a, b, leq);
      var a', b', x := a[..|a| - 1], b[..|b| - 1], a[|a| - 1];
      forall z ensures TiesWith(a', z, leq) == TiesWith(b', z, leq) {
        var m := if Tied(x, z, leq) then [x] else [];
        assert TiesWith(a, z, leq) == TiesWith(a', z, leq) + m;
        assert TiesWith(b, z, leq) == TiesWith(b', z, leq) + m;
        SameInit(TiesWith(a', z, leq), TiesWith(b', z, leq), m);
      }
      SortedTiesUnique(a', b', leq);
      assert a == a' + [x] && b == b' + [x];
    }
  }

  /** Any stable sort of `xs` is the one computed by `Sort`. */
  lemma StableSortUnique<T(!new)>(xs: seq<T>, ys: seq<T>, leq: (T, T) -> bool)
    requires TotalPreorder(leq) && IsStableSort(xs, ys, leq)
    ensures ys == Sort(xs, leq)
  {
    SortIsStable(xs, leq);
    SortedTiesUnique(ys, Sort(xs, leq), leq);
  }

  lemma SortIdempotent<T(!new)>(s: seq<T>, leq: (T, T) -> bool)
    requires TotalPreorder(leq)
    ensures Sort(Sort(s, leq), leq) == Sort(s, leq)
  {
    SortIsStable(s, leq);
    SortIsStable(Sort(s, leq), leq);
    SortedTiesUnique(Sort(Sort(s, leq), leq), Sort(s, leq), leq);
  }

  /** Sorting after every appended element gives what one final sort gives. */
  lemma SortAppend<T(!new)>(s: seq<T>, x: T, leq: (T, T) -> bool)
    requires TotalPreorder(leq)
    ensures Sort(Sort(s, leq) + [x], leq) == Sort(s + [x], leq)
  {
    SortIdempotent(s, leq);
    assert (Sort(s, leq) + [x])[..|Sort(s, leq)|] == Sort(s, leq);
    assert (s + [x])[..|s|] == s;
  }
}
