/** A stable sort for an arbitrary strict weak order, as `sort.SliceStable` and `sort.Strings` provide it.
    Stability is stated class by class: the elements tied with any given element
    appear in the sorted sequence exactly as they did in the input. */
module StableSort {

  predicate Tied<T>(before: (T, T) -> bool, x: T, y: T) {
    !before(x, y) && !before(y, x)
  }

  /** The comparators passed to a sort must be strict weak orders. */
  ghost predicate StrictWeak<T(!new)>(before: (T, T) -> bool) {
    && (forall x, y :: before(x, y) ==> !before(y, x))
    && (forall x, y, z :: before(x, y) && !before(z, y) ==> before(x, z))
  }

  function Filter<T>(p: T -> bool, xs: seq<T>): seq<T> {
    if xs == [] then [] else (if p(xs[0]) then [xs[0]] else []) + Filter(p, xs[1..])
  }

  function Ties<T>(before: (T, T) -> bool, x: T, xs: seq<T>): seq<T> {
    Filter(y => Tied(before, x, y), xs)
  }

  ghost predicate Sorted<T>(before: (T, T) -> bool, xs: seq<T>) {
    forall i, j :: 0 <= i < j < |xs| ==> !before(xs[j], xs[i])
  }

  ghost predicate SameTies<T(!new)>(before: (T, T) -> bool, xs: seq<T>, ys: seq<T>) {
    forall x :: Ties(before, x, xs) == Ties(before, x, ys)
  }

  /** Reference definition: insert each element in front of everything it is not after. */
  function Insert<T>(before: (T, T) -> bool, x: T, ys: seq<T>): seq<T> {
    if ys == [] || !before(ys[0], x) then [x] + ys
    else [ys[0]] + Insert(before, x, ys[1..])
  }

  function Sort<T>(before: (T, T) -> bool, xs: seq<T>): seq<T> {
    if xs == [] then [] else Insert(before, xs[0], Sort(before, xs[1..]))
  }

  // ---------------------------------------------------------------- filters

  lemma {:induction false} FilterAppend<T(!new)>(p: T -> bool, xs: seq<T>, ys: seq<T>)
    ensures Filter(p, xs + ys) == Filter(p, xs) + Filter(p, ys)
  {
    if xs == [] {
      assert xs + ys == ys;
    } else {
      var h := if p(xs[0]) then [xs[0]] else [];
      FilterAppend(p, xs[1..], ys);
      assert (xs + ys)[0] == xs[0] && (xs + ys)[1..] == xs[1..] + ys;
      assert h + (Filter(p, xs[1..]) + Filter(p, ys)) == (h + Filter(p, xs[1..])) + Filter(p, ys);
    }
  }

  lemma {:induction false} FilterElements<T(!new)>(p: T -> bool, xs: seq<T>)
    ensures forall x :: x in Filter(p, xs) <==> x in xs && p(x)
    ensures |Filter(p, xs)| <= |xs|
  {
    if xs != [] {
      assert xs == [xs[0]] + xs[1..];
      FilterElements(p, xs[1..]);
    }
  }

  lemma {:induction false} FilterCommutes<T(!new)>(p: T -> bool, q: T -> bool, xs: seq<T>)
    ensures Filter(p, Filter(q, xs)) == Filter(q, Filter(p, xs))
  {
    if xs != [] {
      FilterCommutes(p, q, xs[1..]);
      FilterAppend(p, if q(xs[0]) then [xs[0]] else [], Filter(q, xs[1..]));
      FilterAppend(q, if p(xs[0]) then [xs[0]] else [], Filter(p, xs[1..]));
    }
  }

  lemma {:induction false} FilterUniform<T(!new)>(p: T -> bool, xs: seq<T>, b: bool)
    requires forall x :: x in xs ==> p(x) == b
    ensures Filter(p, xs) == if b then xs else []
  {
    if xs != [] {
      FilterUniform(p, xs[1..], b);
      assert xs == [xs[0]] + xs[1..];
    }
  }

  // ---------------------------------------------------------------- the reference sort

  lemma {:induction false} InsertElements<T(!new)>(before: (T, T) -> bool, x: T, ys: seq<T>)
    ensures multiset(Insert(before, x, ys)) == multiset{x} + multiset(ys)
  {
    if !(ys == [] || !before(ys[0], x)) {
      InsertElements(before, x, ys[1..]);
      assert ys == [ys[0]] + ys[1..];
    }
  }

  lemma {:induction false} InsertSorted<T(!new)>(before: (T, T) -> bool, x: T, ys: seq<T>)
    requires StrictWeak(before) && Sorted(before, ys)
    ensures Sorted(before, Insert(before, x, ys))
  {
    if ys == [] {
    } else if !before(ys[0], x) {
      forall y | y in ys ensures !before(y, x) {
        assert !before(y, ys[0]) && !before(ys[0], x);
      }
    } else {
      var t := Insert(before, x, ys[1..]);
      InsertSorted(before, x, ys[1..]);
      InsertElements(before, x, ys[1..]);
      forall z | z in t ensures !before(z, ys[0]) {
        assert z in multiset(t);
      }
    }
  }

  lemma {:induction false} InsertTies<T(!new)>(before: (T, T) -> bool, x: T, ys: seq<T>, z: T)
    requires StrictWeak(before)
    ensures Ties(before, z, Insert(before, x, ys)) == Ties(before, z, [x] + ys)
  {
    var p := y => Tied(before, z, y);
    if !(ys == [] || !before(ys[0], x)) {
      InsertTies(before, x, ys[1..], z);
      assert ys == [ys[0]] + ys[1..];
      FilterAppend(p, [ys[0]], Insert(before, x, ys[1..]));
      FilterAppend(p, [x], ys);
      FilterAppend(p, [x], ys[1..]);
      FilterAppend(p, [ys[0]], ys[1..]);
      assert !(p(x) && p(ys[0]));
    }
  }

  /** The reference sort returns a permutation, in order, and keeps ties as they stood. */
  lemma {:induction false} SortSpec<T(!new)>(before: (T, T) -> bool, xs: seq<T>)
    requires StrictWeak(before)
    ensures Sorted(before, Sort(before, xs))
    ensures SameTies(before, Sort(before, xs), xs)
    ensures multiset(Sort(before, xs)) == multiset(xs)
  {
    if xs != [] {
      var t := Sort(before, xs[1..]);
      SortSpec(before, xs[1..]);
      InsertSorted(before, xs[0], t);
      InsertElements(before, xs[0], t);
      assert xs == [xs[0]] + xs[1..];
      forall z ensures Ties(before, z, Sort(before, xs)) == Ties(before, z, xs) {
        var p := y => Tied(before, z, y);
        InsertTies(before, xs[0], t, z);
        FilterAppend(p, [xs[0]], t);
        FilterAppend(p, [xs[0]], xs[1..]);
        assert Ties(before, z, t) == Ties(before, z, xs[1..]);
      }
    }
  }

  // ---------------------------------------------------------------- uniqueness

  lemma TiesOfElement<T(!new)>(before: (T, T) -> bool, x: T, xs: seq<T>)
    requires StrictWeak(before)
    ensures x in xs ==> x in Ties(before, x, xs)
    ensures forall y :: y in Ties(before, x, xs) ==> y in xs && Tied(before, x, y)
  {
    FilterElements(y => Tied(before, x, y), xs);
  }

  lemma SortedHead<T(!new)>(before: (T, T) -> bool, xs: seq<T>)
    requires xs != [] && StrictWeak(before)
    ensures Ties(before, xs[0], xs) != [] && Ties(before, xs[0], xs)[0] == xs[0]
  {
    assert xs == [xs[0]] + xs[1..];
  }

  /** Two sorted sequences that agree on every class of ties are equal, so any
      correct stable sort returns what the reference sort returns. */
  lemma {:induction false} StableSortUnique<T(!new)>(before: (T, T) -> bool, xs: seq<T>, ys: seq<T>)
    requires StrictWeak(before) && Sorted(before, xs) && Sorted(before, ys) && SameTies(before, xs, ys)
    ensures xs == ys
  {
    if ys != [] {
      TiesOfElement(before, ys[0], ys);
      assert Ties(before, ys[0], xs) != [];
      assert xs != [];
    }
    if xs != [] {
      TiesOfElement(before, xs[0], xs);
      assert Ties(before, xs[0], ys) != [];
      assert ys != [];
      SameHead(before, xs, ys);
      var x := xs[0];
      forall z ensures Ties(before, z, xs[1..]) == Ties(before, z, ys[1..]) {
        var p := y => Tied(before, z, y);
        assert xs == [x] + xs[1..] && ys == [x] + ys[1..];
        FilterAppend(p, [x], xs[1..]);
        FilterAppend(p, [x], ys[1..]);
        var l := Filter(p, [x]);
        assert l + Filter(p, xs[1..]) == l + Filter(p, ys[1..]) by {
          assert Ties(before, z, xs) == Ties(before, z, ys);
        }
        assert (l + Filter(p, xs[1..]))[|l|..] == Filter(p, xs[1..]);
        assert (l + Filter(p, ys[1..]))[|l|..] == Filter(p, ys[1..]);
      }
      StableSortUnique(before, xs[1..], ys[1..]);
      assert xs == [x] + xs[1..] && ys == [x] + ys[1..];
    }
  }

  lemma SameHead<T(!new)>(before: (T, T) -> bool, xs: seq<T>, ys: seq<T>)
    requires StrictWeak(before) && Sorted(before, xs) && Sorted(before, ys) && SameTies(before, xs, ys)
    requires xs != [] && ys != []
    ensures xs[0] == ys[0]
  {
    var x, y := xs[0], ys[0];
    TiesOfElement(before, x, xs);
    TiesOfElement(before, x, ys);
    TiesOfElement(before, y, ys);
    TiesOfElement(before, y, xs);
    var u := Ties(before, x, ys)[0];
    var v := Ties(before, y, xs)[0];
    assert !before(u, y) && !before(v, x);
    assert Tied(before, x, y);
    SortedHead(before, xs);
    SortedHead(before, ys);
    forall w ensures Tied(before, x, w) == Tied(before, y, w) { }
    FilterSame(w => Tied(before, x, w), w => Tied(before, y, w), ys);
  }

  lemma {:induction false} FilterSame<T(!new)>(p: T -> bool, q: T -> bool, xs: seq<T>)
    requires forall x :: x in xs ==> p(x) == q(x)
    ensures Filter(p, xs) == Filter(q, xs)
  {
    if xs != [] {
      FilterSame(p, q, xs[1..]);
    }
  }

  /** Filtering and stable sorting commute. */
  lemma FilterSortCommute<T(!new)>(before: (T, T) -> bool, p: T -> bool, xs: seq<T>)
    requires StrictWeak(before)
    ensures Filter(p, Sort(before, xs)) == Sort(before, Filter(p, xs))
  {
    var s := Sort(before, xs);
    SortSpec(before, xs);
    FilterSorted(before, p, s);
    forall z ensures Ties(before, z, Filter(p, s)) == Ties(before, z, Filter(p, xs)) {
      var q := y => Tied(before, z, y);
      FilterCommutes(p, q, s);
      FilterCommutes(p, q, xs);
      assert Ties(before, z, s) == Ties(before, z, xs);
    }
    StableIsSort(before, Filter(p, s), Filter(p, xs));
  }

  lemma {:induction false} FilterSorted<T(!new)>(before: (T, T) -> bool, p: T -> bool, xs: seq<T>)
    requires Sorted(before, xs)
    ensures Sorted(before, Filter(p, xs))
  {
    if xs != [] {
      var r := xs[1..];
      var t := Filter(p, r);
      FilterSorted(before, p, r);
      forall z | z in t ensures !before(z, xs[0]) {
        FilterElements(p, r);
        assert z in r;
      }
    }
  }

  // ---------------------------------------------------------------- in place

  /** In-place insertion sort: adjacent elements that are out of order are swapped,
      which never moves an element past one it is tied with. */
  method SliceStable<T(!new)>(before: (T, T) -> bool, a: array<T>)
    requires StrictWeak(before)
    modifies a
    ensures a[..] == Sort(before, old(a[..]))
  {
    ghost var was := a[..];
    var i := 0;
    while i < a.Length
      invariant 0 <= i <= a.Length
      invariant Sorted(before, a[..][..i])
      invariant SameTies(before, a[..], was)
    {
      var j := i;
      while 0 < j && before(a[j], a[j - 1])
        invariant 0 <= j <= i < a.Length
        invariant SortedBut(before, a[..], j, i)
        invariant SameTies(before, a[..], was)
      {
        ghost var mid := a[..];
        SwapStep(before, mid, was, j, i);
        a[j], a[j - 1] := a[j - 1], a[j];
        assert a[..] == Swapped(mid, j - 1);
        j := j - 1;
      }
      SortedAgain(before, a[..], j, i);
      i := i + 1;
    }
    assert a[..][..i] == a[..];
    StableIsSort(before, a[..], was);
  }

  /** Sorted up to and including `i`, except that the element at `j` may be too far right. */
  ghost predicate SortedBut<T>(before: (T, T) -> bool, xs: seq<T>, j: nat, i: nat)
    requires j <= i < |xs|
  {
    forall x, y :: 0 <= x < y <= i && y != j ==> !before(xs[y], xs[x])
  }

  lemma SortedAgain<T(!new)>(before: (T, T) -> bool, xs: seq<T>, j: nat, i: nat)
    requires StrictWeak(before) && j <= i < |xs| && SortedBut(before, xs, j, i)
    requires j == 0 || !before(xs[j], xs[j - 1])
    ensures Sorted(before, xs[..i + 1])
  {
    forall x, y | 0 <= x < y <= i ensures !before(xs[y], xs[x]) {
      if y == j && x < j - 1 {
        assert !before(xs[j - 1], xs[x]);
      }
    }
  }

  lemma SwapStep<T(!new)>(before: (T, T) -> bool, xs: seq<T>, was: seq<T>, j: nat, i: nat)
    requires StrictWeak(before) && 0 < j <= i < |xs| && SortedBut(before, xs, j, i)
    requires before(xs[j], xs[j - 1]) && SameTies(before, xs, was)
    ensures SortedBut(before, Swapped(xs, j - 1), j - 1, i)
    ensures SameTies(before, Swapped(xs, j - 1), was)
  {
    SwapKeepsTies(before, xs, j - 1);
    forall z ensures Ties(before, z, Swapped(xs, j - 1)) == Ties(before, z, was) {
      assert Ties(before, z, xs) == Ties(before, z, was);
    }
    var s := Swapped(xs, j - 1);
    forall k | 0 <= k < |xs| ensures s[k] == if k == j then xs[j - 1] else if k == j - 1 then xs[j] else xs[k] {
    }
  }

  /** Any sequence in order that keeps the ties of the input is what the reference sort returns. */
  lemma StableIsSort<T(!new)>(before: (T, T) -> bool, xs: seq<T>, was: seq<T>)
    requires StrictWeak(before) && Sorted(before, xs) && SameTies(before, xs, was)
    ensures xs == Sort(before, was)
  {
    SortSpec(before, was);
    forall z ensures Ties(before, z, xs) == Ties(before, z, Sort(before, was)) {
      assert Ties(before, z, xs) == Ties(before, z, was);
    }
    StableSortUnique(before, xs, Sort(before, was));
  }

  ghost function Swapped<T>(xs: seq<T>, i: nat): seq<T>
    requires i + 1 < |xs|
  {
    xs[..i] + [xs[i + 1], xs[i]] + xs[i + 2..]
  }

  lemma SwapKeepsTies<T(!new)>(before: (T, T) -> bool, xs: seq<T>, i: nat)
    requires i + 1 < |xs| && StrictWeak(before) && before(xs[i + 1], xs[i])
    ensures SameTies(before, Swapped(xs, i), xs)
  {
    forall z ensures Ties(before, z, Swapped(xs, i)) == Ties(before, z, xs) {
      var p := y => Tied(before, z, y);
      var l, m, n, r := xs[..i], [xs[i]], [xs[i + 1]], xs[i + 2..];
      assert xs == l + m + n + r;
      assert Swapped(xs, i) == l + n + m + r;
      FilterAppend(p, l + m + n, r);
      FilterAppend(p, l + m, n);
      FilterAppend(p, l, m);
      FilterAppend(p, l + n + m, r);
      FilterAppend(p, l + n, m);
      FilterAppend(p, l, n);
      assert !(p(xs[i]) && p(xs[i + 1]));
      assert Filter(p, m) == [] || Filter(p, n) == [];
    }
  }
}
