/** Digits, joining, the string order of `sort.Strings` and what it makes of an unordered collection. */
module Lexical {
  import opened StableSort

  predicate IsDigit(c: char) { '0' <= c <= '9' }

  function DigitValue(c: char): nat requires IsDigit(c) { c as int - '0' as int }

  predicate StringBefore(a: string, b: string) {
    if b == [] then false
    else if a == [] then true
    else a[0] < b[0] || (a[0] == b[0] && StringBefore(a[1..], b[1..]))
  }

  lemma {:induction false} BeforeAsymmetric(a: string, b: string)
    ensures !(StringBefore(a, b) && StringBefore(b, a))
  {
    if a != [] && b != [] {
      BeforeAsymmetric(a[1..], b[1..]);
    }
  }

  lemma {:induction false} BeforeCotransitive(a: string, b: string, c: string)
    requires StringBefore(a, b) && !StringBefore(c, b)
    ensures StringBefore(a, c)
  {
    if a != [] && c != [] && a[0] == b[0] == c[0] {
      BeforeCotransitive(a[1..], b[1..], c[1..]);
    }
  }

  lemma {:induction false} TiedStringsEqual(a: string, b: string)
    requires Tied(StringBefore, a, b)
    ensures a == b
  {
    if a != [] && b != [] {
      TiedStringsEqual(a[1..], b[1..]);
      assert a == [a[0]] + a[1..] && b == [b[0]] + b[1..];
    }
  }

  lemma StringOrder()
    ensures StrictWeak(StringBefore)
  {
    forall a, b | StringBefore(a, b) ensures !StringBefore(b, a) {
      BeforeAsymmetric(a, b);
    }
    forall a, b, c | StringBefore(a, b) && !StringBefore(c, b) ensures StringBefore(a, c) {
      BeforeCotransitive(a, b, c);
    }
  }

  // ---------------------------------------------------------------- sets in sorted order

  ghost function Enumerate(s: set<string>): seq<string>
    decreases |s|
  {
    if s == {} then []
    else
      var x :| x in s;
      [x] + Enumerate(s - {x})
  }

  lemma {:induction false} EnumerateElements(s: set<string>)
    ensures multiset(Enumerate(s)) == multiset(s)
    decreases |s|
  {
    if s != {} {
      var x :| x in s && Enumerate(s) == [x] + Enumerate(s - {x});
      EnumerateElements(s - {x});
      assert multiset(s) == multiset{x} + multiset(s - {x});
    }
  }

  /** The elements of a set in increasing order. */
  ghost function SortedSet(s: set<string>): seq<string> {
    Sort(StringBefore, Enumerate(s))
  }

  lemma {:induction false} TiesAreCopies(x: string, xs: seq<string>)
    ensures Ties(StringBefore, x, xs) == seq(multiset(xs)[x], _ => x)
  {
    if xs != [] {
      TiesAreCopies(x, xs[1..]);
      assert xs == [xs[0]] + xs[1..];
      if Tied(StringBefore, x, xs[0]) {
        TiedStringsEqual(x, xs[0]);
      } else {
        BeforeAsymmetric(x, x);
      }
    }
  }

  /** Whatever order a set is enumerated in, sorting gives the same sequence. */
  lemma SortForgetsOrder(xs: seq<string>, s: set<string>)
    requires multiset(xs) == multiset(s)
    ensures Sort(StringBefore, xs) == SortedSet(s)
  {
    StringOrder();
    EnumerateElements(s);
    SortSpec(StringBefore, xs);
    forall x ensures Ties(StringBefore, x, Sort(StringBefore, xs)) == Ties(StringBefore, x, Enumerate(s)) {
      TiesAreCopies(x, xs);
      TiesAreCopies(x, Enumerate(s));
      assert Ties(StringBefore, x, Sort(StringBefore, xs)) == Ties(StringBefore, x, xs);
    }
    StableIsSort(StringBefore, Sort(StringBefore, xs), Enumerate(s));
  }

  function Join(parts: seq<string>, separator: string): string {
    if parts == [] then ""
    else if |parts| == 1 then parts[0]
    else parts[0] + separator + Join(parts[1..], separator)
  }

  lemma {:induction false} JoinSnoc(parts: seq<string>, separator: string, part: string)
    requires parts != []
    ensures Join(parts + [part], separator) == Join(parts, separator) + separator + part
  {
    if |parts| > 1 {
      assert (parts + [part])[1..] == parts[1..] + [part];
      JoinSnoc(parts[1..], separator, part);
      Regroup(parts[0] + separator, Join(parts[1..], separator), separator, part);
    } else {
      assert (parts + [part])[1..] == [part];
    }
  }

  lemma Regroup(a: string, b: string, c: string, d: string)
    ensures a + (b + c + d) == a + b + c + d
  {
  }

  /** The first place where they differ, or the end of the shorter, decides. */
  ghost predicate DiffersBelow(a: string, b: string, k: nat) {
    && k <= |a| && k < |b| && a[..k] == b[..k]
    && (k == |a| || a[k] < b[k])
  }

  /** One string comes before another when it is a proper prefix of it or has the smaller character where
      they first differ. */
  lemma {:induction false} BeforeIff(a: string, b: string)
    ensures StringBefore(a, b) <==> exists k: nat :: DiffersBelow(a, b, k)
  {
    if a == [] && b != [] {
      assert DiffersBelow(a, b, 0);
    } else if a != [] && b != [] {
      BeforeIff(a[1..], b[1..]);
      forall k: nat | DiffersBelow(a, b, k) ensures a[0] <= b[0] {
        FirstsInOrder(a, b, k);
      }
      if a[0] == b[0] {
        if k: nat :| DiffersBelow(a[1..], b[1..], k) {
          assert a[..k + 1] == [a[0]] + a[1..][..k] && b[..k + 1] == [b[0]] + b[1..][..k];
          assert DiffersBelow(a, b, k + 1);
        }
        if k: nat :| DiffersBelow(a, b, k) {
          DropFirst(a, b, k);
        }
      } else if a[0] < b[0] {
        assert DiffersBelow(a, b, 0);
      }
    }
  }

  lemma FirstsInOrder(a: string, b: string, k: nat)
    requires a != [] && b != [] && DiffersBelow(a, b, k)
    ensures a[0] <= b[0]
  {
    if k > 0 {
      assert a[..k][0] == b[..k][0];
    }
  }

  lemma DropFirst(a: string, b: string, k: nat)
    requires a != [] && b != [] && a[0] == b[0] && DiffersBelow(a, b, k)
    ensures k > 0 && DiffersBelow(a[1..], b[1..], k - 1)
  {
    assert a[1..][..k - 1] == a[..k][1..] && b[1..][..k - 1] == b[..k][1..];
  }

  /** The listed set holds exactly its elements, each once, from the least to the greatest. */
  lemma SortedSetAscends(s: set<string>)
    ensures forall x :: x in SortedSet(s) <==> x in s
    ensures forall i, j :: 0 <= i < j < |SortedSet(s)| ==> StringBefore(SortedSet(s)[i], SortedSet(s)[j])
  {
    StringOrder();
    EnumerateElements(s);
    SortSpec(StringBefore, Enumerate(s));
    var l := SortedSet(s);
    assert multiset(l) == multiset(s);
    forall x ensures x in l <==> x in s {
      assert x in l <==> x in multiset(l);
    }
    forall i, j | 0 <= i < j < |l| ensures StringBefore(l[i], l[j]) {
      TwiceIsRepeated(l, i, j);
      if !StringBefore(l[i], l[j]) {
        TiedStringsEqual(l[i], l[j]);
      }
    }
  }

  lemma TwiceIsRepeated(l: seq<string>, i: nat, j: nat)
    requires i < j < |l|
    ensures l[i] == l[j] ==> multiset(l)[l[i]] >= 2
  {
    assert l == l[..j] + l[j..];
    assert l[i] in l[..j] && l[j] in l[j..];
    assert multiset(l) == multiset(l[..j]) + multiset(l[j..]);
  }
}
