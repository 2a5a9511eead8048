/** Newline-separated text, as a line scanner reads it. */
module TextLines {

  function LineEnd<T(==)>(nl: T, c: seq<T>): (n: nat)
    ensures n <= |c| && nl !in c[..n] && (n < |c| ==> c[n] == nl)
  {
    if c == [] || c[0] == nl then 0 else 1 + LineEnd(nl, c[1..])
  }

  function Rest<T(==)>(nl: T, c: seq<T>): seq<T> {
    if LineEnd(nl, c) < |c| then c[LineEnd(nl, c) + 1..] else []
  }

  /** What follows the last newline counts as a line only if it is not empty. */
  function Lines<T(==)>(nl: T, c: seq<T>): seq<seq<T>>
    decreases |c|
  {
    if c == [] then [] else [c[..LineEnd(nl, c)]] + Lines(nl, Rest(nl, c))
  }

  predicate Terminated<T(==)>(nl: T, c: seq<T>) { c == [] || c[|c| - 1] == nl }

  lemma {:induction false} LineEndAppend<T(!new)>(nl: T, c: seq<T>, d: seq<T>)
    requires LineEnd(nl, c) < |c|
    ensures LineEnd(nl, c + d) == LineEnd(nl, c)
  {
    if c[0] != nl {
      assert (c + d)[1..] == c[1..] + d;
      LineEndAppend(nl, c[1..], d);
    }
  }

  /** The first line, when it is terminated. */
  lemma LinesFirst<T(!new)>(nl: T, c: seq<T>, n: nat, first: seq<T>, rest: seq<T>)
    requires LineEnd(nl, c) == n < |c| && first == c[..n] && rest == c[n + 1..]
    ensures Lines(nl, c) == [first] + Lines(nl, rest)
  {
    assert c != [];
    assert Rest(nl, c) == rest;
  }

  lemma Associate<T>(a: seq<T>, b: seq<T>, c: seq<T>)
    ensures a + (b + c) == (a + b) + c
  {
  }

  lemma CutAfter<T>(c: seq<T>, d: seq<T>, n: nat)
    requires n < |c|
    ensures (c + d)[..n] == c[..n] && (c + d)[n + 1..] == c[n + 1..] + d
  {
  }

  lemma LinesFirstAppend<T(!new)>(nl: T, c: seq<T>, d: seq<T>, n: nat)
    requires LineEnd(nl, c) == n < |c|
    ensures Lines(nl, c + d) == [c[..n]] + Lines(nl, c[n + 1..] + d)
  {
    LineEndAppend(nl, c, d);
    CutAfter(c, d, n);
    LinesFirst(nl, c + d, n, c[..n], c[n + 1..] + d);
  }

  lemma TerminatedRest<T(!new)>(nl: T, c: seq<T>)
    requires c != [] && Terminated(nl, c)
    ensures LineEnd(nl, c) < |c| && Terminated(nl, c[LineEnd(nl, c) + 1..])
  {
    assert c[..|c|] == c && c[|c| - 1] in c;
  }

  /** After a final newline what is appended starts a line of its own. */
  lemma {:induction false} LinesAppend<T(!new)>(nl: T, c: seq<T>, d: seq<T>)
    requires Terminated(nl, c)
    ensures Lines(nl, c + d) == Lines(nl, c) + Lines(nl, d)
    decreases |c|
  {
    if c == [] {
      assert c + d == d;
    } else {
      TerminatedRest(nl, c);
      var n := LineEnd(nl, c);
      var first, rest := c[..n], c[n + 1..];
      LinesFirst(nl, c, n, first, rest);
      LinesFirstAppend(nl, c, d, n);
      LinesAppend(nl, rest, d);
      Associate([first], Lines(nl, rest), Lines(nl, d));
    }
  }

  lemma {:induction false} LineEndOf<T(!new)>(nl: T, d: seq<T>)
    requires nl !in d
    ensures LineEnd(nl, d + [nl]) == |d|
  {
    if d != [] {
      assert (d + [nl])[1..] == d[1..] + [nl];
      LineEndOf(nl, d[1..]);
    }
  }

  lemma OneLine<T(!new)>(nl: T, d: seq<T>)
    requires nl !in d
    ensures Lines(nl, d + [nl]) == [d] && Terminated(nl, d + [nl])
  {
    LineEndOf(nl, d);
    var c := d + [nl];
    assert c[..|d|] == d && c[|d| + 1..] == [];
  }

  lemma LinesStep<T(!new)>(nl: T, read: seq<seq<T>>, rest: seq<T>)
    requires rest != []
    ensures read + Lines(nl, rest) == (read + [rest[..LineEnd(nl, rest)]]) + Lines(nl, Rest(nl, rest))
  {
  }

  /** Where the last, unterminated piece begins. */
  function LastBreak<T(==)>(nl: T, c: seq<T>): (n: nat)
    ensures n <= |c| && Terminated(nl, c[..n]) && nl !in c[n..]
  {
    if Terminated(nl, c) then |c| else LastBreak(nl, c[..|c| - 1])
  }

  function Fragment<T(==)>(nl: T, c: seq<T>): seq<T> { c[LastBreak(nl, c)..] }

  lemma {:induction false} LastBreakOf<T(!new)>(nl: T, c: seq<T>, t: seq<T>)
    requires Terminated(nl, c) && nl !in t
    ensures LastBreak(nl, c + t) == |c|
  {
    if t == [] {
      assert c + t == c;
    } else {
      var n := |t| - 1;
      assert (c + t)[..|c + t| - 1] == c + t[..n];
      assert t[n] in t;
      LastBreakOf(nl, c, t[..n]);
    }
  }

  lemma {:induction false} NoBreak<T(!new)>(nl: T, t: seq<T>)
    requires nl !in t
    ensures LineEnd(nl, t) == |t|
  {
    if t != [] {
      NoBreak(nl, t[1..]);
    }
  }

  /** The unterminated piece is a line of its own unless it is empty. */
  lemma LinesFragment<T(!new)>(nl: T, c: seq<T>, t: seq<T>)
    requires Terminated(nl, c) && nl !in t
    ensures Lines(nl, c + t) == if t == [] then Lines(nl, c) else Lines(nl, c) + [t]
  {
    LinesAppend(nl, c, t);
    if t != [] {
      NoBreak(nl, t);
      assert t[..|t|] == t;
      assert Lines(nl, t) == [t];
    }
  }

  lemma {:induction false} LinesUnbroken<T(!new)>(nl: T, c: seq<T>)
    ensures forall k :: 0 <= k < |Lines(nl, c)| ==> nl !in Lines(nl, c)[k]
    decreases |c|
  {
    if c != [] {
      LinesUnbroken(nl, Rest(nl, c));
    }
  }
}
