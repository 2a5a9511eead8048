/** In which order overlapping findings are rewritten, told from their spans alone. */
module Overlaps {
  import opened Utf8
  import opened Models
  import opened StableSort
  import opened Splice
  import opened Transform
  import Rewriting
  import Survival

  // ---------------------------------------------------------------- from the right, longest first

  /** Starts descend; among findings with one start, ends do. */
  predicate NotAfter(f: ScanFinding, g: ScanFinding) {
    f.start > g.start || (f.start == g.start && f.end >= g.end)
  }

  ghost predicate RightToLeft(fs: seq<ScanFinding>) {
    forall i, j :: 0 <= i < j < |fs| ==> NotAfter(fs[i], fs[j])
  }

  /** The first list results from the second by leaving out some of its elements. */
  predicate Subsequence<T(==)>(a: seq<T>, b: seq<T>) {
    a == [] || (b != [] && ((a[0] == b[0] && Subsequence(a[1..], b[1..])) || Subsequence(a, b[1..])))
  }

  lemma {:induction false} SplicedSubsequence(repl: Rewriter, buf: Bytes, fs: seq<ScanFinding>)
    ensures Subsequence(Spliced(repl, buf, fs), fs)
    decreases |fs|
  {
    if fs != [] {
      var f, rest := fs[0], fs[1..];
      if Fits(f, |buf|) {
        var next := SpliceOne(repl, buf, f);
        SplicedSubsequence(repl, next, rest);
        assert ([f] + Spliced(repl, next, rest))[1..] == Spliced(repl, next, rest);
      } else {
        SplicedSubsequence(repl, buf, rest);
      }
    }
  }

  lemma {:induction false} SubsequenceElements<T(!new)>(a: seq<T>, b: seq<T>)
    requires Subsequence(a, b)
    ensures forall x :: x in a ==> x in b
    decreases |b|
  {
    if a != [] {
      assert a == [a[0]] + a[1..] && b == [b[0]] + b[1..];
      if a[0] == b[0] && Subsequence(a[1..], b[1..]) {
        SubsequenceElements(a[1..], b[1..]);
      } else {
        SubsequenceElements(a, b[1..]);
      }
    }
  }

  lemma {:induction false} FilterSubsequence<T(!new)>(p: T -> bool, a: seq<T>, b: seq<T>)
    requires Subsequence(a, b)
    ensures Subsequence(Filter(p, a), Filter(p, b))
    decreases |b|
  {
    if a != [] {
      FilterHead(p, b);
      if a[0] == b[0] && Subsequence(a[1..], b[1..]) {
        FilterHead(p, a);
        FilterSubsequence(p, a[1..], b[1..]);
      } else {
        FilterSubsequence(p, a, b[1..]);
      }
    }
  }

  lemma FilterHead<T(!new)>(p: T -> bool, xs: seq<T>)
    requires xs != []
    ensures if p(xs[0])
            then Filter(p, xs) != [] && Filter(p, xs)[0] == xs[0] && Filter(p, xs)[1..] == Filter(p, xs[1..])
            else Filter(p, xs) == Filter(p, xs[1..])
  {
  }

  lemma {:induction false} SubsequenceOrder(a: seq<ScanFinding>, b: seq<ScanFinding>)
    requires Subsequence(a, b) && RightToLeft(b)
    ensures RightToLeft(a)
    decreases |b|
  {
    if a != [] {
      assert RightToLeft(b[1..]);
      if a[0] == b[0] && Subsequence(a[1..], b[1..]) {
        SubsequenceOrder(a[1..], b[1..]);
        SubsequenceElements(a[1..], b[1..]);
        forall j | 0 < j < |a| ensures NotAfter(a[0], a[j]) {
          assert a[1..][j - 1] in b[1..];
          var k :| 0 <= k < |b[1..]| && b[1..][k] == a[j];
          assert NotAfter(b[0], b[k + 1]);
        }
        forall i, j | 0 < i < j < |a| ensures NotAfter(a[i], a[j]) {
          assert NotAfter(a[1..][i - 1], a[1..][j - 1]);
        }
      } else {
        SubsequenceOrder(a, b[1..]);
      }
    }
  }

  lemma PlannedHead(modes: Modes, findings: seq<ScanFinding>)
    requires findings != []
    ensures Planned(modes, findings)
         == (if findings[0].entityType in modes then [findings[0]] else []) + Planned(modes, findings[1..])
  {
  }

  /** The selection is part of the input, in its order. */
  lemma {:induction false} PlannedInOrder(modes: Modes, findings: seq<ScanFinding>)
    ensures Subsequence(Planned(modes, findings), findings)
  {
    if findings != [] {
      PlannedInOrder(modes, findings[1..]);
      PlannedHead(modes, findings);
      var rest := Planned(modes, findings[1..]);
      if findings[0].entityType in modes {
        assert Planned(modes, findings)[1..] == rest;
      } else {
        assert Planned(modes, findings) == rest;
      }
    }
  }

  /** A finding stands in the plan's selection as often as in the input if its type has a mode, and otherwise not. */
  lemma {:induction false} PlannedCounted(modes: Modes, findings: seq<ScanFinding>, f: ScanFinding)
    ensures multiset(Planned(modes, findings))[f] == if f.entityType in modes then multiset(findings)[f] else 0
  {
    if findings != [] {
      var head, rest := findings[0], findings[1..];
      PlannedCounted(modes, rest, f);
      PlannedHead(modes, findings);
      assert findings == [head] + rest;
      assert multiset(findings)[f] == multiset(rest)[f] + if head == f then 1 else 0;
    }
  }

  /** The planned findings in the order in which the engine looks at them. */
  function Queue(modes: Modes, findings: seq<ScanFinding>): seq<ScanFinding> {
    Sort(FindingBefore, Planned(modes, findings))
  }

  lemma QueueOrder(modes: Modes, findings: seq<ScanFinding>)
    ensures RightToLeft(Queue(modes, findings))
  {
    var q := Queue(modes, findings);
    Rewriting.SortedPlan(modes, findings);
    forall i, j | 0 <= i < j < |q| ensures NotAfter(q[i], q[j]) {
      assert !FindingBefore(q[j], q[i]);
    }
  }

  /** Findings are rewritten from the right, and the longer one first of two that start together. */
  lemma RewrittenRightToLeft(lib: Library, modes: Modes, input: Bytes, findings: seq<ScanFinding>)
    ensures var applied := Survival.Applied(lib, modes, input, findings);
            forall i, j :: 0 <= i < j < |applied| ==>
              || applied[i].start > applied[j].start
              || (applied[i].start == applied[j].start && applied[i].end >= applied[j].end)
  {
    QueueOrder(modes, findings);
    SplicedSubsequence(Rewrites(lib, modes), input, Queue(modes, findings));
    SubsequenceOrder(Survival.Applied(lib, modes, input, findings), Queue(modes, findings));
    assert RightToLeft(Survival.Applied(lib, modes, input, findings));
  }

  // ---------------------------------------------------------------- equal spans

  function HasSpan(start: int, end: int): ScanFinding -> bool {
    (f: ScanFinding) => f.start == start && f.end == end
  }

  /** Whatever else is in the list, findings with one and the same span stand in the queue as they
      stood in the input. */
  lemma QueueKeepsTies(modes: Modes, findings: seq<ScanFinding>, start: int, end: int)
    ensures Filter(HasSpan(start, end), Queue(modes, findings)) == Filter(HasSpan(start, end), Planned(modes, findings))
  {
    var plan, q := Planned(modes, findings), Queue(modes, findings);
    var x := ScanFinding("", [], start, end, 0.0);
    FindingOrder();
    SortSpec(FindingBefore, plan);
    var tied := y => Tied(FindingBefore, x, y);
    assert Ties(FindingBefore, x, q) == Ties(FindingBefore, x, plan);
    FilterSame(tied, HasSpan(start, end), q);
    FilterSame(tied, HasSpan(start, end), plan);
  }

  /** Those that are rewritten are rewritten in the order of the input. */
  lemma TiesRewrittenInOrder(lib: Library, modes: Modes, input: Bytes, findings: seq<ScanFinding>, start: int, end: int)
    ensures Subsequence(Filter(HasSpan(start, end), Survival.Applied(lib, modes, input, findings)),
                        Filter(HasSpan(start, end), Planned(modes, findings)))
  {
    SplicedSubsequence(Rewrites(lib, modes), input, Queue(modes, findings));
    FilterSubsequence(HasSpan(start, end), Survival.Applied(lib, modes, input, findings), Queue(modes, findings));
    QueueKeepsTies(modes, findings, start, end);
  }

  // ---------------------------------------------------------------- a phone number read in a card number

  function CardFinding(text: Bytes): ScanFinding
    requires |text| == 16
  {
    ScanFinding("credit_card", text, 0, 16, 0.95)
  }

  function PhoneFinding(text: Bytes): ScanFinding
    requires |text| == 16
  {
    ScanFinding("phone", text[..10], 0, 10, 0.88)
  }

  lemma TwoInQueue(modes: Modes, f: ScanFinding, g: ScanFinding)
    requires f.entityType in modes && g.entityType in modes && FindingBefore(f, g)
    ensures Queue(modes, [f, g]) == [f, g] == Queue(modes, [g, f])
  {
    Rewriting.PlanTwo(modes, g, f);
    assert [f, g][1..] == [g] && [g][1..] == [];
    assert PlannedBy(modes)(f) && PlannedBy(modes)(g);
    Rewriting.PlanOne(modes, g);
    assert Planned(modes, [f, g]) == [f] + Planned(modes, [g]);
    assert Sort(FindingBefore, [f, g]) == Insert(FindingBefore, f, Sort(FindingBefore, [g]));
    assert [f] + [g] == [f, g];
  }

  lemma CardThenPhone(repl: Rewriter, text: Bytes, card: ScanFinding, phone: ScanFinding)
    requires |text| == 16 && card.start == 0 && card.end == 16 && phone.start == 0 && phone.end == 10
    requires |repl(card)| == 10
    ensures SpliceAll(repl, text, [card, phone]) == repl(phone) && Spliced(repl, text, [card, phone]) == [card, phone]
  {
    assert [card, phone][1..] == [phone] && [phone][1..] == [];
    var once, twice := SpliceOne(repl, text, card), SpliceOne(repl, SpliceOne(repl, text, card), phone);
    assert text[..0] == [] && text[16..] == [] && once == repl(card);
    assert once[..0] == [] && once[10..] == [] && twice == repl(phone);
    var none: seq<ScanFinding> := [];
    assert SpliceAll(repl, twice, none) == twice && Spliced(repl, twice, none) == none;
    assert SpliceAll(repl, once, [phone]) == twice && Spliced(repl, once, [phone]) == [phone] + none;
    assert Spliced(repl, text, [card, phone]) == [card] + [phone];
  }

  /** A card number whose first ten digits also read as a phone number: the card is redacted first, the
      phone then replaces the redaction, and its token is all that is left, whatever the order given. */
  lemma CardAndPhone(lib: Library, modes: Modes, text: Bytes, findings: seq<ScanFinding>)
    requires |text| == 16
    requires "credit_card" in modes && modes["credit_card"] == Redact && "phone" in modes && modes["phone"] == Tokenize
    requires findings in {[CardFinding(text), PhoneFinding(text)], [PhoneFinding(text), CardFinding(text)]}
    ensures var (output, stats) := TransformSpec(lib, modes, text, findings);
            output == Encode("TOK-" + lib.digest(text[..10])[..8]) && |output| == 12 && stats.entitiesTransformed == 2
  {
    var card, phone := CardFinding(text), PhoneFinding(text);
    var repl := Rewrites(lib, modes);
    TwoInQueue(modes, card, phone);
    ReplacementSizes(lib, Redact, "credit_card", card.value);
    ReplacementSizes(lib, Tokenize, "phone", phone.value);
    assert |repl(card)| == 10 && repl(phone) == Encode("TOK-" + lib.digest(text[..10])[..8]);
    CardThenPhone(repl, text, card, phone);
  }
}
