/** What the transform engine guarantees about its output and statistics. */
module Rewriting {
  import opened Utf8
  import opened Models
  import opened StableSort
  import opened Splice
  import opened Lexical
  import opened Transform

  // ---------------------------------------------------------------- permutations

  lemma {:induction false} FilterMultiset<T(!new)>(p: T -> bool, xs: seq<T>)
    ensures forall x :: multiset(Filter(p, xs))[x] == if p(x) then multiset(xs)[x] else 0
  {
    if xs != [] {
      FilterMultiset(p, xs[1..]);
      assert xs == [xs[0]] + xs[1..];
    }
  }

  lemma FilterPermutation<T(!new)>(p: T -> bool, xs: seq<T>, ys: seq<T>)
    requires multiset(xs) == multiset(ys)
    ensures multiset(Filter(p, xs)) == multiset(Filter(p, ys))
    ensures |Filter(p, xs)| == |Filter(p, ys)|
  {
    var a, b := multiset(Filter(p, xs)), multiset(Filter(p, ys));
    forall x ensures a[x] == b[x] {
      FilterMultiset(p, xs);
      FilterMultiset(p, ys);
    }
    assert a == b && |a| == |Filter(p, xs)| && |b| == |Filter(p, ys)|;
  }

  lemma {:induction false} TwoCopies<T(!new)>(xs: seq<T>, x: T) returns (i: nat, j: nat)
    requires multiset(xs)[x] >= 2
    ensures i < j < |xs| && xs[i] == x == xs[j]
  {
    assert xs == [xs[0]] + xs[1..];
    if xs[0] == x {
      assert x in multiset(xs[1..]);
      var k :| 0 <= k < |xs[1..]| && xs[1..][k] == x;
      i, j := 0, k + 1;
    } else {
      i, j := TwoCopies(xs[1..], x);
      i, j := i + 1, j + 1;
    }
  }

  lemma CopiesCounted<T(!new)>(xs: seq<T>, i: nat, j: nat)
    requires i < j < |xs| && xs[i] == xs[j]
    ensures multiset(xs)[xs[i]] >= 2
  {
    assert xs == xs[..j] + [xs[j]] + xs[j + 1..];
    assert xs[i] in xs[..j];
  }

  lemma DisjointPermutation(xs: seq<ScanFinding>, ys: seq<ScanFinding>)
    requires multiset(xs) == multiset(ys) && Disjoint(xs)
    ensures Disjoint(ys)
  {
    forall i, j | 0 <= i < j < |ys| && Proper(ys[i]) && Proper(ys[j]) ensures Apart(ys[i], ys[j]) {
      assert ys[i] in multiset(xs) && ys[j] in multiset(xs);
      if ys[i] == ys[j] {
        CopiesCounted(ys, i, j);
        var k, l := TwoCopies(xs, ys[i]);
      } else {
        var k :| 0 <= k < |xs| && xs[k] == ys[i];
        var l :| 0 <= l < |xs| && xs[l] == ys[j];
      }
    }
  }

  lemma SortedPlan(modes: Modes, findings: seq<ScanFinding>)
    ensures var s := Sort(FindingBefore, Planned(modes, findings));
            Sorted(FindingBefore, s) && multiset(s) == multiset(Planned(modes, findings))
  {
    FindingOrder();
    SortSpec(FindingBefore, Planned(modes, findings));
  }

  // ---------------------------------------------------------------- the main theorem

  /** The findings a plan rewrites in a text: planned and in range. */
  function Effective(modes: Modes, input: Bytes, findings: seq<ScanFinding>): seq<ScanFinding> {
    Filter(FitsIn(input), Planned(modes, findings))
  }

  ghost function EffectiveSet(modes: Modes, input: Bytes, findings: seq<ScanFinding>): set<ScanFinding> {
    Selected(input, Planned(modes, findings))
  }

  /** For disjoint planned findings, in any order and with any replacements, the engine
      computes the one-pass rewrite, counts the findings in range, grows the text by exactly
      the difference of lengths and labels exactly those findings. */
  lemma TransformIsOnePass(lib: Library, modes: Modes, input: Bytes, findings: seq<ScanFinding>)
    requires Disjoint(Planned(modes, findings))
    ensures var (output, stats) := TransformSpec(lib, modes, input, findings);
            var eff := Effective(modes, input, findings);
            && output == OnePass(Rewrites(lib, modes), input, 0, EffectiveSet(modes, input, findings))
            && stats.entitiesTransformed == |eff|
            && |output| == |input| + Growth(Rewrites(lib, modes), eff)
            && stats.modesApplied == Join(SortedSet(LabelsOf(modes, eff)), ",")
  {
    var repl := Rewrites(lib, modes);
    var p := Planned(modes, findings);
    var s := Sort(FindingBefore, p);
    SortedPlan(modes, findings);
    DisjointPermutation(p, s);
    SpliceIsOnePass(repl, input, s);
    SameElements(s, p);
    assert Selected(input, s) == Selected(input, p);
    FilterPermutation(FitsIn(input), s, p);
    SameElements(Filter(FitsIn(input), s), Filter(FitsIn(input), p));
    assert LabelsOf(modes, Filter(FitsIn(input), s)) == LabelsOf(modes, Filter(FitsIn(input), p));
    SpliceLength(repl, input, s);
    FindingOrder();
    FilterSortCommute(FindingBefore, FitsIn(input), p);
    GrowthOfSort(repl, Filter(FitsIn(input), p));
  }

  lemma SameElements<T(!new)>(xs: seq<T>, ys: seq<T>)
    requires multiset(xs) == multiset(ys)
    ensures forall x :: x in xs <==> x in ys
  {
    assert forall x :: x in xs <==> x in multiset(xs);
    assert forall x :: x in ys <==> x in multiset(ys);
  }

  /** With no disjointness at all the output length still follows from what was counted. */
  lemma TransformLength(lib: Library, modes: Modes, input: Bytes, findings: seq<ScanFinding>)
    ensures var applied := Spliced(Rewrites(lib, modes), input, Sort(FindingBefore, Planned(modes, findings)));
            var (output, stats) := TransformSpec(lib, modes, input, findings);
            stats.entitiesTransformed == |applied| && |output| == |input| + Growth(Rewrites(lib, modes), applied)
  {
    SpliceLength(Rewrites(lib, modes), input, Sort(FindingBefore, Planned(modes, findings)));
  }

  // ---------------------------------------------------------------- order independence

  /** Reordering disjoint findings changes neither the output nor the statistics. */
  lemma FindingOrderIrrelevant(lib: Library, modes: Modes, input: Bytes, f1: seq<ScanFinding>, f2: seq<ScanFinding>)
    requires multiset(f1) == multiset(f2) && Disjoint(Planned(modes, f1))
    ensures TransformSpec(lib, modes, input, f1) == TransformSpec(lib, modes, input, f2)
  {
    var p1, p2 := Planned(modes, f1), Planned(modes, f2);
    FilterPermutation(PlannedBy(modes), f1, f2);
    DisjointPermutation(p1, p2);
    TransformIsOnePass(lib, modes, input, f1);
    TransformIsOnePass(lib, modes, input, f2);
    FilterPermutation(FitsIn(input), p1, p2);
    SameElements(p1, p2);
    SameElements(Filter(FitsIn(input), p1), Filter(FitsIn(input), p2));
    assert Selected(input, p1) == Selected(input, p2);
    assert LabelsOf(modes, Effective(modes, input, f1)) == LabelsOf(modes, Effective(modes, input, f2));
  }

  ghost predicate DistinctTypes(steps: seq<TransformStep>) {
    forall i, j :: 0 <= i < j < |steps| ==> steps[i].entityType != steps[j].entityType
  }

  /** A plan lists a mode map when its steps are entries of the map and cover it. */
  ghost predicate Lists(steps: seq<TransformStep>, m: Modes) {
    && (forall s :: s in steps ==> s.entityType in m && m[s.entityType] == s.mode)
    && (forall t :: t in m ==> TransformStep(t, m[t]) in steps)
  }

  /** However a map is listed, the engine reads the same map back. */
  lemma {:induction false} ModeMapOfListing(steps: seq<TransformStep>, m: Modes)
    requires Lists(steps, m)
    ensures ModeMap(steps) == m
  {
    ModeMapEntries(steps);
    forall t | t in m ensures t in ModeMap(steps) && ModeMap(steps)[t] == m[t] {
      assert TransformStep(t, m[t]) in steps;
    }
  }

  lemma {:induction false} ModeMapEntries(steps: seq<TransformStep>)
    ensures forall s :: s in steps ==> s.entityType in ModeMap(steps)
    ensures forall t :: t in ModeMap(steps) ==> TransformStep(t, ModeMap(steps)[t]) in steps
  {
    if steps != [] {
      var front := steps[..|steps| - 1];
      assert steps == front + [steps[|steps| - 1]];
      ModeMapEntries(front);
    }
  }

  lemma DistinctTypesListing(steps: seq<TransformStep>)
    requires DistinctTypes(steps)
    ensures Lists(steps, ModeMap(steps))
  {
    ModeMapEntries(steps);
    forall s | s in steps ensures s.entityType in ModeMap(steps) && ModeMap(steps)[s.entityType] == s.mode {
      assert TransformStep(s.entityType, ModeMap(steps)[s.entityType]) in steps;
    }
  }

  /** Reordering steps with distinct entity types changes nothing. */
  lemma StepOrderIrrelevant(steps1: seq<TransformStep>, steps2: seq<TransformStep>)
    requires multiset(steps1) == multiset(steps2) && DistinctTypes(steps1)
    ensures ModeMap(steps1) == ModeMap(steps2)
  {
    DistinctTypesListing(steps1);
    SameElements(steps1, steps2);
    ModeMapOfListing(steps2, ModeMap(steps1));
  }

  /** With a repeated type the order does matter: the last step wins. */
  lemma RepeatedTypeOrderMatters(t: string)
    ensures var a, b := TransformStep(t, Mask), TransformStep(t, Redact);
            multiset([a, b]) == multiset([b, a]) && ModeMap([a, b]) != ModeMap([b, a])
  {
    var a, b := TransformStep(t, Mask), TransformStep(t, Redact);
    assert [a, b][..1] == [a] && [b, a][..1] == [b];
    assert ModeMap([a, b])[t] == Redact && ModeMap([b, a])[t] == Mask;
  }

  // ---------------------------------------------------------------- masking

  /** Every planned finding in range is masked by as many stars as its span has bytes. */
  ghost predicate MasksSpans(modes: Modes, input: Bytes, findings: seq<ScanFinding>) {
    forall f :: f in findings && f.entityType in modes && Fits(f, |input|) ==>
      modes[f.entityType] == Mask && |f.value| == f.end - f.start
  }

  /** Masking keeps the length and overwrites exactly the covered bytes, however the
      findings overlap, nest or repeat. */
  lemma MaskIsUnion(lib: Library, modes: Modes, input: Bytes, findings: seq<ScanFinding>)
    requires MasksSpans(modes, input, findings)
    ensures var output := TransformSpec(lib, modes, input, findings).0;
            && |output| == |input|
            && forall i :: 0 <= i < |input| ==>
                 output[i] == if Covered(Planned(modes, findings), |input|, i) then STAR else input[i]
  {
    var repl := Rewrites(lib, modes);
    var p := Planned(modes, findings);
    var s := Sort(FindingBefore, p);
    SortedPlan(modes, findings);
    SameElements(s, p);
    FilterElements(PlannedBy(modes), findings);
    forall f | f in s && Fits(f, |input|) ensures repl(f) == seq(f.end - f.start, _ => STAR) {
      assert f in p && f in findings;
    }
    FillIsUnion(repl, STAR, input, s);
    forall i | 0 <= i < |input| ensures Covered(s, |input|, i) == Covered(p, |input|, i) {
    }
  }

  lemma PlanOne(modes: Modes, f: ScanFinding)
    requires f.entityType in modes
    ensures Planned(modes, [f]) == [f] && Sort(FindingBefore, [f]) == [f]
  {
    assert PlannedBy(modes)(f) && [f][1..] == [];
    assert Filter(PlannedBy(modes), [f][1..]) == [];
  }

  lemma PlanTwo(modes: Modes, f: ScanFinding, g: ScanFinding)
    requires f.entityType in modes && g.entityType in modes && FindingBefore(g, f)
    ensures Planned(modes, [f, g]) == [f, g] && Sort(FindingBefore, [f, g]) == [g, f]
  {
    PlanOne(modes, f);
    PlanOne(modes, g);
    assert [f, g][1..] == [g] && [g][1..] == [];
    assert PlannedBy(modes)(f);
    assert Insert(FindingBefore, f, [g][1..]) == [f];
  }

  /** The hypothesis on values is needed: a value longer than its span lengthens the text. */
  lemma MaskNeedsMatchingValue(lib: Library)
    ensures var f := ScanFinding("email", [97, 98], 0, 1, 0.0);
            |TransformSpec(lib, map["email" := Mask], [97], [f]).0| == 2
  {
    var f := ScanFinding("email", [97, 98], 0, 1, 0.0);
    var modes: Modes := map["email" := Mask];
    PlanOne(modes, f);
    TransformLength(lib, modes, [97], [f]);
    assert [f][1..] == [];
    assert Spliced(Rewrites(lib, modes), [97], [f]) == [f];
    assert Growth(Rewrites(lib, modes), [f]) == 1;
  }

  const OUTER := ScanFinding("ssn", [1, 2, 3], 0, 3, 0.0)
  const INNER := ScanFinding("ssn", [2], 1, 2, 0.0)
  const NESTED_TEXT: Bytes := [1, 2, 3]

  function NestedModes(): Modes { map["ssn" := Redact] }

  /** Disjointness is needed for the one-pass law: with nested findings the outer replacement cuts
      into the inner one, and the last byte of the outer value is left behind. */
  lemma OverlapBreaksOnePass(lib: Library)
    ensures var out := TransformSpec(lib, NestedModes(), NESTED_TEXT, [OUTER, INNER]).0;
            |out| == 19 && out[18] == NESTED_TEXT[2]
    ensures AllFit(NESTED_TEXT, {OUTER, INNER})
    ensures |OnePass(Rewrites(lib, NestedModes()), NESTED_TEXT, 0, {OUTER, INNER})| == 10
  {
    var repl := Rewrites(lib, NestedModes());
    ReplacementSizes(lib, Redact, "ssn", [2]);
    ReplacementSizes(lib, Redact, "ssn", [1, 2, 3]);
    assert |repl(INNER)| == 10 && |repl(OUTER)| == 10;
    PlanTwo(NestedModes(), OUTER, INNER);
    NestedSplices(repl, OUTER, INNER, NESTED_TEXT);
    NestedOnePass(repl, OUTER, INNER, NESTED_TEXT);
  }

  lemma NestedSplices(repl: Rewriter, outer: ScanFinding, inner: ScanFinding, text: Bytes)
    requires |text| == 3 && outer.start == 0 && outer.end == 3 && inner.start == 1 && inner.end == 2
    requires |repl(inner)| == 10 && |repl(outer)| == 10
    ensures var out := SpliceAll(repl, text, [inner, outer]); |out| == 19 && out[18] == text[2]
  {
    var once := SpliceOne(repl, text, inner);
    assert [inner, outer][1..] == [outer] && [outer][1..] == [];
    assert |once| == 12 && once[11] == text[2];
    assert SpliceAll(repl, once, [outer]) == SpliceOne(repl, once, outer);
  }

  lemma NestedOnePass(repl: Rewriter, outer: ScanFinding, inner: ScanFinding, text: Bytes)
    requires |text| == 3 && outer.start == 0 && outer.end == 3 && inner.start == 1 && inner.end == 2
    requires |repl(outer)| == 10
    ensures AllFit(text, {outer, inner}) && |OnePass(repl, text, 0, {outer, inner})| == 10
  {
    var S := {outer, inner};
    assert outer in S && forall g :: g in S && g.start == 0 ==> g == outer;
    assert OnePass(repl, text, 3, S) == [];
  }

  // ---------------------------------------------------------------- the plans the server builds

  /** The modes of a transform request: its own map, or its single mode for every type found. */
  function RequestModes(entityModes: Modes, mode: Option<TransformMode>, findings: seq<ScanFinding>): Modes {
    if |entityModes| > 0 || mode.None? then entityModes
    else map t | t in TypesOf(findings) :: mode.value
  }

  function TypesOf(findings: seq<ScanFinding>): set<string> { set f | f in findings :: f.entityType }

  method TransformRequestPlan(entityModes: Modes, mode: Option<TransformMode>, findings: seq<ScanFinding>)
    returns (plan: seq<TransformStep>)
    ensures ModeMap(plan) == RequestModes(entityModes, mode, findings)
    ensures DistinctTypes(plan)
  {
    var modes := entityModes;
    if |modes| == 0 && mode.Some? {
      for i := 0 to |findings|
        invariant modes == map t | t in TypesOf(findings[..i]) :: mode.value
      {
        assert findings[..i + 1] == findings[..i] + [findings[i]];
        modes := modes[findings[i].entityType := mode.value];
      }
      assert findings[..|findings|] == findings;
    }
    plan := PlanOf(modes);
  }

  /** A request's own modes are taken as they are if it has any; otherwise its single mode, if it has one, is that of
      every type found, and without one nothing is rewritten. */
  lemma RequestModesTold(entityModes: Modes, mode: Option<TransformMode>, findings: seq<ScanFinding>, t: string)
    ensures var modes := RequestModes(entityModes, mode, findings);
            if |entityModes| > 0 then
              (t in modes <==> t in entityModes) && (t in modes ==> modes[t] == entityModes[t])
            else
              && (t in modes <==> mode.Some? && exists i :: 0 <= i < |findings| && findings[i].entityType == t)
              && (t in modes ==> modes[t] == mode.value)
  {
    if t in TypesOf(findings) {
      var f :| f in findings && f.entityType == t;
      var i :| 0 <= i < |findings| && findings[i] == f;
    }
  }

  /** A Go map is iterated in whatever order; the plan reads back as the same map. */
  method PlanOf(modes: Modes) returns (plan: seq<TransformStep>)
    ensures ModeMap(plan) == modes && DistinctTypes(plan)
  {
    plan := [];
    var rest := modes.Keys;
    while rest != {}
      invariant rest <= modes.Keys
      invariant forall s :: s in plan ==>
                  s.entityType in modes && s.entityType !in rest && modes[s.entityType] == s.mode
      invariant forall t :: t in modes ==> t in rest || TransformStep(t, modes[t]) in plan
      invariant DistinctTypes(plan)
      decreases |rest|
    {
      var t :| t in rest;
      plan := plan + [TransformStep(t, modes[t])];
      rest := rest - {t};
    }
    ModeMapOfListing(plan, modes);
  }

  /** Every type found is anonymized, each listed once. */
  method AnonymizeRequestPlan(findings: seq<ScanFinding>) returns (plan: seq<TransformStep>)
    ensures ModeMap(plan) == map t | t in TypesOf(findings) :: Anonymize
    ensures DistinctTypes(plan)
  {
    plan := [];
    var seen: set<string> := {};
    for i := 0 to |findings|
      invariant seen == TypesOf(findings[..i])
      invariant forall s :: s in plan ==> s.entityType in seen && s.mode == Anonymize
      invariant forall t :: t in seen ==> TransformStep(t, Anonymize) in plan
      invariant DistinctTypes(plan)
    {
      assert findings[..i + 1] == findings[..i] + [findings[i]];
      if findings[i].entityType in seen {
        continue;
      }
      seen := seen + {findings[i].entityType};
      plan := plan + [TransformStep(findings[i].entityType, Anonymize)];
    }
    assert findings[..|findings|] == findings;
    ModeMapOfListing(plan, map t | t in seen :: Anonymize);
  }

  // ---------------------------------------------------------------- texts and labels

  /** The texts values are replaced by, as a reader of the output decodes them. */
  lemma ReplacementTexts(lib: Library, mode: TransformMode, t: string, value: Bytes)
    requires mode != Mask
    ensures var text := Decode(ReplacementForModeWithType(lib, mode, t, value));
            var short := lib.digest(value)[..8];
            text == (match mode
                     case Tokenize => "TOK-" + short
                     case Anonymize => "anon-" + short
                     case Redact => "[REDACTED]"
                     case Replace => "[" + lib.toUpper(t) + "_" + short + "]"
                     case Hash => lib.digest(value)
                     case OtherMode(_) => "[FILTERED]")
  {
    ReplacementRevealsMode(lib, mode, t, value);
  }

  lemma MaskText(lib: Library, t: string, value: Bytes)
    ensures var stars := ReplacementForModeWithType(lib, Mask, t, value);
            |stars| == |value| && forall k :: 0 <= k < |stars| ==> stars[k] as int == '*' as int
  {
  }

  // ---------------------------------------------------------------- labels

  ghost predicate Ascending(parts: seq<string>) {
    forall i, j :: 0 <= i < j < |parts| ==> StringBefore(parts[i], parts[j])
  }

  /** A finding of the list is rewritten under this type and mode. */
  ghost predicate LabelOfSome(modes: Modes, applied: seq<ScanFinding>, p: string) {
    exists f :: f in applied && LabelIs(modes, f, p)
  }

  predicate LabelIs(modes: Modes, f: ScanFinding, p: string) {
    f.entityType in modes && p == f.entityType + ":" + match modes[f.entityType]
                                                        case Mask => "mask"
                                                        case Tokenize => "tokenize"
                                                        case Anonymize => "anonymize"
                                                        case Redact => "redact"
                                                        case Replace => "replace"
                                                        case Hash => "hash"
                                                        case OtherMode(name) => name
  }

  lemma LabelIsLabel(modes: Modes, f: ScanFinding, p: string)
    requires f.entityType in modes
    ensures LabelIs(modes, f, p) <==> p == Label(modes, f)
  {
  }

  lemma LabelsOfSome(modes: Modes, applied: seq<ScanFinding>, p: string)
    requires forall f :: f in applied ==> f.entityType in modes
    ensures p in LabelsOf(modes, applied) <==> LabelOfSome(modes, applied, p)
  {
    if p in LabelsOf(modes, applied) {
      var f :| f in applied && Label(modes, f) == p;
      LabelIsLabel(modes, f, p);
    }
    if LabelOfSome(modes, applied, p) {
      var f :| f in applied && LabelIs(modes, f, p);
      LabelIsLabel(modes, f, p);
    }
  }

  /** The statistics list each pair of type and mode applied once, as `type:mode`, in ascending order. */
  lemma LabelsListed(lib: Library, modes: Modes, input: Bytes, findings: seq<ScanFinding>) returns (parts: seq<string>)
    ensures TransformSpec(lib, modes, input, findings).1.modesApplied == Join(parts, ",")
    ensures Ascending(parts)
    ensures forall p :: p in parts <==>
              LabelOfSome(modes, Spliced(Rewrites(lib, modes), input, Sort(FindingBefore, Planned(modes, findings))), p)
  {
    var sorted := Sort(FindingBefore, Planned(modes, findings));
    var applied := Spliced(Rewrites(lib, modes), input, sorted);
    SplicedElements(Rewrites(lib, modes), input, sorted);
    PlannedInMap(modes, findings);
    parts := SortedSet(LabelsOf(modes, applied));
    SortedSetAscends(LabelsOf(modes, applied));
    forall p ensures p in parts <==> LabelOfSome(modes, applied, p) {
      LabelsOfSome(modes, applied, p);
    }
  }

  lemma {:induction false} SplicedElements(repl: Rewriter, buf: Bytes, fs: seq<ScanFinding>)
    ensures forall f :: f in Spliced(repl, buf, fs) ==> f in fs
    decreases |fs|
  {
    if fs != [] {
      SplicedElements(repl, if Fits(fs[0], |buf|) then SpliceOne(repl, buf, fs[0]) else buf, fs[1..]);
    }
  }
}
