/** What a rewritten text still gives away about the values it hides. */
module Hiding {
  import opened Utf8
  import opened Models
  import opened StableSort
  import opened Splice
  import opened Transform
  import opened Rewriting

  // ---------------------------------------------------------------- one replacement

  /** Two values look the same through a mode: a mask shows their length, a token, an
      anonymous name or a typed replacement the first eight digits of their digest, a
      hash the whole digest, and a redaction nothing. */
  predicate LooksSame(lib: Library, mode: TransformMode, v: Bytes, w: Bytes) {
    match mode
    case Mask => |v| == |w|
    case Tokenize => DeterministicPrefix(lib, v) == DeterministicPrefix(lib, w)
    case Anonymize => DeterministicPrefix(lib, v) == DeterministicPrefix(lib, w)
    case Replace => DeterministicPrefix(lib, v) == DeterministicPrefix(lib, w)
    case Hash => lib.digest(v) == lib.digest(w)
    case _ => true
  }

  lemma SurroundedInjective(a: string, p: string, q: string, b: string)
    ensures a + p + b == a + q + b ==> p == q
  {
    if a + p + b == a + q + b {
      assert p == (a + p + b)[|a|..|a| + |p|];
      assert |p| == |q|;
      assert q == (a + q + b)[|a|..|a| + |q|];
    }
  }

  lemma SameTextIff(lib: Library, mode: TransformMode, t: string, v: Bytes, w: Bytes)
    requires mode != Mask
    ensures ReplacementText(lib, mode, t, v) == ReplacementText(lib, mode, t, w) <==> LooksSame(lib, mode, v, w)
  {
    var p, q := DeterministicPrefix(lib, v), DeterministicPrefix(lib, w);
    match mode
    case Tokenize => Suffixed("TOK-", p, q);
    case Anonymize => Suffixed("anon-", p, q);
    case Replace => SurroundedInjective("[" + lib.toUpper(t) + "_", p, q, "]");
    case _ =>
  }

  lemma Suffixed(a: string, p: string, q: string)
    ensures a + p == a + q <==> p == q
  {
    if a + p == a + q {
      assert (a + p)[|a|..] == p && (a + q)[|a|..] == q;
    }
  }

  /** A replacement gives away exactly what `LooksSame` compares, no more and no less. */
  lemma SameReplacementIff(lib: Library, mode: TransformMode, t: string, v: Bytes, w: Bytes)
    ensures ReplacementForModeWithType(lib, mode, t, v) == ReplacementForModeWithType(lib, mode, t, w)
       <==> LooksSame(lib, mode, v, w)
  {
    if mode != Mask {
      ReplacementIsText(lib, mode, t, v);
      ReplacementIsText(lib, mode, t, w);
      DecodeEncode(ReplacementText(lib, mode, t, v));
      DecodeEncode(ReplacementText(lib, mode, t, w));
      SameTextIff(lib, mode, t, v, w);
    } else {
      assert |ReplacementForModeWithType(lib, mode, t, v)| == |v|;
      assert |ReplacementForModeWithType(lib, mode, t, w)| == |w|;
    }
  }

  // ---------------------------------------------------------------- a whole text

  /** Same type and span, and values that the plan makes look the same. */
  predicate Alike(lib: Library, modes: Modes, f: ScanFinding, g: ScanFinding) {
    && f.entityType == g.entityType && f.start == g.start && f.end == g.end
    && (f.entityType in modes ==> LooksSame(lib, modes[f.entityType], f.value, g.value))
  }

  ghost predicate AllAlike(lib: Library, modes: Modes, fs: seq<ScanFinding>, gs: seq<ScanFinding>) {
    |fs| == |gs| && forall i :: 0 <= i < |fs| ==> Alike(lib, modes, fs[i], gs[i])
  }

  lemma AlikeReplaced(lib: Library, modes: Modes, f: ScanFinding, g: ScanFinding)
    requires Alike(lib, modes, f, g)
    ensures Rewrites(lib, modes)(f) == Rewrites(lib, modes)(g)
  {
    if f.entityType in modes {
      SameReplacementIff(lib, modes[f.entityType], f.entityType, f.value, g.value);
    }
  }

  lemma {:induction false} FilterAlike(lib: Library, modes: Modes, p: ScanFinding -> bool, q: ScanFinding -> bool,
                                       fs: seq<ScanFinding>, gs: seq<ScanFinding>)
    requires AllAlike(lib, modes, fs, gs)
    requires forall f, g :: Alike(lib, modes, f, g) ==> p(f) == q(g)
    ensures AllAlike(lib, modes, Filter(p, fs), Filter(q, gs))
  {
    if fs != [] {
      assert Alike(lib, modes, fs[0], gs[0]);
      FilterAlike(lib, modes, p, q, fs[1..], gs[1..]);
    }
  }

  /** Position by position the same span with the same replacement. */
  ghost predicate SameSpans(r: Rewriter, fs: seq<ScanFinding>, gs: seq<ScanFinding>) {
    |fs| == |gs| && forall i :: 0 <= i < |fs| ==> SameSpan(r, fs[i], gs[i])
  }

  predicate SameSpan(r: Rewriter, f: ScanFinding, g: ScanFinding) {
    f.start == g.start && f.end == g.end && r(f) == r(g)
  }

  lemma Twin(r: Rewriter, t1: Bytes, fs: seq<ScanFinding>, t2: Bytes, gs: seq<ScanFinding>, f: ScanFinding)
    returns (g: ScanFinding)
    requires |t1| == |t2| && SameSpans(r, fs, gs) && f in Selected(t1, fs)
    ensures g in Selected(t2, gs) && SameSpan(r, f, g)
  {
    var i :| 0 <= i < |fs| && fs[i] == f;
    g := gs[i];
  }

  lemma TwinsSwap(r: Rewriter, fs: seq<ScanFinding>, gs: seq<ScanFinding>)
    requires SameSpans(r, fs, gs)
    ensures SameSpans(r, gs, fs)
  {
  }

  ghost predicate Inside(S: set<ScanFinding>, i: int) { exists f :: f in S && f.start <= i < f.end }

  ghost predicate AgreeOutside(t1: Bytes, t2: Bytes, S: set<ScanFinding>) {
    |t1| == |t2| && forall i :: 0 <= i < |t1| && !Inside(S, i) ==> t1[i] == t2[i]
  }

  /** No span of the set straddles the position. */
  ghost predicate Between(S: set<ScanFinding>, pos: int) { forall f :: f in S ==> f.end <= pos || pos <= f.start }

  lemma BetweenSteps(text: Bytes, S: set<ScanFinding>, pos: nat)
    requires AllFit(text, S) && DisjointSet(S) && Between(S, pos)
    ensures forall f :: f in S ==> Between(S, f.end)
    ensures (forall f :: f in S ==> f.start != pos) ==> Between(S, pos + 1) && !Inside(S, pos)
  {
  }

  /** Both rewrites emit the same replacement where a span starts. */
  lemma StartBoth(r: Rewriter, t1: Bytes, fs: seq<ScanFinding>, t2: Bytes, gs: seq<ScanFinding>, f: ScanFinding)
    requires |t1| == |t2| && SameSpans(r, fs, gs) && f in Selected(t1, fs)
    requires DisjointSet(Selected(t1, fs)) && DisjointSet(Selected(t2, gs))
    ensures OnePass(r, t1, f.start, Selected(t1, fs)) == r(f) + OnePass(r, t1, f.end, Selected(t1, fs))
    ensures OnePass(r, t2, f.start, Selected(t2, gs)) == r(f) + OnePass(r, t2, f.end, Selected(t2, gs))
  {
    var g := Twin(r, t1, fs, t2, gs, f);
    OnePassStart(r, t1, Selected(t1, fs), f);
    OnePassStart(r, t2, Selected(t2, gs), g);
  }

  /** Both rewrites copy the same byte where none starts. */
  lemma CopyBoth(r: Rewriter, t1: Bytes, fs: seq<ScanFinding>, t2: Bytes, gs: seq<ScanFinding>, pos: nat)
    requires SameSpans(r, fs, gs) && AgreeOutside(t1, t2, Selected(t1, fs)) && pos < |t1|
    requires !Inside(Selected(t1, fs), pos) && forall f :: f in Selected(t1, fs) ==> f.start != pos
    ensures OnePass(r, t1, pos, Selected(t1, fs)) == [t1[pos]] + OnePass(r, t1, pos + 1, Selected(t1, fs))
    ensures OnePass(r, t2, pos, Selected(t2, gs)) == [t1[pos]] + OnePass(r, t2, pos + 1, Selected(t2, gs))
  {
    NoneStarts(r, t1, fs, t2, gs, pos);
    Copied(r, t1, Selected(t1, fs), pos);
    Copied(r, t2, Selected(t2, gs), pos);
  }

  ghost predicate Blindfold(r: Rewriter, t1: Bytes, fs: seq<ScanFinding>, t2: Bytes, gs: seq<ScanFinding>) {
    && SameSpans(r, fs, gs) && AgreeOutside(t1, t2, Selected(t1, fs))
    && DisjointSet(Selected(t1, fs)) && DisjointSet(Selected(t2, gs))
  }

  /** From a position between spans both rewrites emit the same bytes and move to the same next one. */
  lemma StepBoth(r: Rewriter, t1: Bytes, fs: seq<ScanFinding>, t2: Bytes, gs: seq<ScanFinding>, pos: nat)
    returns (out: Bytes, next: nat)
    requires Blindfold(r, t1, fs, t2, gs) && pos < |t1| && Between(Selected(t1, fs), pos)
    ensures pos < next <= |t1| && Between(Selected(t1, fs), next)
    ensures OnePass(r, t1, pos, Selected(t1, fs)) == out + OnePass(r, t1, next, Selected(t1, fs))
    ensures OnePass(r, t2, pos, Selected(t2, gs)) == out + OnePass(r, t2, next, Selected(t2, gs))
  {
    BetweenSteps(t1, Selected(t1, fs), pos);
    if f :| f in Selected(t1, fs) && f.start == pos {
      StartBoth(r, t1, fs, t2, gs, f);
      return r(f), f.end;
    }
    CopyBoth(r, t1, fs, t2, gs, pos);
    return [t1[pos]], pos + 1;
  }

  /** The one-pass rewrite never looks at the bytes inside the spans it replaces. */
  lemma {:induction false} OnePassBlind(r: Rewriter, t1: Bytes, fs: seq<ScanFinding>, t2: Bytes, gs: seq<ScanFinding>,
                                        pos: nat)
    requires Blindfold(r, t1, fs, t2, gs) && pos <= |t1| && Between(Selected(t1, fs), pos)
    ensures OnePass(r, t1, pos, Selected(t1, fs)) == OnePass(r, t2, pos, Selected(t2, gs))
    decreases |t1| - pos
  {
    if pos < |t1| {
      var out, next := StepBoth(r, t1, fs, t2, gs, pos);
      OnePassBlind(r, t1, fs, t2, gs, next);
    }
  }

  lemma Copied(r: Rewriter, text: Bytes, S: set<ScanFinding>, pos: nat)
    requires pos < |text| && AllFit(text, S) && forall f :: f in S ==> f.start != pos
    ensures OnePass(r, text, pos, S) == [text[pos]] + OnePass(r, text, pos + 1, S)
  {
  }

  lemma NoneStarts(r: Rewriter, t1: Bytes, fs: seq<ScanFinding>, t2: Bytes, gs: seq<ScanFinding>, pos: int)
    requires |t1| == |t2| && SameSpans(r, fs, gs) && forall f :: f in Selected(t1, fs) ==> f.start != pos
    ensures forall g :: g in Selected(t2, gs) ==> g.start != pos
  {
    TwinsSwap(r, fs, gs);
    forall g | g in Selected(t2, gs) ensures g.start != pos {
      var f := Twin(r, t2, gs, t1, fs, g);
    }
  }

  lemma SelectedDisjoint(text: Bytes, fs: seq<ScanFinding>)
    requires Disjoint(fs)
    ensures DisjointSet(Selected(text, fs))
  {
    forall f, g | f in Selected(text, fs) && g in Selected(text, fs) && f != g ensures Apart(f, g) {
      var i :| 0 <= i < |fs| && fs[i] == f;
      var j :| 0 <= j < |fs| && fs[j] == g;
      assert Apart(fs[if i < j then i else j], fs[if i < j then j else i]);
    }
  }

  lemma AlikeSpans(lib: Library, modes: Modes, fs: seq<ScanFinding>, gs: seq<ScanFinding>)
    requires AllAlike(lib, modes, fs, gs)
    ensures SameSpans(Rewrites(lib, modes), fs, gs)
  {
    forall i | 0 <= i < |fs| ensures SameSpan(Rewrites(lib, modes), fs[i], gs[i]) {
      assert Alike(lib, modes, fs[i], gs[i]);
      AlikeReplaced(lib, modes, fs[i], gs[i]);
    }
  }

  lemma SameLabels(lib: Library, modes: Modes, fs: seq<ScanFinding>, gs: seq<ScanFinding>)
    requires AllAlike(lib, modes, fs, gs)
    ensures LabelsOf(modes, fs) == LabelsOf(modes, gs)
  {
    assert forall i :: 0 <= i < |fs| ==> Alike(lib, modes, fs[i], gs[i]);
    forall l ensures l in LabelsOf(modes, fs) <==> l in LabelsOf(modes, gs) {
      if f :| f in fs && Label(modes, f) == l {
        var i :| 0 <= i < |fs| && fs[i] == f;
        assert gs[i] in gs && Label(modes, gs[i]) == l;
      }
      if g :| g in gs && Label(modes, g) == l {
        var i :| 0 <= i < |gs| && gs[i] == g;
        assert fs[i] in fs && Label(modes, fs[i]) == l;
      }
    }
  }

  /** Two texts that differ only inside the spans a plan rewrites, and there only in ways the
      modes do not show, come out the same: same output, same statistics. */
  lemma OutputHidesValues(lib: Library, modes: Modes, t1: Bytes, fs: seq<ScanFinding>, t2: Bytes, gs: seq<ScanFinding>)
    requires AllAlike(lib, modes, fs, gs) && Disjoint(Planned(modes, fs))
    requires AgreeOutside(t1, t2, EffectiveSet(modes, t1, fs))
    ensures TransformSpec(lib, modes, t1, fs) == TransformSpec(lib, modes, t2, gs)
  {
    var p1, p2 := Planned(modes, fs), Planned(modes, gs);
    FilterAlike(lib, modes, PlannedBy(modes), PlannedBy(modes), fs, gs);
    assert forall i :: 0 <= i < |p1| ==> Alike(lib, modes, p1[i], p2[i]);
    assert Disjoint(p2);
    FilterAlike(lib, modes, FitsIn(t1), FitsIn(t2), p1, p2);
    SameLabels(lib, modes, Effective(modes, t1, fs), Effective(modes, t2, gs));
    TransformIsOnePass(lib, modes, t1, fs);
    TransformIsOnePass(lib, modes, t2, gs);
    SelectedDisjoint(t1, p1);
    SelectedDisjoint(t2, p2);
    AlikeSpans(lib, modes, p1, p2);
    OnePassBlind(Rewrites(lib, modes), t1, p1, t2, p2, 0);
  }
}
