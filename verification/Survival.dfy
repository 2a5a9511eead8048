/** Which bytes of a text come through the splicing, however the spans overlap. */
module Survival {
  import opened Utf8
  import opened Models
  import opened StableSort
  import opened Splice
  import opened Transform
  import Rewriting

  // ---------------------------------------------------------------- provenance

  /** A byte of the buffer: from a position of the text, or from a replacement. */
  datatype Cell = Kept(pos: nat) | New(b: byte)

  function Whole(n: nat): seq<Cell> { seq(n, i requires 0 <= i < n => Kept(i)) }

  function Inserted(b: Bytes): seq<Cell> { seq(|b|, i requires 0 <= i < |b| => New(b[i])) }

  function SpliceCells(repl: Rewriter, cells: seq<Cell>, f: ScanFinding): seq<Cell>
    requires Fits(f, |cells|)
  {
    cells[..f.start] + Inserted(repl(f)) + cells[f.end..]
  }

  /** The splicing loop on provenance instead of bytes. */
  function TraceAll(repl: Rewriter, cells: seq<Cell>, fs: seq<ScanFinding>): seq<Cell>
    decreases |fs|
  {
    if fs == [] then cells
    else if Fits(fs[0], |cells|) then TraceAll(repl, SpliceCells(repl, cells, fs[0]), fs[1..])
    else TraceAll(repl, cells, fs[1..])
  }

  ghost predicate Within(text: Bytes, cells: seq<Cell>) {
    forall i :: 0 <= i < |cells| && cells[i].Kept? ==> cells[i].pos < |text|
  }

  /** The buffer holds the bytes its cells come from. */
  ghost predicate Shows(text: Bytes, cells: seq<Cell>, buf: Bytes) {
    && Within(text, cells) && |buf| == |cells|
    && forall i :: 0 <= i < |cells| ==> buf[i] == match cells[i] case Kept(p) => text[p] case New(b) => b
  }

  lemma {:induction false} TraceShows(repl: Rewriter, text: Bytes, cells: seq<Cell>, buf: Bytes, fs: seq<ScanFinding>)
    requires Shows(text, cells, buf)
    ensures Shows(text, TraceAll(repl, cells, fs), SpliceAll(repl, buf, fs))
    decreases |fs|
  {
    if fs != [] {
      if Fits(fs[0], |buf|) {
        TraceShows(repl, text, SpliceCells(repl, cells, fs[0]), SpliceOne(repl, buf, fs[0]), fs[1..]);
      } else {
        TraceShows(repl, text, cells, buf, fs[1..]);
      }
    }
  }

  // ---------------------------------------------------------------- following one index

  function Delta(repl: Rewriter, f: ScanFinding): int { |repl(f)| - (f.end - f.start) }

  /** Where a buffer index is after these findings were spliced, unless one of them removed it. */
  function Place(repl: Rewriter, fs: seq<ScanFinding>, q: int): Option<int>
    decreases |fs|
  {
    if fs == [] then Some(q)
    else if q < fs[0].start then Place(repl, fs[1..], q)
    else if q < fs[0].end then None
    else Place(repl, fs[1..], q + Delta(repl, fs[0]))
  }

  /** The cells of a buffer that come through, and where. */
  ghost predicate Carried(repl: Rewriter, spliced: seq<ScanFinding>, cells: seq<Cell>, out: seq<Cell>) {
    && (forall q :: 0 <= q < |cells| && Place(repl, spliced, q).Some? ==>
          var i := Place(repl, spliced, q).value; 0 <= i < |out| && out[i] == cells[q])
    && (forall i :: 0 <= i < |out| && out[i].Kept? ==> ComesFrom(repl, spliced, |cells|, i))
  }

  ghost predicate ComesFrom(repl: Rewriter, spliced: seq<ScanFinding>, n: nat, i: int) {
    exists q :: 0 <= q < n && Place(repl, spliced, q) == Some(i)
  }

  lemma CarriedStep(repl: Rewriter, f: ScanFinding, rest: seq<ScanFinding>, cells: seq<Cell>, out: seq<Cell>)
    requires Fits(f, |cells|) && Carried(repl, rest, SpliceCells(repl, cells, f), out)
    ensures Carried(repl, [f] + rest, cells, out)
  {
    var all, next := [f] + rest, SpliceCells(repl, cells, f);
    assert all[1..] == rest;
    forall q | 0 <= q < |cells| && Place(repl, all, q).Some?
      ensures var i := Place(repl, all, q).value; 0 <= i < |out| && out[i] == cells[q]
    {
      var q' := if q < f.start then q else q + Delta(repl, f);
      assert Place(repl, all, q) == Place(repl, rest, q') && next[q'] == cells[q];
    }
    forall i | 0 <= i < |out| && out[i].Kept? ensures ComesFrom(repl, all, |cells|, i) {
      assert ComesFrom(repl, rest, |next|, i);
      var q' :| 0 <= q' < |next| && Place(repl, rest, q') == Some(i);
      assert next[q'].Kept?;
      var q := if q' < f.start then q' else q' - Delta(repl, f);
      assert Place(repl, all, q) == Some(i);
    }
  }

  lemma {:induction false} TraceCarries(repl: Rewriter, buf: Bytes, cells: seq<Cell>, fs: seq<ScanFinding>)
    requires |buf| == |cells|
    ensures Carried(repl, Spliced(repl, buf, fs), cells, TraceAll(repl, cells, fs))
    decreases |fs|
  {
    if fs == [] {
      forall i | 0 <= i < |cells| ensures ComesFrom(repl, [], |cells|, i) {
        assert Place(repl, [], i) == Some(i);
      }
    } else if Fits(fs[0], |buf|) {
      var next := SpliceOne(repl, buf, fs[0]);
      TraceCarries(repl, next, SpliceCells(repl, cells, fs[0]), fs[1..]);
      CarriedStep(repl, fs[0], Spliced(repl, next, fs[1..]), cells, TraceAll(repl, cells, fs));
    } else {
      TraceCarries(repl, buf, cells, fs[1..]);
    }
  }

  // ---------------------------------------------------------------- when a byte survives

  function StartsBy(p: int): ScanFinding -> bool { (f: ScanFinding) => f.start <= p }

  /** How far position p has been moved by the findings spliced so far. */
  function Shift(repl: Rewriter, fs: seq<ScanFinding>, p: int): int { Growth(repl, Filter(StartsBy(p), fs)) }

  /** Each finding spliced, if it starts at or before p, ends at or before where p has been
      moved by the findings spliced before it. */
  ghost predicate Survives(repl: Rewriter, fs: seq<ScanFinding>, p: int) {
    forall i :: 0 <= i < |fs| ==> Spares(repl, fs, p, i)
  }

  /** The i-th finding leaves p alone. */
  predicate Spares(repl: Rewriter, fs: seq<ScanFinding>, p: int, i: nat)
    requires i < |fs|
  {
    fs[i].start <= p ==> fs[i].end <= p + Shift(repl, fs[..i], p)
  }

  lemma {:induction false} GrowthAppend(repl: Rewriter, a: seq<ScanFinding>, b: seq<ScanFinding>)
    ensures Growth(repl, a + b) == Growth(repl, a) + Growth(repl, b)
  {
    if a == [] {
      assert a + b == b;
    } else {
      assert (a + b)[1..] == a[1..] + b;
      GrowthAppend(repl, a[1..], b);
    }
  }

  lemma ShiftSnoc(repl: Rewriter, fs: seq<ScanFinding>, f: ScanFinding, p: int)
    ensures Shift(repl, fs + [f], p) == Shift(repl, fs, p) + if f.start <= p then Delta(repl, f) else 0
  {
    assert [f][1..] == [];
    FilterAppend(StartsBy(p), fs, [f]);
    GrowthAppend(repl, Filter(StartsBy(p), fs), Filter(StartsBy(p), [f]));
  }

  /** Starts descend. */
  ghost predicate Descending(fs: seq<ScanFinding>) {
    forall i, j :: 0 <= i < j < |fs| ==> fs[j].start <= fs[i].start
  }

  lemma ShiftNext(repl: Rewriter, fs: seq<ScanFinding>, k: nat, p: int)
    requires k < |fs|
    ensures Shift(repl, fs[..k + 1], p) == Shift(repl, fs[..k], p) + if fs[k].start <= p then Delta(repl, fs[k]) else 0
  {
    assert fs[..k + 1] == fs[..k] + [fs[k]];
    ShiftSnoc(repl, fs[..k], fs[k], p);
  }

  /** If p came through the first k findings it is now right of where they start; those that start
      behind p have not moved it. */
  ghost predicate Standing(repl: Rewriter, fs: seq<ScanFinding>, k: nat, p: int)
    requires k <= |fs|
  {
    if k > 0 && fs[k - 1].start <= p then fs[k - 1].start <= p + Shift(repl, fs[..k], p)
    else Shift(repl, fs[..k], p) == 0
  }

  ghost predicate SurvivesFrom(repl: Rewriter, fs: seq<ScanFinding>, k: nat, p: int) {
    forall i :: k <= i < |fs| ==> Spares(repl, fs, p, i)
  }

  lemma StandingStep(repl: Rewriter, fs: seq<ScanFinding>, k: nat, p: int)
    requires Descending(fs) && k < |fs| && Standing(repl, fs, k, p) && Spares(repl, fs, p, k)
    ensures Standing(repl, fs, k + 1, p)
  {
    ShiftNext(repl, fs, k, p);
  }

  lemma PlaceNext(repl: Rewriter, fs: seq<ScanFinding>, k: nat, q: int)
    requires k < |fs|
    ensures Place(repl, fs[k..], q)
         == if q < fs[k].start then Place(repl, fs[k + 1..], q)
            else if q < fs[k].end then None
            else Place(repl, fs[k + 1..], q + Delta(repl, fs[k]))
  {
    assert fs[k..][0] == fs[k] && fs[k..][1..] == fs[k + 1..];
  }

  lemma SurvivesNext(repl: Rewriter, fs: seq<ScanFinding>, k: nat, p: int)
    requires k < |fs|
    ensures SurvivesFrom(repl, fs, k, p) <==> Spares(repl, fs, p, k) && SurvivesFrom(repl, fs, k + 1, p)
  {
  }

  lemma {:induction false} PlaceFrom(repl: Rewriter, fs: seq<ScanFinding>, k: nat, p: int)
    requires Descending(fs) && k <= |fs| && Standing(repl, fs, k, p)
    ensures Place(repl, fs[k..], p + Shift(repl, fs[..k], p))
         == if SurvivesFrom(repl, fs, k, p) then Some(p + Shift(repl, fs, p)) else None
    decreases |fs| - k
  {
    if k == |fs| {
      assert fs[..k] == fs;
    } else {
      PlaceNext(repl, fs, k, p + Shift(repl, fs[..k], p));
      SurvivesNext(repl, fs, k, p);
      assert fs[k].start <= p <==> fs[k].start <= p + Shift(repl, fs[..k], p);
      if Spares(repl, fs, p, k) {
        StandingStep(repl, fs, k, p);
        ShiftNext(repl, fs, k, p);
        PlaceFrom(repl, fs, k + 1, p);
      }
    }
  }

  lemma SurvivesFromStart(repl: Rewriter, fs: seq<ScanFinding>, p: int)
    ensures SurvivesFrom(repl, fs, 0, p) <==> Survives(repl, fs, p)
  {
  }

  lemma PlaceIff(repl: Rewriter, fs: seq<ScanFinding>, p: int)
    requires Descending(fs)
    ensures Place(repl, fs, p) == if Survives(repl, fs, p) then Some(p + Shift(repl, fs, p)) else None
  {
    assert fs[0..] == fs && fs[..0] == [];
    PlaceFrom(repl, fs, 0, p);
    SurvivesFromStart(repl, fs, p);
  }

  lemma {:induction false} SplicedSubset(repl: Rewriter, buf: Bytes, fs: seq<ScanFinding>)
    requires Descending(fs)
    ensures Descending(Spliced(repl, buf, fs)) && forall f :: f in Spliced(repl, buf, fs) ==> f in fs
    decreases |fs|
  {
    if fs != [] {
      var f, rest := fs[0], fs[1..];
      SplicedSubset(repl, if Fits(f, |buf|) then SpliceOne(repl, buf, f) else buf, rest);
      forall g | g in rest ensures g.start <= f.start {
        var j :| 0 <= j < |rest| && rest[j] == g;
        assert fs[j + 1] == g;
      }
    }
  }

  lemma SortedDescends(fs: seq<ScanFinding>)
    requires Sorted(FindingBefore, fs)
    ensures Descending(fs)
  {
    forall i, j | 0 <= i < j < |fs| ensures fs[j].start <= fs[i].start {
      assert !FindingBefore(fs[j], fs[i]);
    }
  }

  // ---------------------------------------------------------------- the transform

  /** The findings actually spliced, in that order. */
  function Applied(lib: Library, modes: Modes, input: Bytes, findings: seq<ScanFinding>): seq<ScanFinding> {
    Spliced(Rewrites(lib, modes), input, Sort(FindingBefore, Planned(modes, findings)))
  }

  /** Where each byte of the output comes from. */
  function Origins(lib: Library, modes: Modes, input: Bytes, findings: seq<ScanFinding>): seq<Cell> {
    TraceAll(Rewrites(lib, modes), Whole(|input|), Sort(FindingBefore, Planned(modes, findings)))
  }

  lemma OriginsShown(lib: Library, modes: Modes, input: Bytes, findings: seq<ScanFinding>)
    ensures Shows(input, Origins(lib, modes, input, findings), TransformSpec(lib, modes, input, findings).0)
  {
    TraceShows(Rewrites(lib, modes), input, Whole(|input|), input, Sort(FindingBefore, Planned(modes, findings)));
  }

  lemma AppliedDescends(lib: Library, modes: Modes, input: Bytes, findings: seq<ScanFinding>)
    ensures Descending(Applied(lib, modes, input, findings))
  {
    var fs := Sort(FindingBefore, Planned(modes, findings));
    Rewriting.SortedPlan(modes, findings);
    SortedDescends(fs);
    SplicedSubset(Rewrites(lib, modes), input, fs);
  }

  /** Positions of a text are told apart, so each has at most one place. */
  lemma OnePlace(repl: Rewriter, spliced: seq<ScanFinding>, n: nat, out: seq<Cell>, p: nat)
    requires Carried(repl, spliced, Whole(n), out) && p < n
    ensures forall i :: 0 <= i < |out| && out[i] == Kept(p) <==> Place(repl, spliced, p) == Some(i)
  {
    forall i | 0 <= i < |out| && out[i] == Kept(p) ensures Place(repl, spliced, p) == Some(i) {
      assert ComesFrom(repl, spliced, n, i);
      var q :| 0 <= q < n && Place(repl, spliced, q) == Some(i);
      assert Whole(n)[q] == Kept(q);
    }
    assert Whole(n)[p] == Kept(p);
  }

  /** The position is at this place in the output and nowhere else, or nowhere at all. */
  ghost predicate OnlyAt(origins: seq<Cell>, p: nat, survives: bool, at: int) {
    forall i :: 0 <= i < |origins| && origins[i] == Kept(p) <==> survives && i == at
  }

  lemma TracedPlaces(repl: Rewriter, text: Bytes, fs: seq<ScanFinding>, p: nat)
    requires Descending(Spliced(repl, text, fs)) && p < |text|
    ensures var spliced, origins := Spliced(repl, text, fs), TraceAll(repl, Whole(|text|), fs);
            OnlyAt(origins, p, Survives(repl, spliced, p), p + Shift(repl, spliced, p))
  {
    TraceCarries(repl, text, Whole(|text|), fs);
    OnePlace(repl, Spliced(repl, text, fs), |text|, TraceAll(repl, Whole(|text|), fs), p);
    PlaceIff(repl, Spliced(repl, text, fs), p);
  }

  /** For arbitrary findings: the output consists of replacement bytes and of bytes of the input, and
      position p is among the latter exactly when it survives, and then at its shifted place. */
  lemma SurvivingBytes(lib: Library, modes: Modes, input: Bytes, findings: seq<ScanFinding>, p: nat)
    requires p < |input|
    ensures Shows(input, Origins(lib, modes, input, findings), TransformSpec(lib, modes, input, findings).0)
    ensures var repl, applied := Rewrites(lib, modes), Applied(lib, modes, input, findings);
            OnlyAt(Origins(lib, modes, input, findings), p, Survives(repl, applied, p), p + Shift(repl, applied, p))
  {
    OriginsShown(lib, modes, input, findings);
    AppliedDescends(lib, modes, input, findings);
    var fs := Sort(FindingBefore, Planned(modes, findings));
    assert Applied(lib, modes, input, findings) == Spliced(Rewrites(lib, modes), input, fs);
    assert Origins(lib, modes, input, findings) == TraceAll(Rewrites(lib, modes), Whole(|input|), fs);
    TracedPlaces(Rewrites(lib, modes), input, Sort(FindingBefore, Planned(modes, findings)), p);
  }

  // ---------------------------------------------------------------- disjoint findings

  lemma DisjointBefore(fs: seq<ScanFinding>, i: nat)
    requires i < |fs| && Descending(fs) && Disjoint(fs) && forall f :: f in fs ==> Proper(f)
    ensures forall g :: g in fs[..i] ==> fs[i].end <= g.start
    ensures Descending(fs[..i]) && Disjoint(fs[..i]) && forall g :: g in fs[..i] ==> Proper(g)
  {
    forall g | g in fs[..i] ensures fs[i].end <= g.start && Proper(g) {
      var j :| 0 <= j < i && fs[j] == g;
      assert Apart(fs[j], fs[i]) && fs[i].start <= fs[j].start && g in fs;
    }
  }

  /** A position no span covers stays to the right of everything left of the spans. */
  lemma {:induction false} RoomLeft(repl: Rewriter, fs: seq<ScanFinding>, p: int, g: ScanFinding)
    requires Descending(fs) && Disjoint(fs) && forall f :: f in fs ==> Proper(f)
    requires forall f :: f in fs && f.start <= p ==> f.end <= p
    requires g.end <= p && forall f :: f in fs ==> g.end <= f.start
    ensures g.end <= p + Shift(repl, fs, p)
  {
    if fs != [] {
      var n := |fs| - 1;
      var last := fs[n];
      assert last in fs && forall f :: f in fs[..n] ==> f in fs;
      DisjointBefore(fs, n);
      ShiftNext(repl, fs, n, p);
      assert fs[..n + 1] == fs;
      RoomLeft(repl, fs[..n], p, if last.start <= p then last else g);
    }
  }

  /** A span that covers p is met before anything moved p. */
  lemma NotMoved(repl: Rewriter, fs: seq<ScanFinding>, p: int)
    requires forall f :: f in fs ==> p < f.start
    ensures Shift(repl, fs, p) == 0
  {
    FilterUniform(StartsBy(p), fs, false);
  }

  lemma SurvivesIfUncovered(repl: Rewriter, fs: seq<ScanFinding>, p: int)
    requires Descending(fs) && Disjoint(fs) && forall f :: f in fs ==> Proper(f)
    ensures Survives(repl, fs, p) <==> forall f :: f in fs ==> p < f.start || f.end <= p
  {
    if forall f :: f in fs ==> p < f.start || f.end <= p {
      forall i | 0 <= i < |fs| && fs[i].start <= p ensures Spares(repl, fs, p, i) {
        DisjointBefore(fs, i);
        assert fs[i] in fs && forall g :: g in fs[..i] ==> g in fs;
        RoomLeft(repl, fs[..i], p, fs[i]);
      }
    } else {
      var f :| f in fs && f.start <= p < f.end;
      var i :| 0 <= i < |fs| && fs[i] == f;
      DisjointBefore(fs, i);
      NotMoved(repl, fs[..i], p);
      assert !Spares(repl, fs, p, i);
    }
  }

  lemma DisjointCons(f: ScanFinding, fs: seq<ScanFinding>)
    requires Disjoint(fs) && forall g :: g in fs && Proper(g) ==> Apart(f, g)
    ensures Disjoint([f] + fs)
  {
    var all := [f] + fs;
    forall i, j | 0 <= i < j < |all| && Proper(all[i]) && Proper(all[j]) ensures Apart(all[i], all[j]) {
      assert all[j] in fs;
    }
  }

  lemma {:induction false} DisjointPart(fs: seq<ScanFinding>, text: Bytes)
    requires Sorted(FindingBefore, fs) && Disjoint(fs)
    ensures Disjoint(Filter(FitsIn(text), fs))
  {
    if fs != [] {
      RestEndsEarlier(fs);
      DisjointPart(fs[1..], text);
      FilterElements(FitsIn(text), fs[1..]);
      if Fits(fs[0], |text|) {
        DisjointCons(fs[0], Filter(FitsIn(text), fs[1..]));
      }
    }
  }

  /** Without overlaps a byte comes through exactly when no planned finding in range covers it. */
  lemma DisjointSurvival(lib: Library, modes: Modes, input: Bytes, findings: seq<ScanFinding>, p: nat)
    requires Disjoint(Planned(modes, findings)) && p < |input|
    ensures Survives(Rewrites(lib, modes), Applied(lib, modes, input, findings), p)
       <==> !Covered(Planned(modes, findings), |input|, p)
  {
    var plan, fs := Planned(modes, findings), Sort(FindingBefore, Planned(modes, findings));
    Rewriting.SortedPlan(modes, findings);
    Rewriting.DisjointPermutation(plan, fs);
    Rewriting.SameElements(fs, plan);
    SpliceIsOnePass(Rewrites(lib, modes), input, fs);
    DisjointPart(fs, input);
    SortedDescends(fs);
    SplicedSubset(Rewrites(lib, modes), input, fs);
    FilterElements(FitsIn(input), fs);
    SurvivesIfUncovered(Rewrites(lib, modes), Filter(FitsIn(input), fs), p);
  }

  // ---------------------------------------------------------------- overlapping findings of a scan

  function KeyFinding(text: Bytes): ScanFinding
    requires |text| == 26
  {
    ScanFinding("api_key", text, 0, 26, 0.94)
  }

  function PhoneFinding(text: Bytes): ScanFinding
    requires |text| == 26
  {
    ScanFinding("phone", text[6..17], 6, 17, 0.88)
  }

  lemma TwoSplices(repl: Rewriter, text: Bytes, f: ScanFinding, g: ScanFinding)
    requires |text| == 26 && f.start == 0 && f.end == 26 && g.start == 6 && g.end == 17
    requires |repl(f)| == 10 && |repl(g)| == 12
    ensures SpliceAll(repl, text, [g, f]) == repl(f) + [text[25]]
  {
    var once := SpliceOne(repl, text, g);
    assert [g, f][1..] == [f] && [f][1..] == [];
    assert |once| == 27 && once[26] == text[25];
    assert once[26..] == [text[25]] && once[..0] == [];
    assert SpliceAll(repl, once, [f]) == SpliceOne(repl, once, f);
  }

  /** Findings of two types, which a scan may report together: a phone number in a key. The longer token
      pushes the last byte of the key out of reach, and it ends up in the output. */
  lemma KeyTailSurvives(lib: Library, modes: Modes, text: Bytes)
    requires |text| == 26
    requires "api_key" in modes && modes["api_key"] == Redact && "phone" in modes && modes["phone"] == Tokenize
    ensures TransformSpec(lib, modes, text, [KeyFinding(text), PhoneFinding(text)]).0
            == Encode("[REDACTED]") + [text[25]]
  {
    var key, phone := KeyFinding(text), PhoneFinding(text);
    var repl := Rewrites(lib, modes);
    Rewriting.PlanTwo(modes, key, phone);
    ReplacementSizes(lib, Redact, "api_key", key.value);
    ReplacementSizes(lib, Tokenize, "phone", phone.value);
    assert repl(key) == Encode("[REDACTED]");
    TwoSplices(repl, text, key, phone);
  }

  // ---------------------------------------------------------------- which findings are spliced at all

  /** One more finding is spliced exactly when it fits the buffer as grown, or shrunk, by those
      spliced before it. */
  predicate Extends(repl: Rewriter, buf: Bytes, before: seq<ScanFinding>, f: ScanFinding, after: seq<ScanFinding>) {
    after == before + if 0 <= f.start < f.end <= |buf| + Growth(repl, before) then [f] else []
  }

  lemma {:induction false} SplicedSnoc(repl: Rewriter, buf: Bytes, fs: seq<ScanFinding>, f: ScanFinding)
    ensures Extends(repl, buf, Spliced(repl, buf, fs), f, Spliced(repl, buf, fs + [f]))
    decreases |fs|
  {
    if fs == [] {
      assert [] + [f] == [f] && [f][1..] == [];
    } else {
      var g, rest := fs[0], fs[1..];
      assert (fs + [f])[0] == g && (fs + [f])[1..] == rest + [f];
      if Fits(g, |buf|) {
        var next := SpliceOne(repl, buf, g);
        SplicedSnoc(repl, next, rest, f);
        ExtendsCons(repl, buf, g, Spliced(repl, next, rest), f, Spliced(repl, next, rest + [f]));
      } else {
        SplicedSnoc(repl, buf, rest, f);
      }
    }
  }

  lemma ExtendsCons(repl: Rewriter, buf: Bytes, g: ScanFinding, before: seq<ScanFinding>, f: ScanFinding,
                    after: seq<ScanFinding>)
    requires Fits(g, |buf|) && Extends(repl, SpliceOne(repl, buf, g), before, f, after)
    ensures Extends(repl, buf, [g] + before, f, [g] + after)
  {
    assert ([g] + before)[1..] == before;
    Cons(g, before, if Fits(f, |SpliceOne(repl, buf, g)| + Growth(repl, before)) then [f] else []);
  }

  lemma Cons(g: ScanFinding, a: seq<ScanFinding>, b: seq<ScanFinding>)
    ensures [g] + (a + b) == ([g] + a) + b
  {
  }

  lemma SplicedNext(repl: Rewriter, input: Bytes, sorted: seq<ScanFinding>, k: nat)
    requires k < |sorted|
    ensures Extends(repl, input, Spliced(repl, input, sorted[..k]), sorted[k], Spliced(repl, input, sorted[..k + 1]))
  {
    assert sorted[..k + 1] == sorted[..k] + [sorted[k]];
    SplicedSnoc(repl, input, sorted[..k], sorted[k]);
  }

  /** What has been rewritten after the first k planned findings from the right. */
  function AppliedOf(lib: Library, modes: Modes, input: Bytes, findings: seq<ScanFinding>, k: nat): seq<ScanFinding>
    requires k <= |Sort(FindingBefore, Planned(modes, findings))|
  {
    Spliced(Rewrites(lib, modes), input, Sort(FindingBefore, Planned(modes, findings))[..k])
  }

  /** A planned finding is rewritten exactly when it fits the text as changed by those before it. */
  lemma RewrittenIff(lib: Library, modes: Modes, input: Bytes, findings: seq<ScanFinding>, k: nat)
    requires k < |Sort(FindingBefore, Planned(modes, findings))|
    ensures Extends(Rewrites(lib, modes), input, AppliedOf(lib, modes, input, findings, k),
                    Sort(FindingBefore, Planned(modes, findings))[k], AppliedOf(lib, modes, input, findings, k + 1))
  {
    SplicedNext(Rewrites(lib, modes), input, Sort(FindingBefore, Planned(modes, findings)), k);
  }

  /** At the end that is the list of all findings rewritten. */
  lemma AppliedAll(lib: Library, modes: Modes, input: Bytes, findings: seq<ScanFinding>)
    ensures var n := |Sort(FindingBefore, Planned(modes, findings))|;
            AppliedOf(lib, modes, input, findings, 0) == [] && AppliedOf(lib, modes, input, findings, n)
              == Applied(lib, modes, input, findings)
  {
    var sorted := Sort(FindingBefore, Planned(modes, findings));
    assert sorted[..|sorted|] == sorted && sorted[..0] == [];
  }

  function LongKeyFinding(text: Bytes): ScanFinding
    requires |text| == 22
  {
    ScanFinding("api_key", text, 0, 22, 0.94)
  }

  function CardFinding(text: Bytes): ScanFinding
    requires |text| == 22
  {
    ScanFinding("credit_card", text[6..22], 6, 22, 0.95)
  }

  lemma CardOnly(repl: Rewriter, text: Bytes, key: ScanFinding, card: ScanFinding)
    requires |text| == 22 && key.start == 0 && key.end == 22 && card.start == 6 && card.end == 22 && |repl(card)| == 10
    ensures SpliceAll(repl, text, [card, key]) == text[..6] + repl(card)
    ensures Spliced(repl, text, [card, key]) == [card]
  {
    var once := SpliceOne(repl, text, card);
    assert [card, key][1..] == [key] && [key][1..] == [];
    assert text[22..] == [] && once == text[..6] + repl(card);
    assert |once| == 16 && !Fits(key, |once|);
    var none: seq<ScanFinding> := [];
    assert [key][1..] == none && SpliceAll(repl, once, none) == once && Spliced(repl, once, none) == none;
    assert SpliceAll(repl, once, [key]) == once && Spliced(repl, once, [key]) == none;
    assert Fits(card, |text|);
    assert Spliced(repl, text, [card, key]) == [card] + [];
  }

  /** A redacted card number at the end of a key shortens the text, so that the key no longer fits: it
      is neither rewritten nor counted, and its first bytes stay. */
  lemma CardDropsKey(lib: Library, modes: Modes, text: Bytes)
    requires |text| == 22
    requires "api_key" in modes && modes["api_key"] == Redact
    requires "credit_card" in modes && modes["credit_card"] == Redact
    ensures var (output, stats) := TransformSpec(lib, modes, text, [LongKeyFinding(text), CardFinding(text)]);
            output == text[..6] + Encode("[REDACTED]") && stats.entitiesTransformed == 1
  {
    var key, card := LongKeyFinding(text), CardFinding(text);
    var repl := Rewrites(lib, modes);
    Rewriting.PlanTwo(modes, key, card);
    ReplacementSizes(lib, Redact, "credit_card", card.value);
    assert repl(card) == Encode("[REDACTED]");
    CardOnly(repl, text, key, card);
  }
}
