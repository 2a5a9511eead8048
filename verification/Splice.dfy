/** Rewriting spans of a text by replacements of any length: the right-to-left splicing
    of the transform engine against a single left-to-right pass over the original text. */
module Splice {
  import opened Utf8
  import opened Models
  import opened StableSort

  // ---------------------------------------------------------------- the splicing fold

  /** Rightmost first; of two findings with the same start, the longer first. */
  predicate FindingBefore(a: ScanFinding, b: ScanFinding) {
    if a.start == b.start then a.end > b.end else a.start > b.start
  }

  lemma FindingOrder()
    ensures StrictWeak(FindingBefore)
  {
  }

  predicate Fits(f: ScanFinding, n: int) {
    !(f.start < 0 || f.end > n || f.start >= f.end)
  }

  function FitsIn(text: Bytes): ScanFinding -> bool { f => Fits(f, |text|) }

  type Rewriter = ScanFinding -> Bytes

  function SpliceOne(repl: Rewriter, buf: Bytes, f: ScanFinding): Bytes
    requires Fits(f, |buf|)
  {
    buf[..f.start] + repl(f) + buf[f.end..]
  }

  /** The bounds of each finding are checked against the buffer as it then stands. */
  function SpliceAll(repl: Rewriter, buf: Bytes, fs: seq<ScanFinding>): Bytes
    decreases |fs|
  {
    if fs == [] then buf
    else if Fits(fs[0], |buf|) then SpliceAll(repl, SpliceOne(repl, buf, fs[0]), fs[1..])
    else SpliceAll(repl, buf, fs[1..])
  }

  /** The findings that pass the bounds check, in the order they are spliced. */
  function Spliced(repl: Rewriter, buf: Bytes, fs: seq<ScanFinding>): seq<ScanFinding>
    decreases |fs|
  {
    if fs == [] then []
    else if Fits(fs[0], |buf|) then [fs[0]] + Spliced(repl, SpliceOne(repl, buf, fs[0]), fs[1..])
    else Spliced(repl, buf, fs[1..])
  }

  // ---------------------------------------------------------------- the simple form

  ghost predicate AllFit(text: Bytes, S: set<ScanFinding>) {
    forall f :: f in S ==> Fits(f, |text|)
  }

  /** Walk the text once; where a finding starts, emit its replacement and jump to its end. */
  ghost function OnePass(repl: Rewriter, text: Bytes, pos: nat, S: set<ScanFinding>): Bytes
    requires pos <= |text| && AllFit(text, S)
    decreases |text| - pos
  {
    if pos == |text| then []
    else if f :| f in S && f.start == pos then repl(f) + OnePass(repl, text, f.end, S)
    else [text[pos]] + OnePass(repl, text, pos + 1, S)
  }

  ghost function Selected(text: Bytes, fs: seq<ScanFinding>): set<ScanFinding> {
    set f | f in fs && Fits(f, |text|)
  }

  predicate Apart(f: ScanFinding, g: ScanFinding) {
    f.end <= g.start || g.end <= f.start
  }

  /** A span that can ever be spliced: not negative, not empty. */
  predicate Proper(f: ScanFinding) { 0 <= f.start < f.end }

  /** Any two list entries with proper spans have disjoint spans. */
  ghost predicate Disjoint(fs: seq<ScanFinding>) {
    forall i, j :: 0 <= i < j < |fs| && Proper(fs[i]) && Proper(fs[j]) ==> Apart(fs[i], fs[j])
  }

  ghost predicate DisjointSet(S: set<ScanFinding>) {
    forall f, g :: f in S && g in S && f != g ==> Apart(f, g)
  }

  // ---------------------------------------------------------------- facts about one pass

  /** Stretches where nothing starts are copied. */
  lemma {:induction false} OnePassCopies(repl: Rewriter, text: Bytes, pos: nat, upTo: nat, S: set<ScanFinding>)
    requires pos <= upTo <= |text| && AllFit(text, S)
    requires forall f :: f in S ==> f.start < pos || upTo <= f.start
    ensures OnePass(repl, text, pos, S) == text[pos..upTo] + OnePass(repl, text, upTo, S)
    decreases upTo - pos
  {
    if pos < upTo {
      var tail := OnePass(repl, text, upTo, S);
      OnePassCopies(repl, text, pos + 1, upTo, S);
      assert OnePass(repl, text, pos, S) == [text[pos]] + (text[pos + 1..upTo] + tail);
      assert text[pos..upTo] == [text[pos]] + text[pos + 1..upTo];
    }
  }

  /** Only the findings that start at or after the position matter. */
  lemma {:induction false} OnePassIgnores(repl: Rewriter, text: Bytes, pos: nat, S: set<ScanFinding>, f: ScanFinding)
    requires pos <= |text| && AllFit(text, S) && Fits(f, |text|) && f.start < pos
    requires DisjointSet(S + {f})
    ensures OnePass(repl, text, pos, S + {f}) == OnePass(repl, text, pos, S)
    decreases |text| - pos
  {
    if pos < |text| {
      if g :| g in S && g.start == pos {
        UniqueStart(S + {f}, g);
        OnePassIgnores(repl, text, g.end, S, f);
      } else {
        OnePassIgnores(repl, text, pos + 1, S, f);
      }
    }
  }

  lemma UniqueStart(S: set<ScanFinding>, f: ScanFinding)
    requires f in S && DisjointSet(S) && forall g :: g in S ==> g.start < g.end
    ensures forall g :: g in S && g.start == f.start ==> g == f
  {
  }

  lemma OnePassStart(repl: Rewriter, text: Bytes, S: set<ScanFinding>, f: ScanFinding)
    requires AllFit(text, S) && DisjointSet(S) && f in S
    ensures OnePass(repl, text, f.start, S) == repl(f) + OnePass(repl, text, f.end, S)
  {
    UniqueStart(S, f);
  }

  // ---------------------------------------------------------------- refinement

  /** What the buffer holds after the findings `done`, all at or after `lo`, were spliced. */
  ghost predicate Rewritten(repl: Rewriter, text: Bytes, buf: Bytes, lo: nat, done: set<ScanFinding>) {
    && lo <= |text| && AllFit(text, done) && DisjointSet(done)
    && (forall f :: f in done ==> lo <= f.start)
    && buf == text[..lo] + OnePass(repl, text, lo, done)
    && (done == {} ==> lo == |text|)
  }

  lemma RewriteStep(repl: Rewriter, text: Bytes, buf: Bytes, lo: nat, done: set<ScanFinding>, f: ScanFinding)
    requires Rewritten(repl, text, buf, lo, done) && Fits(f, lo)
    ensures Fits(f, |buf|)
    ensures Rewritten(repl, text, SpliceOne(repl, buf, f), f.start, done + {f})
  {
    var S := done + {f};
    assert DisjointSet(S);
    OnePassStart(repl, text, S, f);
    OnePassCopies(repl, text, f.end, lo, S);
    if done == {} {
      assert lo == |text|;
    } else {
      OnePassIgnores(repl, text, lo, done, f);
    }
    var tail := OnePass(repl, text, lo, done);
    assert OnePass(repl, text, lo, S) == tail;
    SpliceSeam(text, tail, lo, f, repl(f), buf);
  }

  /** Splicing left of `lo` leaves the text before the span and everything after it. */
  lemma SpliceSeam(text: Bytes, tail: Bytes, lo: nat, f: ScanFinding, r: Bytes, buf: Bytes)
    requires lo <= |text| && Fits(f, lo) && buf == text[..lo] + tail
    ensures Fits(f, |buf|)
    ensures buf[..f.start] + r + buf[f.end..] == text[..f.start] + (r + (text[f.end..lo] + tail))
  {
    assert buf[..f.start] == text[..f.start];
    assert buf[f.end..] == text[f.end..lo] + tail;
  }

  lemma {:induction false} SpliceRefines(repl: Rewriter, text: Bytes, buf: Bytes, lo: nat,
                                         done: set<ScanFinding>, fs: seq<ScanFinding>)
    requires Rewritten(repl, text, buf, lo, done)
    requires Sorted(FindingBefore, fs) && Disjoint(fs)
    requires done != {} ==> forall f :: f in fs && Proper(f) ==> f.end <= lo
    ensures SpliceAll(repl, buf, fs) == OnePass(repl, text, 0, done + Selected(text, fs))
    decreases |fs|
  {
    if fs == [] {
      OnePassCopies(repl, text, 0, lo, done);
      assert done + Selected(text, fs) == done;
    } else {
      var f, rest := fs[0], fs[1..];
      RestEndsEarlier(fs);
      SelectedHead(text, fs);
      if Fits(f, |buf|) {
        assert Fits(f, lo);
        RewriteStep(repl, text, buf, lo, done, f);
        SpliceRefines(repl, text, SpliceOne(repl, buf, f), f.start, done + {f}, rest);
        assert done + Selected(text, fs) == done + {f} + Selected(text, rest);
      } else {
        assert !Fits(f, |text|);
        assert Selected(text, fs) == Selected(text, rest);
        SpliceRefines(repl, text, buf, lo, done, rest);
      }
    }
  }

  /** Once something was spliced at `lo`, every later span ends by `lo`: its bytes are still in place. */
  ghost predicate InPlace(text: Bytes, buf: Bytes, lo: nat, fs: seq<ScanFinding>) {
    && lo <= |text| && lo <= |buf|
    && (|buf| == |text| || forall f :: f in fs && Proper(f) ==> f.end <= lo)
  }

  lemma FitsBoth(text: Bytes, buf: Bytes, lo: nat, fs: seq<ScanFinding>)
    requires fs != [] && InPlace(text, buf, lo, fs)
    ensures Fits(fs[0], |buf|) <==> Fits(fs[0], |text|)
  {
  }

  lemma InPlaceStep(repl: Rewriter, text: Bytes, buf: Bytes, lo: nat, fs: seq<ScanFinding>)
    requires fs != [] && Sorted(FindingBefore, fs) && Disjoint(fs) && InPlace(text, buf, lo, fs)
    ensures if Fits(fs[0], |buf|) then InPlace(text, SpliceOne(repl, buf, fs[0]), fs[0].start, fs[1..])
            else InPlace(text, buf, lo, fs[1..])
  {
    RestEndsEarlier(fs);
    FitsBoth(text, buf, lo, fs);
  }

  lemma {:induction false} SplicedFits(repl: Rewriter, text: Bytes, buf: Bytes, lo: nat, fs: seq<ScanFinding>)
    requires Sorted(FindingBefore, fs) && Disjoint(fs) && InPlace(text, buf, lo, fs)
    ensures Spliced(repl, buf, fs) == Filter(FitsIn(text), fs)
    decreases |fs|
  {
    if fs != [] {
      RestEndsEarlier(fs);
      FitsBoth(text, buf, lo, fs);
      InPlaceStep(repl, text, buf, lo, fs);
      if Fits(fs[0], |buf|) {
        SplicedFits(repl, text, SpliceOne(repl, buf, fs[0]), fs[0].start, fs[1..]);
      } else {
        SplicedFits(repl, text, buf, lo, fs[1..]);
      }
    }
  }

  lemma RestEndsEarlier(fs: seq<ScanFinding>)
    requires fs != [] && Sorted(FindingBefore, fs) && Disjoint(fs)
    ensures Sorted(FindingBefore, fs[1..]) && Disjoint(fs[1..])
    ensures Proper(fs[0]) ==> forall g :: g in fs[1..] && Proper(g) ==> g.end <= fs[0].start
  {
    var rest := fs[1..];
    forall g | g in rest && Proper(g) && Proper(fs[0]) ensures g.end <= fs[0].start {
      var k :| 0 <= k < |rest| && rest[k] == g;
      assert !FindingBefore(fs[k + 1], fs[0]) && Apart(fs[0], fs[k + 1]);
    }
  }

  lemma SelectedHead(text: Bytes, fs: seq<ScanFinding>)
    requires fs != []
    ensures Selected(text, fs) == (if Fits(fs[0], |text|) then {fs[0]} else {}) + Selected(text, fs[1..])
  {
    assert fs == [fs[0]] + fs[1..];
  }

  /** Right-to-left splicing of disjoint findings is the one-pass rewrite, and the check
      against the changing buffer lets through exactly the findings that fit the text. */
  lemma SpliceIsOnePass(repl: Rewriter, text: Bytes, fs: seq<ScanFinding>)
    requires Sorted(FindingBefore, fs) && Disjoint(fs)
    ensures SpliceAll(repl, text, fs) == OnePass(repl, text, 0, Selected(text, fs))
    ensures Spliced(repl, text, fs) == Filter(FitsIn(text), fs)
  {
    assert text[..|text|] == text;
    assert {} + Selected(text, fs) == Selected(text, fs);
    SpliceRefines(repl, text, text, |text|, {}, fs);
    SplicedFits(repl, text, text, |text|, fs);
  }

  // ---------------------------------------------------------------- length

  /** Total growth: replacement lengths minus span lengths. */
  function Growth(repl: Rewriter, fs: seq<ScanFinding>): int {
    if fs == [] then 0 else |repl(fs[0])| - (fs[0].end - fs[0].start) + Growth(repl, fs[1..])
  }

  /** The length law needs no disjointness: it counts whatever was actually spliced. */
  lemma {:induction false} SpliceLength(repl: Rewriter, buf: Bytes, fs: seq<ScanFinding>)
    ensures |SpliceAll(repl, buf, fs)| == |buf| + Growth(repl, Spliced(repl, buf, fs))
    decreases |fs|
  {
    if fs != [] {
      SpliceLength(repl, if Fits(fs[0], |buf|) then SpliceOne(repl, buf, fs[0]) else buf, fs[1..]);
    }
  }

  lemma {:induction false} GrowthOfInsert(repl: Rewriter, f: ScanFinding, fs: seq<ScanFinding>)
    ensures Growth(repl, Insert(FindingBefore, f, fs)) == Growth(repl, [f] + fs)
  {
    assert ([f] + fs)[1..] == fs;
    if !(fs == [] || !FindingBefore(fs[0], f)) {
      GrowthOfInsert(repl, f, fs[1..]);
      assert ([f] + fs[1..])[1..] == fs[1..];
    }
  }

  lemma {:induction false} GrowthOfSort(repl: Rewriter, fs: seq<ScanFinding>)
    ensures Growth(repl, Sort(FindingBefore, fs)) == Growth(repl, fs)
  {
    if fs != [] {
      GrowthOfInsert(repl, fs[0], Sort(FindingBefore, fs[1..]));
      GrowthOfSort(repl, fs[1..]);
      assert ([fs[0]] + Sort(FindingBefore, fs[1..]))[1..] == Sort(FindingBefore, fs[1..]);
    }
  }

  // ---------------------------------------------------------------- length-preserving rewriting

  ghost predicate Covered(fs: seq<ScanFinding>, n: int, i: int) {
    exists f :: f in fs && Fits(f, n) && f.start <= i < f.end
  }

  /** When every replacement is a run of `fill` as long as its span, overlaps do no harm:
      a byte is overwritten exactly when some finding that fits covers it. */
  lemma {:induction false} FillIsUnion(repl: Rewriter, fill: byte, buf: Bytes, fs: seq<ScanFinding>)
    requires forall f :: f in fs && Fits(f, |buf|) ==>
               repl(f) == seq(f.end - f.start, _ => fill)
    ensures |SpliceAll(repl, buf, fs)| == |buf|
    ensures forall i :: 0 <= i < |buf| ==>
              SpliceAll(repl, buf, fs)[i] == if Covered(fs, |buf|, i) then fill else buf[i]
    decreases |fs|
  {
    if fs != [] {
      var f, rest := fs[0], fs[1..];
      assert fs == [f] + rest;
      var next := if Fits(f, |buf|) then SpliceOne(repl, buf, f) else buf;
      assert |next| == |buf|;
      FillIsUnion(repl, fill, next, rest);
      forall i | 0 <= i < |buf|
        ensures SpliceAll(repl, buf, fs)[i] == if Covered(fs, |buf|, i) then fill else buf[i]
      {
        var here := Fits(f, |buf|) && f.start <= i < f.end;
        assert Covered(fs, |buf|, i) <==> here || Covered(rest, |buf|, i);
        assert next[i] == if here then fill else buf[i];
      }
    }
  }
}
