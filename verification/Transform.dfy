/** The transform engine: which findings a plan selects, what each is replaced by,
    and the rewriting of the input together with its statistics. */
module Transform {
  import opened Utf8
  import opened Models
  import opened StableSort
  import opened Splice
  import opened Lexical

  // ---------------------------------------------------------------- replacements

  predicate IsHex(c: char) { '0' <= c <= '9' || 'a' <= c <= 'f' }

  /** The hexadecimal digest of a value: any function with 64 lower-case hexadecimal digits. */
  type Digest = h: Bytes -> string
    | forall v :: |h(v)| == 64 && forall i :: 0 <= i < 64 ==> IsHex(h(v)[i])
    witness _ => seq(64, _ => '0')

  /** The library functions the replacements are built from. */
  datatype Library = Library(digest: Digest, toUpper: string -> string)

  function DeterministicPrefix(lib: Library, value: Bytes): string { lib.digest(value)[..8] }

  const STAR: byte := 42

  function ReplacementForMode(lib: Library, mode: TransformMode, value: Bytes): Bytes {
    match mode
    case Tokenize => Encode("TOK-" + DeterministicPrefix(lib, value))
    case Anonymize => Encode("anon-" + DeterministicPrefix(lib, value))
    case Redact => Encode("[REDACTED]")
    case Mask => seq(|value|, _ => STAR)
    case Replace => Encode("[REPLACED]")
    case Hash => Encode(lib.digest(value))
    case OtherMode(_) => Encode("[FILTERED]")
  }

  function ReplacementForModeWithType(lib: Library, mode: TransformMode, entityType: string, value: Bytes): Bytes {
    if mode == Replace then Encode("[" + lib.toUpper(entityType) + "_" + DeterministicPrefix(lib, value) + "]")
    else ReplacementForMode(lib, mode, value)
  }

  predicate Ascii(s: string) { forall i :: 0 <= i < |s| ==> s[i] as int < 0x80 }

  lemma {:induction false} EncodeAscii(s: string)
    requires Ascii(s)
    ensures |Encode(s)| == |s| && forall i :: 0 <= i < |s| ==> Encode(s)[i] as int == s[i] as int
  {
    if s != [] {
      EncodeAscii(s[1..]);
    }
  }

  /** Printable form of a replacement, before it is encoded; masks are handled apart. */
  function ReplacementText(lib: Library, mode: TransformMode, entityType: string, value: Bytes): string
    requires mode != Mask
  {
    match mode
    case Tokenize => "TOK-" + DeterministicPrefix(lib, value)
    case Anonymize => "anon-" + DeterministicPrefix(lib, value)
    case Redact => "[REDACTED]"
    case Replace => "[" + lib.toUpper(entityType) + "_" + DeterministicPrefix(lib, value) + "]"
    case Hash => lib.digest(value)
    case OtherMode(_) => "[FILTERED]"
  }

  /** Which mode a replacement text was made by, read off the text alone. */
  function ModeOfText(s: string): TransformMode {
    if "TOK-" <= s then Tokenize
    else if "anon-" <= s then Anonymize
    else if s == "[REDACTED]" then Redact
    else if s == "[FILTERED]" then OtherMode("")
    else if "[" <= s then Replace
    else Hash
  }

  lemma ReplacementIsText(lib: Library, mode: TransformMode, entityType: string, value: Bytes)
    requires mode != Mask
    ensures ReplacementForModeWithType(lib, mode, entityType, value)
         == Encode(ReplacementText(lib, mode, entityType, value))
  {
  }

  /** Every non-mask replacement decodes back to its text, and the text tells the mode apart. */
  lemma ReplacementRevealsMode(lib: Library, mode: TransformMode, entityType: string, value: Bytes)
    requires mode != Mask
    ensures var r := Decode(ReplacementForModeWithType(lib, mode, entityType, value));
            && r == ReplacementText(lib, mode, entityType, value)
            && ModeOfText(r) == (if mode.OtherMode? then OtherMode("") else mode)
  {
    ReplacementIsText(lib, mode, entityType, value);
    DecodeEncode(ReplacementText(lib, mode, entityType, value));
    TextRevealsMode(lib, mode, entityType, value);
  }

  lemma TextRevealsMode(lib: Library, mode: TransformMode, entityType: string, value: Bytes)
    requires mode != Mask
    ensures ModeOfText(ReplacementText(lib, mode, entityType, value))
         == if mode.OtherMode? then OtherMode("") else mode
  {
    var r := ReplacementText(lib, mode, entityType, value);
    assert "TOK-"[0] == 'T' && "anon-"[0] == 'a' && "anon-"[1] == 'n' && "["[0] == '[';
    match mode
    case Replace =>
      assert |DeterministicPrefix(lib, value)| == 8;
      assert |r| >= 11 && r[0] == '[';
      assert "[" <= r;
    case Hash =>
      assert IsHex(r[0]) && IsHex(r[1]);
      assert |r| == 64;
    case _ =>
  }

  lemma TextSize(lib: Library, mode: TransformMode, entityType: string, value: Bytes)
    requires mode != Mask && mode != Replace
    ensures var t := ReplacementText(lib, mode, entityType, value);
            Ascii(t) && |t| == (match mode case Tokenize => 12 case Anonymize => 13 case Hash => 64 case _ => 10)
  {
    var p := DeterministicPrefix(lib, value);
    assert forall i :: 0 <= i < 8 ==> IsHex(p[i]);
  }

  lemma TypedSize(lib: Library, entityType: string, value: Bytes)
    ensures |ReplacementForModeWithType(lib, Replace, entityType, value)| == |Encode(lib.toUpper(entityType))| + 11
  {
    var p := DeterministicPrefix(lib, value);
    var upper := lib.toUpper(entityType);
    assert Ascii("[") && Ascii("_" + p + "]") && |"_" + p + "]"| == 10;
    EncodeAscii("[");
    EncodeAscii("_" + p + "]");
    assert "[" + upper + "_" + p + "]" == ("[" + upper) + ("_" + p + "]");
    EncodeAppend("[" + upper, "_" + p + "]");
    EncodeAppend("[", upper);
  }

  /** The size of every replacement: fixed, except that a mask is as long as the value it hides
      and a typed replacement as its type allows. */
  lemma ReplacementSizes(lib: Library, mode: TransformMode, entityType: string, value: Bytes)
    ensures |ReplacementForModeWithType(lib, mode, entityType, value)|
         == (match mode case Mask => |value| case Tokenize => 12 case Anonymize => 13 case Redact => 10 case Hash => 64
             case Replace => |Encode(lib.toUpper(entityType))| + 11 case OtherMode(_) => 10)
  {
    if mode == Replace {
      TypedSize(lib, entityType, value);
    } else if mode != Mask {
      ReplacementIsText(lib, mode, entityType, value);
      TextSize(lib, mode, entityType, value);
      EncodeAscii(ReplacementText(lib, mode, entityType, value));
    }
  }

  // ---------------------------------------------------------------- plans

  type Modes = map<string, TransformMode>

  /** The last step for an entity type wins. */
  function ModeMap(steps: seq<TransformStep>): Modes {
    if steps == [] then map[]
    else
      var last := steps[|steps| - 1];
      ModeMap(steps[..|steps| - 1])[last.entityType := last.mode]
  }

  function PlannedBy(modes: Modes): ScanFinding -> bool { (f: ScanFinding) => f.entityType in modes }

  function Planned(modes: Modes, findings: seq<ScanFinding>): seq<ScanFinding> {
    Filter(PlannedBy(modes), findings)
  }

  function Rewrites(lib: Library, modes: Modes): Rewriter {
    (f: ScanFinding) => if f.entityType in modes
         then ReplacementForModeWithType(lib, modes[f.entityType], f.entityType, f.value) else []
  }

  function Label(modes: Modes, f: ScanFinding): string {
    f.entityType + ":" + (if f.entityType in modes then ModeName(modes[f.entityType]) else "")
  }

  ghost function LabelsOf(modes: Modes, applied: seq<ScanFinding>): set<string> {
    set f | f in applied :: Label(modes, f)
  }

  /** What the engine computes: sort what the plan selects, splice from the right, count. */
  ghost function TransformSpec(lib: Library, modes: Modes, input: Bytes, findings: seq<ScanFinding>)
    : (r: (Bytes, TransformStats))
  {
    var fs := Sort(FindingBefore, Planned(modes, findings));
    var applied := Spliced(Rewrites(lib, modes), input, fs);
    (SpliceAll(Rewrites(lib, modes), input, fs),
     TransformStats(|applied|, Join(SortedSet(LabelsOf(modes, applied)), ",")))
  }

  // ---------------------------------------------------------------- the byte buffer

  /** A Go byte slice that is spliced in place while its capacity allows. */
  class ByteBuffer {
    var data: array<byte>
    var len: nat

    ghost predicate Valid() reads this { len <= data.Length }

    ghost function Contents(): Bytes
      reads this, data
      requires Valid()
    {
      data[..len]
    }

    constructor (input: Bytes)
      ensures Valid() && fresh(data) && Contents() == input
    {
      data := new byte[|input|](i requires 0 <= i < |input| => input[i]);
      len := |input|;
    }

    /** The tail is copied out before anything is overwritten. */
    method Splice(start: nat, end: nat, replacement: Bytes)
      requires Valid() && start <= end <= len
      modifies this, data
      ensures Valid() && (data == old(data) || fresh(data))
      ensures Contents() == old(Contents())[..start] + replacement + old(Contents())[end..]
    {
      ghost var was := Contents();
      var tail := CopyOut(replacement, end);
      AppendAt(start, tail);
      assert was[..start] + (replacement + was[end..]) == was[..start] + replacement + was[end..];
    }

    /** Appending behind a prefix overwrites what follows it; a full buffer is reallocated. */
    method AppendAt(start: nat, tail: array<byte>)
      requires Valid() && start <= len && tail != data
      modifies this, data
      ensures Valid() && (data == old(data) || fresh(data))
      ensures Contents() == old(Contents())[..start] + old(tail[..])
    {
      ghost var was, added := Contents(), tail[..];
      var newLen := start + tail.Length;
      if newLen > data.Length {
        var grown := new byte[2 * newLen];
        forall i | 0 <= i < start { grown[i] := data[i]; }
        data := grown;
      }
      forall i | 0 <= i < tail.Length { data[start + i] := tail[i]; }
      len := newLen;
      Concatenation(Contents(), was[..start], added);
    }

    method CopyOut(replacement: Bytes, end: nat) returns (tail: array<byte>)
      requires Valid() && end <= len
      ensures fresh(tail) && tail[..] == replacement + Contents()[end..]
    {
      var r := |replacement|;
      tail := new byte[r + (len - end)](i requires 0 <= i < r + (len - end) && Valid() reads this, data =>
        if i < r then replacement[i] else data[end + i - r]);
      Concatenation(tail[..], replacement, Contents()[end..]);
    }
  }

  lemma Concatenation(s: Bytes, a: Bytes, b: Bytes)
    requires |s| == |a| + |b|
    requires forall i :: 0 <= i < |a| ==> s[i] == a[i]
    requires forall i :: 0 <= i < |b| ==> s[|a| + i] == b[i]
    ensures s == a + b
  {
  }

  // ---------------------------------------------------------------- the engine

  method ApplyTransforms(lib: Library, input: Bytes, findings: seq<ScanFinding>, steps: seq<TransformStep>)
    returns (output: Bytes, stats: TransformStats)
    ensures (output, stats) == TransformSpec(lib, ModeMap(steps), input, findings)
  {
    if |findings| == 0 {
      NothingPlanned(lib, ModeMap(steps), input, findings);
      return input, TransformStats(0, "");
    }
    var modeMap := CollectModes(steps);
    var filtered := SelectPlanned(modeMap, findings);
    if |filtered| == 0 {
      NothingPlanned(lib, modeMap, input, findings);
      return input, TransformStats(0, "");
    }
    FindingOrder();
    var a := new ScanFinding[|filtered|](i requires 0 <= i < |filtered| => filtered[i]);
    assert a[..] == filtered;
    SliceStable(FindingBefore, a);
    PlannedInMap(modeMap, findings);
    var bytes, appliedModes, count := SpliceSorted(lib, modeMap, input, a[..]);
    var parts := SortedParts(appliedModes);
    output, stats := bytes, TransformStats(count, Join(parts, ","));
  }

  method CollectModes(steps: seq<TransformStep>) returns (modeMap: Modes)
    ensures modeMap == ModeMap(steps)
  {
    modeMap := map[];
    for i := 0 to |steps|
      invariant modeMap == ModeMap(steps[..i])
    {
      assert steps[..i + 1][..i] == steps[..i];
      modeMap := modeMap[steps[i].entityType := steps[i].mode];
    }
    assert steps[..|steps|] == steps;
  }

  method SelectPlanned(modeMap: Modes, findings: seq<ScanFinding>) returns (filtered: seq<ScanFinding>)
    ensures filtered == Planned(modeMap, findings)
  {
    filtered := [];
    for i := 0 to |findings|
      invariant filtered == Planned(modeMap, findings[..i])
    {
      assert findings[..i + 1] == findings[..i] + [findings[i]];
      FilterAppend(PlannedBy(modeMap), findings[..i], [findings[i]]);
      if findings[i].entityType !in modeMap {
        continue;
      }
      filtered := filtered + [findings[i]];
    }
    assert findings[..|findings|] == findings;
  }

  /** The splicing loop, with the labels and the number of the findings it applied. */
  method SpliceSorted(lib: Library, modeMap: Modes, input: Bytes, sorted: seq<ScanFinding>)
    returns (output: Bytes, appliedModes: set<string>, count: int)
    requires forall f :: f in sorted ==> f.entityType in modeMap
    ensures output == SpliceAll(Rewrites(lib, modeMap), input, sorted)
    ensures var applied := Spliced(Rewrites(lib, modeMap), input, sorted);
            && count == |applied|
            && appliedModes == LabelsOf(modeMap, applied)
  {
    var bytes := new ByteBuffer(input);
    appliedModes, count := {}, 0;
    ghost var applied: seq<ScanFinding> := [];
    assert sorted[0..] == sorted;
    for i := 0 to |sorted|
      invariant bytes.Valid() && fresh(bytes) && fresh(bytes.data)
      invariant Midway(Rewrites(lib, modeMap), input, sorted, i, bytes.Contents(), applied)
      invariant count == |applied| && appliedModes == LabelsOf(modeMap, applied)
    {
      var f := sorted[i];
      MidwayStep(Rewrites(lib, modeMap), input, sorted, i, bytes.Contents(), applied);
      if f.start < 0 || f.end > bytes.len || f.start >= f.end {
        continue;
      }
      var replacement := ReplacementForModeWithType(lib, modeMap[f.entityType], f.entityType, f.value);
      bytes.Splice(f.start, f.end, replacement);
      LabelsStep(modeMap, applied, f);
      appliedModes := appliedModes + {f.entityType + ":" + ModeName(modeMap[f.entityType])};
      count := count + 1;
      applied := applied + [f];
    }
    output := bytes.data[..bytes.len];
  }

  /** After i findings the buffer and the applied list lead to the same end as from the start. */
  ghost predicate Midway(repl: Rewriter, input: Bytes, fs: seq<ScanFinding>, i: nat, buf: Bytes,
                         applied: seq<ScanFinding>)
    requires i <= |fs|
  {
    && SpliceAll(repl, buf, fs[i..]) == SpliceAll(repl, input, fs)
    && applied + Spliced(repl, buf, fs[i..]) == Spliced(repl, input, fs)
  }

  lemma MidwayStep(repl: Rewriter, input: Bytes, fs: seq<ScanFinding>, i: nat, buf: Bytes, applied: seq<ScanFinding>)
    requires i < |fs| && Midway(repl, input, fs, i, buf, applied)
    ensures if Fits(fs[i], |buf|) then Midway(repl, input, fs, i + 1, SpliceOne(repl, buf, fs[i]), applied + [fs[i]])
            else Midway(repl, input, fs, i + 1, buf, applied)
  {
    assert fs[i..][1..] == fs[i + 1..];
    if Fits(fs[i], |buf|) {
      var later := Spliced(repl, SpliceOne(repl, buf, fs[i]), fs[i + 1..]);
      assert applied + ([fs[i]] + later) == (applied + [fs[i]]) + later;
    }
  }

  lemma LabelsStep(modes: Modes, applied: seq<ScanFinding>, f: ScanFinding)
    ensures LabelsOf(modes, applied + [f]) == LabelsOf(modes, applied) + {Label(modes, f)}
  {
  }

  lemma PlannedInMap(modes: Modes, findings: seq<ScanFinding>)
    ensures forall f :: f in Sort(FindingBefore, Planned(modes, findings)) ==> f.entityType in modes
  {
    var p := Planned(modes, findings);
    FindingOrder();
    SortSpec(FindingBefore, p);
    FilterElements(PlannedBy(modes), findings);
    forall f | f in Sort(FindingBefore, p) ensures f.entityType in modes {
      assert f in multiset(Sort(FindingBefore, p));
      assert f in p;
    }
  }

  /** The keys of a Go map come in any order; sorting them fixes the result. */
  method SortedParts(s: set<string>) returns (parts: seq<string>)
    ensures parts == SortedSet(s)
  {
    var listed: seq<string> := [];
    var rest := s;
    while rest != {}
      invariant multiset(listed) + multiset(rest) == multiset(s)
      decreases |rest|
    {
      var k :| k in rest;
      listed := listed + [k];
      assert multiset(rest) == multiset{k} + multiset(rest - {k});
      rest := rest - {k};
    }
    StringOrder();
    SortForgetsOrder(listed, s);
    var a := new string[|listed|](i requires 0 <= i < |listed| => listed[i]);
    assert a[..] == listed;
    SliceStable(StringBefore, a);
    parts := a[..];
  }

  lemma NothingPlanned(lib: Library, modes: Modes, input: Bytes, findings: seq<ScanFinding>)
    requires Planned(modes, findings) == []
    ensures TransformSpec(lib, modes, input, findings) == (input, TransformStats(0, ""))
  {
    assert LabelsOf(modes, []) == {};
  }
}
