/** The detector: pattern matches per entity type, validated where a validator exists,
    followed by the findings of the name recogniser. */
module Detector {
  import opened Utf8
  import opened Models
  import opened StableSort
  import Ner
  import Luhn
  import Ipv4

  datatype Span = Span(start: int, end: int)

  ghost predicate InOrder(spans: seq<Span>, text: Bytes) {
    && (forall k :: 0 <= k < |spans| ==> 0 <= spans[k].start <= spans[k].end <= |text|)
    && (forall k, l :: 0 <= k < l < |spans| ==> spans[k].end <= spans[l].start)
  }

  /** The regular-expression engine: for each entity type the successive matches in a text. */
  type Engine = m: (string, Bytes) -> seq<Span> | forall t, text :: InOrder(m(t, text), text) witness (_, _) => []

  const SCAN_TYPES: seq<string> :=
    ["api_key", "credit_card", "date", "email", "ip_address", "phone", "ssn", "zip_code"]

  function Confidence(t: string): real {
    if t == "email" then 0.995
    else if t == "phone" then 0.88
    else if t == "ssn" then 0.99
    else if t == "api_key" then 0.94
    else if t == "credit_card" then 0.95
    else if t == "ip_address" then 0.90
    else if t == "date" then 0.85
    else 0.80
  }

  /** Both validators only accept ASCII, so reading the value as runes loses nothing. */
  predicate Validates(t: string, value: Bytes) {
    && (t == "credit_card" ==> Luhn.Accepts(Decode(value)))
    && (t == "ip_address" ==> Ipv4.Accepts(Decode(value)))
  }

  predicate Keeps(text: Bytes, t: string, s: Span) {
    0 <= s.start <= s.end <= |text| && Validates(t, text[s.start..s.end])
  }

  function Matched(text: Bytes, t: string, spans: seq<Span>): seq<ScanFinding> {
    if spans == [] then []
    else
      var s := spans[|spans| - 1];
      Matched(text, t, spans[..|spans| - 1])
      + if Keeps(text, t, s) then [ScanFinding(t, text[s.start..s.end], s.start, s.end, Confidence(t))] else []
  }

  function MatchedTypes(engine: Engine, text: Bytes, requested: set<string>, types: seq<string>): seq<ScanFinding> {
    if types == [] then []
    else
      var t := types[|types| - 1];
      MatchedTypes(engine, text, requested, types[..|types| - 1])
      + if Ner.ShouldRun(requested, t) then Matched(text, t, engine(t, text)) else []
  }

  datatype Scanner = Scanner(engine: Engine, lexicon: Ner.Lexicon, nerEnabled: bool)

  function ScanSpec(scanner: Scanner, text: Bytes, requested: set<string>): seq<ScanFinding> {
    MatchedTypes(scanner.engine, text, requested, SCAN_TYPES)
    + Ner.NerSpec(scanner.lexicon, scanner.nerEnabled, text, requested)
  }

  method Validate(t: string, value: Bytes) returns (ok: bool)
    ensures ok == Validates(t, value)
  {
    if t == "credit_card" {
      ok := Luhn.LuhnValid(Decode(value));
    } else if t == "ip_address" {
      ok := Ipv4.Ipv4Valid(Decode(value));
    } else {
      ok := true;
    }
  }

  method ScanType(text: Bytes, t: string, spans: seq<Span>) returns (findings: seq<ScanFinding>)
    requires InOrder(spans, text)
    ensures findings == Matched(text, t, spans)
  {
    findings := [];
    for k := 0 to |spans|
      invariant findings == Matched(text, t, spans[..k])
    {
      assert spans[..k + 1][..k] == spans[..k];
      var s := spans[k];
      if s.start < 0 || s.end < s.start {
        continue;
      }
      var value := text[s.start..s.end];
      var ok := Validate(t, value);
      if !ok {
        continue;
      }
      findings := findings + [ScanFinding(t, value, s.start, s.end, Confidence(t))];
    }
    assert spans[..|spans|] == spans;
  }

  method ScanTypes(engine: Engine, text: Bytes, requested: set<string>, types: seq<string>)
    returns (findings: seq<ScanFinding>)
    ensures findings == MatchedTypes(engine, text, requested, types)
  {
    findings := [];
    for k := 0 to |types|
      invariant findings == MatchedTypes(engine, text, requested, types[..k])
    {
      assert types[..k + 1][..k] == types[..k];
      if Ner.ShouldRun(requested, types[k]) {
        var found := ScanType(text, types[k], engine(types[k], text));
        findings := findings + found;
      }
    }
    assert types[..|types|] == types;
  }

  method ScanText(scanner: Scanner, text: Bytes, requested: set<string>) returns (findings: seq<ScanFinding>)
    ensures findings == ScanSpec(scanner, text, requested)
  {
    findings := ScanTypes(scanner.engine, text, requested, SCAN_TYPES);
    if !Ner.ShouldRunNer(requested) {
      assert findings + [] == findings;
      return;
    }
    var named := Ner.ScanNerWithFilter(scanner.lexicon, scanner.nerEnabled, text, requested);
    findings := findings + named;
  }

  // ---------------------------------------------------------------- guarantees

  ghost predicate Quotes(text: Bytes, f: ScanFinding) {
    0 <= f.start <= f.end <= |text| && f.value == text[f.start..f.end]
  }

  /** Left to right, without overlap. */
  ghost predicate Ascending(fs: seq<ScanFinding>) {
    forall k, l :: 0 <= k < l < |fs| ==> fs[k].end <= fs[l].start
  }

  /** What is reported for a type is a validated quotation of the text, one for each match. */
  lemma {:induction false} MatchedSound(text: Bytes, t: string, spans: seq<Span>, f: ScanFinding)
    requires f in Matched(text, t, spans)
    ensures f.entityType == t && Quotes(text, f) && Validates(t, f.value) && Span(f.start, f.end) in spans
  {
    var n := |spans| - 1;
    if f in Matched(text, t, spans[..n]) {
      MatchedSound(text, t, spans[..n], f);
    }
  }

  /** Every match that validates is reported. */
  lemma {:induction false} MatchedComplete(text: Bytes, t: string, spans: seq<Span>, s: Span)
    requires s in spans && Keeps(text, t, s)
    ensures ScanFinding(t, text[s.start..s.end], s.start, s.end, Confidence(t)) in Matched(text, t, spans)
  {
    var n := |spans| - 1;
    assert spans == spans[..n] + [spans[n]];
    if s in spans[..n] {
      MatchedComplete(text, t, spans[..n], s);
    }
  }

  lemma {:induction false} MatchedAscending(text: Bytes, t: string, spans: seq<Span>)
    requires InOrder(spans, text)
    ensures Ascending(Matched(text, t, spans))
  {
    if spans != [] {
      var n := |spans| - 1;
      var front, s := spans[..n], spans[n];
      MatchedAscending(text, t, front);
      forall f | f in Matched(text, t, front) ensures f.end <= s.start {
        MatchedSound(text, t, front, f);
        var k :| 0 <= k < n && front[k] == Span(f.start, f.end);
        assert spans[k].end <= spans[n].start;
      }
    }
  }

  function OfType(t: string): ScanFinding -> bool { (f: ScanFinding) => f.entityType == t }

  function MatchedIf(engine: Engine, text: Bytes, requested: set<string>, u: string): seq<ScanFinding> {
    if Ner.ShouldRun(requested, u) then Matched(text, u, engine(u, text)) else []
  }

  lemma MatchedIfOfType(engine: Engine, text: Bytes, requested: set<string>, u: string, t: string)
    ensures Filter(OfType(t), MatchedIf(engine, text, requested, u))
         == if u == t then MatchedIf(engine, text, requested, u) else []
  {
    var fs := MatchedIf(engine, text, requested, u);
    forall f | f in fs ensures f.entityType == u {
      MatchedSound(text, u, engine(u, text), f);
    }
    FilterUniform(OfType(t), fs, u == t);
  }

  /** The scan keeps the types apart: selecting one type gives back just its matches. */
  lemma {:induction false} MatchedTypesOfType(engine: Engine, text: Bytes, requested: set<string>,
                                              types: seq<string>, t: string)
    requires forall i, j :: 0 <= i < j < |types| ==> types[i] != types[j]
    ensures Filter(OfType(t), MatchedTypes(engine, text, requested, types))
         == if t in types && Ner.ShouldRun(requested, t) then Matched(text, t, engine(t, text)) else []
  {
    if types != [] {
      var n := |types| - 1;
      var front, u := types[..n], types[n];
      assert types == front + [u];
      MatchedTypesOfType(engine, text, requested, front, t);
      FilterAppend(OfType(t), MatchedTypes(engine, text, requested, front), MatchedIf(engine, text, requested, u));
      MatchedIfOfType(engine, text, requested, u, t);
      if u == t {
        forall i | 0 <= i < n ensures front[i] != t {
          assert types[i] != types[n];
        }
      }
    }
  }

  lemma ScanTypesDistinct()
    ensures forall i, j :: 0 <= i < j < |SCAN_TYPES| ==> SCAN_TYPES[i] != SCAN_TYPES[j]
  {
    var ts := SCAN_TYPES;
    assert ts[0] == "api_key" && ts[1] == "credit_card" && ts[2] == "date" && ts[3] == "email";
    assert ts[4] == "ip_address" && ts[5] == "phone" && ts[6] == "ssn" && ts[7] == "zip_code";
    assert ts[0][0] == 'a' && ts[1][0] == 'c' && ts[2][0] == 'd' && ts[3][0] == 'e';
    assert ts[4][0] == 'i' && ts[5][0] == 'p' && ts[6][0] == 's' && ts[7][0] == 'z';
    forall i, j | 0 <= i < j < |ts| ensures ts[i] != ts[j] {
      assert ts[i][0] != ts[j][0];
    }
  }

  // ---------------------------------------------------------------- where findings can overlap

  predicate IsNerType(t: string) { t == "person" || t == "organization" || t == "location" }

  lemma NerTypes(scanner: Scanner, text: Bytes, requested: set<string>, f: ScanFinding)
    requires f in Ner.NerSpec(scanner.lexicon, scanner.nerEnabled, text, requested)
    ensures IsNerType(f.entityType) && Ner.ShouldRun(requested, f.entityType)
  {
    var lex, want, tokens := scanner.lexicon, Ner.Wants(requested), Ner.Tokens(scanner.lexicon, text);
    var i, e := Ner.FindingsAreSpans(lex, Ner.ClassifierOf(lex, want, text, tokens), tokens, f);
    Ner.ClassifiedWanted(lex, want, text, tokens, i, e);
  }

  lemma {:induction false} MatchedTypesTypes(engine: Engine, text: Bytes, requested: set<string>, types: seq<string>,
                                             f: ScanFinding)
    requires f in MatchedTypes(engine, text, requested, types)
    ensures f.entityType in types && Ner.ShouldRun(requested, f.entityType)
    ensures f in Matched(text, f.entityType, engine(f.entityType, text))
  {
    var n := |types| - 1;
    if f in MatchedTypes(engine, text, requested, types[..n]) {
      MatchedTypesTypes(engine, text, requested, types[..n], f);
    } else {
      MatchedSound(text, types[n], engine(types[n], text), f);
    }
  }

  lemma ScanTypesNotNer(t: string)
    requires t in SCAN_TYPES
    ensures !IsNerType(t)
  {
    var ts := SCAN_TYPES;
    assert t in {ts[0], ts[1], ts[2], ts[3], ts[4], ts[5], ts[6], ts[7]};
    assert |"person"| == 6 && |"organization"| == 12 && |"location"| == 8;
    assert "person"[1] == 'e' && "location"[0] == 'l' && "organization"[0] == 'o';
  }

  lemma {:induction false} FilterKeepsOrder<T(!new)>(p: T -> bool, xs: seq<T>, i: nat, j: nat) returns (k: nat, l: nat)
    requires i < j < |xs| && p(xs[i]) && p(xs[j])
    ensures k < l < |Filter(p, xs)| && Filter(p, xs)[k] == xs[i] && Filter(p, xs)[l] == xs[j]
  {
    if i == 0 {
      FilterElements(p, xs[1..]);
      assert xs[1..][j - 1] in Filter(p, xs[1..]);
      var m :| 0 <= m < |Filter(p, xs[1..])| && Filter(p, xs[1..])[m] == xs[j];
      k, l := 0, m + 1;
    } else {
      k, l := FilterKeepsOrder(p, xs[1..], i - 1, j - 1);
      if p(xs[0]) {
        k, l := k + 1, l + 1;
      }
    }
  }

  /** Two findings of one scan of a valid text are apart unless their types differ;
      two names are apart even then. */
  lemma OverlapOnlyAcrossTypes(scanner: Scanner, text: Bytes, requested: set<string>, i: nat, j: nat)
    requires Valid(text) && i < j < |ScanSpec(scanner, text, requested)|
    ensures var f, g := ScanSpec(scanner, text, requested)[i], ScanSpec(scanner, text, requested)[j];
            f.entityType == g.entityType || (IsNerType(f.entityType) && IsNerType(g.entityType)) ==> f.end <= g.start
  {
    var scan := ScanSpec(scanner, text, requested);
    var regex := MatchedTypes(scanner.engine, text, requested, SCAN_TYPES);
    var named := Ner.NerSpec(scanner.lexicon, scanner.nerEnabled, text, requested);
    var f, g := scan[i], scan[j];
    if i < |regex| {
      assert f in regex;
      MatchedTypesTypes(scanner.engine, text, requested, SCAN_TYPES, f);
      ScanTypesNotNer(f.entityType);
      if j < |regex| {
        if f.entityType == g.entityType {
          SameTypeApart(scanner.engine, text, requested, i, j);
        }
      } else {
        assert g == named[j - |regex|];
        NerTypes(scanner, text, requested, g);
      }
    } else {
      assert f == named[i - |regex|] && g == named[j - |regex|];
      Ner.NerFindingsGood(scanner.lexicon, scanner.nerEnabled, text, requested);
    }
  }

  lemma SameTypeApart(engine: Engine, text: Bytes, requested: set<string>, i: nat, j: nat)
    requires i < j < |MatchedTypes(engine, text, requested, SCAN_TYPES)|
    requires var fs := MatchedTypes(engine, text, requested, SCAN_TYPES); fs[i].entityType == fs[j].entityType
    ensures var fs := MatchedTypes(engine, text, requested, SCAN_TYPES); fs[i].end <= fs[j].start
  {
    var fs := MatchedTypes(engine, text, requested, SCAN_TYPES);
    var t := fs[i].entityType;
    MatchedTypesTypes(engine, text, requested, SCAN_TYPES, fs[i]);
    ScanTypesDistinct();
    MatchedTypesOfType(engine, text, requested, SCAN_TYPES, t);
    var k, l := FilterKeepsOrder(OfType(t), fs, i, j);
    MatchedAscending(text, t, engine(t, text));
  }

  /** Every finding of a scan of a valid text quotes the text, is of a type asked for,
      and passed the validator of its type if there is one. */
  lemma ScanSound(scanner: Scanner, text: Bytes, requested: set<string>, f: ScanFinding)
    requires Valid(text) && f in ScanSpec(scanner, text, requested)
    ensures Quotes(text, f) && Validates(f.entityType, f.value)
    ensures Ner.ShouldRun(requested, f.entityType)
  {
    if f in MatchedTypes(scanner.engine, text, requested, SCAN_TYPES) {
      MatchedTypesTypes(scanner.engine, text, requested, SCAN_TYPES, f);
      MatchedSound(text, f.entityType, scanner.engine(f.entityType, text), f);
    } else {
      NerTypes(scanner, text, requested, f);
      Ner.NerFindingsGood(scanner.lexicon, scanner.nerEnabled, text, requested);
      assert |"credit_card"| == 11 && |"ip_address"| == 10;
      assert |"person"| == 6 && |"organization"| == 12 && |"location"| == 8;
    }
  }
}
