/** What a scan reports: everything it is asked for, and in which order. */
module Scanning {
  import opened Utf8
  import opened Models
  import opened StableSort
  import opened Detector
  import Ipv4
  import Luhn
  import Ner

  /** The types found by regular expression. */
  predicate Patterned(t: string) {
    t in {"api_key", "credit_card", "date", "email", "ip_address", "phone", "ssn", "zip_code"}
  }

  /** A filter without entries asks for everything. */
  predicate Asked(requested: set<string>, t: string) { requested == {} || t in requested }

  /** Card numbers must pass the check digit, addresses the octet check; other types are not validated. */
  predicate Accepted(t: string, value: Bytes) {
    && (t == "credit_card" ==> Luhn.Accepts(Decode(value)))
    && (t == "ip_address" ==> Ipv4.Accepts(Decode(value)))
  }

  function AcceptedSpan(text: Bytes, t: string): Span -> bool {
    (s: Span) => 0 <= s.start <= s.end <= |text| && Accepted(t, text[s.start..s.end])
  }

  lemma PatternedListed(t: string)
    ensures t in SCAN_TYPES <==> Patterned(t)
  {
    var ts := SCAN_TYPES;
    assert ts == [ts[0], ts[1], ts[2], ts[3], ts[4], ts[5], ts[6], ts[7]];
  }

  // ---------------------------------------------------------------- completeness

  lemma {:induction false} MatchedTypesInclude(engine: Engine, text: Bytes, requested: set<string>, types: seq<string>,
                                               t: string, f: ScanFinding)
    requires t in types && Asked(requested, t) && f in Matched(text, t, engine(t, text))
    ensures f in MatchedTypes(engine, text, requested, types)
  {
    var n := |types| - 1;
    assert types == types[..n] + [types[n]];
    if t != types[n] {
      MatchedTypesInclude(engine, text, requested, types[..n], t, f);
    }
  }

  /** Every match of a type asked for that its validator accepts is reported, with its type, span and value. */
  lemma ScanComplete(scanner: Scanner, text: Bytes, requested: set<string>, t: string, s: Span)
    requires Patterned(t) && Asked(requested, t) && s in scanner.engine(t, text)
    requires 0 <= s.start <= s.end <= |text| && Accepted(t, text[s.start..s.end])
    ensures exists f :: f in ScanSpec(scanner, text, requested)
                        && f.entityType == t && f.start == s.start && f.end == s.end && f.value == text[s.start..s.end]
  {
    MatchedComplete(text, t, scanner.engine(t, text), s);
    var f := ScanFinding(t, text[s.start..s.end], s.start, s.end, Confidence(t));
    PatternedListed(t);
    MatchedTypesInclude(scanner.engine, text, requested, SCAN_TYPES, t, f);
  }

  // ---------------------------------------------------------------- one type of a scan

  /** The findings are those spans, in that order. */
  ghost predicate Reports(text: Bytes, t: string, fs: seq<ScanFinding>, spans: seq<Span>) {
    |fs| == |spans| && forall k :: 0 <= k < |fs| ==> ReportsSpan(text, t, fs[k], spans[k])
  }

  predicate ReportsSpan(text: Bytes, t: string, f: ScanFinding, s: Span) {
    && f.entityType == t && f.start == s.start && f.end == s.end
    && 0 <= s.start <= s.end <= |text| && f.value == text[s.start..s.end]
    && Rated(t, f.confidence)
  }

  predicate Rated(t: string, confidence: real) {
    match confidence
    case 0.995 => t == "email"
    case 0.99 => t == "ssn"
    case 0.95 => t == "credit_card"
    case 0.94 => t == "api_key"
    case 0.90 => t == "ip_address"
    case 0.88 => t == "phone"
    case 0.85 => t == "date"
    case 0.80 => t == "zip_code"
    case _ => false
  }

  lemma RatedByType(t: string)
    requires Patterned(t)
    ensures Rated(t, Confidence(t))
  {
  }

  lemma {:induction false} MatchedReports(text: Bytes, t: string, spans: seq<Span>)
    requires Patterned(t)
    ensures Reports(text, t, Matched(text, t, spans), Filter(AcceptedSpan(text, t), spans))
  {
    if spans != [] {
      var n := |spans| - 1;
      var front, s := spans[..n], spans[n];
      MatchedReports(text, t, front);
      RatedByType(t);
      assert spans == front + [s] && [s][1..] == [];
      FilterAppend(AcceptedSpan(text, t), front, [s]);
    }
  }

  lemma NamesApart(scanner: Scanner, text: Bytes, requested: set<string>, t: string)
    requires Patterned(t)
    ensures Filter(OfType(t), Ner.NerSpec(scanner.lexicon, scanner.nerEnabled, text, requested)) == []
  {
    var named := Ner.NerSpec(scanner.lexicon, scanner.nerEnabled, text, requested);
    PatternedListed(t);
    ScanTypesNotNer(t);
    forall f | f in named ensures !OfType(t)(f) {
      NerTypes(scanner, text, requested, f);
    }
    FilterUniform(OfType(t), named, false);
  }

  /** Selecting a type from a scan gives exactly the accepted matches of that type in order, if it was asked for. */
  lemma ScanOfType(scanner: Scanner, text: Bytes, requested: set<string>, t: string)
    requires Patterned(t)
    ensures Reports(text, t, Filter(OfType(t), ScanSpec(scanner, text, requested)),
                    if Asked(requested, t) then Filter(AcceptedSpan(text, t), scanner.engine(t, text)) else [])
  {
    var regex := MatchedTypes(scanner.engine, text, requested, SCAN_TYPES);
    var named := Ner.NerSpec(scanner.lexicon, scanner.nerEnabled, text, requested);
    PatternedListed(t);
    ScanTypesDistinct();
    MatchedTypesOfType(scanner.engine, text, requested, SCAN_TYPES, t);
    FilterAppend(OfType(t), regex, named);
    NamesApart(scanner, text, requested, t);
    MatchedReports(text, t, scanner.engine(t, text));
  }

  /** The names in a scan are those of the recogniser. */
  lemma ScanOfNames(scanner: Scanner, text: Bytes, requested: set<string>)
    ensures Filter((f: ScanFinding) => IsNerType(f.entityType), ScanSpec(scanner, text, requested))
         == Ner.NerSpec(scanner.lexicon, scanner.nerEnabled, text, requested)
  {
    var name := (f: ScanFinding) => IsNerType(f.entityType);
    var regex := MatchedTypes(scanner.engine, text, requested, SCAN_TYPES);
    var named := Ner.NerSpec(scanner.lexicon, scanner.nerEnabled, text, requested);
    forall f | f in regex ensures !name(f) {
      MatchedTypesTypes(scanner.engine, text, requested, SCAN_TYPES, f);
      ScanTypesNotNer(f.entityType);
    }
    forall f | f in named ensures name(f) {
      NerTypes(scanner, text, requested, f);
    }
    FilterAppend(name, regex, named);
    FilterUniform(name, regex, false);
    FilterUniform(name, named, true);
  }

  // ---------------------------------------------------------------- the order of types

  /** The place of a type in a scan; names come last. */
  function Place(t: string): int {
    if t == "api_key" then 0 else if t == "credit_card" then 1 else if t == "date" then 2 else if t == "email" then 3
    else if t == "ip_address" then 4 else if t == "phone" then 5 else if t == "ssn" then 6
    else if t == "zip_code" then 7 else 8
  }

  lemma PlacesListed(k: nat)
    requires k < |SCAN_TYPES|
    ensures |SCAN_TYPES| == 8 && Place(SCAN_TYPES[k]) == k
  {
    var ts := SCAN_TYPES;
    assert ts[0] == "api_key" && ts[1] == "credit_card" && ts[2] == "date" && ts[3] == "email";
    assert ts[4] == "ip_address" && ts[5] == "phone" && ts[6] == "ssn" && ts[7] == "zip_code";
    assert ts[0][0] == 'a' && ts[1][0] == 'c' && ts[2][0] == 'd' && ts[3][0] == 'e';
    assert ts[4][0] == 'i' && ts[5][0] == 'p' && ts[6][0] == 's' && ts[7][0] == 'z';
  }

  ghost predicate Placed(fs: seq<ScanFinding>, bound: int) {
    && (forall i :: 0 <= i < |fs| ==> Place(fs[i].entityType) < bound)
    && (forall i, j :: 0 <= i < j < |fs| ==> Place(fs[i].entityType) <= Place(fs[j].entityType))
  }

  lemma PlacedAppend(a: seq<ScanFinding>, b: seq<ScanFinding>, place: int)
    requires Placed(a, place) && forall f :: f in b ==> Place(f.entityType) == place
    ensures Placed(a + b, place + 1)
  {
    var w := a + b;
    forall i | 0 <= i < |w| ensures Place(w[i].entityType) <= place && (i >= |a| ==> Place(w[i].entityType) == place) {
      assert i >= |a| ==> w[i] in b;
    }
    forall i, j | 0 <= i < j < |w| ensures Place(w[i].entityType) <= Place(w[j].entityType) {
      if j < |a| {
        assert w[i] == a[i] && w[j] == a[j];
      }
    }
  }

  lemma {:induction false} TypesPlaced(engine: Engine, text: Bytes, requested: set<string>, k: nat)
    requires k <= |SCAN_TYPES|
    ensures Placed(MatchedTypes(engine, text, requested, SCAN_TYPES[..k]), k)
  {
    if k > 0 {
      var t := SCAN_TYPES[k - 1];
      assert SCAN_TYPES[..k][..k - 1] == SCAN_TYPES[..k - 1];
      TypesPlaced(engine, text, requested, k - 1);
      PlacesListed(k - 1);
      var fs := MatchedIf(engine, text, requested, t);
      forall f | f in fs ensures Place(f.entityType) == k - 1 {
        MatchedSound(text, t, engine(t, text), f);
      }
      PlacedAppend(MatchedTypes(engine, text, requested, SCAN_TYPES[..k - 1]), fs, k - 1);
    }
  }

  lemma NamePlace(t: string)
    requires IsNerType(t)
    ensures Place(t) == 8
  {
    assert |"person"| == 6 && |"organization"| == 12 && |"location"| == 8;
    assert "person"[1] == 'e' && "location"[0] == 'l' && "organization"[0] == 'o';
  }

  /** The types come in a fixed order, and the names after all of them. */
  lemma ScanOrder(scanner: Scanner, text: Bytes, requested: set<string>, i: nat, j: nat)
    requires i < j < |ScanSpec(scanner, text, requested)|
    ensures var fs := ScanSpec(scanner, text, requested); Place(fs[i].entityType) <= Place(fs[j].entityType)
  {
    var named := Ner.NerSpec(scanner.lexicon, scanner.nerEnabled, text, requested);
    TypesPlaced(scanner.engine, text, requested, |SCAN_TYPES|);
    assert SCAN_TYPES[..|SCAN_TYPES|] == SCAN_TYPES && |SCAN_TYPES| == 8;
    forall f | f in named ensures Place(f.entityType) == 8 {
      NerTypes(scanner, text, requested, f);
      NamePlace(f.entityType);
    }
    PlacedAppend(MatchedTypes(scanner.engine, text, requested, SCAN_TYPES), named, 8);
  }
}
