/** The heuristic recogniser of persons, organizations and locations. It reads a text
    rune by rune and reports byte offsets. */
module Ner {
  import opened Utf8
  import opened Models

  datatype Token = Token(text: string, start: int, end: int)

  /** Character classes, case folding and dictionaries. */
  datatype Lexicon = Lexicon(
    isSpace: char -> bool, isUpper: char -> bool, lower: string -> string,
    personTrigger: string -> bool, orgSuffix: string -> bool, locationTrigger: string -> bool,
    firstName: string -> bool, knownLocation: Bytes -> bool)

  // ---------------------------------------------------------------- offsets

  function ByteOffset(text: Bytes, runeIdx: nat): int {
    var runes := Decode(text);
    if runeIdx >= |runes| then |text| else |Encode(runes[..runeIdx])|
  }

  /** Where the i-th rune really starts. */
  function TrueOffset(text: Bytes, i: nat): nat
    requires i <= |Units(text)|
  {
    Width(Units(text)[..i])
  }

  lemma {:induction false} EncodeUnits(text: Bytes, i: nat)
    requires i <= |Units(text)|
    ensures |Encode(Decode(text)[..i])| == TrueOffset(text, i) + 2 * BadUnits(Units(text)[..i])
  {
    if i > 0 {
      var rest := text[DecodeRune(text).width..];
      EncodeUnits(rest, i - 1);
      EncodeDecodeRune(text);
      DecodeTail(text);
      TakeWidth(Units(text), i);
      TakeBad(Units(text), i);
      TakeEncode(Decode(text), i);
    }
  }

  lemma TakeBad(us: seq<Unit>, i: nat)
    requires 0 < i <= |us|
    ensures BadUnits(us[..i]) == (if us[0].valid then 0 else 1) + BadUnits(us[1..][..i - 1])
  {
    assert us[..i][1..] == us[1..][..i - 1];
  }

  /** The reported offset of a rune is too large by two for each ill-formed byte before it;
      only the end of the text is always right. */
  lemma OffsetError(text: Bytes, i: nat)
    requires i <= |Units(text)|
    ensures ByteOffset(text, i)
         == TrueOffset(text, i) + if i < |Units(text)| then 2 * BadUnits(Units(text)[..i]) else 0
  {
    EncodeUnits(text, i);
    EncodeDecodeLength(text);
    assert Units(text)[..|Units(text)|] == Units(text);
  }

  lemma {:induction false} BadUnitsMonotonic(us: seq<Unit>, i: nat, j: nat)
    requires i <= j <= |us|
    ensures BadUnits(us[..i]) <= BadUnits(us[..j])
  {
    assert us[..j] == us[..i] + us[i..j];
    WidthAppend(us[..i], us[i..j]);
  }

  /** All offsets are right exactly when nothing before the last rune is ill-formed. */
  lemma OffsetsExact(text: Bytes)
    requires text != []
    ensures (forall i :: 0 <= i <= |Units(text)| ==> ByteOffset(text, i) == TrueOffset(text, i))
       <==> BadUnits(Units(text)[..|Units(text)| - 1]) == 0
  {
    var us := Units(text);
    var n := |us|;
    OffsetError(text, n - 1);
    if BadUnits(us[..n - 1]) == 0 {
      forall i | 0 <= i <= n ensures ByteOffset(text, i) == TrueOffset(text, i) {
        OffsetError(text, i);
        if i < n {
          BadUnitsMonotonic(us, i, n - 1);
        }
      }
    }
  }

  lemma ValidOffset(text: Bytes, i: nat)
    requires Valid(text) && i <= |Units(text)|
    ensures ByteOffset(text, i) == TrueOffset(text, i)
  {
    OffsetError(text, i);
    BadUnitsMonotonic(Units(text), i, |Units(text)|);
    assert Units(text)[..|Units(text)|] == Units(text);
  }

  // ---------------------------------------------------------------- tokens

  predicate IsTrailing(c: char) {
    c == ',' || c == ';' || c == ':' || c == '!' || c == '?' || c == '"' || c == '\'' || c == ')'
  }

  function TrimRight(s: string): string {
    if s != [] && IsTrailing(s[|s| - 1]) then TrimRight(s[..|s| - 1]) else s
  }

  predicate SpaceAt(lex: Lexicon, rs: string, k: int) { 0 <= k < |rs| && lex.isSpace(rs[k]) }

  function SkipSpace(lex: Lexicon, rs: string, i: nat): (j: nat)
    requires i <= |rs|
    ensures i <= j <= |rs|
    ensures forall k :: i <= k < j ==> SpaceAt(lex, rs, k)
    ensures !SpaceAt(lex, rs, j)
    decreases |rs| - i
  {
    if SpaceAt(lex, rs, i) then SkipSpace(lex, rs, i + 1) else i
  }

  function WordEnd(lex: Lexicon, rs: string, i: nat): (j: nat)
    requires i <= |rs|
    ensures i <= j <= |rs|
    ensures forall k :: i <= k < j ==> !SpaceAt(lex, rs, k)
    ensures j < |rs| ==> SpaceAt(lex, rs, j)
    decreases |rs| - i
  {
    if i < |rs| && !SpaceAt(lex, rs, i) then WordEnd(lex, rs, i + 1) else i
  }

  /** Byte offset of each rune. */
  type Offsets = nat -> int

  function OffsetsOf(text: Bytes): Offsets { (i: nat) => ByteOffset(text, i) }

  function TokenOf(rs: string, offset: Offsets, s: nat, e: nat): Token
    requires s <= e <= |rs|
  {
    var trimmed := TrimRight(rs[s..e]);
    Token(trimmed, offset(s), offset(s + |trimmed|))
  }

  /** The token of a word, unless it is nothing but trailing punctuation. */
  function Emit(rs: string, offset: Offsets, s: nat, e: nat): seq<Token>
    requires s <= e <= |rs|
  {
    if TrimRight(rs[s..e]) == [] then [] else [TokenOf(rs, offset, s, e)]
  }

  function TokensFrom(lex: Lexicon, rs: string, offset: Offsets, i: nat): seq<Token>
    requires i <= |rs|
    decreases |rs| - i
  {
    var s := SkipSpace(lex, rs, i);
    if s == |rs| then []
    else
      var e := WordEnd(lex, rs, s);
      Emit(rs, offset, s, e) + TokensFrom(lex, rs, offset, e)
  }

  function Tokens(lex: Lexicon, text: Bytes): seq<Token> {
    TokensFrom(lex, Decode(text), OffsetsOf(text), 0)
  }

  method Tokenize(lex: Lexicon, text: Bytes) returns (tokens: seq<Token>)
    ensures tokens == Tokens(lex, text)
  {
    tokens := TokenizeRunes(lex, Decode(text), OffsetsOf(text));
  }

  method TokenizeRunes(lex: Lexicon, runes: string, offset: Offsets) returns (tokens: seq<Token>)
    ensures tokens == TokensFrom(lex, runes, offset, 0)
  {
    tokens := [];
    var i := 0;
    var n := |runes|;
    while i < n
      invariant 0 <= i <= n
      invariant tokens + TokensFrom(lex, runes, offset, i) == TokensFrom(lex, runes, offset, 0)
    {
      var start := SkipSpaces(lex, runes, i);
      if start >= n {
        break;
      }
      TokensStep(lex, runes, offset, i, tokens);
      var found;
      i, found := ReadToken(lex, runes, offset, start);
      tokens := tokens + found;
    }
    assert TokensFrom(lex, runes, offset, i) == [];
  }

  lemma TokensStep(lex: Lexicon, rs: string, offset: Offsets, i: nat, acc: seq<Token>)
    requires i < |rs| && SkipSpace(lex, rs, i) < |rs|
    ensures var s := SkipSpace(lex, rs, i);
            var e := WordEnd(lex, rs, s);
            acc + TokensFrom(lex, rs, offset, i) == (acc + Emit(rs, offset, s, e)) + TokensFrom(lex, rs, offset, e)
  {
    var s := SkipSpace(lex, rs, i);
    var e := WordEnd(lex, rs, s);
    var a, b := Emit(rs, offset, s, e), TokensFrom(lex, rs, offset, e);
    assert TokensFrom(lex, rs, offset, i) == a + b;
    assert acc + (a + b) == (acc + a) + b;
  }

  /** The word starting here, and its token unless nothing is left of it. */
  method ReadToken(lex: Lexicon, runes: string, offset: Offsets, start: nat) returns (i: nat, found: seq<Token>)
    requires start <= |runes|
    ensures i == WordEnd(lex, runes, start) && found == Emit(runes, offset, start, i)
  {
    i := ReadWord(lex, runes, start);
    var word := runes[start..i];
    var trimmed := TrimRight(word);
    if trimmed == [] {
      return i, [];
    }
    var endPos := start + |trimmed|;
    found := [Token(trimmed, offset(start), offset(endPos))];
  }

  method SkipSpaces(lex: Lexicon, runes: string, from: nat) returns (i: nat)
    requires from <= |runes|
    ensures i == SkipSpace(lex, runes, from)
  {
    i := from;
    while i < |runes| && lex.isSpace(runes[i])
      invariant from <= i <= |runes| && SkipSpace(lex, runes, i) == SkipSpace(lex, runes, from)
    {
      i := i + 1;
    }
  }

  method ReadWord(lex: Lexicon, runes: string, from: nat) returns (i: nat)
    requires from <= |runes|
    ensures i == WordEnd(lex, runes, from)
  {
    i := from;
    while i < |runes| && !lex.isSpace(runes[i])
      invariant from <= i <= |runes| && WordEnd(lex, runes, i) == WordEnd(lex, runes, from)
    {
      i := i + 1;
    }
  }

  lemma {:induction false} TrimRightPrefix(s: string)
    ensures TrimRight(s) <= s
    ensures forall k :: |TrimRight(s)| <= k < |s| ==> IsTrailing(s[k])
    ensures TrimRight(s) != [] ==> !IsTrailing(TrimRight(s)[|TrimRight(s)| - 1])
  {
    if s != [] && IsTrailing(s[|s| - 1]) {
      TrimRightPrefix(s[..|s| - 1]);
    }
  }

  /** A maximal run of non-space runes. */
  ghost predicate IsWord(lex: Lexicon, rs: string, s: nat, e: nat) {
    && s < e <= |rs|
    && (forall k :: s <= k < e ==> !SpaceAt(lex, rs, k))
    && (s == 0 || SpaceAt(lex, rs, s - 1))
    && (e == |rs| || SpaceAt(lex, rs, e))
  }

  ghost predicate IsTokenFrom(lex: Lexicon, rs: string, offset: Offsets, i: nat, tok: Token) {
    exists s: nat, e: nat :: i <= s && IsWord(lex, rs, s, e) && IsTokenOf(rs, offset, s, e, tok)
  }

  ghost predicate IsTokenOf(rs: string, offset: Offsets, s: nat, e: nat, tok: Token) {
    s <= e <= |rs| && TrimRight(rs[s..e]) != [] && tok == TokenOf(rs, offset, s, e)
  }

  ghost predicate AtBoundary(lex: Lexicon, rs: string, i: nat) {
    i == 0 || i >= |rs| || SpaceAt(lex, rs, i) || SpaceAt(lex, rs, i - 1)
  }

  lemma WordsSameOrApart(lex: Lexicon, rs: string, s: nat, e: nat, s': nat, e': nat)
    requires IsWord(lex, rs, s, e) && IsWord(lex, rs, s', e')
    ensures (s == s' && e == e') || e <= s' || e' <= s
  {
    assert s < s' < e ==> !SpaceAt(lex, rs, s' - 1);
    assert s' < s < e' ==> !SpaceAt(lex, rs, s - 1);
  }

  lemma FirstWord(lex: Lexicon, rs: string, i: nat, s: nat, e: nat)
    requires i <= |rs| && AtBoundary(lex, rs, i) && SkipSpace(lex, rs, i) < |rs|
    requires i <= s && IsWord(lex, rs, s, e)
    ensures var s0 := SkipSpace(lex, rs, i);
            (s == s0 && e == WordEnd(lex, rs, s0)) || WordEnd(lex, rs, s0) <= s
  {
    var s0 := SkipSpace(lex, rs, i);
    assert IsWord(lex, rs, s0, WordEnd(lex, rs, s0));
    assert s < s0 ==> SpaceAt(lex, rs, s);
    WordsSameOrApart(lex, rs, s, e, s0, WordEnd(lex, rs, s0));
  }

  /** The tokens are exactly the maximal words, without their trailing punctuation,
      that are not punctuation only. */
  lemma {:induction false} TokensAreWords(lex: Lexicon, rs: string, offset: Offsets, i: nat, tok: Token)
    requires i <= |rs| && AtBoundary(lex, rs, i)
    ensures tok in TokensFrom(lex, rs, offset, i) <==> IsTokenFrom(lex, rs, offset, i, tok)
    decreases |rs| - i
  {
    var s0 := SkipSpace(lex, rs, i);
    if s0 < |rs| {
      var e0 := WordEnd(lex, rs, s0);
      assert IsWord(lex, rs, s0, e0);
      TokensAreWords(lex, rs, offset, e0, tok);
      assert tok in TokensFrom(lex, rs, offset, i)
        <==> IsTokenOf(rs, offset, s0, e0, tok) || tok in TokensFrom(lex, rs, offset, e0);
      if IsTokenFrom(lex, rs, offset, i, tok) {
        var s: nat, e: nat :| i <= s && IsWord(lex, rs, s, e) && IsTokenOf(rs, offset, s, e, tok);
        FirstWord(lex, rs, i, s, e);
      }
    } else {
      forall s: nat, e: nat | i <= s < |rs| ensures !IsWord(lex, rs, s, e) {
        assert SpaceAt(lex, rs, s);
      }
    }
  }

  /** What the tokens of a valid text look like: inside the text, spelled as it is there,
      non-empty and in order. */
  ghost predicate GoodToken(text: Bytes, t: Token) {
    0 <= t.start < t.end <= |text| && t.text != [] && text[t.start..t.end] == Encode(t.text)
  }

  ghost predicate GoodTokens(text: Bytes, toks: seq<Token>, from: int) {
    && (forall k :: 0 <= k < |toks| ==> from <= toks[k].start && GoodToken(text, toks[k]))
    && (forall k, l :: 0 <= k < l < |toks| ==> toks[k].end <= toks[l].start)
  }

  /** A trimmed word is the beginning of the word. */
  lemma TrimmedPart(rs: string, s: nat, e: nat)
    requires s <= e <= |rs|
    ensures var w := TrimRight(rs[s..e]); s + |w| <= e && rs[s..s + |w|] == w
  {
    TrimRightPrefix(rs[s..e]);
  }

  lemma GoodPart(text: Bytes, s: nat, m: nat)
    requires Valid(text) && s < m <= |Decode(text)|
    ensures GoodToken(text, Token(Decode(text)[s..m], ByteOffset(text, s), ByteOffset(text, m)))
  {
    TrueSlice(text, s, m);
    NonEmptyEncode(Decode(text)[s..m]);
  }

  lemma GoodTokenOf(text: Bytes, s: nat, e: nat)
    requires Valid(text) && s <= e <= |Decode(text)| && TrimRight(Decode(text)[s..e]) != []
    ensures var t := TokenOf(Decode(text), OffsetsOf(text), s, e);
            ByteOffset(text, s) == t.start && t.end <= ByteOffset(text, e) && GoodToken(text, t)
  {
    var m := s + |TrimRight(Decode(text)[s..e])|;
    TrimmedPart(Decode(text), s, e);
    GoodPart(text, s, m);
    OffsetsOrdered(text, m, e);
  }

  lemma NonEmptyEncode(rs: string)
    requires rs != []
    ensures |Encode(rs)| > 0
  {
  }

  lemma TrueSlice(text: Bytes, i: nat, j: nat)
    requires Valid(text) && i <= j <= |Decode(text)|
    ensures 0 <= ByteOffset(text, i) <= ByteOffset(text, j) <= |text|
    ensures text[ByteOffset(text, i)..ByteOffset(text, j)] == Encode(Decode(text)[i..j])
  {
    ValidOffset(text, i);
    ValidOffset(text, j);
    Slice(text, i, j);
  }

  lemma OffsetsOrdered(text: Bytes, i: nat, j: nat)
    requires Valid(text) && i <= j <= |Decode(text)|
    ensures 0 <= ByteOffset(text, i) <= ByteOffset(text, j) <= |text|
  {
    TrueSlice(text, i, j);
  }

  lemma {:induction false} TokensGood(lex: Lexicon, text: Bytes, i: nat)
    requires Valid(text) && i <= |Decode(text)|
    ensures GoodTokens(text, TokensFrom(lex, Decode(text), OffsetsOf(text), i), ByteOffset(text, i))
    decreases |Decode(text)| - i
  {
    var rs, offset := Decode(text), OffsetsOf(text);
    var s := SkipSpace(lex, rs, i);
    if s < |rs| {
      var e := WordEnd(lex, rs, s);
      var rest := TokensFrom(lex, rs, offset, e);
      TokensGood(lex, text, e);
      OffsetsOrdered(text, i, s);
      OffsetsOrdered(text, s, e);
      if TrimRight(rs[s..e]) != [] {
        GoodTokenOf(text, s, e);
        GoodCons(text, TokenOf(rs, offset, s, e), rest, ByteOffset(text, i), ByteOffset(text, e));
      }
    }
  }

  lemma GoodCons(text: Bytes, t: Token, rest: seq<Token>, from: int, mid: int)
    requires GoodTokens(text, rest, mid) && GoodToken(text, t) && from <= t.start && t.end <= mid
    ensures GoodTokens(text, [t] + rest, from)
  {
  }

  // ---------------------------------------------------------------- spans

  predicate IsTitleCase(lex: Lexicon, s: string) { |s| > 1 && lex.isUpper(s[0]) }

  predicate IsConnector(lex: Lexicon, s: string) {
    var l := lex.lower(s);
    l == "of" || l == "the" || l == "and" || l == "de" || l == "van" || l == "von"
  }

  predicate IsSentenceEnd(s: string) {
    s != [] && (s[|s| - 1] == '.' || s[|s| - 1] == '!' || s[|s| - 1] == '?')
  }

  /** Whether a span reaching up to token j goes on through it. */
  predicate Continues(lex: Lexicon, tokens: seq<Token>, j: nat) {
    && j < |tokens|
    && ((IsConnector(lex, tokens[j].text) && j + 1 < |tokens| && IsTitleCase(lex, tokens[j + 1].text))
        || IsTitleCase(lex, tokens[j].text))
  }

  function SpanEnd(lex: Lexicon, tokens: seq<Token>, j: nat): (e: nat)
    requires j <= |tokens|
    ensures j <= e <= |tokens|
    decreases |tokens| - j
  {
    if Continues(lex, tokens, j) then SpanEnd(lex, tokens, j + 1) else j
  }

  /** A span runs over title-cased words and connectors, ends with a title-cased word
      and cannot be continued. */
  lemma {:induction false} SpanMaximal(lex: Lexicon, tokens: seq<Token>, i: nat, j: nat)
    requires i < j <= |tokens|
    requires IsTitleCase(lex, tokens[j - 1].text) || (j < |tokens| && IsTitleCase(lex, tokens[j].text))
    ensures var e := SpanEnd(lex, tokens, j);
            && IsTitleCase(lex, tokens[e - 1].text)
            && (forall k :: j <= k < e ==> IsTitleCase(lex, tokens[k].text) || IsConnector(lex, tokens[k].text))
            && !Continues(lex, tokens, e)
    decreases |tokens| - j
  {
    if Continues(lex, tokens, j) {
      SpanMaximal(lex, tokens, i, j + 1);
    }
  }

  function BuildSpanText(text: Bytes, span: seq<Token>): Bytes {
    if span == [] then []
    else
      var start, end := span[0].start, span[|span| - 1].end;
      if start < 0 || end > |text| || start >= end then [] else text[start..end]
  }

  // ---------------------------------------------------------------- classification

  datatype Wanted = Wanted(person: bool, org: bool, loc: bool)

  function Spanning(text: Bytes, entityType: string, span: seq<Token>, confidence: real): ScanFinding
    requires span != []
  {
    ScanFinding(entityType, BuildSpanText(text, span), span[0].start, span[|span| - 1].end, confidence)
  }

  function Classify(lex: Lexicon, want: Wanted, text: Bytes, tokens: seq<Token>, i: nat, e: nat): Option<ScanFinding>
    requires i < e <= |tokens|
  {
    var span := tokens[i..e];
    var prevWord := if i > 0 then lex.lower(tokens[i - 1].text) else "";
    var sentenceInitial := i == 0 || IsSentenceEnd(tokens[i - 1].text);
    var firstLower := lex.lower(span[0].text);
    var lastWord := lex.lower(span[|span| - 1].text);
    if want.org && lex.orgSuffix(lastWord) then
      var trim := sentenceInitial && |span| > 1 && !lex.firstName(firstLower) && !lex.orgSuffix(firstLower);
      Some(Spanning(text, "organization", if trim then span[1..] else span, 0.65))
    else if want.person && lex.personTrigger(prevWord) then Some(Spanning(text, "person", span, 0.8))
    else if want.person && |span| >= 2 && lex.firstName(firstLower) then Some(Spanning(text, "person", span, 0.7))
    else if want.loc && lex.knownLocation(BuildSpanText(text, span)) then Some(Spanning(text, "location", span, 0.8))
    else if want.loc && lex.locationTrigger(prevWord) then Some(Spanning(text, "location", span, 0.65))
    else None
  }

  /** What, if anything, the span from token i up to token e is. */
  type Classifier = (nat, nat) -> Option<ScanFinding>

  function ClassifierOf(lex: Lexicon, want: Wanted, text: Bytes, tokens: seq<Token>): Classifier {
    (i: nat, e: nat) => if i < e <= |tokens| then Classify(lex, want, text, tokens, i, e) else None
  }

  /** Whether a finding is made at token i; nothing starts at a token that is not title-cased. */
  function FoundAt(lex: Lexicon, classify: Classifier, tokens: seq<Token>, i: nat): Option<ScanFinding>
    requires i < |tokens|
  {
    if IsTitleCase(lex, tokens[i].text) then classify(i, SpanEnd(lex, tokens, i + 1)) else None
  }

  /** A classified span is skipped as a whole; otherwise the search resumes at the next token. */
  function NextAfter(lex: Lexicon, classify: Classifier, tokens: seq<Token>, i: nat): (next: nat)
    requires i < |tokens|
    ensures i < next <= |tokens|
  {
    if FoundAt(lex, classify, tokens, i).Some? then SpanEnd(lex, tokens, i + 1) else i + 1
  }

  function Listed(found: Option<ScanFinding>): seq<ScanFinding> {
    if found.Some? then [found.value] else []
  }

  function FindingsFrom(lex: Lexicon, classify: Classifier, tokens: seq<Token>, i: nat): seq<ScanFinding>
    requires i <= |tokens|
    decreases |tokens| - i
  {
    if i == |tokens| then []
    else Listed(FoundAt(lex, classify, tokens, i))
         + FindingsFrom(lex, classify, tokens, NextAfter(lex, classify, tokens, i))
  }

  /** The entity types asked for; none means all. */
  predicate ShouldRun(requested: set<string>, entityType: string) { requested == {} || entityType in requested }

  predicate ShouldRunNer(requested: set<string>) {
    requested == {} || "person" in requested || "organization" in requested || "location" in requested
  }

  function Wants(requested: set<string>): Wanted {
    Wanted(ShouldRun(requested, "person"), ShouldRun(requested, "organization"), ShouldRun(requested, "location"))
  }

  function NerSpec(lex: Lexicon, enabled: bool, text: Bytes, requested: set<string>): seq<ScanFinding> {
    if !enabled || !ShouldRunNer(requested) then []
    else
      var tokens := Tokens(lex, text);
      FindingsFrom(lex, ClassifierOf(lex, Wants(requested), text, tokens), tokens, 0)
  }

  method ScanNerWithFilter(lex: Lexicon, enabled: bool, text: Bytes, requested: set<string>)
    returns (findings: seq<ScanFinding>)
    ensures findings == NerSpec(lex, enabled, text, requested)
  {
    if !enabled {
      return [];
    }
    if |requested| > 0 && !ShouldRunNer(requested) {
      return [];
    }
    var want := Wants(requested);
    var tokens := Tokenize(lex, text);
    findings := ScanTokens(lex, want, text, tokens);
  }

  method ScanTokens(lex: Lexicon, want: Wanted, text: Bytes, tokens: seq<Token>) returns (findings: seq<ScanFinding>)
    ensures findings == FindingsFrom(lex, ClassifierOf(lex, want, text, tokens), tokens, 0)
  {
    findings := [];
    var i := 0;
    ghost var classify := ClassifierOf(lex, want, text, tokens);
    while i < |tokens|
      invariant 0 <= i <= |tokens|
      invariant findings + FindingsFrom(lex, classify, tokens, i) == FindingsFrom(lex, classify, tokens, 0)
    {
      FindingsStep(lex, classify, tokens, i, findings);
      var found;
      found, i := ScanAt(lex, want, text, tokens, i);
      if found.Some? {
        findings := findings + [found.value];
      }
    }
    assert FindingsFrom(lex, classify, tokens, i) == [];
  }

  lemma FindingsStep(lex: Lexicon, classify: Classifier, tokens: seq<Token>, i: nat, acc: seq<ScanFinding>)
    requires i < |tokens|
    ensures var found := FoundAt(lex, classify, tokens, i);
            acc + FindingsFrom(lex, classify, tokens, i)
            == (if found.Some? then acc + [found.value] else acc)
               + FindingsFrom(lex, classify, tokens, NextAfter(lex, classify, tokens, i))
  {
    var listed := Listed(FoundAt(lex, classify, tokens, i));
    var rest := FindingsFrom(lex, classify, tokens, NextAfter(lex, classify, tokens, i));
    assert FindingsFrom(lex, classify, tokens, i) == listed + rest;
    assert acc + (listed + rest) == (acc + listed) + rest;
    assert listed == [] ==> acc + listed == acc;
  }

  /** One round of the scan: the finding at token i, if any, and where to go on. */
  method ScanAt(lex: Lexicon, want: Wanted, text: Bytes, tokens: seq<Token>, i: nat)
    returns (found: Option<ScanFinding>, next: nat)
    requires i < |tokens|
    ensures found == FoundAt(lex, ClassifierOf(lex, want, text, tokens), tokens, i)
    ensures next == NextAfter(lex, ClassifierOf(lex, want, text, tokens), tokens, i)
  {
    if !IsTitleCase(lex, tokens[i].text) {
      return None, i + 1;
    }
    var span := GrowSpan(lex, tokens, i);
    found := ClassifySpan(lex, want, text, tokens, i, span);
    next := if found.Some? then i + |span| else i + 1;
  }

  /** Gather consecutive title-cased words, with small connecting words between them. */
  method GrowSpan(lex: Lexicon, tokens: seq<Token>, i: nat) returns (span: seq<Token>)
    requires i < |tokens|
    ensures span == tokens[i..SpanEnd(lex, tokens, i + 1)]
  {
    span := [tokens[i]];
    var j := i + 1;
    while j < |tokens|
      invariant i + 1 <= j <= |tokens| && span == tokens[i..j]
      invariant SpanEnd(lex, tokens, j) == SpanEnd(lex, tokens, i + 1)
    {
      var next := tokens[j];
      if IsConnector(lex, next.text) && j + 1 < |tokens| && IsTitleCase(lex, tokens[j + 1].text) {
        span := span + [next];
        j := j + 1;
        continue;
      }
      if IsTitleCase(lex, next.text) {
        span := span + [next];
      } else {
        break;
      }
      j := j + 1;
    }
  }

  method ClassifySpan(lex: Lexicon, want: Wanted, text: Bytes, tokens: seq<Token>, i: nat, span: seq<Token>)
    returns (finding: Option<ScanFinding>)
    requires i < |tokens| && span != [] && i + |span| <= |tokens| && span == tokens[i..i + |span|]
    ensures finding == Classify(lex, want, text, tokens, i, i + |span|)
  {
    var fullText := BuildSpanText(text, span);
    var start, end := span[0].start, span[|span| - 1].end;
    var prevWord := "";
    if i > 0 {
      prevWord := lex.lower(tokens[i - 1].text);
    }
    var sentenceInitial := i == 0 || IsSentenceEnd(tokens[i - 1].text);
    var lastWord := lex.lower(span[|span| - 1].text);
    if want.org && lex.orgSuffix(lastWord) {
      var orgSpan := span;
      if sentenceInitial && |span| > 1 {
        var firstLower := lex.lower(span[0].text);
        if !lex.firstName(firstLower) && !lex.orgSuffix(firstLower) {
          orgSpan := span[1..];
        }
      }
      return Some(ScanFinding("organization", BuildSpanText(text, orgSpan), orgSpan[0].start,
                              orgSpan[|orgSpan| - 1].end, 0.65));
    }
    if want.person && lex.personTrigger(prevWord) {
      return Some(ScanFinding("person", fullText, start, end, 0.7 + 0.1));
    }
    if want.person && |span| >= 2 {
      var firstLower := lex.lower(span[0].text);
      if lex.firstName(firstLower) {
        return Some(ScanFinding("person", fullText, start, end, 0.7));
      }
    }
    if want.loc {
      if lex.knownLocation(fullText) {
        return Some(ScanFinding("location", fullText, start, end, 0.65 + 0.15));
      }
    }
    if want.loc && lex.locationTrigger(prevWord) {
      return Some(ScanFinding("location", fullText, start, end, 0.65));
    }
    return None;
  }

  // ---------------------------------------------------------------- what the findings guarantee

  ghost predicate GoodFinding(text: Bytes, f: ScanFinding) {
    0 <= f.start < f.end <= |text| && f.value == text[f.start..f.end]
  }

  /** Findings of a text from some offset on: inside it, quoting it, left to right without overlap. */
  ghost predicate GoodFindings(text: Bytes, fs: seq<ScanFinding>, from: int) {
    && (forall k :: 0 <= k < |fs| ==> from <= fs[k].start && GoodFinding(text, fs[k]))
    && (forall k, l :: 0 <= k < l < |fs| ==> fs[k].end <= fs[l].start)
  }

  lemma SpanningGood(text: Bytes, entityType: string, tokens: seq<Token>, i: nat, e: nat, confidence: real)
    requires i < e <= |tokens| && GoodTokens(text, tokens, 0)
    ensures var f := Spanning(text, entityType, tokens[i..e], confidence);
            f.start == tokens[i].start && f.end == tokens[e - 1].end && GoodFinding(text, f)
  {
    assert GoodToken(text, tokens[i]) && GoodToken(text, tokens[e - 1]);
    if i < e - 1 {
      assert tokens[i].end <= tokens[e - 1].start;
    }
  }

  lemma ClassifiedIsSpan(lex: Lexicon, want: Wanted, text: Bytes, tokens: seq<Token>, i: nat, e: nat)
    requires i < e <= |tokens|
    ensures var c := Classify(lex, want, text, tokens, i, e);
            c.Some? ==>
              || c.value == Spanning(text, c.value.entityType, tokens[i..e], c.value.confidence)
              || (i + 1 < e && c.value == Spanning(text, c.value.entityType, tokens[i + 1..e], c.value.confidence))
  {
    if i + 1 < e {
      assert tokens[i..e][1..] == tokens[i + 1..e];
    }
  }

  /** A classified span has one of the types asked for. */
  lemma ClassifiedWanted(lex: Lexicon, want: Wanted, text: Bytes, tokens: seq<Token>, i: nat, e: nat)
    requires i < e <= |tokens| && Classify(lex, want, text, tokens, i, e).Some?
    ensures var t := Classify(lex, want, text, tokens, i, e).value.entityType;
            (t == "person" && want.person) || (t == "organization" && want.org) || (t == "location" && want.loc)
  {
  }

  /** A classifier only reports spans that are in the text and lie within the tokens it was shown. */
  ghost predicate Sound(text: Bytes, tokens: seq<Token>, classify: Classifier) {
    forall i: nat, e: nat :: i < e <= |tokens| && classify(i, e).Some? ==>
      SoundAt(text, tokens, i, e, classify(i, e).value)
  }

  ghost predicate SoundAt(text: Bytes, tokens: seq<Token>, i: nat, e: nat, f: ScanFinding)
    requires i < e <= |tokens|
  {
    GoodFinding(text, f) && tokens[i].start <= f.start && f.end <= tokens[e - 1].end
  }

  lemma ClassifierSound(lex: Lexicon, want: Wanted, text: Bytes, tokens: seq<Token>)
    requires GoodTokens(text, tokens, 0)
    ensures Sound(text, tokens, ClassifierOf(lex, want, text, tokens))
  {
    forall i: nat, e: nat | i < e <= |tokens| && Classify(lex, want, text, tokens, i, e).Some?
      ensures SoundAt(text, tokens, i, e, Classify(lex, want, text, tokens, i, e).value)
    {
      ClassifiedSound(lex, want, text, tokens, i, e);
    }
  }

  lemma ClassifiedSound(lex: Lexicon, want: Wanted, text: Bytes, tokens: seq<Token>, i: nat, e: nat)
    requires GoodTokens(text, tokens, 0) && i < e <= |tokens| && Classify(lex, want, text, tokens, i, e).Some?
    ensures SoundAt(text, tokens, i, e, Classify(lex, want, text, tokens, i, e).value)
  {
    var f := Classify(lex, want, text, tokens, i, e).value;
    ClassifiedIsSpan(lex, want, text, tokens, i, e);
    SpanningGood(text, f.entityType, tokens, i, e, f.confidence);
    if i + 1 < e {
      SpanningGood(text, f.entityType, tokens, i + 1, e, f.confidence);
      assert tokens[i].end <= tokens[i + 1].start && GoodToken(text, tokens[i]);
    }
  }

  function StartOf(text: Bytes, tokens: seq<Token>, i: nat): int {
    if i < |tokens| then tokens[i].start else |text|
  }

  lemma FindingsCons(text: Bytes, f: ScanFinding, rest: seq<ScanFinding>, from: int, mid: int)
    requires GoodFindings(text, rest, mid) && GoodFinding(text, f) && from <= f.start && f.end <= mid
    ensures GoodFindings(text, [f] + rest, from)
  {
  }

  lemma {:induction false} FindingsGood(lex: Lexicon, classify: Classifier, text: Bytes, tokens: seq<Token>, i: nat)
    requires i <= |tokens| && GoodTokens(text, tokens, 0) && Sound(text, tokens, classify)
    ensures GoodFindings(text, FindingsFrom(lex, classify, tokens, i), StartOf(text, tokens, i))
    decreases |tokens| - i
  {
    if i < |tokens| {
      assert GoodToken(text, tokens[i]);
      var e := SpanEnd(lex, tokens, i + 1);
      var next := NextAfter(lex, classify, tokens, i);
      FindingsGood(lex, classify, text, tokens, next);
      if FoundAt(lex, classify, tokens, i).Some? {
        assert GoodToken(text, tokens[e - 1]) && SoundAt(text, tokens, i, e, classify(i, e).value);
        FindingsCons(text, classify(i, e).value, FindingsFrom(lex, classify, tokens, e),
                     StartOf(text, tokens, i), StartOf(text, tokens, e));
      } else {
        assert StartOf(text, tokens, i) <= StartOf(text, tokens, i + 1);
      }
    }
  }

  /** On valid UTF-8 every finding lies in the text, quotes it, and follows the one before
      without overlap, whatever the dictionaries say. */
  lemma NerFindingsGood(lex: Lexicon, enabled: bool, text: Bytes, requested: set<string>)
    requires Valid(text)
    ensures GoodFindings(text, NerSpec(lex, enabled, text, requested), 0)
  {
    var tokens := Tokens(lex, text);
    TokensGood(lex, text, 0);
    OffsetsOrdered(text, 0, 0);
    ClassifierSound(lex, Wants(requested), text, tokens);
    FindingsGood(lex, ClassifierOf(lex, Wants(requested), text, tokens), text, tokens, 0);
  }

  /** Every finding was made at some token. */
  lemma {:induction false} FindingsFoundSomewhere(lex: Lexicon, classify: Classifier, tokens: seq<Token>, from: nat,
                                                  f: ScanFinding) returns (i: nat)
    requires from <= |tokens| && f in FindingsFrom(lex, classify, tokens, from)
    ensures from <= i < |tokens| && FoundAt(lex, classify, tokens, i) == Some(f)
    decreases |tokens| - from
  {
    if FoundAt(lex, classify, tokens, from) == Some(f) {
      i := from;
    } else {
      i := FindingsFoundSomewhere(lex, classify, tokens, NextAfter(lex, classify, tokens, from), f);
    }
  }

  /** Every finding comes from a span that begins and ends title-cased and cannot be continued. */
  lemma FindingsAreSpans(lex: Lexicon, classify: Classifier, tokens: seq<Token>, f: ScanFinding)
    returns (i: nat, e: nat)
    requires f in FindingsFrom(lex, classify, tokens, 0)
    ensures i < e <= |tokens| && e == SpanEnd(lex, tokens, i + 1) && classify(i, e) == Some(f)
    ensures IsTitleCase(lex, tokens[i].text) && IsTitleCase(lex, tokens[e - 1].text) && !Continues(lex, tokens, e)
  {
    i := FindingsFoundSomewhere(lex, classify, tokens, 0, f);
    SpanMaximal(lex, tokens, i, i + 1);
    e := SpanEnd(lex, tokens, i + 1);
  }

  // ---------------------------------------------------------------- the rules, one by one

  /** What a span is called depends on its words and the word before it: an organization by its last word; else a
      person by the word before, or by a first name when more words follow; else a location by the dictionary
      or by the word before. */
  lemma ClassifyRules(lex: Lexicon, want: Wanted, text: Bytes, tokens: seq<Token>, i: nat, e: nat)
    requires i < e <= |tokens|
    ensures var c := Classify(lex, want, text, tokens, i, e);
            var first, last := lex.lower(tokens[i].text), lex.lower(tokens[e - 1].text);
            var before := if i == 0 then "" else lex.lower(tokens[i - 1].text);
            var org := want.org && lex.orgSuffix(last);
            var led := want.person && lex.personTrigger(before);
            var named := want.person && e - i >= 2 && lex.firstName(first);
            var known := want.loc && lex.knownLocation(BuildSpanText(text, tokens[i..e]));
            var placed := want.loc && lex.locationTrigger(before);
            && (c.Some? <==> org || led || named || known || placed)
            && (c.Some? ==>
                  c.value.entityType == (if org then "organization" else if led || named then "person" else "location"))
            && (c.Some? ==>
                  c.value.confidence
                    == (if org then 0.65 else if led then 0.8 else if named then 0.7 else if known then 0.8 else 0.65))
  {
    assert tokens[i..e][0] == tokens[i] && tokens[i..e][e - i - 1] == tokens[e - 1];
  }

  /** A finding covers its span, but an organization that opens a sentence loses a first word that is neither a first
      name nor itself a suffix. */
  lemma ClassifySpans(lex: Lexicon, want: Wanted, text: Bytes, tokens: seq<Token>, i: nat, e: nat)
    requires i < e <= |tokens| && Classify(lex, want, text, tokens, i, e).Some?
    ensures var f := Classify(lex, want, text, tokens, i, e).value;
            var first := lex.lower(tokens[i].text);
            var opens := i == 0 || exists p :: tokens[i - 1].text in [p + ".", p + "!", p + "?"];
            && f.end == tokens[e - 1].end
            && f.start == if f.entityType == "organization" && opens && e - i > 1
                             && !lex.firstName(first) && !lex.orgSuffix(first)
                          then tokens[i + 1].start else tokens[i].start
  {
    if i > 0 {
      EndsSentence(tokens[i - 1].text);
    }
    assert tokens[i..e][0] == tokens[i] && tokens[i..e][e - i - 1] == tokens[e - 1];
    if e - i > 1 {
      assert tokens[i..e][1..] == tokens[i + 1..e];
    }
  }

  lemma EndsSentence(s: string)
    ensures IsSentenceEnd(s) <==> exists p :: s in [p + ".", p + "!", p + "?"]
  {
    if IsSentenceEnd(s) {
      var p := s[..|s| - 1];
      assert s == p + [s[|s| - 1]];
      assert s in [p + ".", p + "!", p + "?"];
    }
  }

  /** Which runes are trimmed, which words connect and which count as title-cased. */
  lemma WordKinds(lex: Lexicon, s: string, c: char)
    ensures IsTrailing(c) <==> c in ",;:!?\"')"
    ensures IsConnector(lex, s) <==> lex.lower(s) in {"and", "de", "of", "the", "van", "von"}
    ensures IsTitleCase(lex, s) <==> exists head, tail :: s == [head] + tail && tail != "" && lex.isUpper(head)
  {
    if IsTitleCase(lex, s) {
      assert s == [s[0]] + s[1..];
    }
  }
}
