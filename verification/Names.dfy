/** Which names the recogniser reports: spans of title-cased words, each read once, none missed. */
module Names {
  import opened Utf8
  import opened Models
  import opened Ner

  // ---------------------------------------------------------------- spans

  /** Two runes or more, the first in upper case. */
  predicate Title(lex: Lexicon, t: Token) { |t.text| >= 2 && lex.isUpper(t.text[0]) }

  /** A span goes on through a title-cased word, and through a small connecting word before one. */
  predicate Goes(lex: Lexicon, tokens: seq<Token>, k: nat) {
    && k < |tokens|
    && (Title(lex, tokens[k])
        || (lex.lower(tokens[k].text) in ["of", "the", "and", "de", "van", "von"]
            && k + 1 < |tokens| && Title(lex, tokens[k + 1])))
  }

  lemma GoesIff(lex: Lexicon, tokens: seq<Token>, k: nat)
    ensures Continues(lex, tokens, k) <==> Goes(lex, tokens, k)
  {
  }

  ghost predicate EndsAt(lex: Lexicon, tokens: seq<Token>, j: nat, e: nat) {
    j <= e <= |tokens| && (forall k: nat :: j <= k < e ==> Goes(lex, tokens, k)) && !Goes(lex, tokens, e)
  }

  ghost predicate SpanTo(lex: Lexicon, tokens: seq<Token>, i: nat, e: nat) { EndsAt(lex, tokens, i + 1, e) }

  /** The span from a token reaches as far as it can go on, and no further. */
  lemma {:induction false} SpanEndsAt(lex: Lexicon, tokens: seq<Token>, j: nat)
    requires j <= |tokens|
    ensures EndsAt(lex, tokens, j, SpanEnd(lex, tokens, j))
    decreases |tokens| - j
  {
    GoesIff(lex, tokens, j);
    if Continues(lex, tokens, j) {
      SpanEndsAt(lex, tokens, j + 1);
    }
  }

  lemma OneEnd(lex: Lexicon, tokens: seq<Token>, j: nat, d: nat, e: nat)
    requires EndsAt(lex, tokens, j, d) && EndsAt(lex, tokens, j, e)
    ensures d == e
  {
    assert d < e ==> Goes(lex, tokens, d);
    assert e < d ==> Goes(lex, tokens, e);
  }

  // ---------------------------------------------------------------- the search

  /** The finding is what the span from this title-cased token is classified as. */
  ghost predicate Begins(lex: Lexicon, classify: Classifier, tokens: seq<Token>, i: nat, f: ScanFinding) {
    && i < |tokens| && Title(lex, tokens[i])
    && exists e: nat :: SpanTo(lex, tokens, i, e) && classify(i, e) == Some(f)
  }

  /** The span from token i reaches beyond token j. */
  ghost predicate Spans(lex: Lexicon, tokens: seq<Token>, i: nat, j: nat) {
    i < j && exists e: nat :: SpanTo(lex, tokens, i, e) && j < e
  }

  ghost predicate FromStarts(lex: Lexicon, classify: Classifier, tokens: seq<Token>, fs: seq<ScanFinding>,
                             starts: seq<nat>) {
    |starts| == |fs| && forall k :: 0 <= k < |fs| ==> Begins(lex, classify, tokens, starts[k], fs[k])
  }

  /** Later findings begin behind the spans of earlier ones. */
  ghost predicate Behind(lex: Lexicon, tokens: seq<Token>, starts: seq<nat>) {
    forall k, l :: 0 <= k < l < |starts| ==> starts[k] < starts[l] && !Spans(lex, tokens, starts[k], starts[l])
  }

  ghost predicate InSpanOf(lex: Lexicon, tokens: seq<Token>, starts: seq<nat>, i: nat) {
    exists k :: 0 <= k < |starts| && Spans(lex, tokens, starts[k], i)
  }

  /** A token from which a finding could be made begins one or lies within the span of one. */
  ghost predicate NoneMissed(lex: Lexicon, classify: Classifier, tokens: seq<Token>, from: nat, starts: seq<nat>) {
    forall i: nat, f :: from <= i && Begins(lex, classify, tokens, i, f) ==>
      i in starts || InSpanOf(lex, tokens, starts, i)
  }

  lemma FoundBegins(lex: Lexicon, classify: Classifier, tokens: seq<Token>, i: nat, f: ScanFinding)
    requires i < |tokens|
    ensures FoundAt(lex, classify, tokens, i) == Some(f) <==> Begins(lex, classify, tokens, i, f)
  {
    SpanEndsAt(lex, tokens, i + 1);
    assert SpanTo(lex, tokens, i, SpanEnd(lex, tokens, i + 1));
    forall e: nat | SpanTo(lex, tokens, i, e) ensures e == SpanEnd(lex, tokens, i + 1) {
      OneEnd(lex, tokens, i + 1, e, SpanEnd(lex, tokens, i + 1));
    }
  }

  lemma SpansIff(lex: Lexicon, tokens: seq<Token>, i: nat, j: nat)
    requires i < |tokens|
    ensures Spans(lex, tokens, i, j) <==> i < j < SpanEnd(lex, tokens, i + 1)
  {
    SpanEndsAt(lex, tokens, i + 1);
    assert SpanTo(lex, tokens, i, SpanEnd(lex, tokens, i + 1));
    forall e: nat | SpanTo(lex, tokens, i, e) ensures e == SpanEnd(lex, tokens, i + 1) {
      OneEnd(lex, tokens, i + 1, e, SpanEnd(lex, tokens, i + 1));
    }
  }

  lemma NothingBegins(lex: Lexicon, classify: Classifier, tokens: seq<Token>, i: nat, starts: seq<nat>)
    requires i < |tokens| && FoundAt(lex, classify, tokens, i) == None
    requires NoneMissed(lex, classify, tokens, i + 1, starts)
    ensures NoneMissed(lex, classify, tokens, i, starts)
  {
    forall f ensures !Begins(lex, classify, tokens, i, f) {
      FoundBegins(lex, classify, tokens, i, f);
    }
  }

  lemma ConsBehind(lex: Lexicon, tokens: seq<Token>, i: nat, starts: seq<nat>)
    requires i < |tokens| && Behind(lex, tokens, starts)
    requires forall k :: 0 <= k < |starts| ==> SpanEnd(lex, tokens, i + 1) <= starts[k]
    ensures Behind(lex, tokens, [i] + starts)
  {
    var all := [i] + starts;
    forall k, l | 0 <= k < l < |all| ensures all[k] < all[l] && !Spans(lex, tokens, all[k], all[l]) {
      if k == 0 {
        SpansIff(lex, tokens, i, all[l]);
      } else {
        assert all[k] == starts[k - 1] && all[l] == starts[l - 1];
      }
    }
  }

  lemma ConsNoneMissed(lex: Lexicon, classify: Classifier, tokens: seq<Token>, i: nat, starts: seq<nat>)
    requires i < |tokens| && NoneMissed(lex, classify, tokens, SpanEnd(lex, tokens, i + 1), starts)
    ensures NoneMissed(lex, classify, tokens, i, [i] + starts)
  {
    var all := [i] + starts;
    forall j: nat, f | i <= j && Begins(lex, classify, tokens, j, f)
      ensures j in all || InSpanOf(lex, tokens, all, j)
    {
      if i < j < SpanEnd(lex, tokens, i + 1) {
        SpansIff(lex, tokens, i, j);
        assert Spans(lex, tokens, all[0], j);
      } else if i < j && j !in starts {
        var k :| 0 <= k < |starts| && Spans(lex, tokens, starts[k], j);
        assert all[k + 1] == starts[k];
      }
    }
  }

  lemma ConsFromStarts(lex: Lexicon, classify: Classifier, tokens: seq<Token>, i: nat, f: ScanFinding,
                       fs: seq<ScanFinding>, starts: seq<nat>)
    requires Begins(lex, classify, tokens, i, f) && FromStarts(lex, classify, tokens, fs, starts)
    ensures FromStarts(lex, classify, tokens, [f] + fs, [i] + starts)
  {
  }

  lemma {:induction false} SearchTold(lex: Lexicon, classify: Classifier, tokens: seq<Token>, from: nat)
    returns (starts: seq<nat>)
    requires from <= |tokens|
    ensures FromStarts(lex, classify, tokens, FindingsFrom(lex, classify, tokens, from), starts)
    ensures Behind(lex, tokens, starts) && (forall k :: 0 <= k < |starts| ==> from <= starts[k])
    ensures NoneMissed(lex, classify, tokens, from, starts)
    decreases |tokens| - from
  {
    starts := [];
    if from < |tokens| {
      var found, next := FoundAt(lex, classify, tokens, from), NextAfter(lex, classify, tokens, from);
      var rest := FindingsFrom(lex, classify, tokens, next);
      starts := SearchTold(lex, classify, tokens, next);
      if found.Some? {
        FoundBegins(lex, classify, tokens, from, found.value);
        ConsFromStarts(lex, classify, tokens, from, found.value, rest, starts);
        ConsBehind(lex, tokens, from, starts);
        ConsNoneMissed(lex, classify, tokens, from, starts);
        starts := [from] + starts;
      } else {
        NothingBegins(lex, classify, tokens, from, starts);
        assert Listed(found) + rest == rest;
      }
    }
  }

  /** The recogniser runs unless it is switched off or a filter asks for no kind of name. It then reports, from left
      to right, one finding for each title-cased word from which one can be made, except words within the span of
      a finding already made. */
  lemma NamesTold(lex: Lexicon, enabled: bool, text: Bytes, requested: set<string>) returns (starts: seq<nat>)
    ensures var fs := NerSpec(lex, enabled, text, requested);
            if !enabled || (|requested| > 0 && requested !! {"person", "organization", "location"}) then fs == []
            else
              var tokens := Tokens(lex, text);
              var classify := ClassifierOf(lex, Wanting(requested), text, tokens);
              && FromStarts(lex, classify, tokens, fs, starts) && Behind(lex, tokens, starts)
              && NoneMissed(lex, classify, tokens, 0, starts)
  {
    WantedIff(requested);
    var tokens := Tokens(lex, text);
    starts := SearchTold(lex, ClassifierOf(lex, Wanting(requested), text, tokens), tokens, 0);
  }

  function Wanting(requested: set<string>): Wanted {
    if |requested| == 0 then Wanted(true, true, true)
    else Wanted("person" in requested, "organization" in requested, "location" in requested)
  }

  lemma WantedIff(requested: set<string>)
    ensures Wants(requested) == Wanting(requested)
    ensures ShouldRunNer(requested) <==> |requested| == 0 || !(requested !! {"person", "organization", "location"})
  {
    if requested * {"person", "organization", "location"} != {} {
      var t :| t in requested * {"person", "organization", "location"};
    }
    assert "person" in requested ==> "person" in requested * {"person", "organization", "location"};
    assert "organization" in requested ==> "organization" in requested * {"person", "organization", "location"};
    assert "location" in requested ==> "location" in requested * {"person", "organization", "location"};
  }

  /** A finding carries the text between its offsets, or nothing if they do not fit the text. */
  lemma ValueTold(lex: Lexicon, want: Wanted, text: Bytes, tokens: seq<Token>, i: nat, e: nat)
    requires i < e <= |tokens| && Classify(lex, want, text, tokens, i, e).Some?
    ensures var f := Classify(lex, want, text, tokens, i, e).value;
            f.value == if 0 <= f.start < f.end <= |text| then text[f.start..f.end] else []
  {
    ClassifiedIsSpan(lex, want, text, tokens, i, e);
  }

  /** The tokens are exactly the words of the text, up to their trailing punctuation and unless they are nothing else,
      at the reported offsets. */
  lemma TokensTold(lex: Lexicon, text: Bytes, t: Token)
    ensures t in Tokens(lex, text) <==> exists s: nat :: TokenAt(lex, text, s, t)
  {
    TokensAreWords(lex, Decode(text), OffsetsOf(text), 0, t);
    if t in Tokens(lex, text) {
      TokenPlaced(lex, text, t);
    }
    if s: nat :| TokenAt(lex, text, s, t) {
      PlacedToken(lex, text, s, t);
    }
  }

  lemma TokenPlaced(lex: Lexicon, text: Bytes, t: Token)
    requires IsTokenFrom(lex, Decode(text), OffsetsOf(text), 0, t)
    ensures exists s: nat :: TokenAt(lex, text, s, t)
  {
    var runes := Decode(text);
    var s: nat, e: nat :| IsWord(lex, runes, s, e) && IsTokenOf(runes, OffsetsOf(text), s, e, t);
    TokenParts(text, runes, s, e, t);
    TrimmedWord(lex, runes, s, e);
    assert TokenAt(lex, text, s, t);
  }

  lemma PlacedToken(lex: Lexicon, text: Bytes, s: nat, t: Token)
    requires TokenAt(lex, text, s, t)
    ensures IsTokenFrom(lex, Decode(text), OffsetsOf(text), 0, t)
  {
    var runes := Decode(text);
    var e := WordTrimmed(lex, runes, s, t.text);
    assert IsTokenOf(runes, OffsetsOf(text), s, e, t);
  }

  /** The word consists of runes from the s-th on, and what follows it up to the next space is punctuation. */
  ghost predicate WordAt(lex: Lexicon, runes: string, s: nat, word: string) {
    var n := |word|;
    && n > 0 && s + n <= |runes| && word == runes[s..s + n] && !Punctuation(word[n - 1])
    && exists e: nat :: s + n <= e && IsWord(lex, runes, s, e) && PunctuationOnly(runes, s + n, e)
  }

  ghost predicate TokenAt(lex: Lexicon, text: Bytes, s: nat, t: Token) {
    WordAt(lex, Decode(text), s, t.text) && t.start == ByteOffset(text, s) && t.end == ByteOffset(text, s + |t.text|)
  }

  predicate Punctuation(c: char) { c in [',', ';', ':', '!', '?', '"', '\'', ')'] }

  ghost predicate PunctuationOnly(runes: string, i: nat, j: nat)
    requires j <= |runes|
  {
    forall k :: i <= k < j ==> Punctuation(runes[k])
  }

  lemma TrimmedWord(lex: Lexicon, runes: string, s: nat, e: nat)
    requires IsWord(lex, runes, s, e) && TrimRight(runes[s..e]) != []
    ensures WordAt(lex, runes, s, TrimRight(runes[s..e]))
  {
    TrimmedRest(runes, s, e);
  }

  /** What trimming leaves of a stretch of runes, and what it takes away. */
  lemma TrimmedRest(runes: string, s: nat, e: nat)
    requires s <= e <= |runes| && TrimRight(runes[s..e]) != []
    ensures var n := |TrimRight(runes[s..e])|;
            && s + n <= e && TrimRight(runes[s..e]) == runes[s..s + n] && !Punctuation(runes[s + n - 1])
            && PunctuationOnly(runes, s + n, e)
  {
    var word := runes[s..e];
    var n := |TrimRight(word)|;
    TrimRightPrefix(word);
    assert TrimRight(word) == word[..n];
    assert word[..n] == runes[s..s + n];
    assert word[n - 1] == runes[s + n - 1];
    forall k | s + n <= k < e ensures Punctuation(runes[k]) {
      assert word[k - s] == runes[k];
      TrailingIff(word[k - s]);
    }
    TrailingIff(word[n - 1]);
  }

  lemma TrailingIff(c: char)
    ensures IsTrailing(c) <==> Punctuation(c)
  {
  }

  lemma TokenParts(text: Bytes, runes: string, s: nat, e: nat, t: Token)
    requires IsTokenOf(runes, OffsetsOf(text), s, e, t)
    ensures t.text == TrimRight(runes[s..e]) && t.start == ByteOffset(text, s)
    ensures t.end == ByteOffset(text, s + |t.text|)
  {
  }

  lemma WordTrimmed(lex: Lexicon, runes: string, s: nat, word: string) returns (e: nat)
    requires WordAt(lex, runes, s, word)
    ensures IsWord(lex, runes, s, e) && TrimRight(runes[s..e]) == word
  {
    var n := |word|;
    e :| s + n <= e && IsWord(lex, runes, s, e) && PunctuationOnly(runes, s + n, e);
    var whole := runes[s..e];
    assert whole[..n] == word;
    assert whole[n - 1] == word[n - 1];
    TrimTo(whole, n);
  }

  lemma {:induction false} TrimTo(word: string, n: nat)
    requires 0 < n <= |word| && !Punctuation(word[n - 1]) && forall k :: n <= k < |word| ==> Punctuation(word[k])
    ensures TrimRight(word) == word[..n]
    decreases |word|
  {
    if n < |word| {
      TrimTo(word[..|word| - 1], n);
      assert word[..|word| - 1][..n] == word[..n];
    } else {
      assert word[..n] == word;
    }
  }
}
