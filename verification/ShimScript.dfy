/** The wrapper scripts a shim installs, and reading their metadata back. */
module ShimScript {
  import opened Utf8
  import opened Models
  import opened TextLines
  import opened Lexical
  import opened ShellQuote

  const MARKER := "# datafog-shim-wrapper"
  const META_PREFIX := "# DATAFOG_SHIM_"

  /** The reader's limit on the bytes of a line. */
  const MAX_TOKEN: nat := 64 * 1024

  datatype Metadata = Metadata(command: string, adapter: string, target: string, mode: string,
                               policyURL: string, eventSink: string, enforcePolicyErrors: bool)

  const BLANK := Metadata("", "", "", "", "", "", false)

  // ---------------------------------------------------------------- trimming

  /** White space as Unicode defines it. */
  predicate IsSpace(c: char) {
    var n := c as int;
    9 <= n <= 13 || n == 32 || n == 0x85 || n == 0xA0 || n == 0x1680 || 0x2000 <= n <= 0x200A
    || n == 0x2028 || n == 0x2029 || n == 0x202F || n == 0x205F || n == 0x3000
  }

  function TrimLeft(s: string): string {
    if s != "" && IsSpace(s[0]) then TrimLeft(s[1..]) else s
  }

  function TrimRight(s: string): string {
    if s != "" && IsSpace(s[|s| - 1]) then TrimRight(s[..|s| - 1]) else s
  }

  function TrimSpace(s: string): string { TrimRight(TrimLeft(s)) }

  /** Trailing space is trimmed from what follows a prefix that does not itself end in space. */
  lemma {:induction false} TrimRightAppend(p: string, v: string)
    requires p != "" && !IsSpace(p[|p| - 1])
    ensures TrimRight(p + v) == p + TrimRight(v)
  {
    if v == "" {
      assert p + v == p;
    } else if IsSpace(v[|v| - 1]) {
      assert (p + v)[..|p + v| - 1] == p + v[..|v| - 1];
      TrimRightAppend(p, v[..|v| - 1]);
    }
  }

  lemma TrimPrefixed(p: string, v: string)
    requires p != "" && !IsSpace(p[0]) && !IsSpace(p[|p| - 1])
    ensures TrimSpace(p + v) == p + TrimRight(v)
  {
    TrimRightAppend(p, v);
  }

  lemma {:induction false} TrimRightIdempotent(s: string)
    ensures TrimRight(TrimRight(s)) == TrimRight(s)
  {
    if s != "" && IsSpace(s[|s| - 1]) {
      TrimRightIdempotent(s[..|s| - 1]);
    }
  }

  lemma {:induction false} TrimSidesCommute(s: string)
    ensures TrimSpace(TrimRight(s)) == TrimSpace(s)
  {
    if s != "" {
      if IsSpace(s[0]) {
        TrimSidesCommute(s[1..]);
        if TrimRight(s[1..]) == "" {
          AllSpace(s);
        } else {
          TrimRightTail(s);
        }
      } else {
        TrimRightAppend([s[0]], s[1..]);
        assert s == [s[0]] + s[1..];
        TrimRightIdempotent(s);
      }
    }
  }

  lemma {:induction false} TrimRightTail(s: string)
    requires s != "" && TrimRight(s[1..]) != ""
    ensures TrimRight(s) == [s[0]] + TrimRight(s[1..])
  {
    if IsSpace(s[|s| - 1]) {
      assert s[..|s| - 1][1..] == s[1..][..|s| - 2];
      TrimRightTail(s[..|s| - 1]);
    } else {
      assert s == [s[0]] + s[1..];
    }
  }

  lemma {:induction false} AllSpace(s: string)
    requires s != "" && IsSpace(s[0]) && TrimRight(s[1..]) == ""
    ensures TrimRight(s) == ""
  {
    if |s| == 1 {
      assert s[..0] == "";
    } else {
      assert IsSpace(s[|s| - 1]);
      assert s[..|s| - 1][1..] == s[1..][..|s| - 2];
      AllSpace(s[..|s| - 1]);
    }
  }

  /** The line scanner drops one carriage return, which trimming would have dropped anyway. */
  function DropCR(s: string): string {
    if s != "" && s[|s| - 1] == '\r' then s[..|s| - 1] else s
  }

  lemma TrimDropCR(s: string)
    ensures TrimSpace(DropCR(s)) == TrimSpace(s)
  {
    if s != "" && s[|s| - 1] == '\r' {
      TrimSidesCommute(s);
      TrimSidesCommute(s[..|s| - 1]);
    }
  }

  // ---------------------------------------------------------------- reading

  function FormatBool(b: bool): string { if b then "true" else "false" }

  function ParseBool(s: string): Option<bool> {
    if s in ["1", "t", "T", "TRUE", "true", "True"] then Some(true)
    else if s in ["0", "f", "F", "FALSE", "false", "False"] then Some(false)
    else None
  }

  /** An empty option counts as false. */
  function ParseBoolOption(raw: string): Option<bool> {
    if TrimSpace(raw) == "" then Some(false) else ParseBool(TrimSpace(raw))
  }

  function SetField(m: Metadata, key: string, val: string): Metadata {
    if key == "COMMAND" then m.(command := val)
    else if key == "ADAPTER" then m.(adapter := val)
    else if key == "TARGET" then m.(target := val)
    else if key == "MODE" then m.(mode := val)
    else if key == "POLICY_URL" then m.(policyURL := val)
    else if key == "EVENT_SINK" then m.(eventSink := val)
    else if key == "ENFORCE_POLICY_ERRORS" then
      match ParseBoolOption(val) case Some(b) => m.(enforcePolicyErrors := b) case None => m
    else m
  }

  datatype Reading = Reading(meta: Metadata, managed: bool)

  function ReadLine(r: Reading, raw: string): Reading {
    var line := TrimSpace(DropCR(raw));
    if line == "" then r
    else if line == MARKER then r.(managed := true)
    else if !(META_PREFIX <= line) then r
    else r.(meta := ReadMeta(r.meta, line[|META_PREFIX|..]))
  }

  /** What follows the metadata prefix. */
  function ReadMeta(m: Metadata, rest: string): Metadata {
    var body := TrimSpace(rest);
    var i := LineEnd('=', body);
    if i == |body| then m else SetField(m, TrimSpace(body[..i]), TrimSpace(body[i + 1..]))
  }

  function ReadLines(r: Reading, lines: seq<string>): Reading
    decreases |lines|
  {
    if lines == [] then r else ReadLines(ReadLine(r, lines[0]), lines[1..])
  }

  predicate Fits(line: string) { |Encode(line)| < MAX_TOKEN }

  predicate AllFit(lines: seq<string>) { forall k :: 0 <= k < |lines| ==> Fits(lines[k]) }

  /** A line beyond the limit makes the reading fail as a whole. */
  function ReadSpec(content: string): Option<Reading> {
    var lines := Lines('\n', content);
    if AllFit(lines) then Some(ReadLines(Reading(BLANK, false), lines)) else None
  }

  method ReadShimMetadata(content: string) returns (result: Option<Reading>)
    ensures result == ReadSpec(content)
  {
    var meta, isManaged := BLANK, false;
    var rest := content;
    ghost var read: seq<string> := [];
    ghost var start := Reading(BLANK, false);
    while rest != ""
      invariant read + Lines('\n', rest) == Lines('\n', content)
      invariant AllFit(read)
      invariant ReadLines(Reading(meta, isManaged), Lines('\n', rest)) == ReadLines(start, Lines('\n', content))
      decreases |rest|
    {
      var raw := rest[..LineEnd('\n', rest)];
      LinesStep('\n', read, rest);
      ghost var lines := Lines('\n', rest);
      assert lines[0] == raw && lines[1..] == Lines('\n', Rest('\n', rest));
      if |Encode(raw)| >= MAX_TOKEN {
        assert Lines('\n', content)[|read|] == raw;
        return None;
      }
      ghost var before := Reading(meta, isManaged);
      meta, isManaged := ReadOne(meta, isManaged, raw);
      read := read + [raw];
      rest := Rest('\n', rest);
    }
    assert read == Lines('\n', content);
    return Some(Reading(meta, isManaged));
  }

  method ReadOne(meta: Metadata, isManaged: bool, raw: string) returns (meta': Metadata, isManaged': bool)
    ensures Reading(meta', isManaged') == ReadLine(Reading(meta, isManaged), raw)
  {
    meta', isManaged' := meta, isManaged;
    var line := TrimSpace(DropCR(raw));
    if line == "" {
      return;
    }
    if line == MARKER {
      isManaged' := true;
      return;
    }
    if !(META_PREFIX <= line) {
      return;
    }
    line := TrimSpace(line[|META_PREFIX|..]);
    var i := LineEnd('=', line);
    if i == |line| {
      return;
    }
    var key, val := TrimSpace(line[..i]), TrimSpace(line[i + 1..]);
    if key == "COMMAND" {
      meta' := meta.(command := val);
    } else if key == "ADAPTER" {
      meta' := meta.(adapter := val);
    } else if key == "TARGET" {
      meta' := meta.(target := val);
    } else if key == "MODE" {
      meta' := meta.(mode := val);
    } else if key == "POLICY_URL" {
      meta' := meta.(policyURL := val);
    } else if key == "EVENT_SINK" {
      meta' := meta.(eventSink := val);
    } else if key == "ENFORCE_POLICY_ERRORS" {
      var parsed := ParseBoolOption(val);
      if parsed.Some? {
        meta' := meta.(enforcePolicyErrors := parsed.value);
      }
    }
  }

  // ---------------------------------------------------------------- writing

  datatype Install = Install(shimBinary: string, meta: Metadata)

  function EscapeDoubleQuotes(s: string): string {
    if s == "" then "" else (if s[0] == '"' then "\\\"" else [s[0]]) + EscapeDoubleQuotes(s[1..])
  }

  function ShellEscape(s: string): string { EscapeDoubleQuotes(TrimSpace(s)) }

  function MetaLine(key: string, v: string): string { META_PREFIX + key + "=" + v }

  function MetaLines(m: Metadata): seq<string> {
    [MetaLine("COMMAND", m.command), MetaLine("ADAPTER", m.adapter), MetaLine("TARGET", m.target),
     MetaLine("MODE", m.mode), MetaLine("POLICY_URL", m.policyURL), MetaLine("EVENT_SINK", m.eventSink),
     MetaLine("ENFORCE_POLICY_ERRORS", FormatBool(m.enforcePolicyErrors))]
  }

  function Binary(a: Install): string { "SHIM_BINARY=" + ShQuote(a.shimBinary) }

  function Settings(m: Metadata): seq<string> {
    ["SHIM_MODE=" + ShQuote(m.mode),
     "SHIM_POLICY_URL=" + ShQuote(m.policyURL),
     "SHIM_EVENT_SINK=" + ShQuote(m.eventSink),
     "SHIM_ENFORCE_POLICY_ERRORS=" + ShQuote(FormatBool(m.enforcePolicyErrors))]
  }

  /** An environment variable of the same name overrides an installed setting. */
  function Override(name: string): seq<string> {
    ["if [ -n \"${DATAFOG_" + name + ":-}\" ]; then", "  " + name + "=\"$DATAFOG_" + name + "\"", "fi"]
  }

  function Overrides(): seq<string> {
    Override("SHIM_MODE") + Override("SHIM_POLICY_URL") + Override("SHIM_EVENT_SINK")
    + Override("SHIM_ENFORCE_POLICY_ERRORS") + [""]
  }

  /** One continued line of the command, passing an option its quoted value. */
  function Flag(name: string, value: string): string { "  --" + name + " \"" + value + "\" \\" }

  function Target(m: Metadata): seq<string> {
    ["exec \"$SHIM_BINARY\" run \\",
     Flag("adapter", ShellEscape(m.adapter)),
     Flag("target", ShellEscape(m.target))]
  }

  function Options(): seq<string> {
    [Flag("mode", "$SHIM_MODE"),
     Flag("policy-url", "$SHIM_POLICY_URL"),
     Flag("event-sink", "$SHIM_EVENT_SINK"),
     Flag("enforce-policy-errors", "$SHIM_ENFORCE_POLICY_ERRORS")]
  }

  function Remainder(): seq<string> {
    [Flag("api-token", "${DATAFOG_SHIM_API_TOKEN:-}"),
     "  -- \\",
     "  \"$@\""]
  }

  function Exec(m: Metadata): seq<string> { Target(m) + Options() + Remainder() }

  const HEADER: seq<string> := ["#!/bin/sh", "set -eu", MARKER]

  function Front(m: Metadata): seq<string> { HEADER + MetaLines(m) + [""] }

  function Back(m: Metadata): seq<string> { Settings(m) + Overrides() + Exec(m) }

  function ScriptLines(a: Install): seq<string> { Front(a.meta) + [Binary(a)] + Back(a.meta) }

  /** Each line ended by a newline. */
  function Text(ls: seq<string>): string { Join(ls + [""], "\n") }

  function BuildShimScript(a: Install): string { Text(ScriptLines(a)) }

  // ---------------------------------------------------------------- reading back

  lemma TextStep(ls: seq<string>)
    requires ls != []
    ensures Text(ls) == ls[0] + ['\n'] + Text(ls[1..])
  {
    assert (ls + [""])[1..] == ls[1..] + [""] && (ls + [""])[0] == ls[0];
    assert ls[0] + "\n" == ls[0] + ['\n'];
  }

  lemma NoText()
    ensures Text([]) == ""
  {
    var none: seq<string> := [];
    assert none + [""] == [""];
  }

  lemma {:induction false} TextAppend(a: seq<string>, b: seq<string>)
    ensures Text(a + b) == Text(a) + Text(b) && Terminated('\n', Text(a))
  {
    if a == [] {
      NoText();
      assert a + b == b;
    } else {
      var first, rest := a[0] + ['\n'], Text(a[1..]);
      TextStep(a);
      TextStep(a + b);
      assert (a + b)[1..] == a[1..] + b && (a + b)[0] == a[0];
      TextAppend(a[1..], b);
      assert first + (rest + Text(b)) == (first + rest) + Text(b);
    }
  }

  /** Whatever the lines contain, the reader's lines of one part do not depend on the others. */
  lemma LinesOfParts(a: seq<string>, b: seq<string>)
    ensures Lines('\n', Text(a + b)) == Lines('\n', Text(a)) + Lines('\n', Text(b))
  {
    TextAppend(a, b);
    LinesAppend('\n', Text(a), Text(b));
  }

  lemma {:induction false} LinesOfText(ls: seq<string>)
    requires NoBreaks(ls)
    ensures Lines('\n', Text(ls)) == ls
  {
    if ls == [] {
      NoText();
    } else {
      TextStep(ls);
      LinesOfText(ls[1..]);
      OneLine('\n', ls[0]);
      LinesAppend('\n', ls[0] + ['\n'], Text(ls[1..]));
      assert [ls[0]] + ls[1..] == ls;
    }
  }

  lemma {:induction false} ReadLinesAppend(r: Reading, a: seq<string>, b: seq<string>)
    ensures ReadLines(r, a + b) == ReadLines(ReadLines(r, a), b)
    decreases |a|
  {
    if a == [] {
      assert a + b == b;
    } else {
      assert (a + b)[1..] == a[1..] + b;
      ReadLinesAppend(ReadLine(r, a[0]), a[1..], b);
    }
  }

  /** A line whose first visible character is not '#' means nothing to the reader. */
  predicate Inert(l: string) { TrimSpace(l) == "" || TrimSpace(l)[0] != '#' }

  lemma InertLine(r: Reading, l: string)
    requires Inert(l)
    ensures ReadLine(r, l) == r
  {
    TrimDropCR(l);
    assert META_PREFIX[0] == '#' && MARKER[0] == '#';
  }

  lemma {:induction false} InertLines(r: Reading, ls: seq<string>)
    requires forall k :: 0 <= k < |ls| ==> Inert(ls[k])
    ensures ReadLines(r, ls) == r
    decreases |ls|
  {
    if ls != [] {
      InertLine(r, ls[0]);
      InertLines(r, ls[1..]);
    }
  }

  lemma VisibleInert(l: string)
    requires l != "" && !IsSpace(l[0]) && l[0] != '#'
    ensures Inert(l)
  {
    assert l == [l[0]] + l[1..];
    TrimRightAppend([l[0]], l[1..]);
  }

  lemma IndentedInert(l: string)
    requires |l| > 2 && l[0] == ' ' && l[1] == ' ' && !IsSpace(l[2]) && l[2] != '#'
    ensures Inert(l)
  {
    var t := l[1..][1..];
    assert t[0] == l[2];
    VisibleInert(t);
    assert TrimLeft(l) == TrimLeft(l[1..]) == TrimLeft(t);
  }

  ghost predicate AllInert(ls: seq<string>) { forall k :: 0 <= k < |ls| ==> Inert(ls[k]) }

  lemma SettingsInert(m: Metadata)
    ensures AllInert(Settings(m))
  {
    var ls := Settings(m);
    forall k | 0 <= k < |ls| ensures Inert(ls[k]) {
      assert ls[k] in {ls[0], ls[1], ls[2], ls[3]};
      assert ls[k][0] == 'S';
      VisibleInert(ls[k]);
    }
  }

  lemma OverrideInert(name: string)
    requires name != "" && name[0] == 'S'
    ensures AllInert(Override(name))
  {
    var ls := Override(name);
    VisibleInert(ls[0]);
    IndentedInert(ls[1]);
    VisibleInert(ls[2]);
  }

  lemma OverridesInert()
    ensures AllInert(Overrides())
  {
    OverrideInert("SHIM_MODE");
    OverrideInert("SHIM_POLICY_URL");
    OverrideInert("SHIM_EVENT_SINK");
    OverrideInert("SHIM_ENFORCE_POLICY_ERRORS");
  }

  lemma FlagInert(name: string, value: string)
    ensures Inert(Flag(name, value))
  {
    IndentedInert(Flag(name, value));
  }

  lemma TargetInert(m: Metadata)
    ensures AllInert(Target(m))
  {
    VisibleInert(Target(m)[0]);
    FlagInert("adapter", ShellEscape(m.adapter));
    FlagInert("target", ShellEscape(m.target));
  }

  lemma OptionsInert()
    ensures AllInert(Options())
  {
    FlagInert("mode", "$SHIM_MODE");
    FlagInert("policy-url", "$SHIM_POLICY_URL");
    FlagInert("event-sink", "$SHIM_EVENT_SINK");
    FlagInert("enforce-policy-errors", "$SHIM_ENFORCE_POLICY_ERRORS");
  }

  lemma RemainderInert()
    ensures AllInert(Remainder())
  {
    var ls := Remainder();
    FlagInert("api-token", "${DATAFOG_SHIM_API_TOKEN:-}");
    IndentedInert(ls[1]);
    IndentedInert(ls[2]);
  }

  lemma InertAppend(a: seq<string>, b: seq<string>)
    requires AllInert(a) && AllInert(b)
    ensures AllInert(a + b)
  {
  }

  lemma ExecInert(m: Metadata)
    ensures AllInert(Exec(m))
  {
    TargetInert(m);
    OptionsInert();
    RemainderInert();
    InertAppend(Target(m), Options());
    InertAppend(Target(m) + Options(), Remainder());
  }

  lemma BackInert(m: Metadata)
    ensures AllInert(Back(m))
  {
    SettingsInert(m);
    OverridesInert();
    ExecInert(m);
    InertAppend(Settings(m), Overrides());
    InertAppend(Settings(m) + Overrides(), Exec(m));
  }

  predicate IsKey(key: string) {
    key != "" && '=' !in key && !IsSpace(key[0]) && !IsSpace(key[|key| - 1])
  }

  /** What the reader makes of a trimmed line that begins with the metadata prefix. */
  lemma ReadPrefixed(r: Reading, raw: string, rest: string)
    requires TrimSpace(raw) == META_PREFIX + rest
    ensures var body := TrimSpace(rest);
            var i := LineEnd('=', body);
            ReadLine(r, raw) == if i == |body| then r
                                else r.(meta := SetField(r.meta, TrimSpace(body[..i]), TrimSpace(body[i + 1..])))
  {
    TrimDropCR(raw);
    var line := META_PREFIX + rest;
    assert line[2] == 'D' && MARKER[2] == 'd';
    assert line[|META_PREFIX|..] == rest;
  }

  /** A metadata line sets its field to the value without surrounding space,
      whatever further '=' the value contains. */
  lemma ReadMetaLine(r: Reading, key: string, v: string)
    requires IsKey(key)
    ensures ReadLine(r, MetaLine(key, v)) == r.(meta := SetField(r.meta, key, TrimSpace(v)))
  {
    var w := TrimRight(v);
    var k := key + "=";
    MetaLineTrimmed(key, v);
    ReadPrefixed(r, MetaLine(key, v), k + w);
    TrimPrefixed(k, w);
    TrimRightIdempotent(v);
    FirstEquals(key, w);
    assert (k + w)[..|key|] == key && (k + w)[|key| + 1..] == w;
    TrimKey(key);
    TrimSidesCommute(v);
  }

  lemma MetaLineTrimmed(key: string, v: string)
    ensures TrimSpace(MetaLine(key, v)) == META_PREFIX + (key + "=" + TrimRight(v))
  {
    var head := META_PREFIX;
    assert head[0] == '#';
    TrimKeyed(head, key, v);
  }

  lemma TrimKeyed(head: string, key: string, v: string)
    requires head != "" && !IsSpace(head[0])
    ensures TrimSpace(head + key + "=" + v) == head + (key + "=" + TrimRight(v))
  {
    var p := head + key + "=";
    assert p[0] == head[0] && p[|p| - 1] == '=';
    TrimPrefixed(p, v);
    Regroup(head, key, "=", TrimRight(v));
  }

  lemma TrimKey(key: string)
    requires IsKey(key)
    ensures TrimSpace(key) == key
  {
  }

  lemma FirstEquals(key: string, w: string)
    requires '=' !in key
    ensures LineEnd('=', key + "=" + w) == |key|
  {
    LineEndOf('=', key);
    assert key + "=" == key + ['='];
    LineEndAppend('=', key + ['='], w);
  }

  function Trimmed(m: Metadata): Metadata {
    Metadata(TrimSpace(m.command), TrimSpace(m.adapter), TrimSpace(m.target), TrimSpace(m.mode),
             TrimSpace(m.policyURL), TrimSpace(m.eventSink), m.enforcePolicyErrors)
  }

  lemma ReadCommand(r: Reading, v: string)
    ensures ReadLine(r, MetaLine("COMMAND", v)) == r.(meta := r.meta.(command := TrimSpace(v)))
  {
    ReadMetaLine(r, "COMMAND", v);
  }

  lemma ReadAdapter(r: Reading, v: string)
    ensures ReadLine(r, MetaLine("ADAPTER", v)) == r.(meta := r.meta.(adapter := TrimSpace(v)))
  {
    ReadMetaLine(r, "ADAPTER", v);
    assert "ADAPTER"[0] == 'A' && "COMMAND"[0] == 'C';
  }

  lemma ReadTarget(r: Reading, v: string)
    ensures ReadLine(r, MetaLine("TARGET", v)) == r.(meta := r.meta.(target := TrimSpace(v)))
  {
    ReadMetaLine(r, "TARGET", v);
    assert |"TARGET"| == 6 && |"COMMAND"| == 7 && |"ADAPTER"| == 7;
  }

  lemma ReadMode(r: Reading, v: string)
    ensures ReadLine(r, MetaLine("MODE", v)) == r.(meta := r.meta.(mode := TrimSpace(v)))
  {
    ReadMetaLine(r, "MODE", v);
    assert |"MODE"| == 4 && |"TARGET"| == 6 && |"COMMAND"| == 7 && |"ADAPTER"| == 7;
  }

  lemma ReadPolicyURL(r: Reading, v: string)
    ensures ReadLine(r, MetaLine("POLICY_URL", v)) == r.(meta := r.meta.(policyURL := TrimSpace(v)))
  {
    ReadMetaLine(r, "POLICY_URL", v);
    assert |"POLICY_URL"| == 10 && |"MODE"| == 4 && |"TARGET"| == 6 && |"COMMAND"| == 7 && |"ADAPTER"| == 7;
  }

  lemma ReadEventSink(r: Reading, v: string)
    ensures ReadLine(r, MetaLine("EVENT_SINK", v)) == r.(meta := r.meta.(eventSink := TrimSpace(v)))
  {
    ReadMetaLine(r, "EVENT_SINK", v);
    EventSinkField(r.meta, TrimSpace(v));
  }

  lemma EventSinkField(m: Metadata, val: string)
    ensures SetField(m, "EVENT_SINK", val) == m.(eventSink := val)
  {
    assert "EVENT_SINK"[0] == 'E' && "POLICY_URL"[0] == 'P';
    assert |"EVENT_SINK"| == 10 && |"MODE"| == 4 && |"TARGET"| == 6 && |"COMMAND"| == 7 && |"ADAPTER"| == 7;
  }

  lemma ReadEnforce(r: Reading, b: bool)
    ensures ReadLine(r, MetaLine("ENFORCE_POLICY_ERRORS", FormatBool(b)))
            == r.(meta := r.meta.(enforcePolicyErrors := b))
  {
    var v := FormatBool(b);
    ReadMetaLine(r, "ENFORCE_POLICY_ERRORS", v);
    EnforceField(r.meta, TrimSpace(v));
    BoolReadBack(b);
  }

  lemma EnforceField(m: Metadata, val: string)
    ensures SetField(m, "ENFORCE_POLICY_ERRORS", val)
         == match ParseBoolOption(val) case Some(b) => m.(enforcePolicyErrors := b) case None => m
  {
    assert |"ENFORCE_POLICY_ERRORS"| == 21 && |"EVENT_SINK"| == 10 && |"POLICY_URL"| == 10;
    assert |"MODE"| == 4 && |"TARGET"| == 6 && |"COMMAND"| == 7 && |"ADAPTER"| == 7;
  }

  lemma MetaLinesRead(m: Metadata)
    ensures ReadLines(Reading(BLANK, true), MetaLines(m)) == Reading(Trimmed(m), true)
  {
    var r0 := Reading(BLANK, true);
    var r1 := r0.(meta := r0.meta.(command := TrimSpace(m.command)));
    var r2 := r1.(meta := r1.meta.(adapter := TrimSpace(m.adapter)));
    var r3 := r2.(meta := r2.meta.(target := TrimSpace(m.target)));
    var r4 := r3.(meta := r3.meta.(mode := TrimSpace(m.mode)));
    var r5 := r4.(meta := r4.meta.(policyURL := TrimSpace(m.policyURL)));
    var r6 := r5.(meta := r5.meta.(eventSink := TrimSpace(m.eventSink)));
    ReadCommand(r0, m.command);
    ReadAdapter(r1, m.adapter);
    ReadTarget(r2, m.target);
    ReadMode(r3, m.mode);
    ReadPolicyURL(r4, m.policyURL);
    ReadEventSink(r5, m.eventSink);
    ReadEnforce(r6, m.enforcePolicyErrors);
    SevenLines(r0, MetaLines(m));
  }

  lemma BoolReadBack(b: bool)
    ensures ParseBoolOption(TrimSpace(FormatBool(b))) == Some(b)
  {
    var s := FormatBool(b);
    assert !IsSpace(s[0]) && s[|s| - 1] == 'e';
    assert TrimSpace(s) == s;
  }

  lemma SevenLines(r: Reading, ls: seq<string>)
    requires |ls| == 7
    ensures ReadLines(r, ls)
         == ReadLine(ReadLine(ReadLine(ReadLine(ReadLine(ReadLine(ReadLine(r, ls[0]), ls[1]), ls[2]), ls[3]), ls[4]),
                              ls[5]), ls[6])
  {
    assert ls == [ls[0]] + ([ls[1]] + ([ls[2]] + ([ls[3]] + ([ls[4]] + ([ls[5]] + [ls[6]])))));
    OneRead(r, ls);
    var a := ReadLine(r, ls[0]);
    OneRead(a, ls[1..]);
    var b := ReadLine(a, ls[1]);
    OneRead(b, ls[2..]);
    var c := ReadLine(b, ls[2]);
    OneRead(c, ls[3..]);
    var d := ReadLine(c, ls[3]);
    OneRead(d, ls[4..]);
    var e := ReadLine(d, ls[4]);
    OneRead(e, ls[5..]);
    var f := ReadLine(e, ls[5]);
    OneRead(f, ls[6..]);
  }

  lemma OneRead(r: Reading, ls: seq<string>)
    requires ls != []
    ensures ReadLines(r, ls) == ReadLines(ReadLine(r, ls[0]), ls[1..])
  {
  }

  lemma HeaderRead()
    ensures ReadLines(Reading(BLANK, false), HEADER) == Reading(BLANK, true)
  {
    var r := Reading(BLANK, false);
    var h := HEADER;
    PlainHash(r, h[0]);
    VisibleInert(h[1]);
    InertLine(r, h[1]);
    TrimDropCR(MARKER);
    assert TrimSpace(MARKER) == MARKER;
    OneRead(r, h);
    OneRead(r, h[1..]);
    OneRead(r, h[2..]);
  }

  /** The interpreter line starts with '#' but is neither the marker nor metadata. */
  lemma PlainHash(r: Reading, l: string)
    requires l == "#!/bin/sh"
    ensures ReadLine(r, l) == r
  {
    TrimDropCR(l);
    assert TrimSpace(l) == l;
    assert l[1] == '!' && MARKER[1] == ' ' && META_PREFIX[1] == ' ';
  }

  lemma FrontRead(m: Metadata)
    ensures ReadLines(Reading(BLANK, false), Front(m)) == Reading(Trimmed(m), true)
  {
    var r := Reading(BLANK, false);
    HeaderRead();
    MetaLinesRead(m);
    ReadLinesAppend(r, HEADER, MetaLines(m));
    ReadLinesAppend(r, HEADER + MetaLines(m), [""]);
    InertLine(Reading(Trimmed(m), true), "");
    assert [""][1..] == [];
  }

  ghost predicate OneLineMeta(m: Metadata) {
    && '\n' !in m.command && '\n' !in m.adapter && '\n' !in m.target
    && '\n' !in m.mode && '\n' !in m.policyURL && '\n' !in m.eventSink
  }

  lemma {:induction false} EscapesKeepLines(s: string)
    ensures '\n' !in s ==> '\n' !in EscapeQuotes(s) && '\n' !in EscapeDoubleQuotes(s)
  {
    if s != "" {
      EscapesKeepLines(s[1..]);
      assert s == [s[0]] + s[1..];
    }
  }

  lemma {:induction false} TrimKeepsLines(s: string)
    ensures '\n' !in s ==> '\n' !in TrimRight(s)
    ensures '\n' !in s ==> '\n' !in TrimLeft(s)
  {
    if s != "" {
      TrimKeepsLines(s[1..]);
      TrimKeepsLines(s[..|s| - 1]);
    }
  }

  lemma ShellEscapeKeepsLines(s: string)
    requires '\n' !in s
    ensures '\n' !in ShellEscape(s)
  {
    TrimKeepsLines(s);
    TrimKeepsLines(TrimLeft(s));
    EscapesKeepLines(TrimSpace(s));
  }

  ghost predicate NoBreaks(ls: seq<string>) { forall k :: 0 <= k < |ls| ==> '\n' !in ls[k] }

  lemma UnbrokenAppend(a: seq<string>, b: seq<string>)
    requires NoBreaks(a) && NoBreaks(b)
    ensures NoBreaks(a + b)
  {
  }

  lemma MetaLineUnbroken(key: string, v: string)
    requires '\n' !in key && '\n' !in v
    ensures '\n' !in MetaLine(key, v)
  {
    var prefix := META_PREFIX;
    assert '\n' !in prefix;
  }

  lemma MetaUnbroken(m: Metadata)
    requires OneLineMeta(m)
    ensures NoBreaks(MetaLines(m))
  {
    MetaLineUnbroken("COMMAND", m.command);
    MetaLineUnbroken("ADAPTER", m.adapter);
    MetaLineUnbroken("TARGET", m.target);
    MetaLineUnbroken("MODE", m.mode);
    MetaLineUnbroken("POLICY_URL", m.policyURL);
    MetaLineUnbroken("EVENT_SINK", m.eventSink);
    MetaLineUnbroken("ENFORCE_POLICY_ERRORS", FormatBool(m.enforcePolicyErrors));
  }

  lemma HeaderUnbroken()
    ensures NoBreaks(HEADER)
  {
  }

  lemma FrontUnbroken(m: Metadata)
    requires OneLineMeta(m)
    ensures NoBreaks(Front(m))
  {
    HeaderUnbroken();
    MetaUnbroken(m);
    UnbrokenAppend(HEADER, MetaLines(m));
    UnbrokenAppend(HEADER + MetaLines(m), [""]);
  }

  lemma AssignedUnbroken(name: string, value: string)
    requires '\n' !in name && '\n' !in value
    ensures '\n' !in name + ShQuote(value)
  {
    EscapesKeepLines(value);
  }

  lemma SettingsUnbroken(m: Metadata)
    requires OneLineMeta(m)
    ensures NoBreaks(Settings(m))
  {
    AssignedUnbroken("SHIM_MODE=", m.mode);
    AssignedUnbroken("SHIM_POLICY_URL=", m.policyURL);
    AssignedUnbroken("SHIM_EVENT_SINK=", m.eventSink);
    AssignedUnbroken("SHIM_ENFORCE_POLICY_ERRORS=", FormatBool(m.enforcePolicyErrors));
  }

  lemma OverridesUnbroken()
    ensures NoBreaks(Overrides())
  {
    OverrideUnbroken("SHIM_MODE");
    OverrideUnbroken("SHIM_POLICY_URL");
    OverrideUnbroken("SHIM_EVENT_SINK");
    OverrideUnbroken("SHIM_ENFORCE_POLICY_ERRORS");
  }

  lemma OverrideUnbroken(name: string)
    requires '\n' !in name
    ensures NoBreaks(Override(name))
  {
  }

  lemma FlagUnbroken(name: string, value: string)
    requires '\n' !in name && '\n' !in value
    ensures '\n' !in Flag(name, value)
  {
  }

  lemma TargetUnbroken(m: Metadata)
    requires OneLineMeta(m)
    ensures NoBreaks(Target(m))
  {
    ShellEscapeKeepsLines(m.adapter);
    ShellEscapeKeepsLines(m.target);
    FlagUnbroken("adapter", ShellEscape(m.adapter));
    FlagUnbroken("target", ShellEscape(m.target));
  }

  lemma ModeUnbroken()
    ensures '\n' !in Flag("mode", "$SHIM_MODE") && '\n' !in Flag("policy-url", "$SHIM_POLICY_URL")
  {
    FlagUnbroken("mode", "$SHIM_MODE");
    FlagUnbroken("policy-url", "$SHIM_POLICY_URL");
  }

  lemma SinkUnbroken()
    ensures '\n' !in Flag("event-sink", "$SHIM_EVENT_SINK")
  {
    FlagUnbroken("event-sink", "$SHIM_EVENT_SINK");
  }

  lemma ErrorsUnbroken()
    ensures '\n' !in Flag("enforce-policy-errors", "$SHIM_ENFORCE_POLICY_ERRORS")
  {
    FlagUnbroken("enforce-policy-errors", "$SHIM_ENFORCE_POLICY_ERRORS");
  }

  lemma OptionsUnbroken()
    ensures NoBreaks(Options())
  {
    ModeUnbroken();
    SinkUnbroken();
    ErrorsUnbroken();
  }

  lemma RemainderUnbroken()
    ensures NoBreaks(Remainder())
  {
    FlagUnbroken("api-token", "${DATAFOG_SHIM_API_TOKEN:-}");
  }

  lemma ExecUnbroken(m: Metadata)
    requires OneLineMeta(m)
    ensures NoBreaks(Exec(m))
  {
    TargetUnbroken(m);
    OptionsUnbroken();
    RemainderUnbroken();
    UnbrokenAppend(Target(m), Options());
    UnbrokenAppend(Target(m) + Options(), Remainder());
  }

  lemma BackUnbroken(m: Metadata)
    requires OneLineMeta(m)
    ensures NoBreaks(Back(m))
  {
    SettingsUnbroken(m);
    OverridesUnbroken();
    ExecUnbroken(m);
    UnbrokenAppend(Settings(m), Overrides());
    UnbrokenAppend(Settings(m) + Overrides(), Exec(m));
  }

  // ---------------------------------------------------------------- the round trip

  /** The lines the reader sees where the binary is assigned: one, unless its path has newlines. */
  function BinaryLines(a: Install): seq<string> { Lines('\n', Text([Binary(a)])) }

  lemma ScriptParts(a: Install)
    requires OneLineMeta(a.meta)
    ensures Lines('\n', BuildShimScript(a)) == Front(a.meta) + BinaryLines(a) + Back(a.meta)
  {
    LinesOfParts(Front(a.meta) + [Binary(a)], Back(a.meta));
    LinesOfParts(Front(a.meta), [Binary(a)]);
    FrontUnbroken(a.meta);
    BackUnbroken(a.meta);
    LinesOfText(Front(a.meta));
    LinesOfText(Back(a.meta));
  }

  lemma BackRead(r: Reading, m: Metadata)
    ensures ReadLines(r, Back(m)) == r
  {
    BackInert(m);
    InertLines(r, Back(m));
  }

  /** Nothing after the metadata is mistaken for it, except perhaps lines of the binary's path. */
  lemma ScriptRead(a: Install)
    requires OneLineMeta(a.meta)
    ensures ReadLines(Reading(BLANK, false), Lines('\n', BuildShimScript(a)))
         == ReadLines(Reading(Trimmed(a.meta), true), BinaryLines(a))
  {
    var r := Reading(BLANK, false);
    ScriptParts(a);
    ReadLinesAppend(r, Front(a.meta) + BinaryLines(a), Back(a.meta));
    ReadLinesAppend(r, Front(a.meta), BinaryLines(a));
    FrontRead(a.meta);
    BackRead(ReadLines(Reading(Trimmed(a.meta), true), BinaryLines(a)), a.meta);
  }

  /** The lines of the binary's path leave what was read alone. */
  predicate BinaryUnread(a: Install, r: Reading) { ReadLines(r, BinaryLines(a)) == r }

  lemma OneLineBinary(a: Install, r: Reading)
    requires '\n' !in a.shimBinary
    ensures BinaryLines(a) == [Binary(a)] && BinaryUnread(a, r)
  {
    AssignedUnbroken("SHIM_BINARY=", a.shimBinary);
    LinesOfText([Binary(a)]);
    VisibleInert(Binary(a));
    InertLines(r, [Binary(a)]);
  }

  /** For single-line arguments the script reads back, as managed, exactly when each of its lines
      is within the reader's limit, and then with every argument stripped of surrounding space. */
  lemma ReadBuild(a: Install)
    requires OneLineMeta(a.meta) && '\n' !in a.shimBinary
    ensures ReadSpec(BuildShimScript(a))
         == if AllFit(ScriptLines(a)) then Some(Reading(Trimmed(a.meta), true)) else None
  {
    ScriptParts(a);
    ScriptRead(a);
    OneLineBinary(a, Reading(Trimmed(a.meta), true));
  }

  // ---------------------------------------------------------------- what the reader can return

  ghost predicate Clean(s: string) { '\n' !in s && TrimSpace(s) == s }

  ghost predicate CleanMeta(m: Metadata) {
    && Clean(m.command) && Clean(m.adapter) && Clean(m.target)
    && Clean(m.mode) && Clean(m.policyURL) && Clean(m.eventSink)
  }

  lemma {:induction false} TrimLeftFirst(s: string)
    ensures TrimLeft(s) == "" || !IsSpace(TrimLeft(s)[0])
  {
    if s != "" && IsSpace(s[0]) {
      TrimLeftFirst(s[1..]);
    }
  }

  lemma {:induction false} TrimRightFirst(s: string)
    ensures TrimRight(s) == "" || (s != "" && TrimRight(s)[0] == s[0])
  {
    if s != "" && IsSpace(s[|s| - 1]) {
      TrimRightFirst(s[..|s| - 1]);
    }
  }

  lemma TrimmedIsClean(s: string)
    requires '\n' !in s
    ensures Clean(TrimSpace(s))
  {
    TrimKeepsLines(s);
    TrimKeepsLines(TrimLeft(s));
    TrimLeftFirst(s);
    TrimRightFirst(TrimLeft(s));
    TrimRightIdempotent(TrimLeft(s));
  }

  lemma SubClean(s: string, i: nat)
    requires '\n' !in s && i <= |s|
    ensures Clean(TrimSpace(s[i..]))
  {
    TrimmedIsClean(s[i..]);
  }

  ghost predicate AllFields(p: string -> bool, m: Metadata) {
    p(m.command) && p(m.adapter) && p(m.target) && p(m.mode) && p(m.policyURL) && p(m.eventSink)
  }

  lemma FieldKeeps(p: string -> bool, m: Metadata, key: string, val: string)
    requires AllFields(p, m) && p(val)
    ensures AllFields(p, SetField(m, key, val))
  {
  }

  lemma FieldClean(m: Metadata, key: string, val: string)
    requires CleanMeta(m) && Clean(val)
    ensures CleanMeta(SetField(m, key, val))
  {
    FieldKeeps((s: string) => '\n' !in s && TrimSpace(s) == s, m, key, val);
  }

  lemma BodyClean(m: Metadata, body: string, i: nat)
    requires '\n' !in body && CleanMeta(m) && i < |body|
    ensures CleanMeta(SetField(m, TrimSpace(body[..i]), TrimSpace(body[i + 1..])))
  {
    SubClean(body, i + 1);
    FieldClean(m, TrimSpace(body[..i]), TrimSpace(body[i + 1..]));
  }

  lemma DropCRKeepsLines(s: string)
    requires '\n' !in s
    ensures '\n' !in DropCR(s)
  {
  }

  lemma ReadMetaClean(m: Metadata, rest: string)
    requires '\n' !in rest && CleanMeta(m)
    ensures CleanMeta(ReadMeta(m, rest))
  {
    var body := TrimSpace(rest);
    TrimmedIsClean(rest);
    if LineEnd('=', body) < |body| {
      BodyClean(m, body, LineEnd('=', body));
    }
  }

  lemma DropNoBreak(s: string, n: nat)
    requires '\n' !in s && n <= |s|
    ensures '\n' !in s[n..]
  {
  }

  lemma ReadLineClean(r: Reading, raw: string)
    requires '\n' !in raw && CleanMeta(r.meta)
    ensures CleanMeta(ReadLine(r, raw).meta)
  {
    var line := TrimSpace(DropCR(raw));
    DropCRKeepsLines(raw);
    TrimmedIsClean(DropCR(raw));
    if META_PREFIX <= line {
      DropNoBreak(line, |META_PREFIX|);
      ReadMetaClean(r.meta, line[|META_PREFIX|..]);
    }
  }

  lemma {:induction false} ReadLinesClean(r: Reading, ls: seq<string>)
    requires NoBreaks(ls) && CleanMeta(r.meta)
    ensures CleanMeta(ReadLines(r, ls).meta)
    decreases |ls|
  {
    if ls != [] {
      ReadLineClean(r, ls[0]);
      ReadLinesClean(ReadLine(r, ls[0]), ls[1..]);
    }
  }

  /** The reader only ever returns single-line, trimmed values. */
  lemma ReadIsClean(content: string)
    requires ReadSpec(content).Some?
    ensures CleanMeta(ReadSpec(content).value.meta)
  {
    LinesUnbroken('\n', content);
    ReadLinesClean(Reading(BLANK, false), Lines('\n', content));
  }

  lemma CleanIsTrimmed(m: Metadata)
    ensures CleanMeta(m) <==> OneLineMeta(m) && Trimmed(m) == m
  {
  }

  /** For all arguments: the script reads back as what it was built from exactly when the metadata
      are single lines without surrounding space, every line is within the reader's limit,
      and no line of the binary's path changes what was read. */
  lemma RoundTrip(a: Install)
    ensures ReadSpec(BuildShimScript(a)) == Some(Reading(a.meta, true))
       <==> CleanMeta(a.meta) && AllFit(Lines('\n', BuildShimScript(a))) && BinaryUnread(a, Reading(a.meta, true))
  {
    CleanIsTrimmed(a.meta);
    if ReadSpec(BuildShimScript(a)).Some? {
      ReadIsClean(BuildShimScript(a));
    }
    if CleanMeta(a.meta) {
      ScriptRead(a);
    }
  }
}
