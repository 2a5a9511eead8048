/** What a wrapper script says: line by line, as a POSIX shell reads its settings and options, and as the
    metadata reader reads any file. */
module Wrapper {
  import opened Utf8
  import opened Models
  import opened ShellQuote
  import opened ShimScript
  import opened TextLines

  // ---------------------------------------------------------------- the lines

  function Described(name: string, v: string): string { "# DATAFOG_SHIM_" + name + "=" + v }

  lemma MetadataTold(a: Install)
    ensures MetaLines(a.meta) == [
              Described("COMMAND", a.meta.command), Described("ADAPTER", a.meta.adapter),
              Described("TARGET", a.meta.target), Described("MODE", a.meta.mode),
              Described("POLICY_URL", a.meta.policyURL), Described("EVENT_SINK", a.meta.eventSink),
              Described("ENFORCE_POLICY_ERRORS", if a.meta.enforcePolicyErrors then "true" else "false")]
  {
  }

  /** A setting reads as one word, its name and the installed value, whatever that value contains. */
  ghost predicate ReadsAs(line: string, word: string) { ReadWord(line, false) == Some((word, "")) }

  predicate Upper(c: char) { 'A' <= c <= 'Z' || c == '_' || c == '=' }

  predicate IsName(name: string) { forall i :: 0 <= i < |name| ==> Upper(name[i]) }

  lemma UpperIsPlain(name: string)
    requires IsName(name)
    ensures Plain(name)
  {
    forall i | 0 <= i < |name|
      ensures name[i] != '\'' && name[i] != '\\' && !Delimiter(name[i]) && !Special(name[i])
    {
      assert Upper(name[i]);
    }
  }

  lemma Assigned(name: string, v: string)
    requires IsName(name)
    ensures ReadsAs(name + ShQuote(v), name + v)
  {
    UpperIsPlain(name);
    AssignmentIsOneWord(name, v, "");
    assert name + ShQuote(v) + "" == name + ShQuote(v);
  }

  /** The shell sets the five variables to what was installed. */
  lemma BinaryTold(a: Install)
    ensures ReadsAs(Binary(a), "SHIM_BINARY=" + a.shimBinary)
  {
    Assigned("SHIM_BINARY=", a.shimBinary);
  }

  lemma ModeTold(m: Metadata)
    ensures |Settings(m)| == 4 && ReadsAs(Settings(m)[0], "SHIM_MODE=" + m.mode)
  {
    Assigned("SHIM_MODE=", m.mode);
  }

  lemma PolicyTold(m: Metadata)
    ensures ReadsAs(Settings(m)[1], "SHIM_POLICY_URL=" + m.policyURL)
  {
    Assigned("SHIM_POLICY_URL=", m.policyURL);
  }

  lemma SinkTold(m: Metadata)
    ensures ReadsAs(Settings(m)[2], "SHIM_EVENT_SINK=" + m.eventSink)
  {
    Assigned("SHIM_EVENT_SINK=", m.eventSink);
  }

  lemma ErrorsTold(m: Metadata)
    ensures ReadsAs(Settings(m)[3], "SHIM_ENFORCE_POLICY_ERRORS=" + if m.enforcePolicyErrors then "true" else "false")
  {
    Assigned("SHIM_ENFORCE_POLICY_ERRORS=", FormatBool(m.enforcePolicyErrors));
  }

  function Unless(name: string): seq<string> {
    ["if [ -n \"${DATAFOG_" + name + ":-}\" ]; then", "  " + name + "=\"$DATAFOG_" + name + "\"", "fi"]
  }

  lemma OverridesTold()
    ensures Overrides() == Unless("SHIM_MODE") + Unless("SHIM_POLICY_URL") + Unless("SHIM_EVENT_SINK")
                           + Unless("SHIM_ENFORCE_POLICY_ERRORS") + [""]
  {
  }

  function Option(name: string, v: string): string { "  --" + name + " \"" + v + "\" \\" }

  lemma ExecTold(m: Metadata)
    ensures Exec(m) == [
              "exec \"$SHIM_BINARY\" run \\",
              Option("adapter", ShellEscape(m.adapter)), Option("target", ShellEscape(m.target)),
              Option("mode", "$SHIM_MODE"), Option("policy-url", "$SHIM_POLICY_URL"),
              Option("event-sink", "$SHIM_EVENT_SINK"),
              Option("enforce-policy-errors", "$SHIM_ENFORCE_POLICY_ERRORS"),
              Option("api-token", "${DATAFOG_SHIM_API_TOKEN:-}"), "  -- \\", "  \"$@\""]
  {
  }

  /** The script: interpreter, marker, metadata, settings, overrides, command, each line ended by a newline. */
  lemma ScriptTold(a: Install)
    ensures ScriptLines(a) == ["#!/bin/sh", "set -eu", "# datafog-shim-wrapper"] + MetaLines(a.meta) + [""]
                              + [Binary(a)] + (Settings(a.meta) + Overrides() + Exec(a.meta))
    ensures BuildShimScript(a) == Ended(ScriptLines(a))
  {
    EndedIsText(ScriptLines(a));
  }

  function Ended(ls: seq<string>): string { if ls == [] then "" else ls[0] + ['\n'] + Ended(ls[1..]) }

  lemma {:induction false} EndedIsText(ls: seq<string>)
    ensures Text(ls) == Ended(ls)
  {
    if ls == [] {
      NoText();
    } else {
      TextStep(ls);
      EndedIsText(ls[1..]);
    }
  }

  // ---------------------------------------------------------------- double quotes

  predicate Escapable(c: char) { c == '$' || c == '`' || c == '"' || c == '\\' || c == '\n' }

  /** Reading inside double quotes up to the closing one (section 2.2.3 of the POSIX.1-2017 Shell Command
      Language): a backslash escapes the four special characters, disappears with a newline and otherwise stands
      for itself. Expansions are outside this fragment. */
  function ReadDouble(s: string): Option<(string, string)> {
    if s == "" then None
    else if s[0] == '"' then Some(("", s[1..]))
    else if s[0] == '$' || s[0] == '`' then None
    else if s[0] == '\\' then
      if |s| == 1 then None
      else if s[1] == '\n' then ReadDouble(s[2..])
      else if Escapable(s[1]) then Prepend(s[1], ReadDouble(s[2..]))
      else Prepend('\\', ReadDouble(s[1..]))
    else Prepend(s[0], ReadDouble(s[1..]))
  }

  /** No expansion, and every backslash stands before a character that it does not escape. */
  predicate Literal(v: string) {
    if v == "" then true
    else if v[0] == '$' || v[0] == '`' then false
    else if v[0] == '\\' then |v| > 1 && !Escapable(v[1]) && Literal(v[1..])
    else Literal(v[1..])
  }

  /** An escaped value, the closing quote and what follows. */
  function Closed(v: string, rest: string): string { EscapeDoubleQuotes(v) + ("\"" + rest) }

  lemma ClosedStep(v: string, rest: string)
    requires v != ""
    ensures Closed(v, rest) == (if v[0] == '"' then "\\\"" else [v[0]]) + Closed(v[1..], rest)
  {
    var first := if v[0] == '"' then "\\\"" else [v[0]];
    Regrouped(first, EscapeDoubleQuotes(v[1..]), "\"" + rest);
  }

  lemma Regrouped(a: string, b: string, c: string)
    ensures (a + b) + c == a + (b + c)
  {
  }

  lemma ClosedEnd(rest: string)
    ensures Closed("", rest) == "\"" + rest && Closed("", rest)[0] == '"' && Closed("", rest)[1..] == rest
  {
    assert EscapeDoubleQuotes("") == "";
  }

  /** Reading an escaped value begins like this. */
  lemma ReadFirst(v: string, rest: string)
    requires v != "" && v[0] != '\\'
    ensures ReadDouble(Closed(v, rest)) == if v[0] == '$' || v[0] == '`' then None
            else Prepend(v[0], ReadDouble(Closed(v[1..], rest)))
  {
    ClosedStep(v, rest);
    var s, more := Closed(v, rest), Closed(v[1..], rest);
    if v[0] == '"' {
      assert s[0] == '\\' && s[1] == '"' && s[2..] == more;
    } else {
      assert s[0] == v[0] && s[1..] == more;
    }
  }

  lemma ReadBackslash(v: string, rest: string)
    requires |v| > 1 && v[0] == '\\' && v[1] != '"'
    ensures ReadDouble(Closed(v, rest)) ==
            if v[1] == '\n' then ReadDouble(Closed(v[2..], rest))
            else if Escapable(v[1]) then Prepend(v[1], ReadDouble(Closed(v[2..], rest)))
            else Prepend('\\', ReadDouble(Closed(v[1..], rest)))
  {
    ClosedStep(v, rest);
    ClosedStep(v[1..], rest);
    var s, more := Closed(v, rest), Closed(v[1..], rest);
    assert s[0] == '\\' && s[1..] == more && more[0] == v[1] && more[1..] == Closed(v[1..][1..], rest);
    assert v[1..][1..] == v[2..] && s[2..] == more[1..];
  }

  /** A backslash before a quote meets the backslash that escapes it: the quote then closes. */
  lemma ReadClosedEarly(v: string, rest: string)
    requires |v| > 1 && v[0] == '\\' && v[1] == '"'
    ensures ReadDouble(Closed(v, rest)) == Some(("\\", Closed(v[2..], rest)))
  {
    ClosedStep(v, rest);
    ClosedStep(v[1..], rest);
    var s, more := Closed(v, rest), Closed(v[1..], rest);
    assert s[0] == '\\' && s[1..] == more && more[0] == '\\' && more[1] == '"';
    assert v[1..][1..] == v[2..] && more[2..] == Closed(v[2..], rest);
    var after := s[2..];
    assert s[1] == '\\' && after[0] == '"' && after[1..] == more[2..];
    assert ReadDouble(after) == Some(("", after[1..]));
    assert ReadDouble(s) == Prepend('\\', ReadDouble(after));
    assert ['\\'] + "" == "\\";
  }

  /** A backslash at the end escapes the closing quote: reading goes on behind it. */
  lemma ReadRunsOn(v: string, rest: string)
    requires |v| == 1 && v[0] == '\\'
    ensures ReadDouble(Closed(v, rest)) == Prepend('"', ReadDouble(rest))
  {
    assert v[1..] == "";
    ClosedStep(v, rest);
    ClosedEnd(rest);
    var s := Closed(v, rest);
    assert s == ['\\', '"'] + rest;
    ReadQuoteBack(s, rest);
  }

  lemma ReadQuoteBack(s: string, rest: string)
    requires s == ['\\', '"'] + rest
    ensures ReadDouble(s) == Prepend('"', ReadDouble(rest))
  {
    assert s[0] == '\\' && s[1] == '"' && s[2..] == rest;
  }

  /** Reading consumes something. */
  lemma {:induction false} ReadShortens(s: string)
    ensures ReadDouble(s).Some? ==> |ReadDouble(s).value.1| < |s|
    decreases |s|
  {
    if s != "" && s[0] != '"' {
      ReadShortens(s[1..]);
      if |s| > 1 {
        ReadShortens(s[2..]);
      }
    }
  }

  lemma ClosedLonger(v: string, rest: string)
    ensures |Closed(v, rest)| > |rest|
  {
  }

  /** If reading stops at the end of the value, it yields at most as many characters. */
  lemma {:induction false} NothingGained(v: string, rest: string)
    ensures var r := ReadDouble(Closed(v, rest)); r.Some? && r.value.1 == rest ==> |r.value.0| <= |v|
    decreases |v|
  {
    if v == "" {
      ClosedEnd(rest);
    } else if v[0] != '\\' {
      ReadFirst(v, rest);
      NothingGained(v[1..], rest);
    } else if |v| == 1 {
      ReadRunsOn(v, rest);
      ReadShortens(rest);
    } else if v[1] == '"' {
      ReadClosedEarly(v, rest);
      ClosedLonger(v[2..], rest);
    } else {
      ReadBackslash(v, rest);
      NothingGained(v[1..], rest);
      NothingGained(v[2..], rest);
    }
  }

  /** Within double quotes a value with its double quotes escaped is read as itself, up to the closing quote,
      exactly when it has no expansion and no backslash that the shell takes for an escape. */
  lemma {:induction false} DoubleQuotedIff(v: string, rest: string)
    ensures ReadDouble(Closed(v, rest)) == Some((v, rest)) <==> Literal(v)
    decreases |v|
  {
    if v == "" {
      ClosedEnd(rest);
    } else {
      assert v == [v[0]] + v[1..];
      if v[0] != '\\' {
        ReadFirst(v, rest);
        DoubleQuotedIff(v[1..], rest);
      } else if |v| == 1 {
        ReadRunsOn(v, rest);
        ReadShortens(rest);
      } else if v[1] == '"' {
        ReadClosedEarly(v, rest);
        ClosedLonger(v[2..], rest);
      } else {
        ReadBackslash(v, rest);
        NothingGained(v[2..], rest);
        DoubleQuotedIff(v[1..], rest);
      }
    }
  }

  /** The installed adapter and target reach the command without surrounding space, exactly when what is left of
      them is literal. */
  lemma OptionReadIff(name: string, v: string)
    ensures var line := Option(name, ShellEscape(v));
            && |line| > |name| + 6 && line[..|name| + 6] == "  --" + name + " \""
            && (ReadDouble(line[|name| + 6..]) == Some((TrimSpace(v), " \\")) <==> Literal(TrimSpace(v)))
  {
    var opening := "  --" + name + " \"";
    var line := Option(name, ShellEscape(v));
    assert |opening| == |name| + 6;
    assert line == opening + Closed(TrimSpace(v), " \\");
    assert line[|opening|..] == Closed(TrimSpace(v), " \\");
    DoubleQuotedIff(TrimSpace(v), " \\");
  }

  // ---------------------------------------------------------------- the metadata reader, line by line

  /** A file is read only if every line takes less than 65536 bytes. */
  lemma LimitTold(content: string)
    ensures ReadSpec(content).Some? <==> AllShort(Lines('\n', content))
  {
    var lines := Lines('\n', content);
    if AllFit(lines) {
      forall k | 0 <= k < |lines| ensures |Encode(lines[k])| < 65536 {
        assert Fits(lines[k]);
      }
    }
    if AllShort(lines) {
      forall k | 0 <= k < |lines| ensures Fits(lines[k]) {
        assert |Encode(lines[k])| < 65536;
      }
    }
  }

  predicate AllShort(lines: seq<string>) { forall k :: 0 <= k < |lines| ==> |Encode(lines[k])| < 65536 }

  /** The marker line, up to surrounding space, makes the file a managed one and says nothing else. */
  lemma MarkerTold(r: Reading, raw: string)
    requires TrimSpace(raw) == "# datafog-shim-wrapper"
    ensures ReadLine(r, raw) == Reading(r.meta, true)
  {
    TrimDropCR(raw);
  }

  /** A line that is neither the marker nor metadata with an equals sign says nothing. */
  lemma OtherTold(r: Reading, raw: string)
    requires var line := TrimSpace(raw);
             && line != "# datafog-shim-wrapper"
             && ("# DATAFOG_SHIM_" <= line ==> '=' !in TrimSpace(line[|"# DATAFOG_SHIM_"|..]))
    ensures ReadLine(r, raw) == r
  {
    TrimDropCR(raw);
  }

  /** A metadata line is cut at its first equals sign. */
  ghost predicate Says(raw: string, key: string, val: string) {
    exists rest, k, v ::
      && TrimSpace(raw) == "# DATAFOG_SHIM_" + rest && TrimSpace(rest) == k + ("=" + v) && '=' !in k
      && TrimSpace(k) == key && TrimSpace(v) == val
  }

  lemma CutAtEquals(k: string, v: string)
    requires '=' !in k
    ensures LineEnd('=', k + ("=" + v)) == |k|
  {
    FirstEquals(k, v);
    Regrouped(k, "=", v);
  }

  lemma CutSets(r: Reading, raw: string, rest: string, k: string, v: string)
    requires TrimSpace(raw) == META_PREFIX + rest && TrimSpace(rest) == k + ("=" + v) && '=' !in k
    ensures ReadLine(r, raw) == r.(meta := SetField(r.meta, TrimSpace(k), TrimSpace(v)))
  {
    ReadPrefixed(r, raw, rest);
    CutAtEquals(k, v);
    var body := k + ("=" + v);
    assert body[..|k|] == k && body[|k| + 1..] == v;
  }

  lemma SaysSets(r: Reading, raw: string, key: string, val: string)
    requires Says(raw, key, val)
    ensures ReadLine(r, raw) == r.(meta := SetField(r.meta, key, val)) && TrimSpace(val) == val
  {
    var rest, k, v :|
      && TrimSpace(raw) == "# DATAFOG_SHIM_" + rest && TrimSpace(rest) == k + ("=" + v) && '=' !in k
      && TrimSpace(k) == key && TrimSpace(v) == val;
    CutSets(r, raw, rest, k, v);
    TrimTwice(v);
  }

  lemma TrimTwice(v: string)
    ensures TrimSpace(TrimSpace(v)) == TrimSpace(v)
  {
    TrimSidesCommute(TrimLeft(v));
    LeftOnce(v);
  }

  lemma {:induction false} LeftOnce(v: string)
    ensures TrimLeft(TrimLeft(v)) == TrimLeft(v)
  {
    if v != "" && IsSpace(v[0]) {
      LeftOnce(v[1..]);
    }
  }

  /** It sets the text field of that name and no other. */
  lemma TextsTold(r: Reading, raw: string, key: string, val: string)
    requires Says(raw, key, val)
    ensures var m := ReadLine(r, raw).meta;
            && m.command == (if key == "COMMAND" then val else r.meta.command)
            && m.adapter == (if key == "ADAPTER" then val else r.meta.adapter)
            && m.target == (if key == "TARGET" then val else r.meta.target)
            && m.mode == (if key == "MODE" then val else r.meta.mode)
            && m.policyURL == (if key == "POLICY_URL" then val else r.meta.policyURL)
            && m.eventSink == (if key == "EVENT_SINK" then val else r.meta.eventSink)
  {
    SaysSets(r, raw, key, val);
  }

  /** No other key touches the option. */
  lemma OtherField(m: Metadata, key: string, val: string)
    requires key != "ENFORCE_POLICY_ERRORS"
    ensures SetField(m, key, val).enforcePolicyErrors == m.enforcePolicyErrors
  {
  }

  lemma OptionWords(val: string)
    requires TrimSpace(val) == val
    ensures ParseBoolOption(val) == (if val in ["1", "t", "T", "TRUE", "true", "True"] then Some(true)
                                     else if val == "" || val in ["0", "f", "F", "FALSE", "false", "False"]
                                     then Some(false) else None)
  {
  }

  /** The option is set by the words for true and false, by nothing at all to false, and by no other text. */
  lemma OptionTold(r: Reading, raw: string, key: string, val: string)
    requires Says(raw, key, val)
    ensures ReadLine(r, raw).managed == r.managed
    ensures ReadLine(r, raw).meta.enforcePolicyErrors
         == (if key != "ENFORCE_POLICY_ERRORS" then r.meta.enforcePolicyErrors
             else if val in ["1", "t", "T", "TRUE", "true", "True"] then true
             else if val == "" || val in ["0", "f", "F", "FALSE", "false", "False"] then false
             else r.meta.enforcePolicyErrors)
  {
    SaysSets(r, raw, key, val);
    if key == "ENFORCE_POLICY_ERRORS" {
      EnforceField(r.meta, val);
      OptionWords(val);
    } else {
      OtherField(r.meta, key, val);
    }
  }
}
