/** Quoting a value for a POSIX shell, against the shell's own reading of it:
    sections 2.2.1, 2.2.2 and 2.3 of the POSIX.1-2017 Shell Command Language. */
module ShellQuote {
  import opened Models

  /** Every single quote becomes a closing quote, an escaped quote and an opening quote. */
  function EscapeQuotes(v: string): string {
    if v == "" then "" else (if v[0] == '\'' then "'\\''" else [v[0]]) + EscapeQuotes(v[1..])
  }

  function ShQuote(v: string): string { "'" + EscapeQuotes(v) + "'" }

  /** Characters that end a word or mean something else outside quotes. */
  predicate Delimiter(c: char) { c in " \t\n|&;<>()" }

  predicate Special(c: char) { c in "$`\"*?[#~%!{}" }

  /** Read one word: its value and the input left over. Inside single quotes every character
      stands for itself and only a single quote ends them; outside, a backslash preserves the
      next character, except that with a newline it disappears. Expansions and double quotes
      are outside this fragment and give no word. */
  function ReadWord(s: string, quoted: bool): Option<(string, string)> {
    if s == "" then (if quoted then None else Some(("", "")))
    else if quoted then
      if s[0] == '\'' then ReadWord(s[1..], false) else Prepend(s[0], ReadWord(s[1..], true))
    else if s[0] == '\'' then ReadWord(s[1..], true)
    else if s[0] == '\\' then
      if |s| == 1 then None
      else if s[1] == '\n' then ReadWord(s[2..], false)
      else Prepend(s[1], ReadWord(s[2..], false))
    else if Delimiter(s[0]) then Some(("", s))
    else if Special(s[0]) then None
    else Prepend(s[0], ReadWord(s[1..], false))
  }

  function Prepend(c: char, r: Option<(string, string)>): Option<(string, string)> {
    match r case None => None case Some((word, rest)) => Some(([c] + word, rest))
  }

  ghost predicate EndsWord(rest: string) { rest == "" || Delimiter(rest[0]) }

  /** The four characters that stand for a single quote leave the shell inside quotes again. */
  lemma ReadEscapedQuote(more: string)
    ensures ReadWord("'\\''" + more, true) == Prepend('\'', ReadWord(more, true))
  {
    var s := "'\\''" + more;
    assert s[0] == '\'' && s[1] == '\\' && s[2] == '\'' && s[3] == '\'';
    assert s[1..][2..][1..] == more;
    assert ReadWord(s[1..][2..], false) == ReadWord(more, true);
    assert ReadWord(s[1..], false) == Prepend('\'', ReadWord(more, true));
  }

  lemma ReadPlain(c: char, more: string)
    requires c != '\''
    ensures ReadWord([c] + more, true) == Prepend(c, ReadWord(more, true))
  {
    var s := [c] + more;
    assert s[0] == c && s[1..] == more;
  }

  lemma ReadClosing(rest: string)
    requires EndsWord(rest)
    ensures ReadWord("'" + rest, true) == Some(("", rest))
  {
    var s := "'" + rest;
    assert s[0] == '\'' && s[1..] == rest;
  }

  lemma EscapeStep(v: string, tail: string)
    requires v != ""
    ensures EscapeQuotes(v) + tail == (if v[0] == '\'' then "'\\''" else [v[0]]) + (EscapeQuotes(v[1..]) + tail)
  {
    var first := if v[0] == '\'' then "'\\''" else [v[0]];
    assert EscapeQuotes(v) == first + EscapeQuotes(v[1..]);
    Associate(first, EscapeQuotes(v[1..]), tail);
  }

  lemma Associate(a: string, b: string, c: string)
    ensures (a + b) + c == a + (b + c)
  {
  }

  lemma {:induction false} ReadEscaped(v: string, rest: string)
    requires EndsWord(rest)
    ensures ReadWord(EscapeQuotes(v) + ("'" + rest), true) == Some((v, rest))
  {
    var tail := "'" + rest;
    if v == "" {
      ReadClosing(rest);
      assert EscapeQuotes(v) + tail == tail;
    } else {
      ReadEscaped(v[1..], rest);
      EscapeStep(v, tail);
      var more := EscapeQuotes(v[1..]) + tail;
      if v[0] == '\'' {
        ReadEscapedQuote(more);
      } else {
        ReadPlain(v[0], more);
      }
      assert [v[0]] + v[1..] == v;
    }
  }

  /** Whatever the value, quotes and newlines included, the shell reads its quoted form as one
      word with exactly that value, and stops where the quoted form ends. */
  lemma QuotedIsOneWord(v: string, rest: string)
    requires EndsWord(rest)
    ensures ReadWord(ShQuote(v) + rest, false) == Some((v, rest))
  {
    ReadEscaped(v, rest);
    var s := ShQuote(v) + rest;
    assert s[0] == '\'' && s[1..] == EscapeQuotes(v) + ("'" + rest);
  }

  predicate Plain(s: string) {
    forall i :: 0 <= i < |s| ==> s[i] != '\'' && s[i] != '\\' && !Delimiter(s[i]) && !Special(s[i])
  }

  /** In an assignment such as NAME='...' the whole text is one word, the name followed by the value. */
  lemma {:induction false} AssignmentIsOneWord(name: string, v: string, rest: string)
    requires Plain(name) && EndsWord(rest)
    ensures ReadWord(name + ShQuote(v) + rest, false) == Some((name + v, rest))
  {
    if name == "" {
      QuotedIsOneWord(v, rest);
      assert name + ShQuote(v) + rest == ShQuote(v) + rest && name + v == v;
    } else {
      AssignmentIsOneWord(name[1..], v, rest);
      var s := name + ShQuote(v) + rest;
      assert s[1..] == name[1..] + ShQuote(v) + rest;
      assert [name[0]] + (name[1..] + v) == name + v;
    }
  }
}
