/** Printable shell commands (packages/core/src/command-runner.ts), read back by the quoting and
    token rules of the POSIX shell command language, sections 2.2 and 2.3. */
module ShellCommands {
  import opened Text

  datatype Command = Command(executable: string, args: seq<string>, redacted: string)

  predicate SafeChar(c: char) {
    || 'a' <= c <= 'z' || 'A' <= c <= 'Z' || IsDigit(c)
    || c == '_' || c == '@' || c == '%' || c == '+' || c == '='
    || c == ':' || c == ',' || c == '.' || c == '/' || c == '-'
  }

  predicate Safe(text: string) {
    text != [] && forall i :: 0 <= i < |text| ==> SafeChar(text[i])
  }

  /** A single quote closes the quotes, stands in double quotes and opens them again. */
  const QUOTED_QUOTE := "'\"'\"'"

  function Escaped(text: string): string {
    if text == [] then [] else (if text[0] == '\'' then QUOTED_QUOTE else [text[0]]) + Escaped(text[1..])
  }

  function ShellQuote(text: string): string {
    if Safe(text) then text else "'" + Escaped(text) + "'"
  }

  function QuoteAll(words: seq<string>): seq<string> {
    if words == [] then [] else [ShellQuote(words[0])] + QuoteAll(words[1..])
  }

  function Vector(command: Command): seq<string> {
    [command.executable] + command.args
  }

  function CommandToString(command: Command): string {
    if command.redacted != [] then command.redacted else Join(QuoteAll(Vector(command)), " ")
  }

  // ---------------------------------------------------------------- how a shell reads it

  /** Characters with a meaning of their own outside quotes: operators, expansions, patterns,
      comments. A text that holds one unquoted is not read as plain words. */
  predicate Meta(c: char) {
    || c == '|' || c == '&' || c == ';' || c == '<' || c == '>' || c == '(' || c == ')' || c == '$' || c == '`'
    || c == '\n' || c == '*' || c == '?' || c == '[' || c == ']' || c == '{' || c == '}'
    || c == '#' || c == '~' || c == '!' || c == '^'
  }

  /** The words of the rest of a text; `word` is the word under way, if any. None when the text
      is not just words. */
  function Words(s: string, word: Option<string>): Option<seq<string>>
    decreases |s|
  {
    if s == [] then Some(if word.Some? then [word.value] else [])
    else
      var w := if word.Some? then word.value else [];
      if s[0] == ' ' || s[0] == '\t' then
        var rest := Words(s[1..], None);
        if word.None? || rest.None? then rest else Some([w] + rest.value)
      else if s[0] == '\'' then InSingle(s[1..], w)
      else if s[0] == '"' then InDouble(s[1..], w)
      else if s[0] == '\\' then
        if |s| == 1 then None
        else if s[1] == '\n' then Words(s[2..], word)
        else Words(s[2..], Some(w + [s[1]]))
      else if Meta(s[0]) then None
      else Words(s[1..], Some(w + [s[0]]))
  }

  /** Inside single quotes every character stands for itself. */
  function InSingle(s: string, word: string): Option<seq<string>>
    decreases |s|
  {
    if s == [] then None
    else if s[0] == '\'' then Words(s[1..], Some(word))
    else InSingle(s[1..], word + [s[0]])
  }

  /** Inside double quotes `$` and the backquote expand, and the backslash escapes some. */
  function InDouble(s: string, word: string): Option<seq<string>>
    decreases |s|
  {
    if s == [] then None
    else if s[0] == '"' then Words(s[1..], Some(word))
    else if s[0] == '$' || s[0] == '`' then None
    else if s[0] == '\\' && |s| > 1 && s[1] == '\n' then InDouble(s[2..], word)
    else if s[0] == '\\' && |s| > 1 && s[1] in "$`\"\\" then InDouble(s[2..], word + [s[1]])
    else InDouble(s[1..], word + [s[0]])
  }

  // ---------------------------------------------------------------- reading back

  lemma SafeIsPlain(c: char)
    requires SafeChar(c)
    ensures !Meta(c) && c != ' ' && c != '\t' && c != '\'' && c != '"' && c != '\\'
  {
  }

  lemma {:induction false} SafeReads(text: string, rest: string, word: Option<string>)
    requires forall i :: 0 <= i < |text| ==> SafeChar(text[i])
    requires text != [] || word.Some?
    ensures Words(text + rest, word) == Words(rest, Some((if word.Some? then word.value else []) + text))
  {
    var w := if word.Some? then word.value else [];
    if text == [] {
      assert text + rest == rest && w + text == w;
    } else {
      SafeIsPlain(text[0]);
      assert (text + rest)[1..] == text[1..] + rest;
      SafeReads(text[1..], rest, Some(w + [text[0]]));
      assert w + [text[0]] + text[1..] == w + text;
    }
  }

  lemma {:induction false} QuotedQuoteReads(rest: string, word: string)
    ensures InSingle(QUOTED_QUOTE + rest, word) == InSingle(rest, word + ['\''])
  {
    var w := word + ['\''];
    var s0, s1, s2, s3, s4 := QUOTED_QUOTE + rest, "\"'\"'" + rest, "'\"'" + rest, "\"'" + rest, "'" + rest;
    assert s0[1..] == s1 && s1[1..] == s2 && s2[1..] == s3 && s3[1..] == s4 && s4[1..] == rest;
    assert InSingle(s0, word) == Words(s1, Some(word));
    assert Words(s1, Some(word)) == InDouble(s2, word);
    assert InDouble(s2, word) == InDouble(s3, w);
    assert InDouble(s3, w) == Words(s4, Some(w));
  }

  lemma {:induction false} EscapedReads(text: string, rest: string, word: string)
    ensures InSingle(Escaped(text) + "'" + rest, word) == Words(rest, Some(word + text))
  {
    var s := Escaped(text) + "'" + rest;
    if text == [] {
      assert s[1..] == rest && word + text == word;
    } else {
      var tail := Escaped(text[1..]) + "'" + rest;
      EscapedReads(text[1..], rest, word + [text[0]]);
      assert word + [text[0]] + text[1..] == word + text;
      if text[0] == '\'' {
        assert s == QUOTED_QUOTE + tail;
        QuotedQuoteReads(tail, word);
      } else {
        assert s == [text[0]] + tail && s[1..] == tail;
      }
    }
  }

  /** A quoted text is read as one word, the text itself, whatever follows it. */
  lemma {:induction false} QuoteReads(text: string, rest: string)
    ensures Words(ShellQuote(text) + rest, None) == Words(rest, Some(text))
  {
    if Safe(text) {
      SafeReads(text, rest, None);
      assert [] + text == text;
    } else {
      QuotedReads(text, rest);
    }
  }

  lemma {:induction false} QuotedReads(text: string, rest: string)
    ensures Words("'" + Escaped(text) + "'" + rest, None) == Words(rest, Some(text))
  {
    var s := "'" + Escaped(text) + "'" + rest;
    assert s[0] == '\'' && s[1..] == Escaped(text) + "'" + rest;
    EscapedReads(text, rest, []);
    assert [] + text == text;
  }

  lemma {:induction false} JoinedReads(words: seq<string>)
    ensures Words(Join(QuoteAll(words), " "), None) == Some(words)
  {
    if words != [] {
      var quoted, rest := QuoteAll(words), QuoteAll(words[1..]);
      assert quoted[1..] == rest && quoted[0] == ShellQuote(words[0]);
      assert words == [words[0]] + words[1..];
      if |words| == 1 {
        QuoteReads(words[0], []);
        assert Join(quoted, " ") == ShellQuote(words[0]) + [];
        assert words == [words[0]];
      } else {
        JoinedReads(words[1..]);
        var tail := Join(rest, " ");
        assert Join(quoted, " ") == ShellQuote(words[0]) + (" " + tail);
        QuoteReads(words[0], " " + tail);
        assert (" " + tail)[1..] == tail;
      }
    }
  }

  /** The printed command, read by a shell, is the command: for every vector of strings. */
  lemma PrintedCommandReadsBack(command: Command)
    requires command.redacted == []
    ensures Words(CommandToString(command), None) == Some(Vector(command))
  {
    JoinedReads(Vector(command));
  }

  /** Different commands print differently. */
  lemma PrintingInjective(a: Command, b: Command)
    requires a.redacted == [] && b.redacted == [] && CommandToString(a) == CommandToString(b)
    ensures a == b
  {
    PrintedCommandReadsBack(a);
    PrintedCommandReadsBack(b);
    assert a.args == Vector(a)[1..] && b.args == Vector(b)[1..];
  }

  // ---------------------------------------------------------------- what is printed

  lemma {:induction false} EscapedLength(text: string)
    ensures |Escaped(text)| >= |text|
  {
    if text != [] {
      EscapedLength(text[1..]);
    }
  }

  /** Exactly the words of letters, digits and `_@%+=:,./-` are printed as they are; every other word
      stands in single quotes. */
  lemma PrintedPlainIff(text: string)
    ensures ShellQuote(text) == text <==>
      text != [] && forall i :: 0 <= i < |text| ==>
        'a' <= text[i] <= 'z' || 'A' <= text[i] <= 'Z' || '0' <= text[i] <= '9' || text[i] in "_@%+=:,./-"
    ensures ShellQuote(text) != text ==> ShellQuote(text)[0] == '\'' == ShellQuote(text)[|ShellQuote(text)| - 1]
  {
    EscapedLength(text);
    forall c: char ensures c in "_@%+=:,./-" <==> Mark(c) {
      MarksListed(c, "_@%+=:,./-");
    }
  }

  predicate Mark(c: char) {
    || c == '_' || c == '@' || c == '%' || c == '+' || c == '='
    || c == ':' || c == ',' || c == '.' || c == '/' || c == '-'
  }

  lemma MarksListed(c: char, list: string)
    requires list == "_@%+=:,./-"
    ensures c in list <==> Mark(c)
  {
    assert list[0] == '_' && list[1] == '@' && list[2] == '%' && list[3] == '+' && list[4] == '=' && list[5] == ':';
    assert list[6] == ',' && list[7] == '.' && list[8] == '/' && list[9] == '-';
  }

  /** A redacted text stands for the whole command, so what it leaves out is not printed. */
  lemma RedactedPrintsAlone(a: Command, b: Command)
    requires a.redacted != [] && a.redacted == b.redacted
    ensures CommandToString(a) == CommandToString(b) == a.redacted
  {
  }
}
