/** Printers that put text into a shell command, against the shell's own rules
    for reading it back. */
module ShellQuoting {
  import opened Basics
  import opened Text

  /** What a reader consumed and left, or that the text is cut off or uses
      something these readers leave to the shell. */
  datatype Read = Done(value: string, rest: string) | Stuck

  function Prepend(c: char, r: Read): Read {
    if r.Done? then Done([c] + r.value, r.rest) else Stuck
  }

  // ------------------------------------------------------------ the printers

  /** `str::replace` of one character. */
  function Replace(s: string, c: char, sub: string): string {
    if s == [] then [] else (if s[0] == c then sub else [s[0]]) + Replace(s[1..], c, sub)
  }

  function EscapeForAnsiCQuotes(s: string): string {
    Replace(Replace(Replace(Replace(s, '\\', "\\\\"), '\'', "\\'"), '\n', "\\n"), '\r', "\\r")
  }

  function ShellQuote(value: string): string {
    "'" + Replace(value, '\'', "'\"'\"'") + "'"
  }

  /** The launch command, and whether the prompt must be typed in afterwards. */
  function PrepareAgentCommand(presetId: string, baseCommand: string, initialPrompt: Option<string>): (string, bool) {
    if initialPrompt.None? || Trim(initialPrompt.value) == "" then (baseCommand, false)
    else if presetId == "builtin-claude" || presetId == "builtin-codex" then
      (baseCommand + " $'" + EscapeForAnsiCQuotes(initialPrompt.value) + "'", false)
    else (baseCommand, true)
  }

  // -------------------------------------------- section 2.2.4: dollar-single-quotes

  /** The escape sequences that stand for one character. Numeric and control
      escapes, and those that POSIX leaves unspecified, are not read. */
  function Escape(c: char): Option<char> {
    match c
    case '\"' => Some('\"')
    case '\'' => Some('\'')
    case '\\' => Some('\\')
    case 'a' => Some('\U{7}')
    case 'b' => Some('\U{8}')
    case 'e' => Some('\U{1B}')
    case 'f' => Some('\U{C}')
    case 'n' => Some('\n')
    case 'r' => Some('\r')
    case 't' => Some('\t')
    case 'v' => Some('\U{B}')
    case _ => None
  }

  /** Reads the text after `$'` up to its closing quote. */
  function ReadDollarSingle(s: string): Read
    decreases |s|
  {
    if s == [] then Stuck
    else if s[0] == '\'' then Done([], s[1..])
    else if s[0] != '\\' then Prepend(s[0], ReadDollarSingle(s[1..]))
    else if |s| > 1 && Escape(s[1]).Some? then Prepend(Escape(s[1]).value, ReadDollarSingle(s[2..]))
    else Stuck
  }

  /** One character, as the four replacements leave it. */
  function Escaped(c: char): string {
    if c == '\\' then "\\\\"
    else if c == '\'' then "\\'"
    else if c == '\n' then "\\n"
    else if c == '\r' then "\\r"
    else [c]
  }

  function EscapedEach(s: string): string {
    if s == [] then [] else Escaped(s[0]) + EscapedEach(s[1..])
  }

  lemma {:induction false} ReplaceConcat(a: string, b: string, c: char, sub: string)
    ensures Replace(a + b, c, sub) == Replace(a, c, sub) + Replace(b, c, sub)
  {
    if a == [] {
      assert a + b == b;
    } else {
      assert (a + b)[1..] == a[1..] + b;
      ReplaceConcat(a[1..], b, c, sub);
    }
  }

  lemma EscapeConcat(a: string, b: string)
    ensures EscapeForAnsiCQuotes(a + b) == EscapeForAnsiCQuotes(a) + EscapeForAnsiCQuotes(b)
  {
    ReplaceConcat(a, b, '\\', "\\\\");
    var a1, b1 := Replace(a, '\\', "\\\\"), Replace(b, '\\', "\\\\");
    ReplaceConcat(a1, b1, '\'', "\\'");
    var a2, b2 := Replace(a1, '\'', "\\'"), Replace(b1, '\'', "\\'");
    ReplaceConcat(a2, b2, '\n', "\\n");
    ReplaceConcat(Replace(a2, '\n', "\\n"), Replace(b2, '\n', "\\n"), '\r', "\\r");
  }

  lemma ReplaceOne(c: char, x: char, sub: string)
    ensures Replace([c], x, sub) == if c == x then sub else [c]
  {
    assert [c][1..] == [];
  }

  lemma ReplaceTwo(c: char, d: char, x: char, sub: string)
    requires c != x && d != x
    ensures Replace([c, d], x, sub) == [c, d]
  {
    ReplaceConcat([c], [d], x, sub);
    ReplaceOne(c, x, sub);
    ReplaceOne(d, x, sub);
    assert [c] + [d] == [c, d];
  }

  lemma EscapeOne(c: char)
    ensures EscapeForAnsiCQuotes([c]) == Escaped(c)
  {
    ReplaceOne(c, '\\', "\\\\");
    ReplaceOne(c, '\'', "\\'");
    ReplaceOne(c, '\n', "\\n");
    ReplaceOne(c, '\r', "\\r");
    ReplaceTwo('\\', '\\', '\'', "\\'");
    ReplaceTwo('\\', '\\', '\n', "\\n");
    ReplaceTwo('\\', '\\', '\r', "\\r");
    ReplaceTwo('\\', '\'', '\n', "\\n");
    ReplaceTwo('\\', '\'', '\r', "\\r");
    ReplaceTwo('\\', 'n', '\r', "\\r");
  }

  /** The four replacements in sequence never touch each other's output: they
      are one character-by-character map. */
  lemma {:induction false} ReplacementsAreOneMap(s: string)
    ensures EscapeForAnsiCQuotes(s) == EscapedEach(s)
  {
    if s != [] {
      assert s == [s[0]] + s[1..];
      EscapeConcat([s[0]], s[1..]);
      EscapeOne(s[0]);
      ReplacementsAreOneMap(s[1..]);
    }
  }

  /** What one character became is read back as that character. */
  lemma EscapedReads(c: char, tail: string, text: string)
    requires text == Escaped(c) + tail
    ensures ReadDollarSingle(text) == Prepend(c, ReadDollarSingle(tail))
  {
    if |Escaped(c)| == 1 {
      assert text[0] == c && text[1..] == tail;
    } else {
      assert text[0] == '\\' && Escape(text[1]) == Some(c) && text[2..] == tail;
    }
  }

  lemma {:induction false} EachReadsBack(s: string, close: string, text: string)
    requires close != [] && close[0] == '\'' && text == EscapedEach(s) + close
    ensures ReadDollarSingle(text) == Done(s, close[1..])
  {
    if s == [] {
      assert text == close;
    } else {
      var c, rest := s[0], EscapedEach(s[1..]) + close;
      assert text == Escaped(c) + rest;
      EachReadsBack(s[1..], close, rest);
      EscapedReads(c, rest, text);
      assert s == [c] + s[1..];
    }
  }

  /** Any text, escaped and read by the dollar-single-quote rules, comes back
      unchanged, and the reader stops exactly at the closing quote. */
  lemma AnsiCRoundTrip(prompt: string, rest: string)
    ensures ReadDollarSingle(EscapeForAnsiCQuotes(prompt) + "'" + rest) == Done(prompt, rest)
  {
    ReplacementsAreOneMap(prompt);
    EachReadsBack(prompt, "'" + rest, EscapedEach(prompt) + ("'" + rest));
    assert EscapedEach(prompt) + "'" + rest == EscapedEach(prompt) + ("'" + rest);
  }

  lemma {:induction false} EachHasNoBreaks(s: string)
    ensures '\n' !in EscapedEach(s) && '\r' !in EscapedEach(s)
  {
    if s != [] {
      EachHasNoBreaks(s[1..]);
    }
  }

  /** A prompt embedded in a launch command is one argument behind the base
      command, on one line, that the shell reads back as the prompt. A preset
      that takes no prompt keeps its command and asks for typing; a blank
      prompt changes nothing. */
  lemma EmbeddedPromptReadsBack(presetId: string, base: string, prompt: Option<string>)
    ensures var (command, typing) := PrepareAgentCommand(presetId, base, prompt);
            var blank := prompt.None? || Trim(prompt.value) == "";
            var embeds := presetId == "builtin-claude" || presetId == "builtin-codex";
            && (typing <==> !blank && !embeds)
            && (blank || !embeds ==> command == base)
            && (!blank && embeds ==>
                  && |command| >= |base| + 3 && command[..|base|] == base && command[|base|..|base| + 3] == " $'"
                  && ReadDollarSingle(command[|base| + 3..]) == Done(prompt.value, [])
                  && '\n' !in command[|base|..] && '\r' !in command[|base|..])
  {
    if prompt.Some? {
      EmbeddedIn(base, prompt.value);
    }
  }

  lemma EmbeddedIn(base: string, prompt: string)
    ensures var command := base + " $'" + EscapeForAnsiCQuotes(prompt) + "'";
            && |command| >= |base| + 3 && command[..|base|] == base && command[|base|..|base| + 3] == " $'"
            && ReadDollarSingle(command[|base| + 3..]) == Done(prompt, [])
            && '\n' !in command[|base|..] && '\r' !in command[|base|..]
  {
    var escaped := EscapeForAnsiCQuotes(prompt);
    var command := base + " $'" + escaped + "'";
    AnsiCRoundTrip(prompt, []);
    ReplacementsAreOneMap(prompt);
    EachHasNoBreaks(prompt);
    assert command[|base| + 3..] == escaped + "'" + [];
    assert command[|base|..] == " $'" + escaped + "'";
  }

  // ---------------------------- sections 2.2.2 and 2.2.3: single and double quotes

  datatype Mode = Bare | Single | Double

  predicate IsBlank(c: char) {
    c == ' ' || c == '\t' || c == '\n'
  }

  /** Outside quotes these mean something else than themselves. */
  predicate IsSpecial(c: char) {
    c in "|&;<>()$`\\*?[#~=%!{}"
  }

  /** Reads one word: unquoted text, single-quoted and double-quoted parts. */
  function ReadWord(s: string, mode: Mode): Read
    decreases |s|
  {
    match mode
    case Bare =>
      if s == [] || IsBlank(s[0]) then Done([], s)
      else if s[0] == '\'' then ReadWord(s[1..], Single)
      else if s[0] == '\"' then ReadWord(s[1..], Double)
      else if IsSpecial(s[0]) then Stuck
      else Prepend(s[0], ReadWord(s[1..], Bare))
    case Single =>
      if s == [] then Stuck
      else if s[0] == '\'' then ReadWord(s[1..], Bare)
      else Prepend(s[0], ReadWord(s[1..], Single))
    case Double =>
      if s == [] || s[0] == '$' || s[0] == '`' then Stuck
      else if s[0] == '\"' then ReadWord(s[1..], Bare)
      else if s[0] == '\\' && |s| > 1 && s[1] in "$`\"\\" then Prepend(s[1], ReadWord(s[2..], Double))
      else if s[0] == '\\' && |s| > 1 && s[1] == '\n' then ReadWord(s[2..], Double)
      else Prepend(s[0], ReadWord(s[1..], Double))
  }

  lemma {:induction false} InsideQuotesReadsBack(v: string, rest: string)
    requires rest == [] || IsBlank(rest[0])
    ensures ReadWord(Replace(v, '\'', "'\"'\"'") + "'" + rest, Single) == Done(v, rest)
  {
    var text := Replace(v, '\'', "'\"'\"'") + "'" + rest;
    if v == [] {
      assert text == "'" + rest && text[1..] == rest;
    } else {
      var tail := Replace(v[1..], '\'', "'\"'\"'") + "'" + rest;
      InsideQuotesReadsBack(v[1..], rest);
      assert [v[0]] + v[1..] == v;
      if v[0] == '\'' {
        QuoteInside(text, tail);
      } else {
        assert text == [v[0]] + tail && text[1..] == tail;
      }
    }
  }

  /** Leaving the quotes for a double-quoted one, and coming back. */
  lemma QuoteInside(text: string, tail: string)
    requires text == "'\"'\"'" + tail
    ensures ReadWord(text, Single) == Prepend('\'', ReadWord(tail, Single))
  {
    var t1, t2, t3, t4 := text[1..], text[2..], text[3..], text[4..];
    assert t1[1..] == t2 && t2[1..] == t3 && t3[1..] == t4 && t4[1..] == tail;
    assert ReadWord(text, Single) == ReadWord(t1, Bare);
    assert ReadWord(t1, Bare) == ReadWord(t2, Double);
    assert ReadWord(t2, Double) == Prepend('\'', ReadWord(t3, Double));
    assert ReadWord(t3, Double) == ReadWord(t4, Bare);
    assert ReadWord(t4, Bare) == ReadWord(tail, Single);
  }

  /** Any value, quoted, is read by the shell as one word equal to it, whatever
      follows after a blank. */
  lemma ShellQuoteRoundTrip(value: string, rest: string)
    requires rest == [] || IsBlank(rest[0])
    ensures ReadWord(ShellQuote(value) + rest, Bare) == Done(value, rest)
  {
    InsideQuotesReadsBack(value, rest);
    assert (ShellQuote(value) + rest)[1..] == Replace(value, '\'', "'\"'\"'") + "'" + rest;
  }
}
