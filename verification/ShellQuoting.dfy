/** Single-quoting for the portal script, and the word rules of a POSIX shell that undo it
    (IEEE Std 1003.1, Shell Command Language, section 2.2, without expansions). */
module ShellQuoting {
  import opened Wrappers
  import opened Text

  // closes the quotes, adds an escaped quote and opens them again
  function QuoteChar(c: char): string { if c == '\'' then ['\'', '\\', '\'', '\''] else [c] }

  function QuoteBody(value: string): string {
    if value == "" then "" else QuoteChar(value[0]) + QuoteBody(value[1..])
  }

  function ShellQuote(value: string): string { ['\''] + (QuoteBody(value) + ['\'']) }

  method ShellQuoteLoop(value: string) returns (out: string)
    ensures out == ShellQuote(value)
  {
    hide QuoteChar;
    out := "'";
    for i := 0 to |value|
      invariant out + (QuoteBody(value[i..]) + ['\'']) == ShellQuote(value)
    {
      assert value[i..][1..] == value[i + 1..];
      var code, rest := QuoteChar(value[i]), QuoteBody(value[i + 1..]);
      Regroup(code, rest, ['\'']);
      Regroup(out, code, rest + ['\'']);
      out := out + code;
    }
    assert value[|value|..] == "" && "" + ['\''] == ['\''];
    out := out + ['\''];
  }

  /* ---- how a shell reads a word ---- */

  // blanks, newlines and operator characters end a word
  predicate EndsWord(c: char) { c in {' ', '\t', '\n', '|', '&', ';', '<', '>', '(', ')'} }

  // double quotes, expansions, globs and comments are not read
  predicate Expands(c: char) { c in {'"', '$', '`', '*', '?', '[', '~', '#'} }

  /** Outside quotes: the rest of the word, and the text after it. A NUL cannot be part of a script. */
  function Word(text: string): Option<(string, string)>
    decreases |text|
  {
    if text == "" || EndsWord(text[0]) then Some(("", text))
    else if text[0] == '\0' || Expands(text[0]) then None
    else if text[0] == '\'' then Quoted(text[1..])
    else if text[0] == '\\' then
      if |text| < 2 || text[1] == '\0' then None
      else if text[1] == '\n' then Word(text[2..])
      else Then(text[1], Word(text[2..]))
    else Then(text[0], Word(text[1..]))
  }

  /** Inside single quotes, where every character up to the closing quote stands for itself. */
  function Quoted(text: string): Option<(string, string)>
    decreases |text|
  {
    if text == "" || text[0] == '\0' then None
    else if text[0] == '\'' then Word(text[1..])
    else Then(text[0], Quoted(text[1..]))
  }

  function Then(c: char, more: Option<(string, string)>): Option<(string, string)> {
    if more.None? then None else Some(([c] + more.value.0, more.value.1))
  }

  ghost predicate AfterWord(rest: string) { rest == "" || EndsWord(rest[0]) }

  lemma QuotedChar(c: char, tail: string)
    ensures Quoted(QuoteChar(c) + tail) == if c == '\0' then None else Then(c, Quoted(tail))
  {
    var text := QuoteChar(c) + tail;
    if c == '\'' {
      var escaped, reopened := ['\\', '\'', '\''] + tail, ['\''] + tail;
      assert text[1..] == escaped && escaped[2..] == reopened && reopened[1..] == tail;
      assert Word(reopened) == Quoted(tail);
      assert Word(escaped) == Then('\'', Word(reopened));
    } else {
      assert text[1..] == tail;
    }
  }

  lemma {:induction false} BodyRoundTrip(value: string, rest: string)
    requires AfterWord(rest)
    ensures Quoted(QuoteBody(value) + (['\''] + rest)) == if Free(value, '\0') then Some((value, rest)) else None
  {
    if value == "" {
      assert QuoteBody(value) + (['\''] + rest) == ['\''] + rest;
      assert (['\''] + rest)[1..] == rest;
    } else {
      hide Quoted, QuoteChar;
      var tail := QuoteBody(value[1..]) + (['\''] + rest);
      Regroup(QuoteChar(value[0]), QuoteBody(value[1..]), ['\''] + rest);
      QuotedChar(value[0], tail);
      BodyRoundTrip(value[1..], rest);
      assert value == [value[0]] + value[1..];
      assert Free(value, '\0') <==> value[0] != '\0' && Free(value[1..], '\0');
    }
  }

  /** A quoted value is one word that stands for exactly the value: for every value without NUL,
      and for no other. */
  lemma ShellQuoteRoundTrip(value: string, rest: string)
    requires AfterWord(rest)
    ensures Word(ShellQuote(value) + rest) == if Free(value, '\0') then Some((value, rest)) else None
  {
    assert (ShellQuote(value) + rest)[1..] == QuoteBody(value) + (['\''] + rest);
    BodyRoundTrip(value, rest);
    hide Quoted;
  }

  /** Different values are quoted differently. */
  lemma ShellQuoteInjective(a: string, b: string)
    requires ShellQuote(a) == ShellQuote(b) && Free(a, '\0') && Free(b, '\0')
    ensures a == b
  {
    ShellQuoteRoundTrip(a, "");
    ShellQuoteRoundTrip(b, "");
    hide Word, ShellQuote;
  }
}
