/** The textual form of UCI commands: value quoting, `set` lines, the rendered batch and the
    line counter the process executor applies to it. A decoder for this text is defined beside
    each encoder, and the encoders are proved to be undone by it. */
module UciText {
  import opened Wrappers
  import opened Text

  datatype Command =
    | Delete(package: string, section: string)
    | AddSection(package: string, section: string, kind: string)
    | SetOption(package: string, section: string, option: string, value: string)
    | Commit(package: string)

  /* ---- quote_uci ---- */

  function QuoteChar(c: char): string {
    if c == '\\' then "\\\\" else if c == '\'' then "'\\''" else [c]
  }

  function QuoteUci(value: string): string {
    if value == "" then "" else QuoteChar(value[0]) + QuoteUci(value[1..])
  }

  method QuoteUciLoop(value: string) returns (out: string)
    ensures out == QuoteUci(value)
  {
    out := "";
    for i := 0 to |value|
      invariant out + QuoteUci(value[i..]) == QuoteUci(value)
    {
      var ch := value[i];
      assert value[i..][1..] == value[i + 1..];
      Regroup(out, QuoteChar(ch), QuoteUci(value[i + 1..]));
      if ch == '\\' {
        out := out + "\\\\";
      } else if ch == '\'' {
        out := out + "'\\''";
      } else {
        out := out + [ch];
      }
    }
    assert value[|value|..] == "" && out + "" == out;
  }

  function Prepend(c: char, rest: Option<string>): Option<string> {
    if rest.Some? then Some([c] + rest.value) else None
  }

  /** Reads a quoted value up to and including the closing quote, which must end the text. */
  function Unquote(text: string): Option<string> {
    if text == "" then None
    else if text[0] == '\\' then
      if |text| >= 2 && text[1] == '\\' then Prepend('\\', Unquote(text[2..])) else None
    else if text[0] == '\'' then
      if |text| == 1 then Some("")
      else if |text| >= 4 && text[..4] == "'\\''" then Prepend('\'', Unquote(text[4..]))
      else None
    else Prepend(text[0], Unquote(text[1..]))
  }

  lemma {:induction false} UnquoteQuoted(value: string)
    ensures Unquote(QuoteUci(value) + "'") == Some(value)
  {
    if value == "" {
      assert QuoteUci(value) + "'" == "'";
    } else {
      var code, rest := QuoteChar(value[0]), QuoteUci(value[1..]) + "'";
      var text := QuoteUci(value) + "'";
      assert text == code + rest;
      assert text[..|code|] == code && text[|code|..] == rest;
      UnquoteStep(text, value[0], rest);
      UnquoteQuoted(value[1..]);
      assert value == [value[0]] + value[1..];
    }
  }

  lemma UnquoteStep(text: string, c: char, rest: string)
    requires text == QuoteChar(c) + rest && rest != ""
    ensures Unquote(text) == Prepend(c, Unquote(rest))
  {
    var code := QuoteChar(c);
    assert text[..|code|] == code && text[|code|..] == rest;
    assert forall i :: 0 <= i < |code| ==> text[i] == code[i];
  }

  lemma {:induction false} QuoteUnquoted(text: string)
    requires Unquote(text).Some?
    ensures text == QuoteUci(Unquote(text).value) + "'"
  {
    if text != "'" {
      var value := Unquote(text).value;
      var skip := if text[0] == '\\' then 2 else if text[0] == '\'' then 4 else 1;
      QuoteUnquoted(text[skip..]);
      assert value[1..] == Unquote(text[skip..]).value;
      assert text[..skip] == QuoteChar(value[0]);
      assert text == text[..skip] + text[skip..];
    } else {
      assert text[1..] == "";
    }
  }

  /** Quoting is uniquely decodable: a closed text reads back as `value` exactly when it is
      the closed quotation of `value`. */
  lemma QuoteRoundTrip(text: string, value: string)
    ensures Unquote(text) == Some(value) <==> text == QuoteUci(value) + "'"
  {
    UnquoteQuoted(value);
    if Unquote(text) == Some(value) { QuoteUnquoted(text); }
  }

  lemma QuoteInjective(a: string, b: string)
    ensures QuoteUci(a) == QuoteUci(b) ==> a == b
  {
    QuoteRoundTrip(QuoteUci(a) + "'", a);
    QuoteRoundTrip(QuoteUci(a) + "'", b);
  }

  /* ---- command lines ---- */

  function Dotted(a: string, b: string): string { a + ['.'] + b }

  function Assignment(left: string, right: string): string { left + ['='] + right }

  function Quoted(value: string): string { ['\''] + (QuoteUci(value) + "'") }

  function SetLine(config: string, section: string, option: string, value: string): string {
    "set " + Assignment(Dotted(config, Dotted(section, option)), Quoted(value))
  }

  function CommandText(c: Command): string {
    match c
    case Delete(package, section) => "delete " + Dotted(package, section)
    case AddSection(package, section, kind) => "set " + Assignment(Dotted(package, section), kind)
    case SetOption(package, section, option, value) => SetLine(package, section, option, value)
    case Commit(package) => "commit " + package
  }

  function Texts(commands: seq<Command>): (texts: seq<string>)
    ensures |texts| == |commands|
    ensures forall i :: 0 <= i < |commands| ==> texts[i] == CommandText(commands[i])
  {
    seq(|commands|, i requires 0 <= i < |commands| => CommandText(commands[i]))
  }

  lemma TextsAppend(a: seq<Command>, b: seq<Command>)
    ensures Texts(a + b) == Texts(a) + Texts(b)
  {
  }

  ghost predicate PlainName(s: string) { Free(s, '.') && Free(s, '=') }

  /** What the encoding asks of a command's names; values are unrestricted. */
  ghost predicate PlainNames(c: Command) {
    match c
    case Delete(package, section) => PlainName(package)
    case AddSection(package, section, kind) => PlainName(package) && PlainName(section)
    case SetOption(package, section, option, value) => PlainName(package) && PlainName(section) && PlainName(option)
    case Commit(package) => true
  }

  lemma IndexOfFirst(a: string, c: char, b: string)
    requires Free(a, c)
    ensures IndexOf(a + [c] + b, c, 0) == |a|
    ensures IndexOf(a, c, 0) == |a|
  {
    var text := a + [c] + b;
    assert text[|a|] == c && forall j :: 0 <= j < |a| ==> text[j] == a[j];
  }

  /** The text around the first `c`, when there is one. */
  function Cut(s: string, c: char): Option<(string, string)> {
    var i := IndexOf(s, c, 0);
    if i == |s| then None else Some((s[..i], s[i + 1..]))
  }

  lemma CutAt(a: string, c: char, b: string)
    requires Free(a, c)
    ensures Cut(a + [c] + b, c) == Some((a, b))
    ensures Cut(a, c) == None
  {
    IndexOfFirst(a, c, b);
    var s := a + [c] + b;
    assert s[..|a|] == a && s[|a| + 1..] == b;
  }

  function ParseValue(package: string, section: string, option: string, right: string): Option<Command> {
    if right == "" || right[0] != '\'' then None else
    var value := Unquote(right[1..]);
    if value.None? then None else Some(SetOption(package, section, option, value.value))
  }

  function ParseSet(rest: string): Option<Command> {
    var sides := Cut(rest, '=');
    if sides.None? then None else
    var names := Cut(sides.value.0, '.');
    if names.None? then None else
    var path := Cut(names.value.1, '.');
    if path.None? then Some(AddSection(names.value.0, names.value.1, sides.value.1))
    else ParseValue(names.value.0, path.value.0, path.value.1, sides.value.1)
  }

  /** The text behind a leading word, when the text starts with it. */
  function After(word: string, text: string): Option<string> {
    if word <= text then Some(text[|word|..]) else None
  }

  lemma AfterWord(word: string, rest: string)
    ensures After(word, word + rest) == Some(rest)
  {
    assert (word + rest)[|word|..] == rest;
  }

  function ParseDelete(rest: string): Option<Command> {
    var names := Cut(rest, '.');
    if names.None? then None else Some(Delete(names.value.0, names.value.1))
  }

  function ParseCommand(text: string): Option<Command> {
    if text == "" then None
    else if text[0] == 'd' then
      var rest := After("delete ", text);
      if rest.None? then None else ParseDelete(rest.value)
    else if text[0] == 'c' then
      var rest := After("commit ", text);
      if rest.None? then None else Some(Commit(rest.value))
    else
      var rest := After("set ", text);
      if rest.None? then None else ParseSet(rest.value)
  }

  lemma ParseSetRight(package: string, section: string, option: string, right: string)
    requires PlainName(package) && PlainName(section) && PlainName(option)
    ensures ParseSet(Assignment(Dotted(package, Dotted(section, option)), right)) == ParseValue(package, section, option, right)
  {
    var path := Dotted(section, option);
    var left := Dotted(package, path);
    CutAt(package, '.', path);
    CutAt(section, '.', option);
    assert Free(path, '=') && Free(left, '=');
    CutAt(left, '=', right);
    hide Cut, ParseValue;
  }

  lemma ParseSetOption(package: string, section: string, option: string, value: string)
    requires PlainName(package) && PlainName(section) && PlainName(option)
    ensures ParseSet(Assignment(Dotted(package, Dotted(section, option)), Quoted(value)))
         == Some(SetOption(package, section, option, value))
  {
    ParseSetRight(package, section, option, Quoted(value));
    hide ParseSet, Assignment, Dotted;
    assert Quoted(value)[1..] == QuoteUci(value) + "'";
    QuoteRoundTrip(QuoteUci(value) + "'", value);
  }

  lemma ParseSetSection(package: string, section: string, kind: string)
    requires PlainName(package) && PlainName(section)
    ensures ParseSet(Assignment(Dotted(package, section), kind)) == Some(AddSection(package, section, kind))
  {
    var left := Dotted(package, section);
    CutAt(package, '.', section);
    CutAt(section, '.', "");
    assert Free(left, '=');
    CutAt(left, '=', kind);
  }

  /** Every command line with plain names reads back as the command it came from. */
  lemma CommandRoundTrip(c: Command)
    requires PlainNames(c)
    ensures ParseCommand(CommandText(c)) == Some(c)
  {
    match c {
      case Delete(package, section) =>
        AfterWord("delete ", Dotted(package, section));
        CutAt(package, '.', section);
      case AddSection(package, section, kind) =>
        AfterWord("set ", Assignment(Dotted(package, section), kind));
        ParseSetSection(package, section, kind);
      case SetOption(package, section, option, value) =>
        AfterWord("set ", Assignment(Dotted(package, Dotted(section, option)), Quoted(value)));
        ParseSetOption(package, section, option, value);
      case Commit(package) =>
        AfterWord("commit ", package);
    }
  }

  /** Distinct commands have distinct lines. */
  lemma CommandTextInjective(a: Command, b: Command)
    requires PlainNames(a) && PlainNames(b)
    ensures CommandText(a) == CommandText(b) ==> a == b
  {
    CommandRoundTrip(a);
    CommandRoundTrip(b);
  }

  /* ---- render_uci_batch ---- */

  function RenderBatch(lines: seq<string>): string {
    if lines == [] then "" else lines[0] + "\n" + RenderBatch(lines[1..])
  }

  method RenderUciBatch(commands: seq<string>) returns (out: string)
    ensures out == RenderBatch(commands)
  {
    out := "";
    for i := 0 to |commands|
      invariant out + RenderBatch(commands[i..]) == RenderBatch(commands)
    {
      assert commands[i..][1..] == commands[i + 1..];
      out := out + commands[i];
      out := out + ['\n'];
    }
    assert commands[|commands|..] == [] && out + "" == out;
  }

  /** The pieces between newlines, the last one possibly empty. */
  function SplitLines(text: string): (lines: seq<string>)
    decreases |text|
  {
    var i := IndexOf(text, '\n', 0);
    if i == |text| then [text] else [text[..i]] + SplitLines(text[i + 1..])
  }

  function Newlines(text: string): nat {
    if text == "" then 0 else (if text[0] == '\n' then 1 else 0) + Newlines(text[1..])
  }

  lemma {:induction false} NewlinesAppend(a: string, b: string)
    ensures Newlines(a + b) == Newlines(a) + Newlines(b)
  {
    if a == "" {
      assert a + b == b;
    } else {
      assert (a + b)[1..] == a[1..] + b;
      NewlinesAppend(a[1..], b);
    }
  }

  lemma {:induction false} NewlinesFree(a: string)
    ensures Newlines(a) == 0 <==> Free(a, '\n')
  {
    if a != "" {
      NewlinesFree(a[1..]);
      assert Free(a, '\n') <==> a[0] != '\n' && Free(a[1..], '\n');
    }
  }

  lemma {:induction false} SplitCount(text: string)
    ensures |SplitLines(text)| == Newlines(text) + 1
    decreases |text|
  {
    var i := IndexOf(text, '\n', 0);
    NewlinesFree(text[..i]);
    if i < |text| {
      SplitCount(text[i + 1..]);
      assert text == text[..i] + (["\n"[0]] + text[i + 1..]);
      NewlinesAppend(text[..i], ["\n"[0]] + text[i + 1..]);
      assert (["\n"[0]] + text[i + 1..])[1..] == text[i + 1..];
    } else {
      assert text[..i] == text;
    }
  }

  lemma {:induction false} RenderNewlines(lines: seq<string>)
    ensures Newlines(RenderBatch(lines)) >= |lines|
    ensures Newlines(RenderBatch(lines)) == |lines| ==> forall i :: 0 <= i < |lines| ==> Free(lines[i], '\n')
  {
    if lines != [] {
      var rest := RenderBatch(lines[1..]);
      RenderNewlines(lines[1..]);
      NewlinesAppend(lines[0] + "\n", rest);
      NewlinesAppend(lines[0], "\n");
      assert Newlines("\n") == 1 by { assert "\n"[1..] == ""; }
      NewlinesFree(lines[0]);
      assert forall i :: 1 <= i < |lines| ==> lines[i] == lines[1..][i - 1];
    }
  }

  lemma {:induction false} SplitRendered(lines: seq<string>)
    requires forall i :: 0 <= i < |lines| ==> Free(lines[i], '\n')
    ensures SplitLines(RenderBatch(lines)) == lines + [""]
  {
    if lines != [] {
      var rest := RenderBatch(lines[1..]);
      var text := RenderBatch(lines);
      assert text == lines[0] + ['\n'] + rest;
      IndexOfFirst(lines[0], '\n', rest);
      assert text[..|lines[0]|] == lines[0] && text[|lines[0]| + 1..] == rest;
      SplitRendered(lines[1..]);
    }
  }

  /** Splitting a rendered batch gives the commands back exactly when none contains a newline. */
  lemma BatchRoundTrip(lines: seq<string>)
    ensures SplitLines(RenderBatch(lines)) == lines + [""] <==>
            forall i :: 0 <= i < |lines| ==> Free(lines[i], '\n')
  {
    if SplitLines(RenderBatch(lines)) == lines + [""] {
      SplitCount(RenderBatch(lines));
      RenderNewlines(lines);
    }
    if forall i :: 0 <= i < |lines| ==> Free(lines[i], '\n') {
      SplitRendered(lines);
    }
  }

  /* ---- command_count ---- */

  predicate Blank(line: string) {
    forall i :: 0 <= i < |line| ==> line[i] == ' ' || line[i] == '\t' || line[i] == '\r'
  }

  function NonBlank(lines: seq<string>): nat {
    if lines == [] then 0 else (if Blank(lines[0]) then 0 else 1) + NonBlank(lines[1..])
  }

  method HasText(line: string) returns (nonWs: bool)
    ensures nonWs <==> !Blank(line)
  {
    for k := 0 to |line|
      invariant Blank(line[..k])
    {
      if line[k] != ' ' && line[k] != '\t' && line[k] != '\r' {
        return true;
      }
    }
    assert line[..|line|] == line;
    return false;
  }

  method CommandCount(batch: string) returns (count: nat)
    ensures count == NonBlank(SplitLines(batch))
  {
    hide SplitLines, NonBlank, Blank;
    count := 0;
    var offset := 0;
    assert batch[0..] == batch;
    while true
      invariant 0 <= offset <= |batch|
      invariant count + NonBlank(SplitLines(batch[offset..])) == NonBlank(SplitLines(batch))
      decreases |batch| - offset
    {
      var tail := batch[offset..];
      var length := IndexOf(tail, '\n', 0);
      var end := offset + length;
      CountStep(tail);
      var nonWs := HasText(tail[..length]);
      if nonWs {
        count := count + 1;
      }
      if end == |batch| {
        break;
      }
      assert tail[length + 1..] == batch[end + 1..];
      offset := end + 1;
    }
  }

  lemma CountStep(tail: string)
    ensures var i := IndexOf(tail, '\n', 0);
            NonBlank(SplitLines(tail)) == (if Blank(tail[..i]) then 0 else 1)
              + (if i == |tail| then 0 else NonBlank(SplitLines(tail[i + 1..])))
  {
    var i := IndexOf(tail, '\n', 0);
    if i == |tail| {
      assert tail[..i] == tail && [tail][1..] == [];
    } else {
      assert ([tail[..i]] + SplitLines(tail[i + 1..]))[1..] == SplitLines(tail[i + 1..]);
    }
  }

  lemma {:induction false} NonBlankAll(lines: seq<string>)
    requires forall i :: 0 <= i < |lines| ==> !Blank(lines[i])
    ensures NonBlank(lines + [""]) == |lines|
  {
    if lines == [] {
      assert lines + [""] == [""] && [""][1..] == [];
    } else {
      assert (lines + [""])[1..] == lines[1..] + [""];
      NonBlankAll(lines[1..]);
    }
  }

  /** The executor counts one command per line of a rendered list of newline-free, non-blank commands. */
  lemma CountRendered(lines: seq<string>)
    requires forall i :: 0 <= i < |lines| ==> Free(lines[i], '\n') && !Blank(lines[i])
    ensures NonBlank(SplitLines(RenderBatch(lines))) == |lines|
  {
    BatchRoundTrip(lines);
    NonBlankAll(lines);
  }
}
