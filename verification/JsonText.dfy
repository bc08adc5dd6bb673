/** JSON text: the string escaper, the flat object the managed state is written as, and a reader
    for both that follows RFC 8259 (sections 2, 4, 6 and 7). */
module JsonText {
  import opened Wrappers
  import opened Text

  const HEX: string := "0123456789ABCDEF"

  /* ---- json_escape ---- */

  function EscapeChar(c: char): string {
    if c == '"' then ['\\', '"']
    else if c == '\\' then ['\\', '\\']
    else if c as int == 8 then ['\\', 'b']
    else if c as int == 12 then ['\\', 'f']
    else if c == '\n' then ['\\', 'n']
    else if c == '\r' then ['\\', 'r']
    else if c == '\t' then ['\\', 't']
    else if c as int < 0x20 then ['\\', 'u', '0', '0', HEX[c as int / 16], HEX[c as int % 16]]
    else [c]
  }

  function Escape(s: string): string {
    if s == "" then "" else EscapeChar(s[0]) + Escape(s[1..])
  }

  method JsonEscape(value: string) returns (out: string)
    ensures out == Escape(value)
  {
    hide EscapeChar;
    out := "";
    for i := 0 to |value|
      invariant out + Escape(value[i..]) == Escape(value)
    {
      assert value[i..][1..] == value[i + 1..];
      Regroup(out, EscapeChar(value[i]), Escape(value[i + 1..]));
      out := out + EscapeChar(value[i]);
    }
    assert value[|value|..] == "" && out + "" == out;
  }

  /* ---- reading a string ---- */

  function HexDigitValue(c: char): Option<nat> {
    if '0' <= c <= '9' then Some(c as int - '0' as int)
    else if 'A' <= c <= 'F' then Some(c as int - 'A' as int + 10)
    else if 'a' <= c <= 'f' then Some(c as int - 'a' as int + 10)
    else None
  }

  /** The character of a `\u` escape; halves of a surrogate pair are not read. */
  function UnicodeEscape(a: char, b: char, c: char, d: char): Option<char> {
    var (a, b, c, d) := (HexDigitValue(a), HexDigitValue(b), HexDigitValue(c), HexDigitValue(d));
    if a.None? || b.None? || c.None? || d.None? then None
    else
      var code := a.value * 4096 + b.value * 256 + c.value * 16 + d.value;
      if code < 0xD800 then Some(code as char) else if 0xE000 <= code < 0x1_0000 then Some(code as char) else None
  }

  /** One character and the number of text characters it takes. */
  function ReadChar(text: string): Option<(char, nat)>
    requires text != ""
    ensures ReadChar(text).Some? ==> 1 <= ReadChar(text).value.1 <= |text|
  {
    if text[0] as int < 0x20 then None
    else if text[0] != '\\' then Some((text[0], 1))
    else if |text| < 2 then None
    else if text[1] == '"' then Some(('"', 2))
    else if text[1] == '\\' then Some(('\\', 2))
    else if text[1] == '/' then Some(('/', 2))
    else if text[1] == 'b' then Some((8 as char, 2))
    else if text[1] == 'f' then Some((12 as char, 2))
    else if text[1] == 'n' then Some(('\n', 2))
    else if text[1] == 'r' then Some(('\r', 2))
    else if text[1] == 't' then Some(('\t', 2))
    else if text[1] == 'u' && |text| >= 6 then
      var c := UnicodeEscape(text[2], text[3], text[4], text[5]);
      if c.Some? then Some((c.value, 6)) else None
    else None
  }

  /** The string before the closing quote, and the text after it. */
  function ReadString(text: string): (r: Option<(string, string)>)
    ensures r.Some? ==> |r.value.1| < |text|
    decreases |text|
  {
    if text == "" then None
    else if text[0] == '"' then Some(("", text[1..]))
    else
      var c := ReadChar(text);
      if c.None? then None
      else
        var rest := ReadString(text[c.value.1..]);
        if rest.None? then None else Some(([c.value.0] + rest.value.0, rest.value.1))
  }

  lemma ReadEscapedChar(c: char, rest: string)
    ensures var text := EscapeChar(c) + rest;
            text[0] != '"' && ReadChar(text) == Some((c, |EscapeChar(c)|))
  {
    var code, text := EscapeChar(c), EscapeChar(c) + rest;
    assert forall i :: 0 <= i < |code| ==> text[i] == code[i];
    if |code| == 6 {
      var n := c as int;
      assert n == n / 16 * 16 + n % 16;
      HexRoundTrip(n / 16);
      HexRoundTrip(n % 16);
    }
  }

  lemma HexRoundTrip(n: nat)
    requires n < 16
    ensures HexDigitValue(HEX[n]) == Some(n)
  {
  }

  /** An escaped string, closed by a quote, reads back as the string, whatever follows: so it holds
      no unescaped quote. */
  lemma {:induction false} EscapeRoundTrip(s: string, rest: string)
    ensures ReadString(Escape(s) + (['"'] + rest)) == Some((s, rest))
  {
    if s == "" {
      assert Escape(s) + (['"'] + rest) == ['"'] + rest;
      assert (['"'] + rest)[1..] == rest;
    } else {
      hide EscapeChar, ReadChar;
      var code, tail := EscapeChar(s[0]), Escape(s[1..]) + (['"'] + rest);
      Regroup(code, Escape(s[1..]), ['"'] + rest);
      ReadEscapedChar(s[0], tail);
      assert (code + tail)[|code|..] == tail;
      EscapeRoundTrip(s[1..], rest);
      assert s == [s[0]] + s[1..];
    }
  }

  /** An escaped string holds no raw control character. */
  lemma {:induction false} EscapePrintable(s: string)
    ensures forall i :: 0 <= i < |Escape(s)| ==> Escape(s)[i] as int >= 0x20
  {
    if s != "" { EscapePrintable(s[1..]); }
  }

  /* ---- flat objects ---- */

  datatype Value = JNull | JInt(n: int) | JString(s: string)

  type Member = (string, Value)

  function Quoted(s: string): string { ['"'] + (Escape(s) + ['"']) }

  function ValueText(v: Value): string {
    match v
    case JNull => "null"
    case JInt(n) => Decimal(n)
    case JString(s) => Quoted(s)
  }

  /** Members one per line, indented by two blanks, behind the opening brace. */
  function WriteMembers(members: seq<Member>): string
    requires members != []
  {
    var m := members[0];
    [' ', ' '] + (Quoted(m.0) + ([':', ' '] + (ValueText(m.1)
      + (if |members| == 1 then ['\n', '}', '\n'] else [',', '\n'] + WriteMembers(members[1..])))))
  }

  function WriteObject(members: seq<Member>): string
    requires members != []
  {
    ['{', '\n'] + WriteMembers(members)
  }

  predicate IsSpace(c: char) { c == ' ' || c == '\n' || c == '\t' || c == '\r' }

  function SkipSpace(text: string): (rest: string)
    ensures |rest| <= |text|
  {
    if text != "" && IsSpace(text[0]) then SkipSpace(text[1..]) else text
  }

  function ReadDigits(text: string): (r: (string, string))
    ensures |r.1| + |r.0| == |text|
  {
    if text != "" && IsDigit(text[0]) then
      var rest := ReadDigits(text[1..]);
      ([text[0]] + rest.0, rest.1)
    else ("", text)
  }

  lemma {:induction false} DigitsNatural(s: string)
    requires forall i :: 0 <= i < |s| ==> IsDigit(s[i])
    ensures DigitsValue(s) >= 0
  {
    if s != "" { DigitsNatural(s[..|s| - 1]); }
  }

  function Natural(s: string): nat
    requires forall i :: 0 <= i < |s| ==> IsDigit(s[i])
  {
    DigitsNatural(s);
    DigitsValue(s)
  }

  lemma {:induction false} ReadDigitsAreDigits(text: string)
    ensures forall i :: 0 <= i < |ReadDigits(text).0| ==> IsDigit(ReadDigits(text).0[i])
  {
    if text != "" && IsDigit(text[0]) { ReadDigitsAreDigits(text[1..]); }
  }

  function ReadValue(text: string): (r: Option<(Value, string)>)
    ensures r.Some? ==> |r.value.1| < |text|
  {
    if text == "" then None
    else if text[0] == '"' then
      var s := ReadString(text[1..]);
      if s.None? then None else Some((JString(s.value.0), s.value.1))
    else if IsDigit(text[0]) then
      var digits := ReadDigits(text);
      ReadDigitsAreDigits(text);
      Some((JInt(Natural(digits.0)), digits.1))
    else if text[0] == '-' && |text| > 1 && IsDigit(text[1]) then
      var digits := ReadDigits(text[1..]);
      ReadDigitsAreDigits(text[1..]);
      Some((JInt(0 - Natural(digits.0)), digits.1))
    else if "null" <= text then Some((JNull, text[4..]))
    else None
  }

  /** One member, and the text after it. */
  function ReadMember(text: string): (r: Option<(Member, string)>)
    ensures r.Some? ==> |r.value.1| < |text|
  {
    var t := SkipSpace(text);
    if t == "" || t[0] != '"' then None else
    var key := ReadString(t[1..]);
    if key.None? then None else
    var colon := SkipSpace(key.value.1);
    if colon == "" || colon[0] != ':' then None else
    var value := ReadValue(SkipSpace(colon[1..]));
    if value.None? then None else Some(((key.value.0, value.value.0), value.value.1))
  }

  /** The members up to the closing brace, after which only white space may follow. */
  function ReadMembers(text: string): Option<seq<Member>>
    decreases |text|
  {
    var m := ReadMember(text);
    if m.None? then None else
    var next := SkipSpace(m.value.1);
    if next == "" then None
    else if next[0] == '}' then if SkipSpace(next[1..]) == "" then Some([m.value.0]) else None
    else if next[0] == ',' then
      var more := ReadMembers(next[1..]);
      if more.None? then None else Some([m.value.0] + more.value)
    else None
  }

  function ReadObject(text: string): Option<seq<Member>> {
    var t := SkipSpace(text);
    if t == "" || t[0] != '{' then None else ReadMembers(t[1..])
  }

  lemma {:induction false} ReadPrintedDigits(digits: string, rest: string)
    requires (forall i :: 0 <= i < |digits| ==> IsDigit(digits[i])) && (rest == "" || !IsDigit(rest[0]))
    ensures ReadDigits(digits + rest) == (digits, rest)
  {
    if digits == "" {
      assert digits + rest == rest;
    } else {
      assert (digits + rest)[1..] == digits[1..] + rest && digits == [digits[0]] + digits[1..];
      ReadPrintedDigits(digits[1..], rest);
    }
  }

  lemma ReadQuoted(s: string, rest: string)
    ensures (Quoted(s) + rest)[0] == '"' && ReadString((Quoted(s) + rest)[1..]) == Some((s, rest))
  {
    assert (Quoted(s) + rest)[1..] == Escape(s) + (['"'] + rest);
    EscapeRoundTrip(s, rest);
  }

  lemma ReadPrintedNat(n: nat, rest: string)
    requires rest != "" && !IsDigit(rest[0])
    ensures ReadDigits(DecimalNat(n) + rest) == (DecimalNat(n), rest) && Natural(DecimalNat(n)) == n
    ensures IsDigit((DecimalNat(n) + rest)[0])
  {
    DecimalNatValue(n);
    ReadPrintedDigits(DecimalNat(n), rest);
    assert (DecimalNat(n) + rest)[0] == DecimalNat(n)[0];
  }

  lemma ReadPrintedInt(n: int, rest: string)
    requires rest != "" && !IsDigit(rest[0])
    ensures var text := Decimal(n) + rest; !IsSpace(text[0]) && ReadValue(text) == Some((JInt(n), rest))
  {
    hide DecimalNat, ReadDigits, Natural, ReadString;
    var magnitude := if n < 0 then -n else n;
    ReadPrintedNat(magnitude, rest);
    var digits := DecimalNat(magnitude) + rest;
    if n < 0 {
      assert Decimal(n) + rest == ['-'] + digits && (['-'] + digits)[1..] == digits;
    } else {
      assert Decimal(n) + rest == digits;
    }
  }

  lemma ReadPrintedValue(v: Value, rest: string)
    requires rest != "" && !IsDigit(rest[0])
    ensures var text := ValueText(v) + rest; !IsSpace(text[0]) && ReadValue(text) == Some((v, rest))
  {
    match v {
      case JNull =>
        assert ("null" + rest)[4..] == rest;
        assert ("null" + rest)[0] == 'n';
      case JInt(n) => ReadPrintedInt(n, rest);
      case JString(s) => ReadQuoted(s, rest);
    }
  }

  lemma SkipsNothing(text: string)
    requires text != "" && !IsSpace(text[0])
    ensures SkipSpace(text) == text
  {
  }

  lemma SkipsBlank(c: char, text: string)
    requires IsSpace(c)
    ensures SkipSpace([c] + text) == SkipSpace(text)
  {
    assert ([c] + text)[1..] == text;
  }

  lemma SkipsOne(c: char, text: string)
    requires IsSpace(c) && (text == "" || !IsSpace(text[0]))
    ensures SkipSpace([c] + text) == text
  {
    assert ([c] + text)[1..] == text;
  }

  lemma SkipsTwo(c: char, d: char, text: string)
    requires IsSpace(c) && IsSpace(d) && (text == "" || !IsSpace(text[0]))
    ensures SkipSpace([c, d] + text) == text
  {
    assert ([c, d] + text)[1..] == [d] + text;
    SkipsOne(d, text);
  }

  // what follows a value
  function Ending(members: seq<Member>): string
    requires members != []
  {
    if |members| == 1 then ['\n', '}', '\n'] else [',', '\n'] + WriteMembers(members[1..])
  }

  lemma ReadFirst(key: string, value: Value, ending: string, text: string)
    requires ending != "" && !IsDigit(ending[0])
    requires text == Quoted(key) + ([':', ' '] + (ValueText(value) + ending))
    ensures text[0] == '"'
    ensures var k := ReadString(text[1..]);
            && k.Some? && k.value.0 == key
            && var colon := SkipSpace(k.value.1);
               colon != "" && colon[0] == ':' && ReadValue(SkipSpace(colon[1..])) == Some((value, ending))
  {
    hide ValueText, Escape, ReadValue, ReadString, Quoted, SkipSpace;
    var tail := ValueText(value) + ending;
    ReadPrintedValue(value, ending);
    ReadQuoted(key, [':', ' '] + tail);
    SkipsNothing([':', ' '] + tail);
    assert ([':', ' '] + tail)[1..] == [' '] + tail;
    SkipsOne(' ', tail);
  }

  lemma ReadMemberOf(text: string, line: string, key: string, value: Value, ending: string)
    requires ending != "" && !IsDigit(ending[0])
    requires line == Quoted(key) + ([':', ' '] + (ValueText(value) + ending)) && SkipSpace(text) == line
    ensures ReadMember(text) == Some(((key, value), ending))
  {
    hide ValueText, Escape, ReadValue, ReadString, Quoted, SkipSpace;
    ReadFirst(key, value, ending, line);
  }

  lemma ReadWrittenMember(members: seq<Member>)
    requires members != []
    ensures ReadMember(WriteMembers(members)) == Some((members[0], Ending(members)))
    ensures ReadMember(['\n'] + WriteMembers(members)) == Some((members[0], Ending(members)))
  {
    hide Quoted, ValueText, ReadMember, SkipSpace;
    var m, ending := members[0], Ending(members);
    var line := Quoted(m.0) + ([':', ' '] + (ValueText(m.1) + ending));
    ReadFirst(m.0, m.1, ending, line);
    var text := [' ', ' '] + line;
    assert WriteMembers(members) == text;
    SkipsTwo(' ', ' ', line);
    SkipsBlank('\n', text);
    ReadMemberOf(text, line, m.0, m.1, ending);
    ReadMemberOf(['\n'] + text, line, m.0, m.1, ending);
  }

  lemma SkipLastEnding()
    ensures SkipSpace(['\n', '}', '\n']) == ['}', '\n'] && ['}', '\n'][1..] == ['\n'] && SkipSpace(['\n']) == ""
  {
    SkipsOne('\n', ['}', '\n']);
    SkipsOne('\n', "");
    assert ['\n'] + ['}', '\n'] == ['\n', '}', '\n'] && ['\n'] + "" == ['\n'];
  }

  lemma ReadLast(text: string, m: Member)
    requires ReadMember(text) == Some((m, ['\n', '}', '\n']))
    ensures ReadMembers(text) == Some([m])
  {
    SkipLastEnding();
    hide ReadMember, SkipSpace;
  }

  lemma ReadMore(text: string, m: Member, tail: string, more: seq<Member>)
    requires ReadMember(text) == Some((m, [','] + tail)) && ReadMembers(tail) == Some(more)
    ensures ReadMembers(text) == Some([m] + more)
  {
    SkipsNothing([','] + tail);
    assert ([','] + tail)[1..] == tail;
    hide ReadMember, SkipSpace;
  }

  lemma {:induction false} MembersRoundTrip(members: seq<Member>)
    requires members != []
    ensures ReadMembers(WriteMembers(members)) == Some(members)
    ensures ReadMembers(['\n'] + WriteMembers(members)) == Some(members)
    decreases |members|
  {
    hide ReadMember, ReadMembers, WriteMembers;
    ReadWrittenMember(members);
    var text := WriteMembers(members);
    if |members| == 1 {
      assert members == [members[0]];
      ReadLast(text, members[0]);
      ReadLast(['\n'] + text, members[0]);
    } else {
      var rest := members[1..];
      assert Ending(members) == [','] + (['\n'] + WriteMembers(rest));
      MembersRoundTrip(rest);
      ReadMore(text, members[0], ['\n'] + WriteMembers(rest), rest);
      ReadMore(['\n'] + text, members[0], ['\n'] + WriteMembers(rest), rest);
      assert members == [members[0]] + rest;
    }
  }

  /** A written object reads back as its members. */
  lemma ObjectRoundTrip(members: seq<Member>)
    requires members != []
    ensures ReadObject(WriteObject(members)) == Some(members)
  {
    MembersRoundTrip(members);
    hide WriteMembers, ReadMembers;
    var text := WriteObject(members);
    SkipsNothing(text);
    assert text[1..] == ['\n'] + WriteMembers(members);
  }
}
