/** MAC addresses: lenient parsing, and the two texts an address is printed as. */
module Mac {
  import opened Wrappers
  import opened FixedWidth

  type MacAddress = b: seq<uint8> | |b| == 6 witness [0, 0, 0, 0, 0, 0]

  function HexValue(c: char): (v: int)
    ensures -1 <= v < 16
  {
    if '0' <= c <= '9' then c as int - '0' as int
    else if 'a' <= c <= 'f' then c as int - 'a' as int + 10
    else if 'A' <= c <= 'F' then c as int - 'A' as int + 10
    else -1
  }

  const LOWER_HEX: string := "0123456789abcdef"
  const UPPER_HEX: string := "0123456789ABCDEF"

  function HexDigit(nibble: Nibble, upper: bool): (c: char)
    ensures HexValue(c) == nibble
  {
    if upper then UPPER_HEX[nibble] else LOWER_HEX[nibble]
  }

  /** The values of the hex digits of a text, all other characters skipped. */
  function Nibbles(text: string): seq<Nibble> {
    if text == "" then []
    else if HexValue(text[0]) < 0 then Nibbles(text[1..])
    else [HexValue(text[0])] + Nibbles(text[1..])
  }

  type Nibble = n: nat | n < 16

  function Byte(high: Nibble, low: Nibble): uint8 { high * 16 + low }

  function Pack(nibbles: seq<Nibble>): (b: seq<uint8>)
    ensures |b| == |nibbles| / 2
  {
    if |nibbles| < 2 then [] else [Byte(nibbles[0], nibbles[1])] + Pack(nibbles[2..])
  }

  /** A text is an address when it holds exactly twelve hex digits. */
  function ParseMac(text: string): Option<MacAddress> {
    if |Nibbles(text)| == 12 then Some(Pack(Nibbles(text))) else None
  }

  lemma {:induction false} PackAt(nibbles: seq<Nibble>, i: nat)
    requires 2 * i + 1 < |nibbles|
    ensures Pack(nibbles)[i] == Byte(nibbles[2 * i], nibbles[2 * i + 1])
  {
    if i > 0 { PackAt(nibbles[2..], i - 1); }
  }

  method Parse(text: string) returns (mac: Option<MacAddress>)
    ensures mac == ParseMac(text)
  {
    hide HexValue, Pack, Byte;
    var nibbles: seq<Nibble> := [];
    for i := 0 to |text|
      invariant |nibbles| <= 12
      invariant nibbles + Nibbles(text[i..]) == Nibbles(text)
    {
      assert text[i..][1..] == text[i + 1..];
      var value := HexValue(text[i]);
      if value >= 0 {
        if |nibbles| >= 12 {
          return None;
        }
        nibbles := nibbles + [value];
      }
    }
    assert text[|text|..] == "" && nibbles == Nibbles(text);
    if |nibbles| != 12 {
      return None;
    }
    var bytes: seq<uint8> := [];
    for i := 0 to 6
      invariant |bytes| == i && bytes == Pack(nibbles)[..i]
    {
      PackAt(nibbles, i);
      bytes := bytes + [Byte(nibbles[2 * i], nibbles[2 * i + 1])];
    }
    assert Pack(nibbles)[..6] == Pack(nibbles);
    return Some(bytes);
  }

  function Digits(byte: uint8, upper: bool): string {
    [HexDigit(byte / 16, upper), HexDigit(byte % 16, upper)]
  }

  /** Two digits per byte, joined by a separator. */
  function Format(bytes: seq<uint8>, separator: char, upper: bool): string {
    if bytes == [] then "" else Digits(bytes[0], upper) + Tail(bytes[1..], separator, upper)
  }

  function Tail(bytes: seq<uint8>, separator: char, upper: bool): string {
    if bytes == [] then "" else [separator] + (Digits(bytes[0], upper) + Tail(bytes[1..], separator, upper))
  }

  function Normalized(mac: MacAddress): string { Format(mac, ':', false) }

  function Omada(mac: MacAddress): string { Format(mac, '-', true) }

  method Print(mac: MacAddress, separator: char, upper: bool) returns (out: string)
    ensures out == Format(mac, separator, upper)
  {
    hide Digits;
    ghost var whole := Format(mac, separator, upper);
    out := "";
    for i := 0 to 6
      invariant i == 0 ==> out == ""
      invariant i > 0 ==> out + Tail(mac[i..], separator, upper) == whole
    {
      assert mac[i..][1..] == mac[i + 1..];
      var digits := Digits(mac[i], upper);
      ghost var rest := Tail(mac[i + 1..], separator, upper);
      if i != 0 {
        assert out + ([separator] + (digits + rest)) == whole;
        out := out + [separator];
        assert out + (digits + rest) == whole;
      }
      assert (out + digits) + rest == out + (digits + rest);
      out := out + digits;
    }
    assert mac[6..] == [];
  }

  lemma NibblesHead(c: char, rest: string)
    ensures Nibbles([c] + rest) == if HexValue(c) < 0 then Nibbles(rest) else [HexValue(c)] + Nibbles(rest)
  {
    assert ([c] + rest)[1..] == rest;
  }

  lemma PackHead(high: Nibble, low: Nibble, rest: seq<Nibble>)
    ensures Pack([high, low] + rest) == [Byte(high, low)] + Pack(rest)
  {
    assert ([high, low] + rest)[2..] == rest;
  }

  lemma DigitsRoundTrip(byte: uint8, upper: bool, rest: string)
    ensures Nibbles(Digits(byte, upper) + rest) == [byte / 16, byte % 16] + Nibbles(rest)
    ensures Byte(byte / 16, byte % 16) == byte
  {
    NibblesHead(HexDigit(byte % 16, upper), rest);
    NibblesHead(HexDigit(byte / 16, upper), [HexDigit(byte % 16, upper)] + rest);
    hide HexDigit, HexValue;
    assert Digits(byte, upper) + rest == [HexDigit(byte / 16, upper)] + ([HexDigit(byte % 16, upper)] + rest);
  }

  lemma {:induction false} TailRoundTrip(bytes: seq<uint8>, separator: char, upper: bool)
    requires HexValue(separator) < 0
    ensures |Nibbles(Tail(bytes, separator, upper))| == 2 * |bytes|
    ensures Pack(Nibbles(Tail(bytes, separator, upper))) == bytes
  {
    if bytes != [] {
      hide Digits, HexValue, Byte;
      var rest := Tail(bytes[1..], separator, upper);
      TailRoundTrip(bytes[1..], separator, upper);
      DigitsRoundTrip(bytes[0], upper, rest);
      NibblesHead(separator, Digits(bytes[0], upper) + rest);
      PackHead(bytes[0] / 16, bytes[0] % 16, Nibbles(rest));
    }
  }

  lemma FormatRoundTrip(bytes: seq<uint8>, separator: char, upper: bool)
    requires HexValue(separator) < 0 && bytes != []
    ensures |Nibbles(Format(bytes, separator, upper))| == 2 * |bytes|
    ensures Pack(Nibbles(Format(bytes, separator, upper))) == bytes
  {
    TailRoundTrip(bytes, separator, upper);
    NibblesHead(separator, Format(bytes, separator, upper));
  }

  /** Both printed forms parse back to the address. */
  lemma MacRoundTrip(mac: MacAddress)
    ensures ParseMac(Normalized(mac)) == Some(mac)
    ensures ParseMac(Omada(mac)) == Some(mac)
  {
    FormatRoundTrip(mac, ':', false);
    FormatRoundTrip(mac, '-', true);
  }

  lemma NormalizedInjective(a: MacAddress, b: MacAddress)
    ensures Normalized(a) == Normalized(b) <==> a == b
  {
    MacRoundTrip(a);
    MacRoundTrip(b);
  }

  /* ---- order ---- */

  // std::string and byte-array comparison
  predicate LexLess(s: string, t: string) {
    t != "" && (s == "" || s[0] < t[0] || (s[0] == t[0] && LexLess(s[1..], t[1..])))
  }

  predicate BytesLess(a: seq<uint8>, b: seq<uint8>) {
    b != [] && (a == [] || a[0] < b[0] || (a[0] == b[0] && BytesLess(a[1..], b[1..])))
  }

  lemma LexHead(a: char, b: char, s: string, t: string)
    ensures LexLess([a] + s, [b] + t) <==> a < b || (a == b && LexLess(s, t))
  {
    assert ([a] + s)[1..] == s && ([b] + t)[1..] == t;
  }

  lemma LowerHexOrder(m: Nibble, n: Nibble)
    ensures HexDigit(m, false) < HexDigit(n, false) <==> m < n
    ensures HexDigit(m, false) == HexDigit(n, false) <==> m == n
  {
  }

  lemma DigitsOrder(a: uint8, b: uint8, s: string, t: string)
    ensures LexLess(Digits(a, false) + s, Digits(b, false) + t) <==> a < b || (a == b && LexLess(s, t))
  {
    var ha: Nibble, la: Nibble, hb: Nibble, lb: Nibble := a / 16, a % 16, b / 16, b % 16;
    LowerHexOrder(ha, hb);
    LowerHexOrder(la, lb);
    LexHead(HexDigit(ha, false), HexDigit(hb, false), [HexDigit(la, false)] + s, [HexDigit(lb, false)] + t);
    LexHead(HexDigit(la, false), HexDigit(lb, false), s, t);
    hide HexDigit, LexLess;
    assert Digits(a, false) + s == [HexDigit(ha, false)] + ([HexDigit(la, false)] + s);
    assert Digits(b, false) + t == [HexDigit(hb, false)] + ([HexDigit(lb, false)] + t);
  }

  lemma {:induction false} TailOrder(a: seq<uint8>, b: seq<uint8>, separator: char)
    requires |a| == |b|
    ensures LexLess(Tail(a, separator, false), Tail(b, separator, false)) <==> BytesLess(a, b)
  {
    if a != [] {
      hide Digits;
      var ta, tb := Tail(a[1..], separator, false), Tail(b[1..], separator, false);
      TailOrder(a[1..], b[1..], separator);
      DigitsOrder(a[0], b[0], ta, tb);
      LexHead(separator, separator, Digits(a[0], false) + ta, Digits(b[0], false) + tb);
    }
  }

  /** Ordering by the normalized text is ordering by the address bytes. */
  lemma NormalizedOrder(a: MacAddress, b: MacAddress)
    ensures LexLess(Normalized(a), Normalized(b)) <==> BytesLess(a, b)
  {
    TailOrder(a, b, ':');
    LexHead(':', ':', Normalized(a), Normalized(b));
  }

  lemma {:induction false} LexTotal(s: string, t: string)
    ensures s == t || LexLess(s, t) || LexLess(t, s)
    ensures !(LexLess(s, t) && LexLess(t, s)) && !LexLess(s, s)
  {
    if s != "" && t != "" {
      LexTotal(s[1..], t[1..]);
      LexTotal(s[1..], s[1..]);
      if s[0] == t[0] && s[1..] == t[1..] { assert s == [s[0]] + s[1..] == t; }
    } else if s != "" {
      LexTotal(s[1..], s[1..]);
    }
  }

  lemma {:induction false} LexTransitive(r: string, s: string, t: string)
    requires LexLess(r, s) && LexLess(s, t)
    ensures LexLess(r, t)
  {
    if r != "" && r[0] == s[0] == t[0] { LexTransitive(r[1..], s[1..], t[1..]); }
  }
}
