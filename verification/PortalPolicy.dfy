/** From the controller's portal rules to the openNDS lists, and the shell quoting of portal values. */
module PortalPolicy {
  import opened Wrappers
  import opened FixedWidth
  import opened Config
  import opened Text

  /* ---- trim and append_unique ---- */

  // std::isspace in the "C" locale
  predicate IsBlank(c: char) { c == ' ' || 9 <= c as int <= 13 }

  function TrimLeft(s: string): string { if s != "" && IsBlank(s[0]) then TrimLeft(s[1..]) else s }

  function TrimRight(s: string): string { if s != "" && IsBlank(s[|s| - 1]) then TrimRight(s[..|s| - 1]) else s }

  function Trim(s: string): string { TrimRight(TrimLeft(s)) }

  predicate Trimmed(s: string) { s == "" || (!IsBlank(s[0]) && !IsBlank(s[|s| - 1])) }

  method TrimLoop(s: string) returns (value: string)
    ensures value == Trim(s)
  {
    value := s;
    while value != "" && IsBlank(value[0])
      invariant TrimLeft(value) == TrimLeft(s)
      decreases |value|
    {
      value := value[1..];
    }
    while value != "" && IsBlank(value[|value| - 1])
      invariant TrimRight(value) == Trim(s)
      decreases |value|
    {
      value := value[..|value| - 1];
    }
  }

  lemma {:induction false} TrimRightKeepsHead(s: string)
    requires s == "" || !IsBlank(s[0])
    ensures Trimmed(TrimRight(s)) && (s != "" ==> TrimRight(s) != "" && TrimRight(s)[0] == s[0])
  {
    if s != "" && IsBlank(s[|s| - 1]) { TrimRightKeepsHead(s[..|s| - 1]); }
  }

  lemma {:induction false} TrimLeftHead(s: string)
    ensures TrimLeft(s) == "" || !IsBlank(TrimLeft(s)[0])
  {
    if s != "" && IsBlank(s[0]) { TrimLeftHead(s[1..]); }
  }

  lemma TrimTrims(s: string)
    ensures Trimmed(Trim(s)) && Trim(Trim(s)) == Trim(s)
  {
    TrimLeftHead(s);
    TrimRightKeepsHead(TrimLeft(s));
  }

  function AppendUnique(values: seq<string>, value: string): seq<string> {
    var v := Trim(value);
    if v == "" || v in values then values else values + [v]
  }

  function AppendAll(values: seq<string>, raw: seq<string>): seq<string>
    decreases |raw|
  {
    if raw == [] then values else AppendAll(AppendUnique(values, raw[0]), raw[1..])
  }

  ghost predicate Unique(values: seq<string>) { forall i, j :: 0 <= i < j < |values| ==> values[i] != values[j] }

  lemma AppendOnce(values: seq<string>, value: string)
    requires Unique(values)
    ensures Unique(AppendUnique(values, value)) && values <= AppendUnique(values, value)
    ensures forall v :: v in AppendUnique(values, value) <==> v in values || (v != "" && v == Trim(value))
  {
    hide Trim;
  }

  /** Appending keeps what is there, in place, and adds exactly the trimmed non-empty values, once each. */
  lemma {:induction false} AppendAllCollects(values: seq<string>, raw: seq<string>)
    requires Unique(values)
    ensures Unique(AppendAll(values, raw)) && values <= AppendAll(values, raw)
    ensures forall v :: v in AppendAll(values, raw) <==> v in values || (v != "" && exists r :: r in raw && Trim(r) == v)
    decreases |raw|
  {
    if raw != [] {
      var next := AppendUnique(values, raw[0]);
      AppendOnce(values, raw[0]);
      hide Trim, AppendUnique, Unique;
      AppendAllCollects(next, raw[1..]);
      assert forall r :: r in raw <==> r == raw[0] || r in raw[1..];
    }
  }

  /* ---- IPv4 addresses ---- */

  // up to three digits, at most 255; leading zeros are accepted
  predicate IsOctet(s: string) {
    1 <= |s| <= 3 && (forall i :: 0 <= i < |s| ==> IsDigit(s[i])) && DigitsValue(s) <= 255
  }

  method Ipv4Octet(raw: string) returns (octet: Option<uint8>)
    ensures octet == if IsOctet(raw) then Some(DigitsValue(raw)) else None
  {
    if raw == "" || |raw| > 3 {
      return None;
    }
    var value: uint32 := 0;
    for i := 0 to |raw|
      invariant (forall j :: 0 <= j < i ==> IsDigit(raw[j])) && value == DigitsValue(raw[..i]) && value < Pow10(i)
      invariant Pow10(0) == 1 && Pow10(1) == 10 && Pow10(2) == 100 && Pow10(3) == 1000
    {
      if !IsDigit(raw[i]) {
        return None;
      }
      assert raw[..i + 1][..i] == raw[..i];
      value := value * 10 + (raw[i] as int - '0' as int);
    }
    assert raw[..|raw|] == raw;
    if value > 255 {
      return None;
    }
    return Some(value);
  }

  function Zeros(k: nat): (z: string)
    ensures |z| == k
  {
    seq(k, _ => '0')
  }

  lemma {:induction false} Canonical(s: string)
    requires s != "" && (forall i :: 0 <= i < |s| ==> IsDigit(s[i])) && (s[0] != '0' || |s| == 1)
    ensures Decimal(DigitsValue(s)) == s && (s[0] != '0' ==> DigitsValue(s) > 0)
  {
    var n := |s| - 1;
    var last := s[n] as int - '0' as int;
    assert s == s[..n] + [s[n]];
    if n == 0 {
      assert s[..0] == "" && DIGITS[last] == s[0];
    } else {
      Canonical(s[..n]);
      assert DigitsValue(s) / 10 == DigitsValue(s[..n]) && DigitsValue(s) % 10 == last && DIGITS[last] == s[n];
    }
  }

  lemma {:induction false} LeadingZero(t: string)
    requires forall i :: 0 <= i < |t| ==> IsDigit(t[i])
    ensures DigitsValue(['0'] + t) == DigitsValue(t)
  {
    var s := ['0'] + t;
    if t == "" {
      assert s[..0] == "";
    } else {
      LeadingZero(t[..|t| - 1]);
      assert s[..|s| - 1] == ['0'] + t[..|t| - 1] && s[|s| - 1] == t[|t| - 1];
    }
  }

  lemma {:induction false} ZerosValue(k: nat, n: nat)
    ensures DigitsValue(Zeros(k) + Decimal(n)) == n && forall i :: 0 <= i < k + |Decimal(n)| ==> IsDigit((Zeros(k) + Decimal(n))[i])
  {
    if k == 0 {
      assert Zeros(0) + Decimal(n) == Decimal(n);
      DecimalNatValue(n);
    } else {
      ZerosValue(k - 1, n);
      assert Zeros(k) + Decimal(n) == ['0'] + (Zeros(k - 1) + Decimal(n));
      LeadingZero(Zeros(k - 1) + Decimal(n));
    }
  }

  lemma {:induction false} Numeral(s: string) returns (k: nat)
    requires s != "" && forall i :: 0 <= i < |s| ==> IsDigit(s[i])
    ensures s == Zeros(k) + Decimal(DigitsValue(s)) && DigitsValue(s) >= 0
    decreases |s|
  {
    hide DigitsValue, Decimal, Zeros;
    if s[0] == '0' && |s| > 1 {
      var t := s[1..];
      var later := Numeral(t);
      LeadingZero(t);
      assert s == ['0'] + t;
      k := later + 1;
      ZeroMore(later, Decimal(DigitsValue(t)));
    } else {
      Canonical(s);
      NoZero(s);
      k := 0;
    }
  }

  lemma ZeroMore(k: nat, rest: string)
    ensures ['0'] + (Zeros(k) + rest) == Zeros(k + 1) + rest
  {
  }

  lemma NoZero(s: string)
    ensures Zeros(0) + s == s && (s != "" && s[0] == '0' && |s| == 1 ==> DigitsValue(s) == 0)
  {
    if |s| == 1 { assert s[..0] == ""; }
  }

  /** An octet is a decimal number up to 255 of at most three characters, perhaps after zeros. */
  lemma OctetExactly(s: string)
    ensures IsOctet(s) <==> |s| <= 3 && exists k: nat, n: nat :: n <= 255 && s == Zeros(k) + Decimal(n)
  {
    if IsOctet(s) {
      var k := Numeral(s);
      hide Decimal, DigitsValue, Zeros;
      assert s == Zeros(k) + Decimal(DigitsValue(s));
    }
    if k: nat, n: nat :| n <= 255 && s == Zeros(k) + Decimal(n) && |s| <= 3 {
      ZerosValue(k, n);
      hide Decimal, DigitsValue, Zeros;
      assert |Decimal(n)| > 0;
    }
  }

  /** The text from an offset on is n octets joined by dots. */
  predicate DottedOctets(raw: string, offset: nat, n: nat)
    requires offset <= |raw| && n >= 1
    decreases n
  {
    var dot := IndexOf(raw, '.', offset);
    && IsOctet(raw[offset..dot])
    && if n == 1 then dot == |raw| else dot < |raw| && DottedOctets(raw, dot + 1, n - 1)
  }

  method ValidIpv4Address(raw: string) returns (valid: bool)
    ensures valid == DottedOctets(raw, 0, 4)
  {
    hide IsOctet;
    var offset := 0;
    for index := 0 to 4
      invariant offset <= |raw|
      invariant index < 4 ==> DottedOctets(raw, offset, 4 - index) == DottedOctets(raw, 0, 4)
      invariant index == 4 ==> DottedOctets(raw, 0, 4)
    {
      var end := IndexOf(raw, '.', offset);
      var octet := Ipv4Octet(raw[offset..end]);
      if octet.None? {
        return false;
      }
      if index < 3 {
        if end == |raw| {
          return false;
        }
        offset := end + 1;
      } else if end != |raw| {
        return false;
      }
    }
    return true;
  }

  function Dotted(octets: seq<string>): string
    requires octets != []
  {
    if |octets| == 1 then octets[0] else octets[0] + (['.'] + Dotted(octets[1..]))
  }

  lemma OctetEnds(raw: string, offset: nat, octet: string)
    requires offset + |octet| <= |raw| && raw[offset..offset + |octet|] == octet && IsOctet(octet)
    requires offset + |octet| == |raw| || raw[offset + |octet|] == '.'
    ensures IndexOf(raw, '.', offset) == offset + |octet|
  {
    var end := offset + |octet|;
    forall j | offset <= j < end ensures raw[j] != '.' {
      assert raw[j] == raw[offset..end][j - offset] == octet[j - offset];
    }
  }

  // where the pieces of the rest of a text lie in the text
  lemma Pieces(raw: string, offset: nat, first: string, rest: string)
    requires offset <= |raw| && raw[offset..] == first + (['.'] + rest)
    ensures offset + |first| < |raw| && raw[offset + |first|] == '.'
    ensures raw[offset..offset + |first|] == first && raw[offset + |first| + 1..] == rest
  {
    var tail := raw[offset..];
    assert tail[|first|] == '.' && tail[..|first|] == first && tail[|first| + 1..] == rest;
    assert raw[offset + |first| + 1..] == tail[|first| + 1..];
  }

  lemma {:induction false} SplitsAtDots(raw: string, offset: nat, octets: seq<string>)
    requires offset <= |raw| && octets != [] && (forall o :: o in octets ==> IsOctet(o)) && raw[offset..] == Dotted(octets)
    ensures DottedOctets(raw, offset, |octets|)
    decreases |octets|
  {
    var first := octets[0];
    assert first in octets && IsOctet(first);
    hide IsOctet;
    if |octets| == 1 {
      assert raw[offset..offset + |first|] == raw[offset..];
      OctetEnds(raw, offset, first);
    } else {
      var rest := octets[1..];
      Pieces(raw, offset, first, Dotted(rest));
      OctetEnds(raw, offset, first);
      forall o | o in rest ensures IsOctet(o) { assert o in octets; }
      SplitsAtDots(raw, offset + |first| + 1, rest);
    }
  }

  lemma {:induction false} JoinsFromDots(raw: string, offset: nat, n: nat) returns (octets: seq<string>)
    requires offset <= |raw| && n >= 1 && DottedOctets(raw, offset, n)
    ensures |octets| == n && (forall o :: o in octets ==> IsOctet(o)) && raw[offset..] == Dotted(octets)
    decreases n
  {
    var dot := IndexOf(raw, '.', offset);
    if n == 1 {
      octets := [raw[offset..]];
      assert raw[offset..dot] == raw[offset..];
    } else {
      var rest := JoinsFromDots(raw, dot + 1, n - 1);
      octets := [raw[offset..dot]] + rest;
      assert octets[1..] == rest;
      assert raw[offset..] == raw[offset..dot] + (['.'] + raw[dot + 1..]);
    }
  }

  /** The texts accepted are exactly those of four octets joined by dots. */
  lemma Ipv4Exactly(raw: string)
    ensures DottedOctets(raw, 0, 4)
            <==> exists octets :: |octets| == 4 && (forall o :: o in octets ==> IsOctet(o)) && raw == Dotted(octets)
  {
    assert raw[0..] == raw;
    if DottedOctets(raw, 0, 4) {
      var octets := JoinsFromDots(raw, 0, 4);
    }
    if octets :| |octets| == 4 && (forall o :: o in octets ==> IsOctet(o)) && raw == Dotted(octets) {
      SplitsAtDots(raw, 0, octets);
    }
  }

  /* ---- rules ---- */

  function FirstNonBlank(candidates: seq<string>): string {
    if candidates == [] then ""
    else if Trim(candidates[0]) != "" then Trim(candidates[0])
    else FirstNonBlank(candidates[1..])
  }

  /** network_from_rule: a negative mask counts as none. */
  function NetworkFromRule(rule: PortalLayer2Rule): string {
    var raw := FirstNonBlank([rule.dstIp, rule.value, rule.ip, rule.ipAddress, rule.address, rule.dst]);
    var mask := rule.dstMask.GetOr(rule.mask.GetOr(-1));
    if raw == "" then ""
    else if mask >= 0 then
      if mask > 32 || !DottedOctets(raw, 0, 4) then "" else raw + (['/'] + Decimal(mask))
    else if !DottedOctets(raw, 0, 4) then ""
    else raw
  }

  // the characters an address or network is written with
  predicate IsNetworkChar(c: char) { IsDigit(c) || c == '.' || c == '/' }

  lemma {:induction false} DottedChars(raw: string, offset: nat, n: nat)
    requires offset <= |raw| && n >= 1 && DottedOctets(raw, offset, n)
    ensures forall i :: offset <= i < |raw| ==> IsDigit(raw[i]) || raw[i] == '.'
    decreases n
  {
    var dot := IndexOf(raw, '.', offset);
    var head := raw[offset..dot];
    assert forall i :: offset <= i < dot ==> raw[i] == head[i - offset];
    if n > 1 { DottedChars(raw, dot + 1, n - 1); }
  }

  /** What a rule turns into is a network or nothing: an address, perhaps a mask of at most 32 bits,
      and no other character that could end the value or the command. */
  lemma NetworkShape(rule: PortalLayer2Rule)
    ensures var network := NetworkFromRule(rule);
            && (forall i :: 0 <= i < |network| ==> IsNetworkChar(network[i]))
            && Trim(network) == network
            && (network != "" ==>
                  exists address, tail ::
                    network == address + tail && DottedOctets(address, 0, 4)
                    && (tail == "" || exists mask :: 0 <= mask <= 32 && tail == ['/'] + Decimal(mask)))
  {
    var network := NetworkFromRule(rule);
    if network != "" {
      var raw := FirstNonBlank([rule.dstIp, rule.value, rule.ip, rule.ipAddress, rule.address, rule.dst]);
      hide FirstNonBlank, DottedOctets, Decimal;
      var mask := rule.dstMask.GetOr(rule.mask.GetOr(-1));
      var tail := if mask >= 0 then ['/'] + Decimal(mask) else "";
      assert network == raw + tail && DottedOctets(raw, 0, 4);
      DottedChars(raw, 0, 4);
      if mask >= 0 { MaskDigits(mask); }
      assert forall i :: 0 <= i < |network| ==> IsNetworkChar(network[i]);
      assert !IsBlank(network[0]) && !IsBlank(network[|network| - 1]);
      assert TrimLeft(network) == network && TrimRight(network) == network;
    }
  }

  /** The address a rule gives: the first of its six fields that is not blank. */
  ghost predicate Addresses(rule: PortalLayer2Rule, address: string) {
    var fields := [rule.dstIp, rule.value, rule.ip, rule.ipAddress, rule.address, rule.dst];
    exists k :: 0 <= k < 6 && Trim(fields[k]) == address && address != "" && forall j :: 0 <= j < k ==> Trim(fields[j]) == ""
  }

  lemma {:induction false} FirstNonBlankIs(fields: seq<string>)
    ensures var f := FirstNonBlank(fields);
            if f == "" then forall j :: 0 <= j < |fields| ==> Trim(fields[j]) == ""
            else exists k :: 0 <= k < |fields| && Trim(fields[k]) == f && forall j :: 0 <= j < k ==> Trim(fields[j]) == ""
  {
    if fields != [] {
      hide Trim;
      FirstNonBlankIs(fields[1..]);
      var f := FirstNonBlank(fields);
      assert forall j :: 0 < j < |fields| ==> fields[j] == fields[1..][j - 1];
      if Trim(fields[0]) != "" {
        assert Trim(fields[0]) == f;
      } else if f != "" {
        var k :| 0 <= k < |fields[1..]| && Trim(fields[1..][k]) == f && forall j :: 0 <= j < k ==> Trim(fields[1..][j]) == "";
        assert Trim(fields[k + 1]) == f;
      }
    }
  }

  /** A rule becomes a network exactly when its address is one of four octets and its mask, if it has a
      non-negative one, is at most 32; the network is the address with that mask. A destination mask
      goes before the other. */
  lemma NetworkExactly(rule: PortalLayer2Rule, network: string)
    requires network != ""
    ensures NetworkFromRule(rule) == network <==>
            exists address ::
              && Addresses(rule, address) && DottedOctets(address, 0, 4)
              && var mask := if rule.dstMask.Some? then rule.dstMask else rule.mask;
                 if mask.Some? && mask.value >= 0 then mask.value <= 32 && network == address + ("/" + Decimal(mask.value))
                 else network == address
  {
    var fields := [rule.dstIp, rule.value, rule.ip, rule.ipAddress, rule.address, rule.dst];
    FirstNonBlankIs(fields);
    var address := FirstNonBlank(fields);
    hide Trim, FirstNonBlank, DottedOctets, Decimal;
    forall a ensures Addresses(rule, a) <==> a == address && a != "" { OneAddress(rule, a, address); }
    hide Addresses;
    assert "/" == ['/'];
    var mask := if rule.dstMask.Some? then rule.dstMask else rule.mask;
    assert rule.dstMask.GetOr(rule.mask.GetOr(-1)) == mask.GetOr(-1);
    if address != "" { assert Addresses(rule, address); }
  }

  lemma OneAddress(rule: PortalLayer2Rule, a: string, address: string)
    requires var fields := [rule.dstIp, rule.value, rule.ip, rule.ipAddress, rule.address, rule.dst];
             if address == "" then forall j :: 0 <= j < |fields| ==> Trim(fields[j]) == ""
             else exists k :: 0 <= k < |fields| && Trim(fields[k]) == address && forall j :: 0 <= j < k ==> Trim(fields[j]) == ""
    ensures Addresses(rule, a) <==> a == address && a != ""
  {
    hide Trim;
  }

  lemma MaskDigits(mask: nat)
    ensures forall i :: 0 <= i < |Decimal(mask)| ==> IsDigit(Decimal(mask)[i])
  {
  }

  /* ---- host names ---- */

  predicate StartsAt(s: string, i: nat, pattern: string) { i + |pattern| <= |s| && s[i..i + |pattern|] == pattern }

  /** Where a pattern first occurs, or the length of the text. */
  function Find(s: string, pattern: string, from: nat): (i: nat)
    requires from <= |s|
    ensures from <= i <= |s| && (i < |s| ==> StartsAt(s, i, pattern)) && forall j :: from <= j < i ==> !StartsAt(s, j, pattern)
    decreases |s| - from
  {
    if from == |s| || StartsAt(s, from, pattern) then from else Find(s, pattern, from + 1)
  }

  predicate EndsHost(c: char) { c == '/' || c == '?' || c == '#' }

  function HostLength(s: string): (n: nat)
    ensures n <= |s| && (n < |s| ==> EndsHost(s[n])) && forall i :: 0 <= i < n ==> !EndsHost(s[i])
  {
    if s == "" || EndsHost(s[0]) then 0 else 1 + HostLength(s[1..])
  }

  function AfterLast(s: string, c: char): (t: string)
    ensures |t| <= |s| && t == s[|s| - |t|..] && forall i :: 0 <= i < |t| ==> t[i] != c
  {
    if s == "" || s[|s| - 1] == c then "" else AfterLast(s[..|s| - 1], c) + [s[|s| - 1]]
  }

  function BeforeLast(s: string, c: char): (t: string)
    ensures t <= s
  {
    var tail := AfterLast(s, c);
    if |tail| == |s| then s else s[..|s| - |tail| - 1]
  }

  function DropDots(s: string): (t: string)
    ensures t <= s
  {
    if s != "" && s[|s| - 1] == '.' then DropDots(s[..|s| - 1]) else s
  }

  function Lower(s: string): (t: string)
    ensures |t| == |s|
  {
    seq(|s|, i requires 0 <= i < |s| => ToLower(s[i]))
  }

  function WithoutScheme(raw: string): string {
    var scheme := Find(raw, "://", 0);
    if scheme < |raw| then raw[scheme + 3..] else if StartsAt(raw, 0, "//") then raw[2..] else raw
  }

  /** host_from_urlish */
  function HostFromUrlish(raw: string): string {
    var text := Trim(raw);
    if text == "" then ""
    else
      var rest := WithoutScheme(text);
      var authority := AfterLast(rest[..HostLength(rest)], '@');
      if authority != "" && authority[0] == '[' then ""
      else
        var host := Lower(Trim(DropDots(BeforeLast(authority, ':'))));
        if host == "" || DottedOctets(host, 0, 4) then "" else host
  }

  /** Blanks are the space, the tab, the line feed, the vertical tab, the form feed and the carriage return. */
  lemma BlanksAre(c: char)
    ensures IsBlank(c) <==> c in {' ', '\t', '\n', 11 as char, 12 as char, '\r'}
  {
  }

  ghost predicate AllBlank(s: string) { forall i :: 0 <= i < |s| ==> IsBlank(s[i]) }

  /** Trimming cuts off blanks and nothing else. */
  lemma TrimInside(s: string)
    ensures exists i, j :: 0 <= i <= j <= |s| && Trim(s) == s[i..j] && AllBlank(s[..i]) && AllBlank(s[j..])
  {
    var i := TrimLeftInside(s);
    var n := TrimRightInside(s[i..]);
    assert s[i..][..n] == s[i..i + n] && s[i..][n..] == s[i + n..];
    hide TrimLeft, TrimRight, AllBlank;
  }

  lemma MoreBlank(c: char, blanks: string)
    requires IsBlank(c) && AllBlank(blanks)
    ensures AllBlank([c] + blanks) && AllBlank(blanks + [c])
  {
  }

  lemma {:induction false} TrimLeftInside(s: string) returns (i: nat)
    ensures i <= |s| && TrimLeft(s) == s[i..] && AllBlank(s[..i])
  {
    if s != "" && IsBlank(s[0]) {
      var later := TrimLeftInside(s[1..]);
      i := later + 1;
      assert s[1..][later..] == s[i..] && s[..i] == [s[0]] + s[1..][..later];
      MoreBlank(s[0], s[1..][..later]);
      hide AllBlank, IsBlank;
    } else {
      i := 0;
      assert s[0..] == s;
    }
  }

  lemma {:induction false} TrimRightInside(s: string) returns (n: nat)
    ensures n <= |s| && TrimRight(s) == s[..n] && AllBlank(s[n..])
  {
    if s != "" && IsBlank(s[|s| - 1]) {
      var init := s[..|s| - 1];
      n := TrimRightInside(init);
      assert init[..n] == s[..n] && s[n..] == init[n..] + [s[|s| - 1]];
      MoreBlank(s[|s| - 1], init[n..]);
      hide AllBlank, IsBlank;
    } else {
      n := |s|;
      assert s[..|s|] == s;
    }
  }

  /** What may stand in a host: no upper-case letter and none of the marks around it. */
  predicate HostChar(c: char) { !('A' <= c <= 'Z') && c != '/' && c != '?' && c != '#' && c != '@' }

  lemma AuthorityChars(rest: string)
    ensures var authority := AfterLast(rest[..HostLength(rest)], '@');
            forall i :: 0 <= i < |authority| ==> HostChar(ToLower(authority[i]))
  {
    var whole := rest[..HostLength(rest)];
    var authority := AfterLast(whole, '@');
    forall i | 0 <= i < |authority| ensures HostChar(ToLower(authority[i])) {
      assert authority[i] == whole[|whole| - |authority| + i];
    }
  }

  lemma TrimKeeps(s: string)
    requires forall i :: 0 <= i < |s| ==> HostChar(ToLower(s[i]))
    ensures forall i :: 0 <= i < |Trim(s)| ==> HostChar(ToLower(Trim(s)[i]))
  {
    TrimInside(s);
    hide Trim, AllBlank, HostChar, ToLower;
    var i, j :| 0 <= i <= j <= |s| && Trim(s) == s[i..j];
  }

  /** A host name taken from a rule has no upper-case letter, path, query, fragment or user part, and
      is no IPv4 address. (A colon may remain: only what follows the last one is cut.) */
  lemma HostShape(raw: string)
    ensures var host := HostFromUrlish(raw);
            (forall i :: 0 <= i < |host| ==> HostChar(host[i])) && !DottedOctets(host, 0, 4)
  {
    var host := HostFromUrlish(raw);
    if host == "" {
      assert IndexOf("", '.', 0) == 0;
    } else {
      var rest := WithoutScheme(Trim(raw));
      var authority := AfterLast(rest[..HostLength(rest)], '@');
      var named := DropDots(BeforeLast(authority, ':'));
      AuthorityChars(rest);
      hide Trim, WithoutScheme, DottedOctets, HostLength, AfterLast, BeforeLast, DropDots, HostChar, ToLower;
      assert forall i :: 0 <= i < |named| ==> named[i] == authority[i];
      TrimKeeps(named);
    }
  }

  /* ---- the policy ---- */

  datatype PortalLists = PortalLists(fqdns: seq<string>, rules: seq<string>)

  function HostCandidates(rules: seq<PortalUrlRule>): seq<string> {
    if rules == [] then []
    else [HostFromUrlish(rules[0].url), HostFromUrlish(rules[0].host), HostFromUrlish(rules[0].value)] + HostCandidates(rules[1..])
  }

  function AllowRule(network: string): string { "allow all to " + network }

  function RuleCandidates(rules: seq<PortalLayer2Rule>): seq<string> {
    if rules == [] then []
    else
      var network := NetworkFromRule(rules[0]);
      (if network == "" then [] else [AllowRule(network)]) + RuleCandidates(rules[1..])
  }

  /** opennds_portal_policy_from_free_policy */
  function ListsFromFreePolicy(policy: Option<PortalFreePolicy>): PortalLists {
    if policy.None? then PortalLists([], [])
    else PortalLists(AppendAll([], HostCandidates(policy.value.urlRules)), AppendAll([], RuleCandidates(policy.value.layer2Rules)))
  }

  lemma AppendThree(values: seq<string>, a: string, b: string, c: string, rest: seq<string>)
    ensures AppendAll(values, [a, b, c] + rest) == AppendAll(AppendUnique(AppendUnique(AppendUnique(values, a), b), c), rest)
  {
    hide AppendUnique;
    assert ([a, b, c] + rest)[1..] == [b, c] + rest && ([b, c] + rest)[1..] == [c] + rest && ([c] + rest)[1..] == rest;
    assert AppendAll(AppendUnique(AppendUnique(values, a), b), [c] + rest) == AppendAll(AppendUnique(AppendUnique(AppendUnique(values, a), b), c), rest);
  }

  lemma AppendOne(values: seq<string>, a: string, rest: seq<string>)
    ensures AppendAll(values, [a] + rest) == AppendAll(AppendUnique(values, a), rest)
  {
    assert ([a] + rest)[1..] == rest;
  }

  method PolicyFromFreePolicy(policy: Option<PortalFreePolicy>) returns (out: PortalLists)
    ensures out == ListsFromFreePolicy(policy)
  {
    hide AppendUnique, HostFromUrlish, NetworkFromRule, AllowRule;
    out := PortalLists([], []);
    if policy.None? {
      return;
    }
    var urls, networks := policy.value.urlRules, policy.value.layer2Rules;
    for i := 0 to |urls|
      invariant out.rules == []
      invariant AppendAll(out.fqdns, HostCandidates(urls[i..])) == AppendAll([], HostCandidates(urls))
    {
      assert urls[i..][1..] == urls[i + 1..];
      AppendThree(out.fqdns, HostFromUrlish(urls[i].url), HostFromUrlish(urls[i].host), HostFromUrlish(urls[i].value),
                  HostCandidates(urls[i + 1..]));
      out := out.(fqdns := AppendUnique(out.fqdns, HostFromUrlish(urls[i].url)));
      out := out.(fqdns := AppendUnique(out.fqdns, HostFromUrlish(urls[i].host)));
      out := out.(fqdns := AppendUnique(out.fqdns, HostFromUrlish(urls[i].value)));
    }
    assert urls[|urls|..] == [] && out.fqdns == AppendAll([], HostCandidates(urls));
    for i := 0 to |networks|
      invariant out.fqdns == AppendAll([], HostCandidates(urls))
      invariant AppendAll(out.rules, RuleCandidates(networks[i..])) == AppendAll([], RuleCandidates(networks))
    {
      assert networks[i..][1..] == networks[i + 1..];
      var network := NetworkFromRule(networks[i]);
      if network != "" {
        AppendOne(out.rules, AllowRule(network), RuleCandidates(networks[i + 1..]));
        out := out.(rules := AppendUnique(out.rules, AllowRule(network)));
      } else {
        assert [] + RuleCandidates(networks[i + 1..]) == RuleCandidates(networks[i + 1..]);
      }
    }
    assert networks[|networks|..] == [];
  }

  lemma LowerTrimmed(s: string)
    requires Trimmed(s)
    ensures Trim(Lower(s)) == Lower(s)
  {
    TrimmedStays(Lower(s));
  }

  lemma TrimmedStays(s: string)
    requires Trimmed(s)
    ensures Trim(s) == s
  {
  }

  lemma HostTrimmed(raw: string)
    ensures Trim(HostFromUrlish(raw)) == HostFromUrlish(raw)
  {
    var rest := WithoutScheme(Trim(raw));
    var named := DropDots(BeforeLast(AfterLast(rest[..HostLength(rest)], '@'), ':'));
    TrimTrims(named);
    LowerTrimmed(Trim(named));
    hide Trim, WithoutScheme, DottedOctets, Lower;
    assert HostFromUrlish(raw) in {"", Lower(Trim(named))};
    TrimmedStays("");
  }

  lemma AllowedTrimmed(network: string)
    requires network != "" && Trim(network) == network
    ensures Trim("allow all to " + network) == "allow all to " + network
  {
    TrimTrims(network);
    var text := "allow all to " + network;
    assert text[0] == 'a' && text[|text| - 1] == network[|network| - 1];
    TrimmedStays(text);
  }

  /** The hosts a rule about addresses names. */
  ghost predicate NamesHost(rules: seq<PortalUrlRule>, host: string) {
    host != "" && exists r :: r in rules && host in [HostFromUrlish(r.url), HostFromUrlish(r.host), HostFromUrlish(r.value)]
  }

  ghost predicate NamesNetwork(rules: seq<PortalLayer2Rule>, network: string) {
    network != "" && exists r :: r in rules && network == NetworkFromRule(r)
  }

  /** A rule that lets every device through to a network the rules name. */
  ghost predicate AllowsNetwork(rules: seq<PortalLayer2Rule>, v: string) {
    exists network :: NamesNetwork(rules, network) && v == "allow all to " + network
  }

  lemma {:induction false} HostsNamed(rules: seq<PortalUrlRule>, host: string)
    ensures NamesHost(rules, host) <==> host != "" && exists r :: r in HostCandidates(rules) && Trim(r) == host
  {
    hide HostFromUrlish, Trim;
    if rules != [] {
      var r0, later := rules[0], HostCandidates(rules[1..]);
      HostTrimmed(r0.url);
      HostTrimmed(r0.host);
      HostTrimmed(r0.value);
      HostsNamed(rules[1..], host);
      var own := [HostFromUrlish(r0.url), HostFromUrlish(r0.host), HostFromUrlish(r0.value)];
      assert own[0] in own && own[1] in own && own[2] in own;
      assert forall r :: r in own + later <==> r in own || r in later;
      assert forall r :: r in rules <==> r == r0 || r in rules[1..];
      assert (exists r :: r in own && Trim(r) == host) <==> host in own;
    }
  }

  lemma {:induction false} NetworksNamed(rules: seq<PortalLayer2Rule>, v: string)
    ensures AllowsNetwork(rules, v) <==> v != "" && exists r :: r in RuleCandidates(rules) && Trim(r) == v
  {
    hide Trim, NetworkFromRule;
    if rules != [] {
      var own, later := NetworkFromRule(rules[0]), RuleCandidates(rules[1..]);
      NetworksNamed(rules[1..], v);
      NetworkShape(rules[0]);
      assert [] + later == later;
      assert forall r :: r in rules <==> r == rules[0] || r in rules[1..];
      if own != "" {
        AllowedTrimmed(own);
        assert AllowRule(own) in RuleCandidates(rules);
        assert forall r :: r in RuleCandidates(rules) <==> r == AllowRule(own) || r in later;
        assert NamesNetwork(rules, own);
      }
      assert forall network :: NamesNetwork(rules, network) <==> (own != "" && network == own) || NamesNetwork(rules[1..], network);
    }
  }

  /** Both lists are free of duplicates, and hold exactly the hosts and the networks the rules name,
      the latter as rules that let every device through to them. */
  lemma ListsComplete(policy: PortalFreePolicy)
    ensures var lists := ListsFromFreePolicy(Some(policy));
            && Unique(lists.fqdns) && Unique(lists.rules)
            && (forall v :: v in lists.fqdns <==> NamesHost(policy.urlRules, v))
            && (forall v :: v in lists.rules <==> AllowsNetwork(policy.layer2Rules, v))
  {
    forall v ensures NamesHost(policy.urlRules, v) <==> v != "" && exists r :: r in HostCandidates(policy.urlRules) && Trim(r) == v {
      HostsNamed(policy.urlRules, v);
    }
    forall v
      ensures AllowsNetwork(policy.layer2Rules, v) <==> v != "" && exists r :: r in RuleCandidates(policy.layer2Rules) && Trim(r) == v
    {
      NetworksNamed(policy.layer2Rules, v);
    }
    hide Trim, HostCandidates, RuleCandidates, NamesHost, AllowsNetwork;
    AppendAllCollects([], HostCandidates(policy.urlRules));
    AppendAllCollects([], RuleCandidates(policy.layer2Rules));
  }
}
