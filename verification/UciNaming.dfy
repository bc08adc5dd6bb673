/** Section names of the UCI planner: the slug filter and the per-WLAN section name. */
module UciNaming {
  import opened Config
  import opened Text

  predicate IsWord(c: char) { IsAlnum(c) || c == '_' }

  predicate IsSlugChar(c: char) { IsDigit(c) || IsLower(c) || c == '_' }

  ghost predicate AllSlugChars(s: string) { forall i :: 0 <= i < |s| ==> IsSlugChar(s[i]) }

  /** Lower-cased word characters; every maximal run of other characters becomes one underscore. */
  function SlugBody(s: string, lastUnderscore: bool): string {
    if s == "" then ""
    else if IsWord(s[0]) then [ToLower(s[0])] + SlugBody(s[1..], false)
    else if !lastUnderscore then "_" + SlugBody(s[1..], true)
    else SlugBody(s[1..], true)
  }

  function TrimFront(s: string): string {
    if s != "" && s[0] == '_' then TrimFront(s[1..]) else s
  }

  function TrimBack(s: string): string {
    if s != "" && s[|s| - 1] == '_' then TrimBack(s[..|s| - 1]) else s
  }

  function SlugOf(s: string): string { TrimBack(TrimFront(SlugBody(s, false))) }

  method Slug(value: string) returns (out: string)
    ensures out == SlugOf(value)
  {
    out := "";
    var lastUnderscore := false;
    for i := 0 to |value|
      invariant out + SlugBody(value[i..], lastUnderscore) == SlugBody(value, false)
    {
      var ch := value[i];
      assert value[i..][1..] == value[i + 1..];
      if IsWord(ch) {
        out := out + [ToLower(ch)];
        lastUnderscore := false;
      } else if !lastUnderscore {
        out := out + "_";
        lastUnderscore := true;
      }
    }
    assert value[|value|..] == "" && out + "" == out;
    while out != "" && out[0] == '_'
      invariant TrimFront(out) == TrimFront(SlugBody(value, false))
      decreases |out|
    {
      out := out[1..];
    }
    while out != "" && out[|out| - 1] == '_'
      invariant TrimBack(out) == SlugOf(value)
      decreases |out|
    {
      out := out[..|out| - 1];
    }
  }

  ghost predicate IsSlug(s: string) {
    AllSlugChars(s) && (s != "" ==> s[0] != '_' && s[|s| - 1] != '_')
  }

  lemma {:induction false} SlugBodyAlphabet(s: string, last: bool)
    ensures AllSlugChars(SlugBody(s, last))
  {
    if s != "" {
      SlugBodyAlphabet(s[1..], false);
      SlugBodyAlphabet(s[1..], true);
    }
  }

  lemma {:induction false} SlugBodyFixed(s: string, last: bool)
    requires AllSlugChars(s)
    ensures SlugBody(s, last) == s
  {
    if s != "" { SlugBodyFixed(s[1..], false); }
  }

  lemma {:induction false} TrimFrontShape(s: string)
    requires AllSlugChars(s)
    ensures AllSlugChars(TrimFront(s)) && (TrimFront(s) != "" ==> TrimFront(s)[0] != '_')
  {
    if s != "" && s[0] == '_' { TrimFrontShape(s[1..]); }
  }

  lemma {:induction false} TrimBackShape(s: string)
    ensures TrimBack(s) <= s
    ensures TrimBack(s) != "" ==> TrimBack(s)[|TrimBack(s)| - 1] != '_'
    ensures forall i :: |TrimBack(s)| <= i < |s| ==> s[i] == '_'
  {
    if s != "" && s[|s| - 1] == '_' { TrimBackShape(s[..|s| - 1]); }
  }

  /** The image of slug is exactly the set of texts slug leaves alone; so slug is idempotent. */
  lemma SlugImage(s: string)
    ensures IsSlug(SlugOf(s))
    ensures SlugOf(s) == s <==> IsSlug(s)
    ensures SlugOf(SlugOf(s)) == SlugOf(s)
  {
    SlugShape(s);
    SlugFixed(SlugOf(s));
    if IsSlug(s) { SlugFixed(s); }
  }

  lemma SlugShape(s: string)
    ensures IsSlug(SlugOf(s))
  {
    SlugBodyAlphabet(s, false);
    TrimFrontShape(SlugBody(s, false));
    TrimBackShape(TrimFront(SlugBody(s, false)));
  }

  lemma SlugFixed(s: string)
    requires IsSlug(s)
    ensures SlugOf(s) == s
  {
    SlugBodyFixed(s, false);
  }

  /* ---- wlan_section ---- */

  const MAX_SECTION := 48

  function Suffix(wlan: WirelessNetwork): string {
    if wlan.index.Some? then Decimal(wlan.index.value)
    else if wlan.ssidId.Some? then Decimal(wlan.ssidId.value)
    else if SlugOf(wlan.name) == "" then "ssid"
    else SlugOf(wlan.name)
  }

  function RawSection(wlan: WirelessNetwork): string {
    "openomada_" + BandWire(wlan.band) + "_" + Suffix(wlan)
  }

  function Bounded(section: string): string {
    if |section| > MAX_SECTION then TrimBack(section[..MAX_SECTION]) else section
  }

  function WlanSection(wlan: WirelessNetwork): string {
    var section := Bounded(SlugOf(RawSection(wlan)));
    if section == "" then "openomada_ssid" else section
  }

  method ComputeWlanSection(wlan: WirelessNetwork) returns (section: string)
    ensures section == WlanSection(wlan)
  {
    var suffix;
    if wlan.index.Some? {
      suffix := Decimal(wlan.index.value);
    } else if wlan.ssidId.Some? {
      suffix := Decimal(wlan.ssidId.value);
    } else {
      suffix := Slug(wlan.name);
      if suffix == "" {
        suffix := "ssid";
      }
    }
    section := Slug("openomada_" + BandWire(wlan.band) + "_" + suffix);
    if |section| > MAX_SECTION {
      section := section[..MAX_SECTION];
      ghost var cut := section;
      while section != "" && section[|section| - 1] == '_'
        invariant TrimBack(section) == TrimBack(cut)
        decreases |section|
      {
        section := section[..|section| - 1];
      }
    }
    if section == "" {
      section := "openomada_ssid";
    }
  }

  lemma {:induction false} SlugBodyAppend(a: string, b: string, last: bool)
    requires a != "" && IsWord(a[|a| - 1])
    ensures SlugBody(a + b, last) == SlugBody(a, last) + SlugBody(b, false)
  {
    assert (a + b)[1..] == a[1..] + b;
    if |a| == 1 {
      assert a[1..] == "";
      assert SlugBody(a[1..], false) == "";
      assert a[1..] + b == b;
    } else {
      SlugBodyAppend(a[1..], b, !IsWord(a[0]));
      var head := if IsWord(a[0]) then [ToLower(a[0])] else if !last then "_" else "";
      Regroup(head, SlugBody(a[1..], !IsWord(a[0])), SlugBody(b, false));
      assert "" + SlugBody(a[1..] + b, true) == SlugBody(a[1..] + b, true);
    }
  }

  function Stem(band: RadioBand): string { "openomada_" + BandWire(band) }

  lemma StemShape(band: RadioBand)
    ensures IsSlug(Stem(band)) && 12 <= |Stem(band)| <= 13
    ensures "openomada_" <= Stem(band)
  {
  }

  // the raw text is kept up to trimming at the end: its stem already is a slug
  lemma SectionStem(wlan: WirelessNetwork)
    ensures SlugOf(RawSection(wlan)) == TrimBack(Stem(wlan.band) + "_" + SlugBody(Suffix(wlan), false))
    ensures Stem(wlan.band) <= SlugOf(RawSection(wlan))
  {
    StemShape(wlan.band);
    assert RawSection(wlan) == Stem(wlan.band) + "_" + Suffix(wlan);
    StemKept(Stem(wlan.band), Suffix(wlan));
  }

  lemma StemKept(stem: string, rest: string)
    requires IsSlug(stem) && stem != ""
    ensures SlugOf(stem + "_" + rest) == TrimBack(stem + "_" + SlugBody(rest, false))
    ensures stem <= SlugOf(stem + "_" + rest)
  {
    SlugBodyAppend(stem + "_", rest, false);
    SlugBodyFixed(stem + "_", false);
    var tail := "_" + SlugBody(rest, false);
    assert stem + "_" + SlugBody(rest, false) == stem + tail;
    assert (stem + tail)[0] == stem[0];
    TrimBackKeeps(stem, tail);
  }

  lemma TrimBackKeeps(stem: string, rest: string)
    requires stem != "" && stem[|stem| - 1] != '_'
    ensures stem <= TrimBack(stem + rest)
  {
    var body := stem + rest;
    TrimBackShape(body);
    assert body[|stem| - 1] != '_';
    assert TrimBack(body)[..|stem|] == stem;
  }

  lemma BoundedShape(stem: string, section: string)
    requires stem != "" && |stem| <= MAX_SECTION && stem[|stem| - 1] != '_'
    requires stem <= section && IsSlug(section)
    ensures stem <= Bounded(section) && IsSlug(Bounded(section)) && |Bounded(section)| <= MAX_SECTION
  {
    if |section| > MAX_SECTION {
      var cut := section[..MAX_SECTION];
      TrimBackShape(cut);
      assert cut == stem + cut[|stem|..];
      TrimBackKeeps(stem, cut[|stem|..]);
    }
  }

  /** Every section name is a 1 to 48 character slug that starts with the agent's own prefix. */
  lemma WlanSectionShape(wlan: WirelessNetwork)
    ensures 1 <= |WlanSection(wlan)| <= MAX_SECTION
    ensures IsSlug(WlanSection(wlan))
    ensures "openomada_" <= WlanSection(wlan)
    ensures Stem(wlan.band) <= WlanSection(wlan)
  {
    var section, stem := SlugOf(RawSection(wlan)), Stem(wlan.band);
    StemShape(wlan.band);
    SectionStem(wlan);
    SlugShape(RawSection(wlan));
    BoundedShape(stem, section);
    PrefixTrans("openomada_", stem, Bounded(section));
  }

  lemma PrefixTrans(a: string, b: string, c: string)
    requires a <= b <= c
    ensures a <= c
  {
  }

  lemma IndexedSection(wlan: WirelessNetwork)
    requires wlan.index.Some?
    ensures WlanSection(wlan) == Stem(wlan.band) + "_" + SlugBody(Decimal(wlan.index.value), false)
  {
    StemShape(wlan.band);
    SectionStem(wlan);
    DecimalLength(wlan.index.value);
    SlugDecimal(wlan.index.value);
    Untrimmed(Stem(wlan.band), SlugBody(Decimal(wlan.index.value), false));
  }

  lemma Untrimmed(stem: string, body: string)
    requires body != "" && body[|body| - 1] != '_'
    ensures TrimBack(stem + "_" + body) == stem + "_" + body
  {
    var whole := stem + "_" + body;
    assert whole[|whole| - 1] == body[|body| - 1];
  }

  // a sign becomes an underscore, digits stay
  lemma SlugDecimal(n: int)
    ensures SlugBody(Decimal(n), false) == if n < 0 then "_" + DecimalNat(-n) else DecimalNat(n)
    ensures var body := SlugBody(Decimal(n), false); |body| == |Decimal(n)| && body[|body| - 1] != '_'
  {
    if n < 0 {
      assert Decimal(n)[1..] == DecimalNat(-n);
      SlugBodyFixed(DecimalNat(-n), true);
    } else {
      SlugBodyFixed(DecimalNat(n), false);
    }
  }

  /** Two indexed WLANs share a section exactly when band and index agree. */
  lemma IndexedSectionsDistinct(a: WirelessNetwork, b: WirelessNetwork)
    requires a.index.Some? && b.index.Some?
    ensures WlanSection(a) == WlanSection(b) <==> a.band == b.band && a.index == b.index
  {
    IndexedSection(a);
    IndexedSection(b);
    if WlanSection(a) == WlanSection(b) {
      var sa, sb := Stem(a.band) + "_", Stem(b.band) + "_";
      BandTag(a.band);
      BandTag(b.band);
      assert WlanSection(a)[10] == sa[10] && WlanSection(b)[10] == sb[10];
      assert WlanSection(a)[12] == sa[12] && WlanSection(b)[12] == sb[12];
      assert WlanSection(a)[|sa|..] == SlugBody(Decimal(a.index.value), false);
      assert WlanSection(b)[|sb|..] == SlugBody(Decimal(b.index.value), false);
      SlugDecimal(a.index.value);
      SlugDecimal(b.index.value);
      SignedDigitsInjective(a.index.value, b.index.value);
    }
  }

  // the bands are told apart by the first and third character after the prefix
  lemma BandTag(band: RadioBand)
    ensures var s := Stem(band) + "_";
            s[10] == (match band case TwoG => '2' case FiveG => '5' case FiveG2 => '5' case SixG => '6')
            && s[12] == (if band.FiveG2? then '2' else '_')
  {
    var s := Stem(band) + "_";
    assert s == "openomada_" + (BandWire(band) + "_");
    assert s[10] == BandWire(band)[0];
    assert s[12] == (BandWire(band) + "_")[2];
  }

  lemma SignedDigitsInjective(m: int, n: int)
    requires SlugBody(Decimal(m), false) == SlugBody(Decimal(n), false)
    ensures m == n
  {
    SlugDecimal(m);
    SlugDecimal(n);
    var text := SlugBody(Decimal(m), false);
    assert m < 0 <==> text[0] == '_';
    assert n < 0 <==> text[0] == '_';
    DecimalNatValue(if m < 0 then -m else m);
    DecimalNatValue(if n < 0 then -n else n);
    if m < 0 {
      assert text[1..] == DecimalNat(-m) && text[1..] == DecimalNat(-n);
    }
  }
}
