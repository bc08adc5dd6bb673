/** What the text of a plan means to a device that decodes it line by line: which plans survive the
    trip through text, and what becomes of one that does not. */
module UciBatch {
  import opened Wrappers
  import opened FixedWidth
  import opened Config
  import opened Text
  import opened UciNaming
  import opened UciText
  import opened UciStore
  import opened UciPlan
  import opened UciTargets
  import opened UciCorrectness

  /** The commands in a list of lines; lines that are no command are skipped. */
  function DecodeLines(lines: seq<string>): seq<Command> {
    if lines == [] then []
    else
      var c := ParseCommand(lines[0]);
      (if c.Some? then [c.value] else []) + DecodeLines(lines[1..])
  }

  function DecodeBatch(batch: string): seq<Command> { DecodeLines(SplitLines(batch)) }

  /* ---- which plans survive the trip through text ---- */

  ghost predicate OneLine(s: string) { Free(s, '\n') }

  ghost predicate FieldsOneLine(c: Command) {
    && OneLine(c.package)
    && (c.Commit? || OneLine(c.section))
    && (c.AddSection? ==> OneLine(c.kind))
    && (c.SetOption? ==> OneLine(c.option) && OneLine(c.value))
  }

  ghost predicate Encodable(c: Command) { PlainNames(c) && FieldsOneLine(c) }

  lemma OneLineJoin(a: string, b: string)
    ensures OneLine(a + b) <==> OneLine(a) && OneLine(b)
  {
    assert forall i :: 0 <= i < |a| ==> (a + b)[i] == a[i];
    assert forall i :: 0 <= i < |b| ==> (a + b)[|a| + i] == b[i];
  }

  lemma {:induction false} QuoteOneLine(value: string)
    ensures OneLine(QuoteUci(value)) <==> OneLine(value)
  {
    if value != "" {
      QuoteOneLine(value[1..]);
      OneLineJoin(QuoteChar(value[0]), QuoteUci(value[1..]));
      OneLineJoin([value[0]], value[1..]);
      assert value == [value[0]] + value[1..];
      assert OneLine(QuoteChar(value[0])) <==> value[0] != '\n';
    }
  }

  lemma JoinedOneLine(a: string, c: char, b: string)
    requires c != '\n'
    ensures OneLine(a + [c] + b) <==> OneLine(a) && OneLine(b)
  {
    OneLineJoin(a, [c]);
    OneLineJoin(a + [c], b);
  }

  /** A command's line is one line exactly when its fields are. */
  lemma TextOneLine(c: Command)
    ensures OneLine(CommandText(c)) <==> FieldsOneLine(c)
  {
    assert OneLine("delete ") && OneLine("set ") && OneLine("commit ") && OneLine("'") && OneLine(['\'']);
    hide OneLine;
    match c {
      case Delete(package, section) =>
        JoinedOneLine(package, '.', section);
        OneLineJoin("delete ", Dotted(package, section));
      case AddSection(package, section, kind) =>
        JoinedOneLine(package, '.', section);
        JoinedOneLine(Dotted(package, section), '=', kind);
        OneLineJoin("set ", Assignment(Dotted(package, section), kind));
      case SetOption(package, section, option, value) =>
        JoinedOneLine(section, '.', option);
        JoinedOneLine(package, '.', Dotted(section, option));
        QuoteOneLine(value);
        OneLineJoin(QuoteUci(value), "'");
        OneLineJoin(['\''], QuoteUci(value) + "'");
        JoinedOneLine(Dotted(package, Dotted(section, option)), '=', Quoted(value));
        OneLineJoin("set ", Assignment(Dotted(package, Dotted(section, option)), Quoted(value)));
      case Commit(package) =>
        OneLineJoin("commit ", package);
    }
  }

  lemma TextStarts(c: Command)
    ensures CommandText(c) != "" && CommandText(c)[0] in {'d', 's', 'c'} && !Blank(CommandText(c))
  {
    hide QuoteUci;
    assert CommandText(c)[0] == 'd' || CommandText(c)[0] == 's' || CommandText(c)[0] == 'c';
  }

  lemma EncodableText(c: Command)
    requires Encodable(c)
    ensures OneLine(CommandText(c)) && !Blank(CommandText(c))
  {
    TextOneLine(c);
    TextStarts(c);
    hide CommandText;
  }

  lemma {:induction false} DecodeTexts(commands: seq<Command>)
    requires forall c :: c in commands ==> Encodable(c)
    ensures DecodeLines(Texts(commands) + [""]) == commands
  {
    if commands == [] {
      assert (Texts(commands) + [""])[1..] == [];
    } else {
      assert commands[0] in commands;
      CommandRoundTrip(commands[0]);
      DecodeTexts(commands[1..]);
      assert (Texts(commands) + [""])[1..] == Texts(commands[1..]) + [""];
    }
  }

  /** A batch of any commands is not taken for an empty one. */
  lemma SomethingToRun(commands: seq<Command>)
    requires commands != []
    ensures NonBlank(SplitLines(RenderBatch(Texts(commands)))) > 0
  {
    TextStarts(commands[0]);
    hide CommandText, Blank;
    var text := RenderBatch(Texts(commands));
    var i := IndexOf(text, '\n', 0);
    assert text[0] == Texts(commands)[0][0] && i > 0 && SplitLines(text)[0][0] == text[0];
    Worded(SplitLines(text)[0]);
  }

  lemma Worded(line: string)
    requires line != "" && line[0] in {'d', 's', 'c'}
    ensures !Blank(line)
  {
  }

  /** A rendered batch of encodable commands decodes to the commands and is counted exactly. */
  lemma BatchMeansCommands(commands: seq<Command>)
    requires forall c :: c in commands ==> Encodable(c)
    ensures DecodeBatch(RenderBatch(Texts(commands))) == commands
    ensures NonBlank(SplitLines(RenderBatch(Texts(commands)))) == |commands|
  {
    hide CommandText;
    forall i | 0 <= i < |commands| ensures OneLine(Texts(commands)[i]) && !Blank(Texts(commands)[i]) {
      EncodableText(commands[i]);
    }
    BatchRoundTrip(Texts(commands));
    CountRendered(Texts(commands));
    DecodeTexts(commands);
  }

  /** The free texts of a WLAN that reach its lines. */
  ghost predicate WlanOneLine(w: WirelessNetwork) {
    OneLine(w.name) && (w.security.pskConfigured && w.security.pskKey != "" ==> OneLine(w.security.pskKey))
  }

  ghost predicate WlansOneLine(wlans: seq<WirelessNetwork>) { forall w :: w in wlans ==> WlanOneLine(w) }

  /** The free texts that reach a batch hold no newline: name and used key of every active WLAN, and
      interface and device of the management VLAN if its line is written. */
  ghost predicate LineSafe(u: Update, caps: Capabilities, o: PlanOptions) {
    && WlansOneLine(Active(u, caps))
    && (ManagementAsked(u, o).Some? ==> OneLine(o.vlanInterface) && OneLine(o.vlanDevice))
  }

  /** And the interface, if written, is a plain name, so that its line is cut where it was joined. */
  ghost predicate TextSafe(u: Update, caps: Capabilities, o: PlanOptions) {
    LineSafe(u, caps, o) && (ManagementAsked(u, o).Some? ==> PlainName(o.vlanInterface))
  }

  lemma SlugPlain(s: string)
    requires AllSlugChars(s)
    ensures PlainName(s) && OneLine(s)
  {
  }

  lemma DecimalPlain(n: int)
    ensures PlainName(Decimal(n)) && OneLine(Decimal(n))
  {
  }

  lemma RadioSectionPlain(band: RadioBand, id: Option<int64>)
    ensures PlainName(RadioSection(band, id)) && OneLine(RadioSection(band, id))
  {
    if id.Some? { DecimalPlain(id.value); }
  }

  ghost predicate NameOk(s: string) { PlainName(s) && OneLine(s) }

  ghost predicate PairsOk(pairs: seq<Pair>) {
    forall p :: p in pairs ==> NameOk(p.0) && OneLine(p.1)
  }

  lemma SetAllEncodable(package: string, section: string, pairs: seq<Pair>)
    requires NameOk(package) && NameOk(section) && PairsOk(pairs)
    ensures forall c :: c in SetAll(package, section, pairs) ==> Encodable(c)
  {
    hide PlainName, OneLine;
    SetAllShape(package, section, pairs);
  }

  lemma RebuildEncodable(package: string, section: string, kind: string, pairs: seq<Pair>)
    requires NameOk(package) && NameOk(section) && OneLine(kind) && PairsOk(pairs)
    ensures forall c :: c in [Delete(package, section), AddSection(package, section, kind)] + SetAll(package, section, pairs)
              ==> Encodable(c)
  {
    hide PlainName, OneLine;
    SetAllEncodable(package, section, pairs);
  }

  lemma RadioNames()
    ensures NameOk("wireless") && NameOk("network") && NameOk("disabled") && NameOk("channel") && NameOk("htmode")
    ensures NameOk("txpower") && NameOk("device") && NameOk("proto")
  {
  }

  lemma WlanNames()
    ensures NameOk("openomada_managed") && NameOk("mode") && NameOk("ssid") && NameOk("hidden") && NameOk("isolate")
    ensures NameOk("encryption") && NameOk("key")
  {
  }

  lemma OptionNames()
    ensures NameOk("wireless") && NameOk("network") && NameOk("disabled") && NameOk("channel") && NameOk("htmode")
    ensures NameOk("txpower") && NameOk("openomada_managed") && NameOk("device") && NameOk("mode") && NameOk("ssid")
    ensures NameOk("hidden") && NameOk("isolate") && NameOk("encryption") && NameOk("key") && NameOk("proto")
    ensures OneLine("0") && OneLine("1") && OneLine("ap") && OneLine("lan") && OneLine("none") && OneLine("sae-mixed")
    ensures OneLine("psk2") && OneLine("wifi-iface") && OneLine("interface")
  {
    RadioNames();
    WlanNames();
    hide NameOk;
  }

  lemma HtModeOneLine(width: int64)
    ensures OneLine(HtMode(width))
  {
    DecimalPlain(width);
  }

  lemma RadioEncodable(r: RadioConfig)
    ensures forall c :: c in RadioLines(r) ==> Encodable(c)
  {
    OptionNames();
    RadioSectionPlain(r.band, r.radioId);
    DecimalPlain(r.channel.GetOr(0));
    HtModeOneLine(r.channelWidth.GetOr(0));
    DecimalPlain(r.txPower.GetOr(0));
    hide PlainName, OneLine, RadioSection, Decimal, HtMode;
    SetAllEncodable("wireless", RadioSection(r.band, r.radioId), RadioPairs(r));
  }

  lemma WlanPairsOk(w: WirelessNetwork, caps: Capabilities)
    requires WlanOneLine(w)
    ensures PairsOk(WlanPairs(w, caps))
  {
    OptionNames();
    RadioSectionPlain(w.band, w.radioId);
    VlanSectionPlain(w.vlan.vlanId.GetOr(0));
    hide PlainName, OneLine, RadioSection, VlanSection;
    assert OneLine(WlanNetwork(w, caps));
    assert PairsOk(BasePairs(w, caps));
    assert PairsOk(SecurityPairs(w.security));
    hide BasePairs, SecurityPairs, WlanNetwork;
  }

  lemma WlanEncodable(w: WirelessNetwork, caps: Capabilities)
    requires WlanOneLine(w)
    ensures forall c :: c in WlanLines(w, caps) ==> Encodable(c)
  {
    OptionNames();
    WlanSectionShape(w);
    SlugPlain(WlanSection(w));
    WlanPairsOk(w, caps);
    hide PlainName, OneLine, WlanSection, WlanPairs;
    RebuildEncodable("wireless", WlanSection(w), "wifi-iface", WlanPairs(w, caps));
  }

  lemma VlanSectionPlain(id: uint16)
    ensures NameOk(VlanSection(id))
  {
    DecimalPlain(id);
  }

  lemma VlanEncodable(id: uint16)
    ensures forall c :: c in VlanLines(id) ==> Encodable(c)
  {
    OptionNames();
    VlanSectionPlain(id);
    DecimalPlain(id);
    var device := "br-lan." + Decimal(id);
    assert OneLine(device);
    hide PlainName, OneLine, VlanSection, Decimal;
    RebuildEncodable("network", VlanSection(id), "interface", [("proto", "none"), ("device", device)]);
  }

  lemma {:induction false} AllRadioEncodable(radios: seq<RadioConfig>)
    ensures forall c :: c in AllRadioLines(radios) ==> Encodable(c)
  {
    if radios != [] {
      hide RadioLines;
      RadioEncodable(radios[0]);
      AllRadioEncodable(radios[1..]);
    }
  }

  lemma {:induction false} AllVlanEncodable(ids: seq<uint16>)
    ensures forall c :: c in AllVlanLines(ids) ==> Encodable(c)
  {
    if ids != [] {
      hide VlanLines;
      VlanEncodable(ids[0]);
      AllVlanEncodable(ids[1..]);
    }
  }

  lemma {:induction false} AllWlanEncodable(wlans: seq<WirelessNetwork>, caps: Capabilities)
    requires WlansOneLine(wlans)
    ensures forall c :: c in AllWlanLines(wlans, caps) ==> Encodable(c)
  {
    if wlans != [] {
      hide WlanLines;
      WlanEncodable(wlans[0], caps);
      AllWlanEncodable(wlans[1..], caps);
    }
  }

  lemma {:induction false} DropEncodable(wlans: seq<WirelessNetwork>)
    ensures forall c :: c in DropLines(wlans) ==> Encodable(c)
  {
    if wlans != [] {
      OptionNames();
      WlanSectionShape(wlans[0]);
      SlugPlain(WlanSection(wlans[0]));
      hide PlainName, OneLine, WlanSection;
      DropEncodable(wlans[1..]);
    }
  }

  lemma {:induction false} DefaultEncodable(sections: seq<string>)
    requires forall s :: s in sections ==> NameOk(s)
    ensures forall c :: c in DefaultLines(sections) ==> Encodable(c)
  {
    if sections != [] {
      OptionNames();
      hide PlainName, OneLine;
      DefaultEncodable(sections[1..]);
      assert NameOk(sections[0]);
    }
  }

  lemma DefaultPlain(band: RadioBand, id: Option<int64>)
    ensures NameOk("default_" + RadioName(band, id))
  {
    RadioSectionPlain(band, id);
    RadioIsNamed(band, id);
    assert NameOk("default_");
    hide RadioSection, RadioName;
  }

  lemma DefaultsPlain(wlans: seq<WirelessNetwork>)
    ensures forall s :: s in CollectDefaults([], wlans) ==> NameOk(s)
  {
    forall s | s in CollectDefaults([], wlans) ensures NameOk(s) {
      CollectedDefaults([], wlans, s);
      var w :| w in wlans && "default_" + RadioName(w.band, w.radioId) == s;
      DefaultPlain(w.band, w.radioId);
    }
  }

  function ManagementCommand(o: PlanOptions, device: string): Command { SetOption("network", o.vlanInterface, "device", device) }

  /** The management line is encodable exactly when its interface and device are. */
  lemma ManagementExactly(u: Update, o: PlanOptions)
    requires ManagementAsked(u, o).Some?
    ensures var c := ManagementCommand(o, ManagementAsked(u, o).value);
            && (FieldsOneLine(c) <==> OneLine(o.vlanInterface) && OneLine(o.vlanDevice))
            && (PlainNames(c) <==> PlainName(o.vlanInterface))
  {
    OptionNames();
    var v := u.managementVlan.value;
    if v.enabled {
      var tail := "." + Decimal(v.vlanId.value);
      DecimalPlain(v.vlanId.value);
      OneLineJoin(".", Decimal(v.vlanId.value));
      OneLineJoin(o.vlanDevice, tail);
      assert o.vlanDevice + "." + Decimal(v.vlanId.value) == o.vlanDevice + tail;
    }
  }

  /** Every line of a plan but the management line is encodable when the active WLANs' texts are. */
  ghost predicate Usual(c: Command, u: Update, o: PlanOptions) {
    Encodable(c) || (ManagementAsked(u, o).Some? && c == ManagementCommand(o, ManagementAsked(u, o).value))
  }

  lemma CommittedUsual(lines: seq<Command>, package: string, u: Update, o: PlanOptions)
    requires OneLine(package) && PlainName(package) && forall c :: c in lines ==> Usual(c, u, o)
    ensures forall c :: c in Committed(lines, package) ==> Usual(c, u, o)
  {
    assert Encodable(Commit(package));
    hide OneLine, PlainName, Encodable;
  }

  lemma NetworkUsual(u: Update, caps: Capabilities, o: PlanOptions)
    ensures forall c :: c in NetworkLines(u, caps, o) ==> Usual(c, u, o)
  {
    AllVlanEncodable(CollectIds([], Active(u, caps), caps));
    hide Encodable, AllVlanLines, CollectIds, ManagementDevice;
  }

  lemma WirelessEncodable(u: Update, caps: Capabilities)
    requires WlansOneLine(Active(u, caps))
    ensures forall c :: c in WirelessLines(u, caps) ==> Encodable(c)
  {
    AllRadioEncodable(u.radios);
    DefaultsPlain(Active(u, caps));
    DefaultEncodable(CollectDefaults([], Active(u, caps)));
    DropEncodable(Dropped(u, caps));
    AllWlanEncodable(Active(u, caps), caps);
    hide WlansOneLine, AllRadioLines, CollectDefaults, DefaultLines, DropLines, AllWlanLines, Encodable;
  }

  lemma PlanUsual(u: Update, caps: Capabilities, o: PlanOptions)
    requires WlansOneLine(Active(u, caps))
    ensures forall c :: c in PlanCommands(u, caps, o) ==> Usual(c, u, o)
  {
    OptionNames();
    NetworkUsual(u, caps, o);
    WirelessEncodable(u, caps);
    hide OneLine, PlainName, NetworkLines, WirelessLines, WlansOneLine, ManagementAsked, Encodable;
    CommittedUsual(NetworkLines(u, caps, o), "network", u, o);
    CommittedUsual(Committed(NetworkLines(u, caps, o), "network") + WirelessLines(u, caps), "wireless", u, o);
  }

  /** A plan whose texts are safe is encodable, line by line. */
  lemma PlanEncodable(u: Update, caps: Capabilities, o: PlanOptions)
    requires TextSafe(u, caps, o)
    ensures forall c :: c in PlanCommands(u, caps, o) ==> Encodable(c)
  {
    PlanUsual(u, caps, o);
    if ManagementAsked(u, o).Some? { ManagementExactly(u, o); }
    hide OneLine, PlainName, PlanCommands, WlansOneLine, ManagementAsked, FieldsOneLine, PlainNames;
  }

  /* ---- where the free texts stand in a plan ---- */

  lemma {:induction false} SetAllHas(package: string, section: string, pairs: seq<Pair>, i: nat)
    requires i < |pairs|
    ensures SetOption(package, section, pairs[i].0, pairs[i].1) in SetAll(package, section, pairs)
  {
    if i > 0 { SetAllHas(package, section, pairs[1..], i - 1); }
  }

  lemma {:induction false} AllWlanLinesHave(wlans: seq<WirelessNetwork>, caps: Capabilities, w: WirelessNetwork, c: Command)
    requires w in wlans && c in WlanLines(w, caps)
    ensures c in AllWlanLines(wlans, caps)
  {
    hide WlanLines;
    if w != wlans[0] { AllWlanLinesHave(wlans[1..], caps, w, c); }
  }

  lemma PlanHas(u: Update, caps: Capabilities, o: PlanOptions, c: Command)
    requires c in NetworkLines(u, caps, o) || c in AllWlanLines(Active(u, caps), caps)
    ensures c in PlanCommands(u, caps, o)
  {
    hide NetworkLines, AllRadioLines, DefaultLines, CollectDefaults, DropLines, AllWlanLines;
  }

  lemma PlanHasTexts(u: Update, caps: Capabilities, o: PlanOptions, w: WirelessNetwork)
    requires w in Active(u, caps)
    ensures SetOption("wireless", WlanSection(w), "ssid", w.name) in PlanCommands(u, caps, o)
    ensures w.security.pskConfigured && w.security.pskKey != "" ==>
              SetOption("wireless", WlanSection(w), "key", w.security.pskKey) in PlanCommands(u, caps, o)
  {
    var pairs, section := WlanPairs(w, caps), WlanSection(w);
    hide WlanSection, PlanCommands, AllWlanLines, Active;
    assert pairs[4] == ("ssid", w.name);
    SetAllHas("wireless", section, pairs, 4);
    AllWlanLinesHave(Active(u, caps), caps, w, SetOption("wireless", section, "ssid", w.name));
    PlanHas(u, caps, o, SetOption("wireless", section, "ssid", w.name));
    if w.security.pskConfigured && w.security.pskKey != "" {
      assert pairs[|pairs| - 1] == ("key", w.security.pskKey);
      SetAllHas("wireless", section, pairs, |pairs| - 1);
      AllWlanLinesHave(Active(u, caps), caps, w, SetOption("wireless", section, "key", w.security.pskKey));
      PlanHas(u, caps, o, SetOption("wireless", section, "key", w.security.pskKey));
    }
  }

  lemma PlanHasManagement(u: Update, caps: Capabilities, o: PlanOptions)
    requires ManagementAsked(u, o).Some?
    ensures ManagementCommand(o, ManagementAsked(u, o).value) in PlanCommands(u, caps, o)
  {
    assert ManagementCommand(o, ManagementAsked(u, o).value) in NetworkLines(u, caps, o) by {
      hide AllVlanLines, CollectIds, ManagementDevice;
    }
    hide NetworkLines, PlanCommands;
    PlanHas(u, caps, o, ManagementCommand(o, ManagementAsked(u, o).value));
  }

  /** Every text of a plan is one line exactly when the free texts that reach it are. */
  lemma PlanLinesExactly(u: Update, caps: Capabilities, o: PlanOptions)
    ensures (forall c :: c in PlanCommands(u, caps, o) ==> OneLine(CommandText(c))) <==> LineSafe(u, caps, o)
  {
    hide PlanCommands, CommandText, WlanSection, ManagementAsked, PlainNames;
    forall c ensures OneLine(CommandText(c)) <==> FieldsOneLine(c) { TextOneLine(c); }
    if ManagementAsked(u, o).Some? {
      PlanHasManagement(u, caps, o);
      ManagementExactly(u, o);
    }
    if LineSafe(u, caps, o) {
      PlanUsual(u, caps, o);
      hide OneLine, FieldsOneLine, WlansOneLine;
    } else if WlansOneLine(Active(u, caps)) {
      hide OneLine, FieldsOneLine, WlansOneLine;
    } else {
      var w :| w in Active(u, caps) && !WlanOneLine(w);
      PlanHasTexts(u, caps, o, w);
      hide OneLine;
    }
  }

  /* ---- what decoding can give ---- */

  ghost predicate Decodable(c: Command) { FieldsOneLine(c) && (c.SetOption? ==> PlainName(c.section)) }

  lemma CutOneLine(s: string, c: char)
    requires OneLine(s)
    ensures Cut(s, c).Some? ==> OneLine(Cut(s, c).value.0) && OneLine(Cut(s, c).value.1) && Free(Cut(s, c).value.0, c)
    ensures forall d :: Free(s, d) && Cut(s, c).Some? ==> Free(Cut(s, c).value.0, d) && Free(Cut(s, c).value.1, d)
  {
  }

  lemma ParseSetDecodable(rest: string)
    requires OneLine(rest)
    ensures ParseSet(rest).Some? ==> Decodable(ParseSet(rest).value)
  {
    hide OneLine, Cut, Unquote;
    CutOneLine(rest, '=');
    var sides := Cut(rest, '=');
    if sides.Some? {
      CutOneLine(sides.value.0, '.');
      var names := Cut(sides.value.0, '.');
      if names.Some? {
        CutOneLine(names.value.1, '.');
        var path, right := Cut(names.value.1, '.'), sides.value.1;
        if path.Some? && right != "" && right[0] == '\'' {
          ValueOneLine(right);
        }
      }
    }
  }

  lemma ValueOneLine(right: string)
    requires OneLine(right) && right != ""
    ensures Unquote(right[1..]).Some? ==> OneLine(Unquote(right[1..]).value)
  {
    var value := Unquote(right[1..]);
    if value.Some? {
      QuoteRoundTrip(right[1..], value.value);
      QuoteOneLine(value.value);
      OneLineJoin(QuoteUci(value.value), "'");
    }
  }

  lemma ParsedDecodable(line: string)
    requires OneLine(line)
    ensures ParseCommand(line).Some? ==> Decodable(ParseCommand(line).value)
  {
    hide ParseSet, Cut;
    if After("delete ", line).Some? { CutOneLine(After("delete ", line).value, '.'); }
    if After("set ", line).Some? { ParseSetDecodable(After("set ", line).value); }
  }

  lemma {:induction false} PiecesOneLine(text: string)
    ensures forall line :: line in SplitLines(text) ==> OneLine(line)
    decreases |text|
  {
    var i := IndexOf(text, '\n', 0);
    if i < |text| { PiecesOneLine(text[i + 1..]); } else { assert text[..i] == text; }
  }

  lemma {:induction false} DecodedDecodable(lines: seq<string>)
    requires forall line :: line in lines ==> OneLine(line)
    ensures forall c :: c in DecodeLines(lines) ==> Decodable(c)
  {
    if lines != [] {
      ParsedDecodable(lines[0]);
      hide ParseCommand, Decodable, OneLine;
      DecodedDecodable(lines[1..]);
    }
  }

  /** The text of a plan decodes to the plan exactly when its texts are safe. */
  lemma PlanTextExactly(u: Update, caps: Capabilities, o: PlanOptions)
    ensures DecodeBatch(RenderBatch(Texts(PlanCommands(u, caps, o)))) == PlanCommands(u, caps, o) <==> TextSafe(u, caps, o)
  {
    var plan := PlanCommands(u, caps, o);
    var text := RenderBatch(Texts(plan));
    hide PlanCommands, RenderBatch, CommandText, DecodeLines, SplitLines, WlanSection, ManagementAsked, OneLine;
    if TextSafe(u, caps, o) {
      PlanEncodable(u, caps, o);
      BatchMeansCommands(plan);
    }
    if DecodeBatch(text) == plan {
      PiecesOneLine(text);
      DecodedDecodable(SplitLines(text));
      forall w | w in Active(u, caps) ensures WlanOneLine(w) { PlanHasTexts(u, caps, o, w); }
      if ManagementAsked(u, o).Some? {
        PlanHasManagement(u, caps, o);
        ManagementExactly(u, o);
      }
    }
  }

  /** The text of a plan whose texts are safe, decoded and run, leaves the store as the update intends. */
  lemma PlanTextReachesIntended(u: Update, caps: Capabilities, o: PlanOptions, s: Store, k: Key)
    requires TextSafe(u, caps, o)
    ensures Lookup(Run(DecodeBatch(RenderBatch(Texts(PlanCommands(u, caps, o)))), s).staged, k)
         == Intended(u, caps, o, k, Lookup(s.staged, k))
  {
    hide PlanCommands, Intended, DecodeBatch, RenderBatch, TextSafe;
    PlanTextExactly(u, caps, o);
    PlanReachesIntended(u, caps, o, s, k);
  }

  /* ---- a plan that does not survive ---- */

  function LineMeaning(line: string): seq<Command> {
    var c := ParseCommand(line);
    if c.Some? then [c.value] else []
  }

  lemma DecodeLine(line: string, rest: string)
    requires OneLine(line)
    ensures DecodeBatch(line + (['\n'] + rest)) == LineMeaning(line) + DecodeBatch(rest)
  {
    var text := line + (['\n'] + rest);
    assert text == line + ['\n'] + rest;
    IndexOfFirst(line, '\n', rest);
    assert text[..|line|] == line && text[|line| + 1..] == rest;
    assert ([line] + SplitLines(rest))[1..] == SplitLines(rest);
    hide ParseCommand, IndexOf;
  }

  /** Encodable commands in front of a text mean themselves. */
  lemma {:induction false} DecodeAfter(commands: seq<Command>, lines: seq<string>)
    requires forall c :: c in commands ==> Encodable(c)
    ensures DecodeBatch(RenderBatch(Texts(commands) + lines)) == commands + DecodeBatch(RenderBatch(lines))
  {
    if commands == [] {
      assert Texts(commands) + lines == lines && commands + DecodeBatch(RenderBatch(lines)) == DecodeBatch(RenderBatch(lines));
    } else {
      var c, rest := commands[0], Texts(commands[1..]) + lines;
      assert c in commands;
      var all := Texts(commands) + lines;
      assert all[0] == CommandText(c) && all[1..] == rest;
      assert RenderBatch(all) == CommandText(c) + (['\n'] + RenderBatch(rest));
      EncodableText(c);
      CommandRoundTrip(c);
      hide Encodable, CommandText, OneLine, DecodeBatch, ParseCommand;
      DecodeLine(CommandText(c), RenderBatch(rest));
      DecodeAfter(commands[1..], lines);
      assert commands == [c] + commands[1..];
      Regroup([c], commands[1..], DecodeBatch(RenderBatch(lines)));
    }
  }

  ghost predicate Unescaped(s: string) { Free(s, '\'') && Free(s, '\\') }

  lemma {:induction false} QuoteUnescaped(value: string)
    requires Unescaped(value)
    ensures QuoteUci(value) == value
  {
    if value != "" {
      QuoteUnescaped(value[1..]);
      assert value == [value[0]] + value[1..];
    }
  }

  function DeleteLine(victim: string): string { "delete wireless." + victim }

  /** A network name of two lines, the second of which reads as a command. */
  function TwoLineName(victim: string): string { ['a', '\n'] + (DeleteLine(victim) + ['\n']) }

  lemma DeleteLineMeaning(victim: string)
    ensures LineMeaning(DeleteLine(victim)) == [Delete("wireless", victim)]
    ensures LineMeaning("'") == []
  {
    var c := Delete("wireless", victim);
    assert CommandText(c) == DeleteLine(victim);
    assert PlainName("wireless");
    CommandRoundTrip(c);
  }

  function OpenLine(section: string): string {
    "set " + Assignment(Dotted("wireless", Dotted(section, "ssid")), ['\'', 'a'])
  }

  lemma OpenLineMeaning(section: string)
    requires PlainName(section)
    ensures LineMeaning(OpenLine(section)) == []
  {
    var rest := Assignment(Dotted("wireless", Dotted(section, "ssid")), ['\'', 'a']);
    AfterWord("set ", rest);
    assert PlainName("wireless") && PlainName("ssid");
    ParseSetRight("wireless", section, "ssid", ['\'', 'a']);
    UnclosedValue(section);
    hide Assignment, Dotted, ParseValue, ParseSet;
    assert OpenLine(section)[0] == 's';
  }

  lemma UnclosedValue(section: string)
    ensures ParseValue("wireless", section, "ssid", ['\'', 'a']) == None
  {
    assert ['\'', 'a'][1..] == ['a'] && ['a'][1..] == [];
    assert Unquote(['a']) == None;
  }

  lemma NameLineText(section: string, victim: string)
    requires Unescaped(victim)
    ensures CommandText(SetOption("wireless", section, "ssid", TwoLineName(victim)))
         == OpenLine(section) + (['\n'] + (DeleteLine(victim) + (['\n'] + "'")))
  {
    var left := Dotted("wireless", Dotted(section, "ssid")) + ['='];
    var rest := ['\n'] + (DeleteLine(victim) + (['\n'] + "'"));
    QuotedName(victim);
    hide QuoteUci, Dotted, DeleteLine, Quoted, TwoLineName;
    Regroup(left, ['\'', 'a'], rest);
    Regroup("set ", left + ['\'', 'a'], rest);
  }

  lemma QuotedName(victim: string)
    requires Unescaped(victim)
    ensures Quoted(TwoLineName(victim)) == ['\'', 'a'] + (['\n'] + (DeleteLine(victim) + (['\n'] + "'")))
  {
    UnescapedName(victim);
    QuoteUnescaped(TwoLineName(victim));
    assert Quoted(TwoLineName(victim)) == ['\''] + TwoLineName(victim) + ['\''];
    assert TwoLineName(victim) == ['a', '\n'] + (DeleteLine(victim) + ['\n']);
    hide *;
    Requote(DeleteLine(victim));
  }

  lemma UnescapedName(victim: string)
    requires Unescaped(victim)
    ensures Unescaped(TwoLineName(victim))
  {
    assert Unescaped("delete wireless.");
  }

  lemma Requote(line: string)
    ensures ['\''] + (['a', '\n'] + (line + ['\n'])) + ['\''] == ['\'', 'a'] + (['\n'] + (line + (['\n'] + "'")))
  {
  }

  lemma RenderHead(line: string, rest: seq<string>)
    ensures RenderBatch([line] + rest) == line + (['\n'] + RenderBatch(rest))
  {
    assert ([line] + rest)[1..] == rest;
  }

  lemma ThreeLines(open: string, middle: string, tail: string)
    requires OneLine(open) && OneLine(middle)
    ensures DecodeBatch((open + (['\n'] + (middle + (['\n'] + "'")))) + (['\n'] + tail))
         == LineMeaning(open) + (LineMeaning(middle) + (LineMeaning("'") + DecodeBatch(tail)))
  {
    assert OneLine("'");
    hide *;
    var third := "'" + (['\n'] + tail);
    Reline(open, middle, "'", ['\n'], tail);
    DecodeLine(open, middle + (['\n'] + third));
    DecodeLine(middle, third);
    DecodeLine("'", tail);
  }

  lemma NameLinesAreLines(section: string, victim: string)
    requires NameOk(section) && OneLine(victim)
    ensures OneLine(OpenLine(section)) && OneLine(DeleteLine(victim))
  {
  }

  /** The line of such a name means the command in it, and no longer the name. */
  lemma NameLineMeaning(section: string, victim: string, rest: seq<string>)
    requires NameOk(section) && OneLine(victim) && Unescaped(victim)
    ensures DecodeBatch(RenderBatch([CommandText(SetOption("wireless", section, "ssid", TwoLineName(victim)))] + rest))
         == [Delete("wireless", victim)] + DecodeBatch(RenderBatch(rest))
  {
    var line := CommandText(SetOption("wireless", section, "ssid", TwoLineName(victim)));
    NameLineText(section, victim);
    OpenLineMeaning(section);
    DeleteLineMeaning(victim);
    NameLinesAreLines(section, victim);
    hide *;
    RenderHead(line, rest);
    ThreeLines(OpenLine(section), DeleteLine(victim), RenderBatch(rest));
    var after := DecodeBatch(RenderBatch(rest));
    assert [] + after == after && [] + ([Delete("wireless", victim)] + after) == [Delete("wireless", victim)] + after;
  }

  lemma Reline<T>(a: seq<T>, b: seq<T>, c: seq<T>, nl: seq<T>, rest: seq<T>)
    ensures (a + (nl + (b + (nl + c)))) + (nl + rest) == a + (nl + (b + (nl + (c + (nl + rest)))))
  {
    Regroup(a, nl + (b + (nl + c)), nl + rest);
    Regroup(nl, b + (nl + c), nl + rest);
    Regroup(b, nl + c, nl + rest);
    Regroup(nl, c, nl + rest);
  }

  /* ---- an update with such a name ---- */

  function OneWlan(name: string): WirelessNetwork {
    WirelessNetwork(TwoG, None, None, Some(1), name, None, None, WirelessVlan(None, None, None),
                    WirelessSecurity(None, false, "", false, false, false), false)
  }

  function OneWlanUpdate(name: string): Update {
    Update([], [OneWlan(name)], None, None, 0, false, false, [], 0, false, [])
  }

  lemma {:induction false} SetAllAppend(package: string, section: string, a: seq<Pair>, b: seq<Pair>)
    ensures SetAll(package, section, a + b) == SetAll(package, section, a) + SetAll(package, section, b)
  {
    if a == [] {
      assert a + b == b;
    } else {
      assert (a + b)[1..] == a[1..] + b;
      SetAllAppend(package, section, a[1..], b);
    }
  }

  // the section and the parts of the plan around the name, which do not depend on it
  function OwnSection(): string { WlanSection(OneWlan("a")) }

  function PairsBefore(): seq<Pair> {
    [("openomada_managed", "1"), ("device", RadioSection(TwoG, None)), ("mode", "ap"), ("network", "lan")]
  }

  function PairsAfter(): seq<Pair> { [("hidden", "0"), ("encryption", "none")] }

  function PlanBefore(): seq<Command> {
    [SetOption("wireless", DefaultSection(OneWlan("a")), "disabled", "1")]
    + ([Delete("wireless", OwnSection()), AddSection("wireless", OwnSection(), "wifi-iface")]
       + SetAll("wireless", OwnSection(), PairsBefore()))
  }

  function PlanAfter(): seq<Command> { SetAll("wireless", OwnSection(), PairsAfter()) + [Commit("wireless")] }

  lemma OwnLines(name: string, caps: Capabilities)
    ensures WlanLines(OneWlan(name), caps)
         == [Delete("wireless", OwnSection()), AddSection("wireless", OwnSection(), "wifi-iface")]
            + (SetAll("wireless", OwnSection(), PairsBefore())
               + ([SetOption("wireless", OwnSection(), "ssid", name)] + SetAll("wireless", OwnSection(), PairsAfter())))
  {
    var w, own := OneWlan(name), OwnSection();
    assert WlanSection(w) == own;
    OwnPairs(name, caps);
    assert SetAll("wireless", own, [("ssid", name)]) == [SetOption("wireless", own, "ssid", name)] by {
      hide WlanSection, OwnSection, OneWlan;
      assert [("ssid", name)][1..] == [];
    }
    hide WlanSection, OwnSection, OneWlan, WlanPairs, PairsBefore, PairsAfter, SetAll;
    SetAllAppend("wireless", own, PairsBefore(), [("ssid", name)] + PairsAfter());
    SetAllAppend("wireless", own, [("ssid", name)], PairsAfter());
  }

  lemma OwnPairs(name: string, caps: Capabilities)
    ensures WlanPairs(OneWlan(name), caps) == PairsBefore() + ([("ssid", name)] + PairsAfter())
  {
    hide RadioSection;
  }

  lemma OneWlanWireless(name: string, caps: Capabilities)
    requires caps.maxSsids >= 1
    ensures WirelessLines(OneWlanUpdate(name), caps)
         == [SetOption("wireless", DefaultSection(OneWlan("a")), "disabled", "1")] + WlanLines(OneWlan(name), caps)
  {
    var u, w, section := OneWlanUpdate(name), OneWlan(name), DefaultSection(OneWlan("a"));
    assert Active(u, caps) == [w] && Dropped(u, caps) == [] && [w][1..] == [] && [section][1..] == [];
    assert DefaultSection(w) == section;
    hide WlanLines, DefaultSection;
    assert CollectDefaults([], [w]) == CollectDefaults([section], []) == [section];
    var line := SetOption("wireless", section, "disabled", "1");
    assert DefaultLines([section]) == [line] + DefaultLines([]) == [line];
    assert AllWlanLines([w], caps) == WlanLines(w, caps) + AllWlanLines([], caps) == WlanLines(w, caps);
    assert AllRadioLines(u.radios) == [] && DropLines(Dropped(u, caps)) == [];
  }

  lemma OneWlanNetwork(name: string, caps: Capabilities, o: PlanOptions)
    requires caps.maxSsids >= 1
    ensures NetworkLines(OneWlanUpdate(name), caps, o) == []
  {
    var u, w := OneWlanUpdate(name), OneWlan(name);
    assert Active(u, caps) == [w] && [w][1..] == [];
    assert CollectIds([], [w], caps) == CollectIds([], [], caps) == [];
  }

  lemma PlanAround(name: string, caps: Capabilities, o: PlanOptions)
    requires caps.maxSsids >= 1
    ensures PlanCommands(OneWlanUpdate(name), caps, o)
         == PlanBefore() + ([SetOption("wireless", OwnSection(), "ssid", name)] + PlanAfter())
  {
    OwnLines(name, caps);
    OneWlanWireless(name, caps);
    OneWlanNetwork(name, caps, o);
    var own := OwnSection();
    var first := [SetOption("wireless", DefaultSection(OneWlan("a")), "disabled", "1")];
    var rebuild := [Delete("wireless", own), AddSection("wireless", own, "wifi-iface")];
    var ssid := [SetOption("wireless", own, "ssid", name)];
    var before, after := SetAll("wireless", own, PairsBefore()), SetAll("wireless", own, PairsAfter());
    hide OwnSection, DefaultSection, PairsBefore, PairsAfter, SetAll, NetworkLines, WirelessLines, WlanLines;
    CommittedAlone(WirelessLines(OneWlanUpdate(name), caps), NetworkLines(OneWlanUpdate(name), caps, o));
    Nested(first, rebuild, before, ssid, after, [Commit("wireless")]);
  }

  lemma CommittedAlone(lines: seq<Command>, none: seq<Command>)
    requires lines != [] && none == []
    ensures Committed(Committed(none, "network") + lines, "wireless") == lines + [Commit("wireless")]
  {
    assert [] + lines == lines;
  }

  lemma Nested<T>(a: seq<T>, b: seq<T>, c: seq<T>, d: seq<T>, e: seq<T>, f: seq<T>)
    ensures (a + (b + (c + (d + e)))) + f == (a + (b + c)) + (d + (e + f))
  {
  }

  lemma AroundEncodable(caps: Capabilities, o: PlanOptions)
    requires caps.maxSsids >= 1
    ensures forall c :: c in PlanBefore() || c in PlanAfter() ==> Encodable(c)
  {
    PlanAround("a", caps, o);
    OneLineNameIsSafe(caps, o);
    hide *;
    PlanEncodable(OneWlanUpdate("a"), caps, o);
  }

  lemma OneLineNameIsSafe(caps: Capabilities, o: PlanOptions)
    requires caps.maxSsids >= 1
    ensures TextSafe(OneWlanUpdate("a"), caps, o)
  {
    assert Active(OneWlanUpdate("a"), caps) == [OneWlan("a")];
  }

  lemma AfterKeepsAway(k: Key)
    requires k.section != OwnSection()
    ensures Untouched(PlanAfter(), k)
  {
    SetAllShape("wireless", OwnSection(), PairsAfter());
    hide OwnSection;
  }

  lemma TwoLineNameIsAccepted(victim: string, caps: Capabilities, o: PlanOptions)
    requires caps.maxSsids >= 1 && caps.wlanConfig && TwoG in caps.radioBands && Free(victim, '\0') && |victim| <= 13
    ensures var name := TwoLineName(victim);
            && |name| <= 32 && Free(name, '\0') && Admissible(OneWlanUpdate(name), caps, o)
            && !TextSafe(OneWlanUpdate(name), caps, o)
  {
    var name := TwoLineName(victim);
    assert name[1] == '\n' && Active(OneWlanUpdate(name), caps) == [OneWlan(name)] && !WlanOneLine(OneWlan(name));
  }

  lemma TextDecodes(victim: string, caps: Capabilities, o: PlanOptions)
    requires caps.maxSsids >= 1 && OneLine(victim) && Unescaped(victim)
    ensures DecodeBatch(RenderBatch(Texts(PlanCommands(OneWlanUpdate(TwoLineName(victim)), caps, o))))
         == PlanBefore() + ([Delete("wireless", victim)] + PlanAfter())
  {
    var ssid := SetOption("wireless", OwnSection(), "ssid", TwoLineName(victim));
    PlanAround(TwoLineName(victim), caps, o);
    AroundEncodable(caps, o);
    OwnSectionPlain();
    hide *;
    NameLineMeaning(OwnSection(), victim, Texts(PlanAfter()));
    DecodeAround(PlanBefore(), ssid, PlanAfter(), [Delete("wireless", victim)]);
  }

  lemma OwnSectionPlain()
    ensures NameOk(OwnSection())
  {
    WlanSectionShape(OneWlan("a"));
    SlugPlain(OwnSection());
  }

  lemma DecodeAround(before: seq<Command>, c: Command, after: seq<Command>, meaning: seq<Command>)
    requires forall b :: b in before || b in after ==> Encodable(b)
    requires DecodeBatch(RenderBatch([CommandText(c)] + Texts(after))) == meaning + DecodeBatch(RenderBatch(Texts(after)))
    ensures DecodeBatch(RenderBatch(Texts(before + ([c] + after)))) == before + (meaning + after)
  {
    assert Texts([c]) == [CommandText(c)];
    hide *;
    TextsAppend([c], after);
    TextsAppend(before, [c] + after);
    DecodeAfter(before, [CommandText(c)] + Texts(after));
    BatchMeansCommands(after);
  }

  lemma DeletedLast(before: seq<Command>, after: seq<Command>, k: Key, s: Store)
    requires Untouched(after, k)
    ensures Lookup(Run(before + ([Delete(k.package, k.section)] + after), s).staged, k) == None
  {
    var c := [Delete(k.package, k.section)];
    var start := Lookup(s.staged, k);
    RunSection(before + (c + after), k, s);
    SectionAfterAppend(before, c + after, k, start);
    SectionAfterAppend(c, after, k, SectionAfter(before, k, start));
    SectionAfterOne(c[0], k, SectionAfter(before, k, start));
    SectionAfterUntouched(after, k, None);
  }

  /** The frame of a plan need not be the frame of its text. A name of two lines that the agent
      accepts makes the text delete a section the plan keeps: any section of a short plain name
      outside the agent's own, in every store. */
  lemma TextLeavesFrame(victim: string, caps: Capabilities, o: PlanOptions, s: Store)
    requires caps.maxSsids >= 1 && caps.wlanConfig && TwoG in caps.radioBands
    requires OneLine(victim) && Unescaped(victim) && Free(victim, '\0') && |victim| <= 13 && !("openomada_" <= victim)
    ensures var (name, k) := (TwoLineName(victim), Key("wireless", victim));
            var plan := PlanCommands(OneWlanUpdate(name), caps, o);
            && |name| <= 32 && Free(name, '\0') && Admissible(OneWlanUpdate(name), caps, o)
            && !TextSafe(OneWlanUpdate(name), caps, o)
            && (Lookup(s.staged, k).Some? ==> Lookup(Run(plan, s).staged, k).Some?)
            && Lookup(Run(DecodeBatch(RenderBatch(Texts(plan))), s).staged, k) == None
  {
    var k := Key("wireless", victim);
    TwoLineNameIsAccepted(victim, caps, o);
    PlanFrame(OneWlanUpdate(TwoLineName(victim)), caps, o, s, k);
    TextDecodes(victim, caps, o);
    WlanSectionShape(OneWlan("a"));
    AfterKeepsAway(k);
    hide *;
    DeletedLast(PlanBefore(), PlanAfter(), k, s);
  }
}
