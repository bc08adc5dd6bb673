/** What running a plan achieves. `Intended` says, section by section and without reference to
    any command, what an update asks of a store; the compiled plan is proved to reach it from
    every starting store, to be repeatable, and to leave everything else alone. */
module UciCorrectness {
  import opened Wrappers
  import opened FixedWidth
  import opened Config
  import opened Text
  import opened UciNaming
  import opened UciText
  import opened UciStore
  import opened UciPlan
  import opened UciTargets

  /* ---- the intended store ---- */

  function Present(present: bool, key: string, value: string): map<string, string> {
    if present then map[key := value] else map[]
  }

  /** All options of an active WLAN's section. */
  function WlanOptions(w: WirelessNetwork, caps: Capabilities): map<string, string> {
    map["openomada_managed" := "1",
        "device" := RadioName(w.band, w.radioId),
        "mode" := "ap",
        "network" := NetworkName(w, caps),
        "ssid" := w.name,
        "hidden" := if w.broadcast == Some(false) then "1" else "0"]
    + Present(w.clientIsolation.Some?, "isolate", if w.clientIsolation == Some(true) then "1" else "0")
    + map["encryption" := if !w.security.pskConfigured then "none" else if w.security.pskVersion == Some(3) then "sae-mixed" else "psk2"]
    + Present(w.security.pskConfigured && w.security.pskKey != "", "key", w.security.pskKey)
  }

  function RadioOptions(r: RadioConfig): map<string, string> {
    Present(r.enabled.Some?, "disabled", if r.enabled == Some(false) then "1" else "0")
    + Present(r.channel.Some?, "channel", Decimal(r.channel.GetOr(0)))
    + Present(r.channelWidth.Some?, "htmode", ModeName(r.channelWidth.GetOr(0)))
    + Present(r.txPower.Some?, "txpower", Decimal(r.txPower.GetOr(0)))
  }

  /** What the radios of an update assign to one section, later radios winning. */
  function RadioOverrides(radios: seq<RadioConfig>, section: string): map<string, string> {
    if radios == [] then map[]
    else
      (if RadioName(radios[0].band, radios[0].radioId) == section then RadioOptions(radios[0]) else map[])
      + RadioOverrides(radios[1..], section)
  }

  /** The last WLAN that owns a section. */
  function Owner(wlans: seq<WirelessNetwork>, section: string): Option<WirelessNetwork> {
    if wlans == [] then None
    else
      var later := Owner(wlans[1..], section);
      if later.Some? then later
      else if WlanSection(wlans[0]) == section then Some(wlans[0])
      else None
  }

  ghost predicate IsWlanSection(wlans: seq<WirelessNetwork>, section: string) {
    exists w :: w in wlans && WlanSection(w) == section
  }

  ghost predicate IsDefaultSection(wlans: seq<WirelessNetwork>, section: string) {
    exists w :: w in wlans && "default_" + RadioName(w.band, w.radioId) == section
  }

  ghost function IntendedWireless(u: Update, caps: Capabilities, section: string, before: Option<Section>): Option<Section> {
    var owner := Owner(Active(u, caps), section);
    if owner.Some? then Some(Section("wifi-iface", WlanOptions(owner.value, caps)))
    else if IsWlanSection(Dropped(u, caps), section) then None
    else
      Over(Over(before, RadioOverrides(u.radios, section)),
           Present(IsDefaultSection(Active(u, caps), section), "disabled", "1"))
  }

  /** The VLAN ids the active WLANs bring in. */
  ghost predicate UsesVlan(u: Update, caps: Capabilities, id: uint16) {
    caps.ssidVlan && exists w :: w in Active(u, caps) && w.vlan.vlanId == Some(id)
  }

  ghost function VlanTarget(id: uint16): Section {
    Section("interface", map["proto" := "none", "device" := "br-lan." + Decimal(id)])
  }

  ghost function IntendedVlan(u: Update, caps: Capabilities, section: string, before: Option<Section>): Option<Section> {
    if exists id :: UsesVlan(u, caps, id) && VlanName(id) == section then
      var id :| UsesVlan(u, caps, id) && VlanName(id) == section;
      Some(VlanTarget(id))
    else before
  }

  ghost function IntendedNetwork(u: Update, caps: Capabilities, o: PlanOptions, section: string, before: Option<Section>)
    : Option<Section>
  {
    Over(IntendedVlan(u, caps, section, before),
         if section == o.vlanInterface then ManagementTarget(u, o) else map[])
  }

  ghost function Intended(u: Update, caps: Capabilities, o: PlanOptions, k: Key, before: Option<Section>): Option<Section> {
    if k.package == "wireless" then IntendedWireless(u, caps, k.section, before)
    else if k.package == "network" then IntendedNetwork(u, caps, o, k.section, before)
    else before
  }

  /* ---- assignments of one section ---- */

  function MapOf(pairs: seq<Pair>): map<string, string> {
    if pairs == [] then map[] else map[pairs[0].0 := pairs[0].1] + MapOf(pairs[1..])
  }

  lemma {:induction false} MapOfAppend(a: seq<Pair>, b: seq<Pair>)
    ensures MapOf(a + b) == MapOf(a) + MapOf(b)
  {
    if a == [] {
      assert a + b == b;
    } else {
      assert (a + b)[1..] == a[1..] + b;
      MapOfAppend(a[1..], b);
      MapPlusAssoc(map[a[0].0 := a[0].1], MapOf(a[1..]), MapOf(b));
    }
  }

  lemma MapOfWhen(present: bool, key: string, value: string)
    ensures MapOf(When(present, (key, value))) == Present(present, key, value)
  {
    assert [(key, value)][1..] == [];
  }

  lemma {:induction false} SetAllAssigned(package: string, section: string, pairs: seq<Pair>, k: Key)
    ensures var lines := SetAll(package, section, pairs);
            OnlySets(lines, k) && Assigned(lines, k) == (if k == Key(package, section) then MapOf(pairs) else map[])
    ensures k != Key(package, section) ==> Untouched(SetAll(package, section, pairs), k)
  {
    if pairs != [] { SetAllAssigned(package, section, pairs[1..], k); }
  }

  /** A block that deletes, creates and fills a section. */
  lemma RebuildSection(package: string, section: string, kind: string, pairs: seq<Pair>, k: Key, before: Option<Section>)
    ensures SectionAfter([Delete(package, section), AddSection(package, section, kind)] + SetAll(package, section, pairs), k, before)
         == if k == Key(package, section) then Some(Section(kind, MapOf(pairs))) else before
  {
    var lines := SetAll(package, section, pairs);
    var head := [Delete(package, section), AddSection(package, section, kind)];
    SectionAfterAppend(head, lines, k, before);
    SectionAfterTwo(head[0], head[1], k, before);
    SetAllAssigned(package, section, pairs, k);
    if k == Key(package, section) {
      assert SectionAfter(head, k, before) == Some(Section(kind, map[]));
      SetsOverride(lines, k, Some(Section(kind, map[])));
      assert map[] + MapOf(pairs) == MapOf(pairs);
    } else {
      SectionAfterUntouched(lines, k, before);
    }
  }

  lemma MapOfSnoc(pairs: seq<Pair>, last: Pair)
    ensures MapOf(pairs + [last]) == MapOf(pairs)[last.0 := last.1]
  {
    MapOfAppend(pairs, [last]);
    MapOfWhen(true, last.0, last.1);
  }

  lemma MapOfTwo(a: Pair, b: Pair)
    ensures MapOf([a, b]) == map[a.0 := a.1, b.0 := b.1]
  {
    MapOfSnoc([], a);
    MapOfSnoc([a], b);
    assert [] + [a] == [a] && [a] + [b] == [a, b];
  }

  lemma MapOfSix(a: Pair, b: Pair, c: Pair, d: Pair, e: Pair, f: Pair)
    ensures MapOf([a, b, c, d, e, f])
         == map[a.0 := a.1, b.0 := b.1, c.0 := c.1, d.0 := d.1, e.0 := e.1, f.0 := f.1]
  {
    hide MapOf;
    MapOfTwo(a, b);
    MapOfSnoc([a, b], c);
    assert [a, b] + [c] == [a, b, c];
    MapOfSnoc([a, b, c], d);
    assert [a, b, c] + [d] == [a, b, c, d];
    MapOfSnoc([a, b, c, d], e);
    assert [a, b, c, d] + [e] == [a, b, c, d, e];
    MapOfSnoc([a, b, c, d, e], f);
    assert [a, b, c, d, e] + [f] == [a, b, c, d, e, f];
  }

  lemma BasePairsMap(w: WirelessNetwork, caps: Capabilities)
    ensures MapOf(BasePairs(w, caps)) ==
            map["openomada_managed" := "1", "device" := RadioSection(w.band, w.radioId), "mode" := "ap",
                "network" := WlanNetwork(w, caps), "ssid" := w.name,
                "hidden" := if w.broadcast == Some(false) then "1" else "0"]
  {
    hide RadioSection, WlanNetwork, MapOf;
    MapOfSix(("openomada_managed", "1"), ("device", RadioSection(w.band, w.radioId)), ("mode", "ap"),
             ("network", WlanNetwork(w, caps)), ("ssid", w.name), ("hidden", Flag(w.broadcast == Some(false))));
  }

  lemma WlanPairsMap(w: WirelessNetwork, caps: Capabilities)
    ensures MapOf(WlanPairs(w, caps)) == WlanOptions(w, caps)
  {
    RadioIsNamed(w.band, w.radioId);
    NetworkIsNamed(w, caps);
    var isolate := When(w.clientIsolation.Some?, ("isolate", Flag(w.clientIsolation == Some(true))));
    var security := SecurityPairs(w.security);
    MapOfAppend(BasePairs(w, caps), isolate + security);
    MapOfAppend(isolate, security);
    BasePairsMap(w, caps);
    MapOfWhen(w.clientIsolation.Some?, "isolate", Flag(w.clientIsolation == Some(true)));
    var encryption := security[0];
    var key := When(w.security.pskConfigured && w.security.pskKey != "", ("key", w.security.pskKey));
    assert security == [encryption] + key;
    MapOfAppend([encryption], key);
    MapOfWhen(true, encryption.0, encryption.1);
    MapOfWhen(w.security.pskConfigured && w.security.pskKey != "", "key", w.security.pskKey);
    hide BasePairs, SecurityPairs, WlanNetwork, RadioSection, NetworkName, RadioName;
    MapPlusAssoc(MapOf(BasePairs(w, caps)), MapOf(isolate), MapOf(security));
    MapPlusAssoc(MapOf(BasePairs(w, caps)) + MapOf(isolate), MapOf([encryption]), MapOf(key));
  }

  lemma RadioPairsMap(r: RadioConfig)
    ensures MapOf(RadioPairs(r)) == RadioOptions(r)
  {
    ModeIsNamed(r.channelWidth.GetOr(0));
    hide Decimal, HtMode, ModeName;
    var a := When(r.enabled.Some?, ("disabled", Flag(r.enabled == Some(false))));
    var b := When(r.channel.Some?, ("channel", Decimal(r.channel.GetOr(0))));
    var c := When(r.channelWidth.Some?, ("htmode", HtMode(r.channelWidth.GetOr(0))));
    var d := When(r.txPower.Some?, ("txpower", Decimal(r.txPower.GetOr(0))));
    MapOfAppend(a + b + c, d);
    MapOfAppend(a + b, c);
    MapOfAppend(a, b);
    MapOfWhen(r.enabled.Some?, "disabled", Flag(r.enabled == Some(false)));
    MapOfWhen(r.channel.Some?, "channel", Decimal(r.channel.GetOr(0)));
    MapOfWhen(r.channelWidth.Some?, "htmode", HtMode(r.channelWidth.GetOr(0)));
    MapOfWhen(r.txPower.Some?, "txpower", Decimal(r.txPower.GetOr(0)));
  }

  /* ---- segment by segment ---- */

  lemma {:induction false} RadioSegment(radios: seq<RadioConfig>, k: Key)
    ensures OnlySets(AllRadioLines(radios), k)
    ensures Assigned(AllRadioLines(radios), k) == if k.package == "wireless" then RadioOverrides(radios, k.section) else map[]
  {
    if radios != [] {
      var r := radios[0];
      RadioIsNamed(r.band, r.radioId);
      hide RadioSection, RadioName, RadioPairs, RadioOptions;
      RadioSegment(radios[1..], k);
      SetAllAssigned("wireless", RadioSection(r.band, r.radioId), RadioPairs(r), k);
      RadioPairsMap(r);
      AssignedAppend(RadioLines(r), AllRadioLines(radios[1..]), k);
    }
  }

  lemma {:induction false} DefaultSegment(sections: seq<string>, k: Key)
    ensures OnlySets(DefaultLines(sections), k)
    ensures Assigned(DefaultLines(sections), k) == Present(k.package == "wireless" && k.section in sections, "disabled", "1")
  {
    if sections != [] {
      DefaultSegment(sections[1..], k);
      assert k.section in sections <==> k.section == sections[0] || k.section in sections[1..];
    }
  }

  lemma {:induction false} CollectedDefaults(sections: seq<string>, wlans: seq<WirelessNetwork>, section: string)
    ensures section in CollectDefaults(sections, wlans) <==> section in sections || IsDefaultSection(wlans, section)
    decreases wlans
  {
    if wlans != [] {
      RadioIsNamed(wlans[0].band, wlans[0].radioId);
      hide RadioSection, RadioName;
      CollectedDefaults(AppendUnique(sections, DefaultSection(wlans[0])), wlans[1..], section);
      assert forall w :: w in wlans <==> w == wlans[0] || w in wlans[1..];
    }
  }

  lemma {:induction false} DropSegment(wlans: seq<WirelessNetwork>, k: Key, before: Option<Section>)
    ensures SectionAfter(DropLines(wlans), k, before) ==
            if k.package == "wireless" && IsWlanSection(wlans, k.section) then None else before
  {
    if wlans != [] {
      hide WlanSection;
      var c := Delete("wireless", WlanSection(wlans[0]));
      assert DropLines(wlans)[0] == c && DropLines(wlans)[1..] == DropLines(wlans[1..]);
      DropSegment(wlans[1..], k, if Touches(c, k) then None else before);
      assert forall w :: w in wlans <==> w == wlans[0] || w in wlans[1..];
    }
  }

  lemma {:induction false} WlanSegment(wlans: seq<WirelessNetwork>, caps: Capabilities, k: Key, before: Option<Section>)
    ensures SectionAfter(AllWlanLines(wlans, caps), k, before) ==
            var owner := if k.package == "wireless" then Owner(wlans, k.section) else None;
            if owner.Some? then Some(Section("wifi-iface", WlanOptions(owner.value, caps))) else before
  {
    if wlans != [] {
      hide WlanSection, WlanPairs, WlanOptions;
      var w := wlans[0];
      SectionAfterAppend(WlanLines(w, caps), AllWlanLines(wlans[1..], caps), k, before);
      RebuildSection("wireless", WlanSection(w), "wifi-iface", WlanPairs(w, caps), k, before);
      WlanPairsMap(w, caps);
      WlanSegment(wlans[1..], caps, k, SectionAfter(WlanLines(w, caps), k, before));
    }
  }

  lemma {:induction false} InsertedId(ids: seq<uint16>, id: uint16, x: uint16)
    ensures x in InsertId(ids, id) <==> x == id || x in ids
  {
    if ids != [] && ids[0] <= id {
      InsertedId(ids[1..], id, x);
      assert x in ids <==> x == ids[0] || x in ids[1..];
    }
  }

  ghost predicate Asks(wlans: seq<WirelessNetwork>, id: uint16) {
    exists w :: w in wlans && w.vlan.vlanId == Some(id)
  }

  lemma {:induction false} CollectedIds(ids: seq<uint16>, wlans: seq<WirelessNetwork>, caps: Capabilities, x: uint16)
    ensures x in CollectIds(ids, wlans, caps) <==> x in ids || (caps.ssidVlan && Asks(wlans, x))
    decreases wlans
  {
    if wlans != [] {
      var vlan := wlans[0].vlan.vlanId;
      var next := if vlan.Some? && caps.ssidVlan then InsertId(ids, vlan.value) else ids;
      if vlan.Some? { InsertedId(ids, vlan.value, x); }
      CollectedIds(next, wlans[1..], caps, x);
      assert forall w :: w in wlans <==> w == wlans[0] || w in wlans[1..];
    }
  }

  lemma VlanNameInjective(a: uint16, b: uint16)
    ensures VlanName(a) == VlanName(b) ==> a == b
  {
    if VlanName(a) == VlanName(b) {
      assert VlanName(a)[14..] == Decimal(a) && VlanName(b)[14..] == Decimal(b);
      DecimalInjective(a, b);
    }
  }

  lemma VlanBlock(id: uint16, k: Key, before: Option<Section>)
    ensures SectionAfter(VlanLines(id), k, before) ==
            if k == Key("network", VlanName(id)) then Some(VlanTarget(id)) else before
  {
    VlanIsNamed(id);
    hide VlanSection, VlanName, Decimal;
    var device := "br-lan." + Decimal(id);
    var pairs := [("proto", "none"), ("device", device)];
    RebuildSection("network", VlanName(id), "interface", pairs, k, before);
    MapOfTwo(pairs[0], pairs[1]);
  }

  lemma {:induction false} VlanSegment(ids: seq<uint16>, k: Key, before: Option<Section>)
    ensures forall id :: id in ids && k == Key("network", VlanName(id)) ==>
              SectionAfter(AllVlanLines(ids), k, before) == Some(VlanTarget(id))
    ensures (forall id :: id in ids ==> k != Key("network", VlanName(id))) ==>
              SectionAfter(AllVlanLines(ids), k, before) == before
  {
    if ids != [] {
      hide VlanLines, VlanTarget, VlanName;
      var middle := SectionAfter(VlanLines(ids[0]), k, before);
      SectionAfterAppend(VlanLines(ids[0]), AllVlanLines(ids[1..]), k, before);
      VlanBlock(ids[0], k, before);
      VlanSegment(ids[1..], k, middle);
      assert forall id :: id in ids <==> id == ids[0] || id in ids[1..];
      forall id | id in ids && k == Key("network", VlanName(id))
        ensures SectionAfter(AllVlanLines(ids), k, before) == Some(VlanTarget(id))
      {
        if id !in ids[1..] {
          forall other | other in ids[1..] ensures k != Key("network", VlanName(other)) {
            VlanNameInjective(id, other);
          }
        }
      }
    }
  }

  function ManagementAsked(u: Update, o: PlanOptions): Option<string> {
    if u.managementVlan.Some? then ManagementDevice(u.managementVlan.value, o) else None
  }

  lemma ManagementTargetIs(u: Update, o: PlanOptions)
    ensures var device := ManagementAsked(u, o);
            ManagementTarget(u, o) == if device.Some? then map["device" := device.value] else map[]
  {
    forall device ensures ManagementSettles(u, o, device) <==> ManagementAsked(u, o) == Some(device) {
      ManagementIsSettled(u, o, device);
    }
    hide ManagementSettles, ManagementDevice;
  }

  lemma ManagementSegment(u: Update, o: PlanOptions, k: Key, before: Option<Section>)
    ensures var lines := if u.managementVlan.Some? then ManagementLines(u.managementVlan.value, o) else [];
            SectionAfter(lines, k, before) ==
            Over(before, if k == Key("network", o.vlanInterface) then ManagementTarget(u, o) else map[])
  {
    ManagementTargetIs(u, o);
    hide ManagementDevice, ManagementTarget;
    OverTwice(before, map[], map[]);
    var device := ManagementAsked(u, o);
    if device.Some? {
      SectionAfterOne(SetOption("network", o.vlanInterface, "device", device.value), k, before);
      if before.Some? {
        assert before.value.options["device" := device.value] == before.value.options + map["device" := device.value];
      }
    }
  }

  lemma NetworkSegment(u: Update, caps: Capabilities, o: PlanOptions, k: Key, before: Option<Section>)
    ensures SectionAfter(NetworkLines(u, caps, o), k, before) ==
            if k.package == "network" then IntendedNetwork(u, caps, o, k.section, before) else before
  {
    var ids := CollectIds([], Active(u, caps), caps);
    var vlans := AllVlanLines(ids);
    var management := if u.managementVlan.Some? then ManagementLines(u.managementVlan.value, o) else [];
    hide AllVlanLines, VlanName, VlanTarget, CollectIds, ManagementLines, ManagementDevice, ManagementTarget;
    SectionAfterAppend(vlans, management, k, before);
    var middle := SectionAfter(vlans, k, before);
    VlanSegment(ids, k, before);
    forall id ensures id in ids <==> UsesVlan(u, caps, id) { CollectedIds([], Active(u, caps), caps, id); }
    assert middle == if k.package == "network" then IntendedVlan(u, caps, k.section, before) else before;
    ManagementSegment(u, o, k, middle);
    OverTwice(middle, map[], map[]);
  }

  /* ---- the whole plan ---- */

  lemma CommittedSection(lines: seq<Command>, package: string, k: Key, before: Option<Section>)
    ensures SectionAfter(Committed(lines, package), k, before) == SectionAfter(lines, k, before)
  {
    if lines != [] {
      SectionAfterAppend(lines, [Commit(package)], k, before);
      SectionAfterUntouched([Commit(package)], k, SectionAfter(lines, k, before));
    }
  }

  lemma WirelessSegment(u: Update, caps: Capabilities, k: Key, before: Option<Section>)
    ensures SectionAfter(WirelessLines(u, caps), k, before) ==
            if k.package == "wireless" then IntendedWireless(u, caps, k.section, before) else before
  {
    hide AllRadioLines, DefaultLines, CollectDefaults, DropLines, AllWlanLines, Owner, RadioOverrides, WlanOptions;
    var active := Active(u, caps);
    var radios, defaults := AllRadioLines(u.radios), DefaultLines(CollectDefaults([], active));
    var drops, wlans := DropLines(Dropped(u, caps)), AllWlanLines(active, caps);
    SectionAfterAppend(radios, defaults + (drops + wlans), k, before);
    RadioSegment(u.radios, k);
    SetsOverride(radios, k, before);
    var b1 := SectionAfter(radios, k, before);
    SectionAfterAppend(defaults, drops + wlans, k, b1);
    DefaultSegment(CollectDefaults([], active), k);
    CollectedDefaults([], active, k.section);
    SetsOverride(defaults, k, b1);
    var b2 := SectionAfter(defaults, k, b1);
    SectionAfterAppend(drops, wlans, k, b2);
    DropSegment(Dropped(u, caps), k, b2);
    WlanSegment(active, caps, k, SectionAfter(drops, k, b2));
    OverTwice(before, map[], map[]);
    OverTwice(b1, map[], map[]);
  }

  /** Compilation correctness: from any store, the plan leaves every section as intended. */
  lemma PlanReachesIntended(u: Update, caps: Capabilities, o: PlanOptions, s: Store, k: Key)
    ensures Lookup(Run(PlanCommands(u, caps, o), s).staged, k) == Intended(u, caps, o, k, Lookup(s.staged, k))
  {
    hide NetworkLines, WirelessLines, IntendedWireless, IntendedNetwork;
    var before := Lookup(s.staged, k);
    var network, wireless := NetworkLines(u, caps, o), WirelessLines(u, caps);
    RunSection(PlanCommands(u, caps, o), k, s);
    CommittedSection(Committed(network, "network") + wireless, "wireless", k, before);
    SectionAfterAppend(Committed(network, "network"), wireless, k, before);
    CommittedSection(network, "network", k, before);
    NetworkSegment(u, caps, o, k, before);
    WirelessSegment(u, caps, k, SectionAfter(network, k, before));
  }

  /* ---- consequences ---- */

  lemma {:induction false} LastOwner(wlans: seq<WirelessNetwork>, i: nat)
    requires i < |wlans|
    requires forall j :: i < j < |wlans| ==> WlanSection(wlans[j]) != WlanSection(wlans[i])
    ensures Owner(wlans, WlanSection(wlans[i])) == Some(wlans[i])
  {
    hide WlanSection;
    if i > 0 {
      LastOwner(wlans[1..], i - 1);
    } else {
      NoOwner(wlans[1..], WlanSection(wlans[0]));
    }
  }

  lemma {:induction false} NoOwner(wlans: seq<WirelessNetwork>, section: string)
    ensures Owner(wlans, section) == None <==> !IsWlanSection(wlans, section)
    ensures Owner(wlans, section).Some? ==> WlanSection(Owner(wlans, section).value) == section
  {
    hide WlanSection;
    if wlans != [] {
      NoOwner(wlans[1..], section);
      assert forall w :: w in wlans <==> w == wlans[0] || w in wlans[1..];
    }
  }

  /** An active WLAN whose section no later active WLAN reuses has exactly its own options, with no leftovers. */
  lemma ActiveWlanConfigured(u: Update, caps: Capabilities, o: PlanOptions, s: Store, i: nat)
    requires i < |Active(u, caps)|
    requires forall j :: i < j < |Active(u, caps)| ==> WlanSection(Active(u, caps)[j]) != WlanSection(Active(u, caps)[i])
    ensures var w := Active(u, caps)[i];
            Lookup(Run(PlanCommands(u, caps, o), s).staged, Key("wireless", WlanSection(w)))
              == Some(Section("wifi-iface", WlanOptions(w, caps)))
  {
    hide WlanSection, WlanOptions, PlanCommands;
    PlanReachesIntended(u, caps, o, s, Key("wireless", WlanSection(Active(u, caps)[i])));
    LastOwner(Active(u, caps), i);
  }

  /** WLANs with an index never displace each other: all of them end configured. */
  lemma IndexedWlansConfigured(u: Update, caps: Capabilities, o: PlanOptions, s: Store, i: nat)
    requires i < |Active(u, caps)|
    requires forall w :: w in Active(u, caps) ==> w.index.Some?
    requires forall j, k :: 0 <= j < k < |Active(u, caps)| ==>
               (Active(u, caps)[j].band, Active(u, caps)[j].index) != (Active(u, caps)[k].band, Active(u, caps)[k].index)
    ensures var w := Active(u, caps)[i];
            Lookup(Run(PlanCommands(u, caps, o), s).staged, Key("wireless", WlanSection(w)))
              == Some(Section("wifi-iface", WlanOptions(w, caps)))
  {
    hide WlanSection, WlanOptions, PlanCommands;
    var active := Active(u, caps);
    forall j | i < j < |active| ensures WlanSection(active[j]) != WlanSection(active[i]) {
      IndexedSectionsDistinct(active[i], active[j]);
    }
    ActiveWlanConfigured(u, caps, o, s, i);
  }

  /** A WLAN beyond the platform's capacity has its section removed exactly when no active WLAN owns that name. */
  lemma DroppedWlanAbsent(u: Update, caps: Capabilities, o: PlanOptions, s: Store, w: WirelessNetwork)
    requires w in Dropped(u, caps)
    ensures Lookup(Run(PlanCommands(u, caps, o), s).staged, Key("wireless", WlanSection(w))) == None
            <==> !IsWlanSection(Active(u, caps), WlanSection(w))
  {
    hide WlanSection, WlanOptions, PlanCommands;
    PlanReachesIntended(u, caps, o, s, Key("wireless", WlanSection(w)));
    NoOwner(Active(u, caps), WlanSection(w));
  }

  lemma {:induction false} OwnerIsOneOf(wlans: seq<WirelessNetwork>, section: string)
    ensures Owner(wlans, section).Some? ==> Owner(wlans, section).value in wlans && WlanSection(Owner(wlans, section).value) == section
  {
    hide WlanSection;
    if wlans != [] { OwnerIsOneOf(wlans[1..], section); }
  }

  ghost predicate ConfiguredAsItself(u: Update, caps: Capabilities, o: PlanOptions, s: Store, w: WirelessNetwork) {
    Lookup(Run(PlanCommands(u, caps, o), s).staged, Key("wireless", WlanSection(w))) == Some(Section("wifi-iface", WlanOptions(w, caps)))
  }

  /** An active WLAN ends configured as itself exactly when the last active WLAN of its section asks
      for the same options. */
  lemma ConfiguredExactly(u: Update, caps: Capabilities, o: PlanOptions, s: Store, w: WirelessNetwork)
    requires w in Active(u, caps)
    ensures var owner := Owner(Active(u, caps), WlanSection(w));
            owner.Some? && (ConfiguredAsItself(u, caps, o, s, w) <==> WlanOptions(owner.value, caps) == WlanOptions(w, caps))
  {
    hide WlanSection, WlanOptions, PlanCommands;
    PlanReachesIntended(u, caps, o, s, Key("wireless", WlanSection(w)));
    NoOwner(Active(u, caps), WlanSection(w));
    assert IsWlanSection(Active(u, caps), WlanSection(w));
  }

  /** All active WLANs end configured as themselves exactly when those that share a section ask for
      the same options. */
  lemma AllConfiguredExactly(u: Update, caps: Capabilities, o: PlanOptions, s: Store)
    ensures (forall w :: w in Active(u, caps) ==> ConfiguredAsItself(u, caps, o, s, w))
            <==> forall v, w :: v in Active(u, caps) && w in Active(u, caps) && WlanSection(v) == WlanSection(w) ==>
                   WlanOptions(v, caps) == WlanOptions(w, caps)
  {
    hide WlanSection, WlanOptions, PlanCommands, ConfiguredAsItself;
    forall w | w in Active(u, caps)
      ensures var owner := Owner(Active(u, caps), WlanSection(w));
              && owner.Some? && owner.value in Active(u, caps) && WlanSection(owner.value) == WlanSection(w)
              && (ConfiguredAsItself(u, caps, o, s, w) <==> WlanOptions(owner.value, caps) == WlanOptions(w, caps))
    {
      ConfiguredExactly(u, caps, o, s, w);
      OwnerIsOneOf(Active(u, caps), WlanSection(w));
    }
  }

  /** Names are not as safe as indexes: a WLAN named after another's index takes its section over. */
  lemma NamedWlanDisplacesIndexed(caps: Capabilities, o: PlanOptions, s: Store)
    requires caps.maxSsids >= 2
    ensures var none := WirelessVlan(None, None, None);
            var open := WirelessSecurity(None, false, "", false, false, false);
            var guest := WirelessNetwork(TwoG, None, None, Some(1), "guest", None, None, none, open, false);
            var named := WirelessNetwork(TwoG, None, None, None, "1", None, None, none, open, false);
            var u := Update([], [guest, named], None, None, 0, false, false, [], 0, false, []);
            WlanSection(guest) == WlanSection(named)
            && Lookup(Run(PlanCommands(u, caps, o), s).staged, Key("wireless", WlanSection(guest)))
                 == Some(Section("wifi-iface", WlanOptions(named, caps)))
            && WlanOptions(named, caps) != WlanOptions(guest, caps)
  {
    var none := WirelessVlan(None, None, None);
    var open := WirelessSecurity(None, false, "", false, false, false);
    var guest := WirelessNetwork(TwoG, None, None, Some(1), "guest", None, None, none, open, false);
    var named := WirelessNetwork(TwoG, None, None, None, "1", None, None, none, open, false);
    var u := Update([], [guest, named], None, None, 0, false, false, [], 0, false, []);
    assert Suffix(guest) == "1";
    SlugFixed("1");
    assert RawSection(guest) == RawSection(named);
    assert WlanOptions(named, caps)["ssid"] == "1" && WlanOptions(guest, caps)["ssid"] == "guest";
    hide WlanSection, WlanOptions, PlanCommands;
    assert Active(u, caps) == [guest, named];
    ActiveWlanConfigured(u, caps, o, s, 1);
  }

  /* ---- replay ---- */

  lemma {:induction false} VlanLinesCreate(ids: seq<uint16>)
    ensures forall c :: c in AllVlanLines(ids) && c.AddSection? ==> Delete(c.package, c.section) in AllVlanLines(ids)
    ensures forall c :: c in AllVlanLines(ids) ==> c.package == "network" && !c.Commit?
  {
    if ids != [] {
      hide VlanSection, Decimal;
      VlanLinesCreate(ids[1..]);
      SetAllShape("network", VlanSection(ids[0]), [("proto", "none"), ("device", "br-lan." + Decimal(ids[0]))]);
    }
  }

  lemma {:induction false} SetAllShape(package: string, section: string, pairs: seq<Pair>)
    ensures forall c :: c in SetAll(package, section, pairs) ==>
              c.SetOption? && c.package == package && c.section == section && (c.option, c.value) in pairs
  {
    if pairs != [] { SetAllShape(package, section, pairs[1..]); }
  }

  lemma {:induction false} WlanLinesCreate(wlans: seq<WirelessNetwork>, caps: Capabilities)
    ensures forall c :: c in AllWlanLines(wlans, caps) && c.AddSection? ==> Delete(c.package, c.section) in AllWlanLines(wlans, caps)
    ensures forall c :: c in AllWlanLines(wlans, caps) ==> c.package == "wireless" && !c.Commit?
  {
    if wlans != [] {
      hide WlanSection, WlanPairs;
      WlanLinesCreate(wlans[1..], caps);
      SetAllShape("wireless", WlanSection(wlans[0]), WlanPairs(wlans[0], caps));
    }
  }

  lemma {:induction false} RadioLinesShape(radios: seq<RadioConfig>)
    ensures forall c :: c in AllRadioLines(radios) ==> c.SetOption? && c.package == "wireless"
  {
    if radios != [] {
      hide RadioSection, RadioPairs;
      RadioLinesShape(radios[1..]);
      SetAllShape("wireless", RadioSection(radios[0].band, radios[0].radioId), RadioPairs(radios[0]));
    }
  }

  lemma {:induction false} DefaultLinesShape(sections: seq<string>)
    ensures forall c :: c in DefaultLines(sections) ==> c.SetOption? && c.package == "wireless"
  {
    if sections != [] { DefaultLinesShape(sections[1..]); }
  }

  lemma {:induction false} DropLinesShape(wlans: seq<WirelessNetwork>)
    ensures forall c :: c in DropLines(wlans) ==> c.Delete? && c.package == "wireless"
  {
    if wlans != [] {
      hide WlanSection;
      DropLinesShape(wlans[1..]);
    }
  }

  lemma WirelessLinesShape(u: Update, caps: Capabilities)
    ensures forall c :: c in WirelessLines(u, caps) ==> c.package == "wireless" && !c.Commit?
    ensures CreatesDeleted(WirelessLines(u, caps))
  {
    hide AllRadioLines, DefaultLines, CollectDefaults, DropLines, AllWlanLines;
    RadioLinesShape(u.radios);
    DefaultLinesShape(CollectDefaults([], Active(u, caps)));
    DropLinesShape(Dropped(u, caps));
    WlanLinesCreate(Active(u, caps), caps);
  }

  lemma NetworkLinesShape(u: Update, caps: Capabilities, o: PlanOptions)
    ensures forall c :: c in NetworkLines(u, caps, o) ==> c.package == "network" && !c.Commit?
    ensures CreatesDeleted(NetworkLines(u, caps, o))
  {
    hide AllVlanLines, CollectIds, ManagementDevice;
    VlanLinesCreate(CollectIds([], Active(u, caps), caps));
  }

  lemma {:induction false} SettlesExtend(a: seq<Command>, b: seq<Command>, package: string)
    requires Settles(a, package) && forall c :: c in b ==> !Concerns(c, package)
    ensures Settles(a + b, package)
    decreases b
  {
    if b == [] {
      assert a + b == a;
    } else {
      var init := b[..|b| - 1];
      SettlesExtend(a, init, package);
      assert (a + b)[..|a + b| - 1] == a + init;
      assert (a + b)[|a + b| - 1] == b[|b| - 1];
    }
  }

  /** A plan deletes what it creates, and commits each package it writes after the last write. */
  lemma PlanDiscipline(u: Update, caps: Capabilities, o: PlanOptions)
    ensures CreatesDeleted(PlanCommands(u, caps, o))
    ensures forall p :: Commit(p) in PlanCommands(u, caps, o) ==> Settles(PlanCommands(u, caps, o), p)
    ensures Commit("network") in PlanCommands(u, caps, o) <==> NetworkLines(u, caps, o) != []
    ensures Commit("wireless") in PlanCommands(u, caps, o) <==> PlanCommands(u, caps, o) != []
    ensures forall p :: Commit(p) in PlanCommands(u, caps, o) ==> p in {"network", "wireless"}
  {
    hide NetworkLines, WirelessLines;
    var lines, wireless := NetworkLines(u, caps, o), WirelessLines(u, caps);
    var network := Committed(lines, "network");
    var body := network + wireless;
    NetworkLinesShape(u, caps, o);
    WirelessLinesShape(u, caps);
    var plan := PlanCommands(u, caps, o);
    if body != [] {
      assert plan[|plan| - 1] == Commit("wireless");
      assert CreatesDeleted(plan) by {
        forall c | c in plan && c.AddSection? ensures Delete(c.package, c.section) in plan {
          assert c in lines || c in wireless;
          assert Deleted(if c in lines then lines else wireless, Key(c.package, c.section));
        }
      }
      if lines != [] {
        assert network[|network| - 1] == Commit("network");
        SettlesExtend(network, wireless + [Commit("wireless")], "network");
        assert plan == network + (wireless + [Commit("wireless")]);
      }
    }
  }

  /** Running a plan twice is running it once. */
  lemma PlanReplay(u: Update, caps: Capabilities, o: PlanOptions, s: Store)
    ensures Run(PlanCommands(u, caps, o), Run(PlanCommands(u, caps, o), s)) == Run(PlanCommands(u, caps, o), s)
  {
    PlanDiscipline(u, caps, o);
    RunReplay(PlanCommands(u, caps, o), s);
  }

  /** A plan that stopped anywhere can be run again: the store is then the one of the plan alone. */
  lemma PlanRetry(u: Update, caps: Capabilities, o: PlanOptions, n: nat, s: Store)
    requires n <= |PlanCommands(u, caps, o)|
    ensures Run(PlanCommands(u, caps, o), Run(PlanCommands(u, caps, o)[..n], s)) == Run(PlanCommands(u, caps, o), s)
  {
    PlanDiscipline(u, caps, o);
    RunRetry(PlanCommands(u, caps, o), n, s);
  }

  /** After a plan that wrote anything, wireless is committed as staged, and so is network if it
      was written; nothing is committed for any other package. */
  lemma PlanCommitted(u: Update, caps: Capabilities, o: PlanOptions, s: Store)
    ensures PlanCommands(u, caps, o) != [] ==> InSync(Run(PlanCommands(u, caps, o), s), "wireless")
    ensures NetworkLines(u, caps, o) != [] ==> InSync(Run(PlanCommands(u, caps, o), s), "network")
    ensures forall k: Key :: k.package !in {"network", "wireless"} || (k.package == "network" && NetworkLines(u, caps, o) == []) ==>
              Lookup(Run(PlanCommands(u, caps, o), s).committed, k) == Lookup(s.committed, k)
  {
    hide NetworkLines, PlanCommands;
    var plan := PlanCommands(u, caps, o);
    PlanDiscipline(u, caps, o);
    if plan != [] { SettledInSync(plan, "wireless", s); }
    if NetworkLines(u, caps, o) != [] { SettledInSync(plan, "network", s); }
    forall k: Key | k.package !in {"network", "wireless"} || (k.package == "network" && NetworkLines(u, caps, o) == [])
      ensures Lookup(Run(plan, s).committed, k) == Lookup(s.committed, k)
    {
      UncommittedKept(plan, k.package, s, k);
    }
  }

  /* ---- frame ---- */

  ghost predicate AgentSection(k: Key) {
    k.package in {"network", "wireless"} && "openomada_" <= k.section
  }

  /** The options a plan may write outside the agent's own sections. */
  ghost predicate MayWrite(u: Update, caps: Capabilities, o: PlanOptions, k: Key, option: string) {
    || (k.package == "wireless" && option in {"disabled", "channel", "htmode", "txpower"}
        && exists r :: r in u.radios && RadioName(r.band, r.radioId) == k.section)
    || (k.package == "wireless" && option == "disabled" && IsDefaultSection(Active(u, caps), k.section))
    || (k.package == "network" && option == "device" && k.section == o.vlanInterface && u.managementVlan.Some?)
  }

  lemma {:induction false} OverridesKeys(radios: seq<RadioConfig>, section: string, option: string)
    requires option in RadioOverrides(radios, section)
    ensures option in {"disabled", "channel", "htmode", "txpower"}
    ensures exists r :: r in radios && RadioName(r.band, r.radioId) == section
  {
    hide RadioName, Decimal, ModeName;
    if option in RadioOverrides(radios[1..], section) {
      OverridesKeys(radios[1..], section, option);
    } else {
      assert RadioName(radios[0].band, radios[0].radioId) == section;
    }
  }

  lemma VlanNamePrefix(id: uint16)
    ensures "openomada_" <= VlanName(id)
  {
  }

  /** Outside the agent's own sections a plan creates and removes nothing and writes only the listed options. */
  lemma PlanFrame(u: Update, caps: Capabilities, o: PlanOptions, s: Store, k: Key)
    requires !AgentSection(k)
    ensures var before, after := Lookup(s.staged, k), Lookup(Run(PlanCommands(u, caps, o), s).staged, k);
            && (before.Some? <==> after.Some?)
            && (before.Some? ==> after.value.kind == before.value.kind)
            && (before.Some? ==> forall option :: !MayWrite(u, caps, o, k, option) ==>
                  (option in after.value.options <==> option in before.value.options)
                  && (option in before.value.options ==> after.value.options[option] == before.value.options[option]))
  {
    hide PlanCommands, WlanSection, VlanName, RadioName, RadioOverrides, Owner, WlanOptions;
    var before := Lookup(s.staged, k);
    PlanReachesIntended(u, caps, o, s, k);
    if k.package == "wireless" {
      forall w: WirelessNetwork ensures WlanSection(w) != k.section { WlanSectionShape(w); }
      NoOwner(Active(u, caps), k.section);
      forall option | option in RadioOverrides(u.radios, k.section) ensures MayWrite(u, caps, o, k, option) {
        OverridesKeys(u.radios, k.section, option);
      }
    } else if k.package == "network" {
      forall id: uint16 ensures VlanName(id) != k.section { VlanNamePrefix(id); }
    }
  }
}
