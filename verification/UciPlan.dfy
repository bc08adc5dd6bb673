/** The UCI planner: validation of an update against the platform, and its compilation into
    an ordered list of UCI commands. */
module UciPlan {
  import opened Wrappers
  import opened FixedWidth
  import opened Config
  import opened Text
  import opened UciNaming
  import opened UciText

  datatype PlanOptions = PlanOptions(vlanInterface: string, vlanDevice: string)

  function RadioSection(band: RadioBand, radioId: Option<int64>): string {
    if radioId.Some? then "radio" + Decimal(radioId.value) else
    match band
    case TwoG => "radio0"
    case FiveG => "radio1"
    case FiveG2 => "radio2"
    case SixG => "radio3"
  }

  function HtMode(width: int64): string {
    if width <= 20 then "HT20"
    else if width <= 40 then "HT40"
    else if width <= 80 then "VHT80"
    else "HE" + Decimal(width)
  }

  // max_active_ssids
  function ActiveCount(u: Update, caps: Capabilities): (n: nat)
    ensures n <= |u.wlans|
  {
    if |u.wlans| <= caps.maxSsids then |u.wlans| else caps.maxSsids
  }

  function Active(u: Update, caps: Capabilities): seq<WirelessNetwork> { u.wlans[..ActiveCount(u, caps)] }

  function Dropped(u: Update, caps: Capabilities): seq<WirelessNetwork> { u.wlans[ActiveCount(u, caps)..] }

  /* ---- validate_update ---- */

  predicate HasBand(caps: Capabilities, band: RadioBand) { band in caps.radioBands }

  /** The reasons for refusing an update; Message gives the text reported for each. */
  datatype PlanError =
    | NoWlanConfiguration
    | RadioBandUnsupported(band: RadioBand)
    | SsidBandUnsupported(band: RadioBand)
    | SsidVlanDisabled
    | DynamicVlanDisabled
    | Option82Disabled
    | PortalDisabled
    | Wpa3Disabled
    | Wpa2Disabled
    | RadiusDisabled
    | ManagementVlanDisabled
    | ManagementVlanIdMissing
    | ManagementTargetMissing

  function Message(e: PlanError): string {
    match e
    case NoWlanConfiguration => "platform does not support WLAN configuration"
    case RadioBandUnsupported(band) => "radio band " + BandWire(band) + " is not supported"
    case SsidBandUnsupported(band) => "SSID band " + BandWire(band) + " is not supported"
    case SsidVlanDisabled => "SSID VLAN requested but platform capability is disabled"
    case DynamicVlanDisabled => "dynamic VLAN requested but platform capability is disabled"
    case Option82Disabled => "DHCP Option 82 requested but platform capability is disabled"
    case PortalDisabled => "portal WLAN requested but platform capability is disabled"
    case Wpa3Disabled => "WPA3-PSK WLAN requested but WPA3-PSK capability is disabled"
    case Wpa2Disabled => "PSK WLAN requested but WPA2-PSK capability is disabled"
    case RadiusDisabled => "RADIUS WLAN requested but RADIUS capability is disabled"
    case ManagementVlanDisabled => "management VLAN requested but platform capability is disabled"
    case ManagementVlanIdMissing => "enabled management VLAN is missing managementVlanId"
    case ManagementTargetMissing => "management VLAN interface and device are required"
  }

  // add_error under a condition
  function Check(errors: seq<PlanError>, failed: bool, error: PlanError): seq<PlanError> {
    if failed && error !in errors then errors + [error] else errors
  }

  predicate Wpa3(w: WirelessNetwork) { w.security.pskVersion.GetOr(2) == 3 }

  function WlanErrors(errors: seq<PlanError>, w: WirelessNetwork, caps: Capabilities): seq<PlanError> {
    var e := Check(errors, !HasBand(caps, w.band), SsidBandUnsupported(w.band));
    var e := Check(e, w.vlan.vlanId.Some? && !caps.ssidVlan, SsidVlanDisabled);
    var e := Check(e, w.vlan.dynamicVlanMode.Some? && w.vlan.dynamicVlanMode.value != 0 && !caps.dynamicVlan,
                   DynamicVlanDisabled);
    var e := Check(e, w.vlan.dhcpOption82 == Some(true) && !caps.option82, Option82Disabled);
    var e := Check(e, w.portalEnabled && !caps.portal, PortalDisabled);
    var e := Check(e, w.security.pskConfigured && Wpa3(w) && !caps.wpa3Psk, Wpa3Disabled);
    var e := Check(e, w.security.pskConfigured && !Wpa3(w) && !caps.wpa2Psk, Wpa2Disabled);
    Check(e, (w.security.radiusAuth || w.security.radiusAccounting || w.security.radiusMacAuth) && !caps.radius,
          RadiusDisabled)
  }

  function ManagementErrors(errors: seq<PlanError>, v: ManagementVlan, caps: Capabilities, o: PlanOptions): seq<PlanError> {
    var e := Check(errors, v.enabled && !caps.managementVlan, ManagementVlanDisabled);
    var supported := v.enabled && caps.managementVlan;
    var e := Check(e, supported && v.vlanId.None?, ManagementVlanIdMissing);
    Check(e, supported && (o.vlanInterface == "" || o.vlanDevice == ""), ManagementTargetMissing)
  }

  function RadioErrors(errors: seq<PlanError>, radios: seq<RadioConfig>, caps: Capabilities): seq<PlanError>
    decreases radios
  {
    if radios == [] then errors
    else RadioErrors(
      Check(errors, !HasBand(caps, radios[0].band), RadioBandUnsupported(radios[0].band)),
      radios[1..], caps)
  }

  function AllWlanErrors(errors: seq<PlanError>, wlans: seq<WirelessNetwork>, caps: Capabilities): seq<PlanError>
    decreases wlans
  {
    if wlans == [] then errors else AllWlanErrors(WlanErrors(errors, wlans[0], caps), wlans[1..], caps)
  }

  function ValidationErrors(u: Update, caps: Capabilities, o: PlanOptions): seq<PlanError> {
    var e := Check([], (u.radios != [] || u.wlans != []) && !caps.wlanConfig, NoWlanConfiguration);
    var e := AllWlanErrors(RadioErrors(e, u.radios, caps), Active(u, caps), caps);
    if u.managementVlan.Some? then ManagementErrors(e, u.managementVlan.value, caps, o) else e
  }

  method ValidateUpdate(u: Update, caps: Capabilities, o: PlanOptions) returns (errors: seq<PlanError>)
    ensures errors == ValidationErrors(u, caps, o)
  {
    errors := Check([], (u.radios != [] || u.wlans != []) && !caps.wlanConfig, NoWlanConfiguration);
    ghost var before := errors;
    for i := 0 to |u.radios|
      invariant RadioErrors(errors, u.radios[i..], caps) == RadioErrors(before, u.radios, caps)
    {
      assert u.radios[i..][1..] == u.radios[i + 1..];
      errors := Check(errors, !HasBand(caps, u.radios[i].band), RadioBandUnsupported(u.radios[i].band));
    }
    assert u.radios[|u.radios|..] == [];
    before := errors;
    var active := Active(u, caps);
    for i := 0 to |active|
      invariant AllWlanErrors(errors, active[i..], caps) == AllWlanErrors(before, active, caps)
    {
      assert active[i..][1..] == active[i + 1..];
      errors := WlanErrors(errors, active[i], caps);
    }
    assert active[|active|..] == [];
    if u.managementVlan.Some? {
      errors := ManagementErrors(errors, u.managementVlan.value, caps, o);
    }
  }

  /** Everything an active WLAN asks for is offered by the platform. */
  ghost predicate WlanSupported(w: WirelessNetwork, caps: Capabilities) {
    && w.band in caps.radioBands
    && (w.vlan.vlanId.Some? ==> caps.ssidVlan)
    && (w.vlan.dynamicVlanMode in {None, Some(0)} || caps.dynamicVlan)
    && (w.vlan.dhcpOption82 == Some(true) ==> caps.option82)
    && (w.portalEnabled ==> caps.portal)
    && (w.security.pskConfigured ==> if w.security.pskVersion == Some(3) then caps.wpa3Psk else caps.wpa2Psk)
    && (w.security.radiusAuth || w.security.radiusAccounting || w.security.radiusMacAuth ==> caps.radius)
  }

  ghost predicate Admissible(u: Update, caps: Capabilities, o: PlanOptions) {
    && (u.radios != [] || u.wlans != [] ==> caps.wlanConfig)
    && (forall r :: r in u.radios ==> r.band in caps.radioBands)
    && (forall i :: 0 <= i < |u.wlans| && i < caps.maxSsids ==> WlanSupported(u.wlans[i], caps))
    && ManagementSupported(u, caps, o)
  }

  lemma WlanErrorsEmpty(errors: seq<PlanError>, w: WirelessNetwork, caps: Capabilities)
    ensures WlanErrors(errors, w, caps) == [] <==> errors == [] && WlanSupported(w, caps)
  {
  }

  lemma {:induction false} AllWlanErrorsEmpty(errors: seq<PlanError>, wlans: seq<WirelessNetwork>, caps: Capabilities)
    ensures AllWlanErrors(errors, wlans, caps) == [] <==>
            errors == [] && forall i :: 0 <= i < |wlans| ==> WlanSupported(wlans[i], caps)
    decreases wlans
  {
    if wlans != [] {
      WlanErrorsEmpty(errors, wlans[0], caps);
      AllWlanErrorsEmpty(WlanErrors(errors, wlans[0], caps), wlans[1..], caps);
      assert forall i :: 1 <= i < |wlans| ==> wlans[i] == wlans[1..][i - 1];
    }
  }

  lemma {:induction false} RadioErrorsEmpty(errors: seq<PlanError>, radios: seq<RadioConfig>, caps: Capabilities)
    ensures RadioErrors(errors, radios, caps) == [] <==> errors == [] && forall r :: r in radios ==> r.band in caps.radioBands
    decreases radios
  {
    if radios != [] {
      var e := Check(errors, !HasBand(caps, radios[0].band), RadioBandUnsupported(radios[0].band));
      RadioErrorsEmpty(e, radios[1..], caps);
      assert forall r :: r in radios <==> r == radios[0] || r in radios[1..];
    }
  }

  ghost predicate ManagementSupported(u: Update, caps: Capabilities, o: PlanOptions) {
    u.managementVlan.Some? && u.managementVlan.value.enabled ==>
      caps.managementVlan && u.managementVlan.value.vlanId.Some? && o.vlanInterface != "" && o.vlanDevice != ""
  }

  lemma ManagementErrorsEmpty(errors: seq<PlanError>, u: Update, caps: Capabilities, o: PlanOptions)
    requires u.managementVlan.Some?
    ensures ManagementErrors(errors, u.managementVlan.value, caps, o) == [] <==>
            errors == [] && ManagementSupported(u, caps, o)
  {
  }

  /** An update is planned exactly when every request in it is covered by a capability. */
  lemma AcceptsExactlyAdmissible(u: Update, caps: Capabilities, o: PlanOptions)
    ensures ValidationErrors(u, caps, o) == [] <==> Admissible(u, caps, o)
  {
    var e := Check([], (u.radios != [] || u.wlans != []) && !caps.wlanConfig, NoWlanConfiguration);
    var active := Active(u, caps);
    RadioErrorsEmpty(e, u.radios, caps);
    var r := RadioErrors(e, u.radios, caps);
    AllWlanErrorsEmpty(r, active, caps);
    var a := AllWlanErrors(r, active, caps);
    if u.managementVlan.Some? { ManagementErrorsEmpty(a, u, caps, o); }
    assert forall i :: 0 <= i < |active| ==> active[i] == u.wlans[i];
  }

  /* ---- which errors are reported ---- */

  /** What an active WLAN asks for that the platform does not offer. */
  ghost predicate WlanLacks(e: PlanError, w: WirelessNetwork, caps: Capabilities) {
    match e
    case SsidBandUnsupported(band) => w.band == band && band !in caps.radioBands
    case SsidVlanDisabled => w.vlan.vlanId.Some? && !caps.ssidVlan
    case DynamicVlanDisabled => w.vlan.dynamicVlanMode.Some? && w.vlan.dynamicVlanMode != Some(0) && !caps.dynamicVlan
    case Option82Disabled => w.vlan.dhcpOption82 == Some(true) && !caps.option82
    case PortalDisabled => w.portalEnabled && !caps.portal
    case Wpa3Disabled => w.security.pskConfigured && w.security.pskVersion == Some(3) && !caps.wpa3Psk
    case Wpa2Disabled => w.security.pskConfigured && w.security.pskVersion != Some(3) && !caps.wpa2Psk
    case RadiusDisabled => (w.security.radiusAuth || w.security.radiusAccounting || w.security.radiusMacAuth) && !caps.radius
    case _ => false
  }

  /** Why an update is refused. */
  ghost predicate Lacks(e: PlanError, u: Update, caps: Capabilities, o: PlanOptions) {
    var v := u.managementVlan.GetOr(ManagementVlan(false, None));
    match e
    case NoWlanConfiguration => (u.radios != [] || u.wlans != []) && !caps.wlanConfig
    case RadioBandUnsupported(band) => band !in caps.radioBands && exists r :: r in u.radios && r.band == band
    case ManagementVlanDisabled => v.enabled && !caps.managementVlan
    case ManagementVlanIdMissing => v.enabled && caps.managementVlan && v.vlanId.None?
    case ManagementTargetMissing => v.enabled && caps.managementVlan && (o.vlanInterface == "" || o.vlanDevice == "")
    case _ => exists i :: 0 <= i < |u.wlans| && i < caps.maxSsids && WlanLacks(e, u.wlans[i], caps)
  }

  ghost predicate NoneTwice(errors: seq<PlanError>) { forall i, j :: 0 <= i < j < |errors| ==> errors[i] != errors[j] }

  lemma CheckAdds(errors: seq<PlanError>, failed: bool, error: PlanError, e: PlanError)
    ensures e in Check(errors, failed, error) <==> e in errors || (failed && e == error)
    ensures NoneTwice(errors) ==> NoneTwice(Check(errors, failed, error))
  {
  }

  function Four(errors: seq<PlanError>, f1: bool, e1: PlanError, f2: bool, e2: PlanError, f3: bool, e3: PlanError, f4: bool, e4: PlanError)
    : seq<PlanError>
  {
    Check(Check(Check(Check(errors, f1, e1), f2, e2), f3, e3), f4, e4)
  }

  lemma FourAdd(errors: seq<PlanError>, f1: bool, e1: PlanError, f2: bool, e2: PlanError, f3: bool, e3: PlanError, f4: bool, e4: PlanError,
                e: PlanError)
    ensures e in Four(errors, f1, e1, f2, e2, f3, e3, f4, e4)
            <==> e in errors || (f1 && e == e1) || (f2 && e == e2) || (f3 && e == e3) || (f4 && e == e4)
    ensures NoneTwice(errors) ==> NoneTwice(Four(errors, f1, e1, f2, e2, f3, e3, f4, e4))
  {
    CheckAdds(errors, f1, e1, e);
    CheckAdds(Check(errors, f1, e1), f2, e2, e);
    CheckAdds(Check(Check(errors, f1, e1), f2, e2), f3, e3, e);
    CheckAdds(Check(Check(Check(errors, f1, e1), f2, e2), f3, e3), f4, e4, e);
    hide Check, NoneTwice;
  }

  // whether each of the eight checks of a WLAN fails, in order
  function WlanFails(w: WirelessNetwork, caps: Capabilities): (f: seq<bool>)
    ensures |f| == 8
  {
    var s := w.security;
    [!HasBand(caps, w.band),
     w.vlan.vlanId.Some? && !caps.ssidVlan,
     w.vlan.dynamicVlanMode.Some? && w.vlan.dynamicVlanMode.value != 0 && !caps.dynamicVlan,
     w.vlan.dhcpOption82 == Some(true) && !caps.option82,
     w.portalEnabled && !caps.portal,
     s.pskConfigured && Wpa3(w) && !caps.wpa3Psk,
     s.pskConfigured && !Wpa3(w) && !caps.wpa2Psk,
     (s.radiusAuth || s.radiusAccounting || s.radiusMacAuth) && !caps.radius]
  }

  lemma WlanErrorsSplit(errors: seq<PlanError>, w: WirelessNetwork, caps: Capabilities)
    ensures var f := WlanFails(w, caps);
            WlanErrors(errors, w, caps)
            == Four(Four(errors, f[0], SsidBandUnsupported(w.band), f[1], SsidVlanDisabled, f[2], DynamicVlanDisabled, f[3], Option82Disabled),
                    f[4], PortalDisabled, f[5], Wpa3Disabled, f[6], Wpa2Disabled, f[7], RadiusDisabled)
  {
    hide Check, Wpa3, HasBand;
  }

  lemma WlanLacksIs(e: PlanError, w: WirelessNetwork, caps: Capabilities)
    ensures var f := WlanFails(w, caps);
            WlanLacks(e, w, caps) <==>
            || (f[0] && e == SsidBandUnsupported(w.band)) || (f[1] && e == SsidVlanDisabled) || (f[2] && e == DynamicVlanDisabled)
            || (f[3] && e == Option82Disabled) || (f[4] && e == PortalDisabled) || (f[5] && e == Wpa3Disabled)
            || (f[6] && e == Wpa2Disabled) || (f[7] && e == RadiusDisabled)
  {
  }

  lemma WlanAdds(errors: seq<PlanError>, w: WirelessNetwork, caps: Capabilities, e: PlanError)
    ensures e in WlanErrors(errors, w, caps) <==> e in errors || WlanLacks(e, w, caps)
    ensures NoneTwice(errors) ==> NoneTwice(WlanErrors(errors, w, caps))
  {
    var f := WlanFails(w, caps);
    hide *;
    WlanErrorsSplit(errors, w, caps);
    WlanLacksIs(e, w, caps);
    FourAdd(errors, f[0], SsidBandUnsupported(w.band), f[1], SsidVlanDisabled, f[2], DynamicVlanDisabled, f[3], Option82Disabled, e);
    FourAdd(Four(errors, f[0], SsidBandUnsupported(w.band), f[1], SsidVlanDisabled, f[2], DynamicVlanDisabled, f[3], Option82Disabled),
            f[4], PortalDisabled, f[5], Wpa3Disabled, f[6], Wpa2Disabled, f[7], RadiusDisabled, e);
  }

  lemma {:induction false} AllWlansAdd(errors: seq<PlanError>, wlans: seq<WirelessNetwork>, caps: Capabilities, e: PlanError)
    ensures e in AllWlanErrors(errors, wlans, caps) <==> e in errors || exists i :: 0 <= i < |wlans| && WlanLacks(e, wlans[i], caps)
    ensures NoneTwice(errors) ==> NoneTwice(AllWlanErrors(errors, wlans, caps))
    decreases wlans
  {
    if wlans != [] {
      WlanAdds(errors, wlans[0], caps, e);
      hide WlanErrors, WlanLacks, NoneTwice;
      AllWlansAdd(WlanErrors(errors, wlans[0], caps), wlans[1..], caps, e);
      assert forall i :: 0 < i < |wlans| ==> wlans[i] == wlans[1..][i - 1];
      if i :| 0 <= i < |wlans[1..]| && WlanLacks(e, wlans[1..][i], caps) { assert WlanLacks(e, wlans[i + 1], caps); }
    }
  }

  lemma {:induction false} RadiosAdd(errors: seq<PlanError>, radios: seq<RadioConfig>, caps: Capabilities, e: PlanError)
    ensures e in RadioErrors(errors, radios, caps) <==>
            e in errors || (e.RadioBandUnsupported? && e.band !in caps.radioBands && exists r :: r in radios && r.band == e.band)
    ensures NoneTwice(errors) ==> NoneTwice(RadioErrors(errors, radios, caps))
    decreases radios
  {
    if radios != [] {
      var band := radios[0].band;
      CheckAdds(errors, !HasBand(caps, band), RadioBandUnsupported(band), e);
      hide Check, NoneTwice;
      RadiosAdd(Check(errors, !HasBand(caps, band), RadioBandUnsupported(band)), radios[1..], caps, e);
      assert forall r :: r in radios <==> r == radios[0] || r in radios[1..];
    }
  }

  lemma ManagementAdds(errors: seq<PlanError>, v: ManagementVlan, caps: Capabilities, o: PlanOptions, e: PlanError)
    ensures e in ManagementErrors(errors, v, caps, o) <==> e in errors || ManagementLacks(e, v, caps, o)
    ensures NoneTwice(errors) ==> NoneTwice(ManagementErrors(errors, v, caps, o))
  {
    var supported := v.enabled && caps.managementVlan;
    CheckAdds(errors, v.enabled && !caps.managementVlan, ManagementVlanDisabled, e);
    var a := Check(errors, v.enabled && !caps.managementVlan, ManagementVlanDisabled);
    CheckAdds(a, supported && v.vlanId.None?, ManagementVlanIdMissing, e);
    var b := Check(a, supported && v.vlanId.None?, ManagementVlanIdMissing);
    CheckAdds(b, supported && (o.vlanInterface == "" || o.vlanDevice == ""), ManagementTargetMissing, e);
    hide Check, NoneTwice;
  }

  lemma ActiveLack(u: Update, caps: Capabilities, e: PlanError)
    ensures (exists i :: 0 <= i < |Active(u, caps)| && WlanLacks(e, Active(u, caps)[i], caps))
            <==> (exists i :: 0 <= i < |u.wlans| && i < caps.maxSsids && WlanLacks(e, u.wlans[i], caps))
  {
    var active := Active(u, caps);
    assert forall i :: 0 <= i < |active| ==> active[i] == u.wlans[i];
    hide WlanLacks;
    if i :| 0 <= i < |u.wlans| && i < caps.maxSsids && WlanLacks(e, u.wlans[i], caps) { assert WlanLacks(e, active[i], caps); }
  }

  // the part of the management VLAN
  ghost predicate ManagementLacks(e: PlanError, v: ManagementVlan, caps: Capabilities, o: PlanOptions) {
    v.enabled && match e
                 case ManagementVlanDisabled => !caps.managementVlan
                 case ManagementVlanIdMissing => caps.managementVlan && v.vlanId.None?
                 case ManagementTargetMissing => caps.managementVlan && (o.vlanInterface == "" || o.vlanDevice == "")
                 case _ => false
  }

  lemma LacksIs(e: PlanError, u: Update, caps: Capabilities, o: PlanOptions)
    ensures Lacks(e, u, caps, o) <==>
            || (e == NoWlanConfiguration && (u.radios != [] || u.wlans != []) && !caps.wlanConfig)
            || (e.RadioBandUnsupported? && e.band !in caps.radioBands && exists r :: r in u.radios && r.band == e.band)
            || (exists i :: 0 <= i < |u.wlans| && i < caps.maxSsids && WlanLacks(e, u.wlans[i], caps))
            || (u.managementVlan.Some? && ManagementLacks(e, u.managementVlan.value, caps, o))
  {
  }

  /** An error is reported exactly when the update lacks what it names, and none is reported twice. */
  lemma ReportsExactly(u: Update, caps: Capabilities, o: PlanOptions, e: PlanError)
    ensures e in ValidationErrors(u, caps, o) <==> Lacks(e, u, caps, o)
    ensures NoneTwice(ValidationErrors(u, caps, o))
  {
    var start := Check([], (u.radios != [] || u.wlans != []) && !caps.wlanConfig, NoWlanConfiguration);
    CheckAdds([], (u.radios != [] || u.wlans != []) && !caps.wlanConfig, NoWlanConfiguration, e);
    assert NoneTwice([]);
    RadiosAdd(start, u.radios, caps, e);
    var radios := RadioErrors(start, u.radios, caps);
    var active := Active(u, caps);
    AllWlansAdd(radios, active, caps, e);
    ActiveLack(u, caps, e);
    LacksIs(e, u, caps, o);
    if u.managementVlan.Some? { ManagementAdds(AllWlanErrors(radios, active, caps), u.managementVlan.value, caps, o, e); }
    hide Check, NoneTwice, WlanLacks, Lacks, ManagementLacks, RadioErrors, AllWlanErrors, ManagementErrors, Active;
  }

  /* ---- the lines of each part ---- */

  type Pair = (string, string)

  function SetAll(package: string, section: string, pairs: seq<Pair>): (lines: seq<Command>)
    ensures |lines| == |pairs|
  {
    if pairs == [] then []
    else [SetOption(package, section, pairs[0].0, pairs[0].1)] + SetAll(package, section, pairs[1..])
  }

  function When(present: bool, pair: Pair): seq<Pair> { if present then [pair] else [] }

  function Flag(on: bool): string { if on then "1" else "0" }

  function RadioPairs(r: RadioConfig): seq<Pair> {
    When(r.enabled.Some?, ("disabled", Flag(r.enabled == Some(false))))
    + When(r.channel.Some?, ("channel", Decimal(r.channel.GetOr(0))))
    + When(r.channelWidth.Some?, ("htmode", HtMode(r.channelWidth.GetOr(0))))
    + When(r.txPower.Some?, ("txpower", Decimal(r.txPower.GetOr(0))))
  }

  function RadioLines(r: RadioConfig): seq<Command> {
    SetAll("wireless", RadioSection(r.band, r.radioId), RadioPairs(r))
  }

  function VlanSection(id: uint16): string { "openomada_vlan" + Decimal(id) }

  function VlanLines(id: uint16): seq<Command> {
    [Delete("network", VlanSection(id)), AddSection("network", VlanSection(id), "interface")]
    + SetAll("network", VlanSection(id), [("proto", "none"), ("device", "br-lan." + Decimal(id))])
  }

  /** The device the management interface is to use, when the update settles it. */
  function ManagementDevice(v: ManagementVlan, o: PlanOptions): Option<string> {
    if o.vlanInterface == "" || o.vlanDevice == "" then None
    else if !v.enabled then Some(o.vlanDevice)
    else if v.vlanId.None? then None
    else Some(o.vlanDevice + "." + Decimal(v.vlanId.value))
  }

  function ManagementLines(v: ManagementVlan, o: PlanOptions): seq<Command> {
    var device := ManagementDevice(v, o);
    if device.None? then [] else [SetOption("network", o.vlanInterface, "device", device.value)]
  }

  function WlanNetwork(w: WirelessNetwork, caps: Capabilities): string {
    if w.vlan.vlanId.Some? && caps.ssidVlan then VlanSection(w.vlan.vlanId.value) else "lan"
  }

  function BasePairs(w: WirelessNetwork, caps: Capabilities): seq<Pair> {
    [("openomada_managed", "1"),
     ("device", RadioSection(w.band, w.radioId)),
     ("mode", "ap"),
     ("network", WlanNetwork(w, caps)),
     ("ssid", w.name),
     ("hidden", Flag(w.broadcast == Some(false)))]
  }

  function SecurityPairs(s: WirelessSecurity): seq<Pair> {
    if s.pskConfigured then
      [("encryption", if s.pskVersion.GetOr(2) == 3 then "sae-mixed" else "psk2")] + When(s.pskKey != "", ("key", s.pskKey))
    else [("encryption", "none")]
  }

  function WlanPairs(w: WirelessNetwork, caps: Capabilities): seq<Pair> {
    BasePairs(w, caps)
    + (When(w.clientIsolation.Some?, ("isolate", Flag(w.clientIsolation == Some(true)))) + SecurityPairs(w.security))
  }

  function WlanLines(w: WirelessNetwork, caps: Capabilities): seq<Command> {
    var section := WlanSection(w);
    [Delete("wireless", section), AddSection("wireless", section, "wifi-iface")]
    + SetAll("wireless", section, WlanPairs(w, caps))
  }

  /* ---- the plan ---- */

  // insertion into the ordered set of VLAN ids
  function InsertId(ids: seq<uint16>, id: uint16): seq<uint16> {
    if ids == [] || id < ids[0] then [id] + ids
    else if id == ids[0] then ids
    else [ids[0]] + InsertId(ids[1..], id)
  }

  function CollectIds(ids: seq<uint16>, wlans: seq<WirelessNetwork>, caps: Capabilities): seq<uint16>
    decreases wlans
  {
    if wlans == [] then ids
    else
      var vlan := wlans[0].vlan.vlanId;
      CollectIds(if vlan.Some? && caps.ssidVlan then InsertId(ids, vlan.value) else ids, wlans[1..], caps)
  }

  function AllVlanLines(ids: seq<uint16>): seq<Command> {
    if ids == [] then [] else VlanLines(ids[0]) + AllVlanLines(ids[1..])
  }

  function AllRadioLines(radios: seq<RadioConfig>): seq<Command> {
    if radios == [] then [] else RadioLines(radios[0]) + AllRadioLines(radios[1..])
  }

  function AppendUnique(values: seq<string>, value: string): seq<string> {
    if value in values then values else values + [value]
  }

  function DefaultSection(w: WirelessNetwork): string { "default_" + RadioSection(w.band, w.radioId) }

  function CollectDefaults(sections: seq<string>, wlans: seq<WirelessNetwork>): seq<string>
    decreases wlans
  {
    if wlans == [] then sections else CollectDefaults(AppendUnique(sections, DefaultSection(wlans[0])), wlans[1..])
  }

  function DefaultLines(sections: seq<string>): seq<Command> {
    if sections == [] then []
    else [SetOption("wireless", sections[0], "disabled", "1")] + DefaultLines(sections[1..])
  }

  function DropLines(wlans: seq<WirelessNetwork>): seq<Command> {
    if wlans == [] then [] else [Delete("wireless", WlanSection(wlans[0]))] + DropLines(wlans[1..])
  }

  function AllWlanLines(wlans: seq<WirelessNetwork>, caps: Capabilities): seq<Command> {
    if wlans == [] then [] else WlanLines(wlans[0], caps) + AllWlanLines(wlans[1..], caps)
  }

  function NetworkLines(u: Update, caps: Capabilities, o: PlanOptions): seq<Command> {
    AllVlanLines(CollectIds([], Active(u, caps), caps))
    + (if u.managementVlan.Some? then ManagementLines(u.managementVlan.value, o) else [])
  }

  function Committed(lines: seq<Command>, package: string): seq<Command> {
    if lines == [] then [] else lines + [Commit(package)]
  }

  function WirelessLines(u: Update, caps: Capabilities): seq<Command> {
    AllRadioLines(u.radios)
    + (DefaultLines(CollectDefaults([], Active(u, caps)))
       + (DropLines(Dropped(u, caps)) + AllWlanLines(Active(u, caps), caps)))
  }

  function PlanCommands(u: Update, caps: Capabilities, o: PlanOptions): seq<Command> {
    Committed(Committed(NetworkLines(u, caps, o), "network") + WirelessLines(u, caps), "wireless")
  }

  datatype Plan = Plan(ok: bool, changed: bool, commands: seq<string>, errors: seq<PlanError>, warning: string)

  function Warning(u: Update, caps: Capabilities): string {
    if ActiveCount(u, caps) < |u.wlans| then
      "controller requested " + Decimal(|u.wlans|) + " SSIDs but platform max is " + Decimal(caps.maxSsids)
      + "; applied first " + Decimal(ActiveCount(u, caps))
    else ""
  }

  /** A warning is given exactly when WLANs are dropped, and says how many there were and are. */
  lemma WarnsExactly(u: Update, caps: Capabilities)
    ensures Warning(u, caps) == if |u.wlans| <= caps.maxSsids then ""
                                else "controller requested " + Decimal(|u.wlans|) + " SSIDs but platform max is " + Decimal(caps.maxSsids)
                                     + "; applied first " + Decimal(caps.maxSsids)
    ensures Warning(u, caps) != "" <==> Dropped(u, caps) != []
  {
  }

  method BuildNetworkLines(u: Update, active: seq<WirelessNetwork>, caps: Capabilities, o: PlanOptions)
    returns (lines: seq<string>)
    requires active == Active(u, caps)
    ensures lines == Texts(NetworkLines(u, caps, o))
  {
    hide CommandText, VlanLines, ManagementLines;
    var ids: seq<uint16> := [];
    for i := 0 to |active|
      invariant CollectIds(ids, active[i..], caps) == CollectIds([], active, caps)
    {
      assert active[i..][1..] == active[i + 1..];
      if active[i].vlan.vlanId.Some? && caps.ssidVlan {
        ids := InsertId(ids, active[i].vlan.vlanId.value);
      }
    }
    assert active[|active|..] == [];
    lines := [];
    for i := 0 to |ids|
      invariant lines + Texts(AllVlanLines(ids[i..])) == Texts(AllVlanLines(ids))
    {
      assert ids[i..][1..] == ids[i + 1..];
      TextsAppend(VlanLines(ids[i]), AllVlanLines(ids[i + 1..]));
      lines := lines + Texts(VlanLines(ids[i]));
    }
    assert ids[|ids|..] == [];
    if u.managementVlan.Some? {
      TextsAppend(AllVlanLines(ids), ManagementLines(u.managementVlan.value, o));
      lines := lines + Texts(ManagementLines(u.managementVlan.value, o));
    }
  }

  method BuildRadioLines(radios: seq<RadioConfig>) returns (lines: seq<string>)
    ensures lines == Texts(AllRadioLines(radios))
  {
    hide CommandText, RadioLines;
    lines := [];
    for i := 0 to |radios|
      invariant lines + Texts(AllRadioLines(radios[i..])) == Texts(AllRadioLines(radios))
    {
      assert radios[i..][1..] == radios[i + 1..];
      TextsAppend(RadioLines(radios[i]), AllRadioLines(radios[i + 1..]));
      lines := lines + Texts(RadioLines(radios[i]));
    }
    assert radios[|radios|..] == [];
  }

  method BuildDefaultLines(active: seq<WirelessNetwork>) returns (lines: seq<string>)
    ensures lines == Texts(DefaultLines(CollectDefaults([], active)))
  {
    hide CommandText, DefaultSection;
    var sections: seq<string> := [];
    for i := 0 to |active|
      invariant CollectDefaults(sections, active[i..]) == CollectDefaults([], active)
    {
      assert active[i..][1..] == active[i + 1..];
      sections := AppendUnique(sections, DefaultSection(active[i]));
    }
    assert active[|active|..] == [];
    lines := [];
    for i := 0 to |sections|
      invariant lines + Texts(DefaultLines(sections[i..])) == Texts(DefaultLines(sections))
    {
      assert sections[i..][1..] == sections[i + 1..];
      var line := SetOption("wireless", sections[i], "disabled", "1");
      TextsAppend([line], DefaultLines(sections[i + 1..]));
      assert Texts([line]) == [CommandText(line)];
      Regroup(lines, [CommandText(line)], Texts(DefaultLines(sections[i + 1..])));
      lines := lines + [CommandText(line)];
    }
    assert sections[|sections|..] == [];
  }

  method BuildDropLines(dropped: seq<WirelessNetwork>) returns (lines: seq<string>)
    ensures lines == Texts(DropLines(dropped))
  {
    hide CommandText, WlanSection;
    lines := [];
    for i := 0 to |dropped|
      invariant lines + Texts(DropLines(dropped[i..])) == Texts(DropLines(dropped))
    {
      assert dropped[i..][1..] == dropped[i + 1..];
      var section := ComputeWlanSection(dropped[i]);
      var line := Delete("wireless", section);
      TextsAppend([line], DropLines(dropped[i + 1..]));
      lines := lines + [CommandText(line)];
    }
    assert dropped[|dropped|..] == [];
  }

  method BuildWlanLines(active: seq<WirelessNetwork>, caps: Capabilities) returns (lines: seq<string>)
    ensures lines == Texts(AllWlanLines(active, caps))
  {
    hide CommandText, WlanLines;
    lines := [];
    for i := 0 to |active|
      invariant lines + Texts(AllWlanLines(active[i..], caps)) == Texts(AllWlanLines(active, caps))
    {
      assert active[i..][1..] == active[i + 1..];
      TextsAppend(WlanLines(active[i], caps), AllWlanLines(active[i + 1..], caps));
      lines := lines + Texts(WlanLines(active[i], caps));
    }
    assert active[|active|..] == [];
  }

  lemma CommittedTexts(lines: seq<Command>, package: string)
    ensures Texts(Committed(lines, package)) ==
            if Texts(lines) == [] then [] else Texts(lines) + [CommandText(Commit(package))]
  {
    if lines != [] { TextsAppend(lines, [Commit(package)]); }
  }

  method BuildUciPlan(u: Update, caps: Capabilities, o: PlanOptions) returns (plan: Plan)
    ensures plan.ok <==> Admissible(u, caps, o)
    ensures plan.ok ==> plan.commands == Texts(PlanCommands(u, caps, o)) && plan.changed == (plan.commands != [])
                        && plan.errors == [] && plan.warning == Warning(u, caps)
    ensures !plan.ok ==> plan.commands == [] && !plan.changed && plan.errors == ValidationErrors(u, caps, o)
  {
    AcceptsExactlyAdmissible(u, caps, o);
    var errors := ValidateUpdate(u, caps, o);
    if errors != [] {
      return Plan(false, false, [], errors, "");
    }
    var active := Active(u, caps);
    var commands := [];
    var network := BuildNetworkLines(u, active, caps, o);
    CommittedTexts(NetworkLines(u, caps, o), "network");
    if network != [] {
      commands := network + [CommandText(Commit("network"))];
    }
    var radios := BuildRadioLines(u.radios);
    var defaults := BuildDefaultLines(active);
    var drops := BuildDropLines(Dropped(u, caps));
    var wlans := BuildWlanLines(active, caps);
    commands := commands + radios + defaults + drops + wlans;
    PlanTexts(u, caps, o, commands);
    if commands != [] {
      commands := commands + [CommandText(Commit("wireless"))];
    }
    plan := Plan(true, commands != [], commands, [], Warning(u, caps));
  }

  lemma PlanTexts(u: Update, caps: Capabilities, o: PlanOptions, commands: seq<string>)
    requires commands == Texts(Committed(NetworkLines(u, caps, o), "network")) + Texts(AllRadioLines(u.radios))
                         + Texts(DefaultLines(CollectDefaults([], Active(u, caps))))
                         + Texts(DropLines(Dropped(u, caps))) + Texts(AllWlanLines(Active(u, caps), caps))
    ensures Texts(PlanCommands(u, caps, o)) ==
            if commands == [] then [] else commands + [CommandText(Commit("wireless"))]
  {
    var network := Committed(NetworkLines(u, caps, o), "network");
    JoinTexts(network, AllRadioLines(u.radios), DefaultLines(CollectDefaults([], Active(u, caps))),
              DropLines(Dropped(u, caps)), AllWlanLines(Active(u, caps), caps));
    hide NetworkLines, AllRadioLines, CollectDefaults, DefaultLines, DropLines, AllWlanLines, CommandText;
    assert commands == Texts(network + WirelessLines(u, caps));
    CommittedTexts(network + WirelessLines(u, caps), "wireless");
  }

  lemma JoinTexts(a: seq<Command>, b: seq<Command>, c: seq<Command>, d: seq<Command>, e: seq<Command>)
    ensures Texts(a + (b + (c + (d + e)))) == Texts(a) + Texts(b) + Texts(c) + Texts(d) + Texts(e)
  {
    hide CommandText;
    TextsAppend(d, e);
    TextsAppend(c, d + e);
    TextsAppend(b, c + (d + e));
    TextsAppend(a, b + (c + (d + e)));
  }
}
