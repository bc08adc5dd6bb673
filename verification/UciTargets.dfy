/** The names and values an update settles on a platform, in terms of bands, ids and widths, and that
    the planner arrives at them. */
module UciTargets {
  import opened Wrappers
  import opened FixedWidth
  import opened Config
  import opened Text
  import opened UciPlan

  /* ---- radios ---- */

  const BANDS: seq<RadioBand> := [TwoG, FiveG, FiveG2, SixG]

  /** The place of a band among all, from the lowest frequency up. */
  function Place(band: RadioBand): (i: nat)
    ensures i < |BANDS| && BANDS[i] == band
  {
    match band
    case TwoG => 0
    case FiveG => 1
    case FiveG2 => 2
    case SixG => 3
  }

  /** A radio goes by its id, or without one by the place of its band. */
  function RadioName(band: RadioBand, id: Option<int64>): string {
    "radio" + Decimal(if id.Some? then id.value else Place(band))
  }

  lemma RadioIsNamed(band: RadioBand, id: Option<int64>)
    ensures RadioSection(band, id) == RadioName(band, id)
  {
    SmallDecimals();
  }

  lemma SmallDecimals()
    ensures Decimal(0) == "0" && Decimal(1) == "1" && Decimal(2) == "2" && Decimal(3) == "3"
    ensures Decimal(20) == "20" && Decimal(40) == "40" && Decimal(80) == "80"
  {
    assert DecimalNat(2) == "2" && DecimalNat(4) == "4" && DecimalNat(8) == "8" && DecimalNat(0) == "0";
    assert DecimalNat(20) == "2" + "0" && DecimalNat(40) == "4" + "0" && DecimalNat(80) == "8" + "0";
  }

  const STANDARDS: seq<int64> := [20, 40, 80]

  /** The bandwidth a requested width is served with: the least standard one below 80 MHz that covers
      it, and beyond that the width itself. */
  function Bandwidth(width: int64): (b: int64)
    ensures width <= b && (b in STANDARDS || (b == width && width > 80))
    ensures forall i :: 0 <= i < |STANDARDS| && width <= STANDARDS[i] ==> b <= STANDARDS[i]
  {
    assert STANDARDS[0] in STANDARDS && STANDARDS[1] in STANDARDS && STANDARDS[2] in STANDARDS;
    if width <= 20 then 20 else if width <= 40 then 40 else if width <= 80 then 80 else width
  }

  /** The mode is HT up to 40 MHz, VHT at 80 and HE beyond. */
  function ModeName(width: int64): string {
    var b := Bandwidth(width);
    (if b <= 40 then "HT" else if b == 80 then "VHT" else "HE") + Decimal(b)
  }

  lemma ModeIsNamed(width: int64)
    ensures HtMode(width) == ModeName(width)
  {
    SmallDecimals();
    hide Decimal;
  }

  /* ---- networks ---- */

  /** The section of a VLAN the agent sets up. */
  function VlanName(id: uint16): string { "openomada_vlan" + Decimal(id) }

  /** A WLAN is on its VLAN if it has one and the platform offers it, and on the LAN otherwise. */
  function NetworkName(w: WirelessNetwork, caps: Capabilities): string {
    match w.vlan.vlanId
    case Some(id) => if caps.ssidVlan then VlanName(id) else "lan"
    case None => "lan"
  }

  lemma VlanIsNamed(id: uint16)
    ensures VlanSection(id) == VlanName(id)
  {
  }

  lemma NetworkIsNamed(w: WirelessNetwork, caps: Capabilities)
    ensures WlanNetwork(w, caps) == NetworkName(w, caps)
  {
  }

  /** The device an update puts the management interface on: the configured one, or its VLAN when one is
      enabled. Nothing is settled without an interface, a device or an id for an enabled VLAN. */
  ghost predicate ManagementSettles(u: Update, o: PlanOptions, device: string) {
    && u.managementVlan.Some? && o.vlanInterface != "" && o.vlanDevice != ""
    && var v := u.managementVlan.value;
       if v.enabled then v.vlanId.Some? && device == o.vlanDevice + ("." + Decimal(v.vlanId.value)) else device == o.vlanDevice
  }

  /** The options of the management interface that an update settles. */
  ghost function ManagementTarget(u: Update, o: PlanOptions): map<string, string> {
    if exists device :: ManagementSettles(u, o, device) then
      var device :| ManagementSettles(u, o, device);
      map["device" := device]
    else map[]
  }

  lemma ManagementIsSettled(u: Update, o: PlanOptions, device: string)
    ensures u.managementVlan.Some? && ManagementDevice(u.managementVlan.value, o) == Some(device) <==> ManagementSettles(u, o, device)
  {
    if u.managementVlan.Some? && u.managementVlan.value.vlanId.Some? {
      Regroup(o.vlanDevice, ".", Decimal(u.managementVlan.value.vlanId.value));
    }
  }
}
