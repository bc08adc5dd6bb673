/** The parsed configuration records the controller's requests are turned into, and the
    platform capabilities they are checked against. Fields no modelled code reads are omitted. */
module Config {
  import opened Wrappers
  import opened FixedWidth

  datatype RadioBand = TwoG | FiveG | FiveG2 | SixG

  function BandWire(band: RadioBand): string {
    match band
    case TwoG => "2g"
    case FiveG => "5g"
    case FiveG2 => "5g2"
    case SixG => "6g"
  }

  datatype WirelessVlan = WirelessVlan(
    vlanId: Option<uint16>,
    dynamicVlanMode: Option<int64>,
    dhcpOption82: Option<bool>)   // the `enabled` flag of the intent, when present

  datatype WirelessSecurity = WirelessSecurity(
    pskVersion: Option<int64>,
    pskConfigured: bool,
    pskKey: string,
    radiusAuth: bool,
    radiusAccounting: bool,
    radiusMacAuth: bool)

  datatype WirelessNetwork = WirelessNetwork(
    band: RadioBand,
    radioId: Option<int64>,
    ssidId: Option<int64>,
    index: Option<int64>,
    name: string,
    broadcast: Option<bool>,
    clientIsolation: Option<bool>,
    vlan: WirelessVlan,
    security: WirelessSecurity,
    portalEnabled: bool)

  datatype RadioConfig = RadioConfig(
    band: RadioBand,
    radioId: Option<int64>,
    enabled: Option<bool>,
    channelWidth: Option<int64>,
    channel: Option<int64>,
    txPower: Option<int64>)

  datatype ManagementVlan = ManagementVlan(enabled: bool, vlanId: Option<uint16>)

  datatype PortalLayer2Rule = PortalLayer2Rule(
    value: string, dstIp: string, ip: string, ipAddress: string, address: string, dst: string,
    dstMask: Option<int64>, mask: Option<int64>)

  datatype PortalUrlRule = PortalUrlRule(url: string, host: string, value: string)

  datatype PortalFreePolicy = PortalFreePolicy(layer2Rules: seq<PortalLayer2Rule>, urlRules: seq<PortalUrlRule>)

  datatype ClientAuthConfig = ClientAuthConfig(clientMac: seq<uint8>, unauthenticated: Option<bool>)

  /** Members whose contents no modelled code looks into are kept as presence flags or counts. */
  datatype Update = Update(
    radios: seq<RadioConfig>,
    wlans: seq<WirelessNetwork>,
    managementVlan: Option<ManagementVlan>,
    portalFreePolicy: Option<PortalFreePolicy>,
    portalConfigs: nat,
    led: bool,
    wifiControlLed: bool,
    clientConfigs: seq<ClientAuthConfig>,
    clientOperations: nat,
    clientRateConfig: bool,
    unhandledKeys: seq<string>)
  {
    // is_actionable_config
    predicate Actionable() {
      || radios != []
      || wlans != []
      || managementVlan.Some?
      || portalFreePolicy.Some?
      || portalConfigs != 0
      || led
      || wifiControlLed
      || clientConfigs != []
      || clientOperations != 0
      || clientRateConfig
    }
  }

  /** An update asks for nothing exactly when it has no members but such as the agent does not know. */
  lemma AsksForNothing(u: Update)
    ensures !u.Actionable() <==> u == Update([], [], None, None, 0, false, false, [], 0, false, u.unhandledKeys)
  {
  }

  datatype Capabilities = Capabilities(
    radioBands: seq<RadioBand>,
    maxSsids: uint32,
    wlanConfig: bool,
    wpa2Psk: bool,
    wpa3Psk: bool,
    radius: bool,
    ssidVlan: bool,
    dynamicVlan: bool,
    managementVlan: bool,
    portal: bool,
    option82: bool,
    toolOpennds: bool,
    toolNdsctl: bool)

  /** ConfigurationApplyResult */
  datatype ApplyResult = ApplyResult(ok: bool, changed: bool, error: string)
}
