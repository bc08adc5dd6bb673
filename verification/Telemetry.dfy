/** The wireless members of an inform: what the radio status gives, augmented interface by interface
    with what hostapd reports. Documents are parsed records; where a number is printed and parsed
    again, it comes back saturated to 63 bits. */
module Telemetry {
  import opened Wrappers
  import opened FixedWidth
  import opened Config
  import opened Mac
  import Text

  type Count = n: int | 0 <= n < TWO_63   // `counter`: absent and negative numbers read as 0

  datatype IfaceCounters = IfaceCounters(txBytes: Count, rxBytes: Count, txPackets: Count, rxPackets: Count, tx: Count, rx: Count)

  datatype Interface = Interface(ifname: string, ssid: string, stations: Count, bssid: string, counters: Option<IfaceCounters>)

  /** An object of the wireless status; the band is None for a radio of an unknown name. */
  datatype Radio = Radio(band: Option<RadioBand>, settings: seq<(string, string)>, interfaces: seq<Interface>)

  datatype ClientCounters = ClientCounters(tx: Count, rx: Count, txPackets: Count, rxPackets: Count)

  /** A hostapd document: `clients` is None when there is no client object, and entries of it that
      are no objects are None. */
  datatype Hostapd = NotJson | Status(clients: Option<seq<Option<ClientCounters>>>)

  datatype Observed = Observed(ifname: string, ssid: string, band: Option<RadioBand>)

  /** An entry of ssidStats; zero counters and an empty bssid are not written. */
  datatype Stat = Stat(ssid: string, clientNum: nat, bssid: string, down: uint64, up: uint64, downPackets: uint64, upPackets: uint64)

  datatype TrafficKey = Tx | Rx | TxP | RxP | TxDP | RxDP | TxEP | RxEP | TxRP | RxRP

  function TrafficKeys(): seq<TrafficKey> { [Tx, Rx, TxP, RxP, TxDP, RxDP, TxEP, RxEP, TxRP, RxRP] }

  type Traffic = map<TrafficKey, uint64>

  datatype Key = WSettings(band: RadioBand) | SsidStats(band: RadioBand) | RadioTraffic(band: RadioBand)

  datatype Doc =
    | SettingsDoc(fields: seq<(string, string)>, staNum: Option<uint64>)
    | StatsDoc(items: seq<Stat>)
    | TrafficDoc(traffic: Traffic)

  type Member = (Key, Doc)

  /* ---- the status alone ---- */

  // optional_int_any of a number the agent printed
  function Reparsed(n: uint64): Count { if n < TWO_63 then n else TWO_63 - 1 }

  function Stations(interfaces: seq<Interface>): int {
    if interfaces == [] then 0 else interfaces[0].stations + Stations(interfaces[1..])
  }

  function SettingsOf(r: Radio): Option<Doc> {
    var stations := WrapI64(Stations(r.interfaces));
    if r.settings == [] && stations <= 0 then None
    else Some(SettingsDoc(r.settings, if stations > 0 then Some(stations) else None))
  }

  function StatOf(i: Interface): Option<Stat> {
    if i.ssid == "" then None
    else
      var mac := ParseMac(i.bssid);
      var bssid := if mac.Some? then Omada(mac.value) else i.bssid;
      match i.counters
      case None => Some(Stat(i.ssid, i.stations, bssid, 0, 0, 0, 0))
      case Some(c) =>
        Some(Stat(i.ssid, i.stations, bssid, if c.txBytes == 0 then c.tx else c.txBytes,
                  if c.rxBytes == 0 then c.rx else c.rxBytes, c.txPackets, c.rxPackets))
  }

  function StatsOf(interfaces: seq<Interface>): seq<Stat> {
    if interfaces == [] then []
    else
      var s := StatOf(interfaces[0]);
      (if s.Some? then [s.value] else []) + StatsOf(interfaces[1..])
  }

  function RadioMembers(r: Radio): seq<Member> {
    if r.band.None? then []
    else
      var settings, stats := SettingsOf(r), StatsOf(r.interfaces);
      (if settings.Some? then [(WSettings(r.band.value), settings.value)] else [])
      + (if stats != [] then [(SsidStats(r.band.value), StatsDoc(stats))] else [])
  }

  /** openwrt_wireless_inform_from_status_json */
  function StatusMembers(radios: seq<Radio>): seq<Member> {
    if radios == [] then [] else RadioMembers(radios[0]) + StatusMembers(radios[1..])
  }

  function ObservedOn(band: Option<RadioBand>, interfaces: seq<Interface>): seq<Observed> {
    if interfaces == [] then []
    else
      var i := interfaces[0];
      (if i.ifname == "" then [] else [Observed(i.ifname, i.ssid, band)]) + ObservedOn(band, interfaces[1..])
  }

  /** openwrt_wireless_interfaces_from_status_json */
  function AllObserved(radios: seq<Radio>): seq<Observed> {
    if radios == [] then [] else ObservedOn(radios[0].band, radios[0].interfaces) + AllObserved(radios[1..])
  }

  /* ---- what hostapd adds ---- */

  function Counter(c: ClientCounters, k: TrafficKey): Count {
    match k
    case Tx => c.tx
    case Rx => c.rx
    case TxP => c.txPackets
    case RxP => c.rxPackets
    case _ => 0
  }

  /** The sum of one counter over the clients of an interface, unbounded. */
  function Sum(clients: seq<Option<ClientCounters>>, k: TrafficKey): nat {
    if clients == [] then 0
    else (if clients[0].Some? then Counter(clients[0].value, k) else 0) + Sum(clients[1..], k)
  }

  function Objects(clients: seq<Option<ClientCounters>>): nat {
    if clients == [] then 0 else (if clients[0].Some? then 1 else 0) + Objects(clients[1..])
  }

  function HostapdStat(ssid: string, clients: seq<Option<ClientCounters>>): Stat {
    Stat(ssid, Objects(clients), "", WrapU64(Sum(clients, Tx)), WrapU64(Sum(clients, Rx)), WrapU64(Sum(clients, TxP)),
         WrapU64(Sum(clients, RxP)))
  }

  function TrafficOf(clients: seq<Option<ClientCounters>>): Traffic {
    map k | k in TrafficKeys() :: WrapU64(Sum(clients, k))
  }

  function Field(t: Traffic, k: TrafficKey): Count { if k in t then Reparsed(t[k]) else 0 }

  function MergedTraffic(existing: Traffic, addition: Traffic): Traffic {
    map k | k in TrafficKeys() :: WrapU64(Field(existing, k) + Field(addition, k))
  }

  function Without(items: seq<Stat>, ssid: string): seq<Stat> {
    if items == [] then [] else (if items[0].ssid == ssid then [] else [items[0]]) + Without(items[1..], ssid)
  }

  function MergedStats(existing: seq<Stat>, s: Stat): seq<Stat> { Without(existing, s.ssid) + [s] }

  function MergedStaNum(current: Option<uint64>, count: nat): uint64 {
    var now := Reparsed(current.GetOr(0));
    if now >= WrapU64(count) then now else WrapU64(count)
  }

  /* ---- the member list ---- */

  function MemberOf(members: seq<Member>, k: Key): Option<Doc> {
    if members == [] then None else if members[0].0 == k then Some(members[0].1) else MemberOf(members[1..], k)
  }

  function SetMember(members: seq<Member>, k: Key, d: Doc): seq<Member> {
    if members == [] then [(k, d)]
    else if members[0].0 == k then [(k, d)] + members[1..]
    else [members[0]] + SetMember(members[1..], k, d)
  }

  function Items(d: Option<Doc>): seq<Stat> { if d.Some? && d.value.StatsDoc? then d.value.items else [] }

  function TrafficIn(d: Option<Doc>): Traffic { if d.Some? && d.value.TrafficDoc? then d.value.traffic else map[] }

  function SettingsIn(d: Option<Doc>): (seq<(string, string)>, Option<uint64>) {
    if d.Some? && d.value.SettingsDoc? then (d.value.fields, d.value.staNum) else ([], None)
  }

  /** The clients an observed interface contributes, if it does. */
  function Contribution(o: Observed, h: Hostapd): Option<seq<Option<ClientCounters>>> {
    if o.band.None? || o.ssid == "" || h.NotJson? then None else h.clients
  }

  function Augmented(members: seq<Member>, o: Observed, h: Hostapd): seq<Member> {
    var clients := Contribution(o, h);
    if clients.None? then members
    else
      var band := o.band.value;
      var stats := SetMember(members, SsidStats(band),
                             StatsDoc(MergedStats(Items(MemberOf(members, SsidStats(band))), HostapdStat(o.ssid, clients.value))));
      var (fields, staNum) := SettingsIn(MemberOf(stats, WSettings(band)));
      var settings := SetMember(stats, WSettings(band), SettingsDoc(fields, Some(MergedStaNum(staNum, |clients.value|))));
      SetMember(settings, RadioTraffic(band),
                TrafficDoc(MergedTraffic(TrafficIn(MemberOf(settings, RadioTraffic(band))), TrafficOf(clients.value))))
  }

  /** The members after the first n interfaces. */
  function After(members: seq<Member>, observed: seq<Observed>, hostapd: seq<Hostapd>, n: nat): seq<Member>
    requires n <= |observed| && n <= |hostapd|
  {
    if n == 0 then members else Augmented(After(members, observed, hostapd, n - 1), observed[n - 1], hostapd[n - 1])
  }

  /* ---- the loops ---- */

  lemma SignedStep(a: int64, b: Count, rest: int)
    ensures WrapI64(WrapI64(a + b) + rest) == WrapI64(a + (b + rest))
  {
  }

  lemma SignedSmall(n: int64)
    ensures WrapI64(n) == n
  {
  }

  method CountStations(interfaces: seq<Interface>) returns (stations: int64)
    ensures stations == WrapI64(Stations(interfaces))
  {
    hide WrapI64;
    stations := 0;
    for i := 0 to |interfaces|
      invariant WrapI64(stations + Stations(interfaces[i..])) == WrapI64(Stations(interfaces))
    {
      assert interfaces[i..][1..] == interfaces[i + 1..];
      SignedStep(stations, interfaces[i].stations, Stations(interfaces[i + 1..]));
      stations := WrapI64(stations + interfaces[i].stations);
    }
    assert interfaces[|interfaces|..] == [];
    SignedSmall(stations);
  }

  method CollectStats(interfaces: seq<Interface>) returns (stats: seq<Stat>)
    ensures stats == StatsOf(interfaces)
  {
    hide StatOf;
    stats := [];
    for i := 0 to |interfaces|
      invariant stats + StatsOf(interfaces[i..]) == StatsOf(interfaces)
    {
      assert interfaces[i..][1..] == interfaces[i + 1..];
      var s := StatOf(interfaces[i]);
      Text.Regroup(stats, if s.Some? then [s.value] else [], StatsOf(interfaces[i + 1..]));
      if s.Some? {
        stats := stats + [s.value];
      } else {
        assert stats + [] == stats;
      }
    }
    assert interfaces[|interfaces|..] == [] && stats + [] == stats;
  }

  method StatusInform(radios: seq<Radio>) returns (members: seq<Member>)
    ensures members == StatusMembers(radios)
  {
    hide StatsOf, Stations, WrapI64;
    members := [];
    for i := 0 to |radios|
      invariant members + StatusMembers(radios[i..]) == StatusMembers(radios)
    {
      assert radios[i..][1..] == radios[i + 1..];
      var radio := radios[i];
      Text.Regroup(members, RadioMembers(radio), StatusMembers(radios[i + 1..]));
      assert members + [] == members;
      if radio.band.None? {
        continue;
      }
      ghost var before := members;
      var stations := CountStations(radio.interfaces);
      if radio.settings != [] || stations > 0 {
        members := members + [(WSettings(radio.band.value), SettingsDoc(radio.settings, if stations > 0 then Some(stations) else None))];
      }
      var stats := CollectStats(radio.interfaces);
      if stats != [] {
        members := members + [(SsidStats(radio.band.value), StatsDoc(stats))];
      }
      assert members == before + RadioMembers(radio);
    }
    assert radios[|radios|..] == [];
  }

  method StatusInterfaces(radios: seq<Radio>) returns (observed: seq<Observed>)
    ensures observed == AllObserved(radios)
  {
    observed := [];
    for i := 0 to |radios|
      invariant observed + AllObserved(radios[i..]) == AllObserved(radios)
    {
      assert radios[i..][1..] == radios[i + 1..];
      var band, interfaces := radios[i].band, radios[i].interfaces;
      Text.Regroup(observed, ObservedOn(band, interfaces), AllObserved(radios[i + 1..]));
      ghost var whole := observed + ObservedOn(band, interfaces);
      for j := 0 to |interfaces|
        invariant observed + ObservedOn(band, interfaces[j..]) == whole
      {
        assert interfaces[j..][1..] == interfaces[j + 1..];
        var item := interfaces[j];
        Text.Regroup(observed, if item.ifname == "" then [] else [Observed(item.ifname, item.ssid, band)], ObservedOn(band, interfaces[j + 1..]));
        assert observed + [] == observed;
        if item.ifname == "" {
          continue;
        }
        observed := observed + [Observed(item.ifname, item.ssid, band)];
      }
      assert interfaces[|interfaces|..] == [] && observed + [] == observed;
    }
    assert radios[|radios|..] == [];
  }

  method SumClients(clients: seq<Option<ClientCounters>>) returns (down: uint64, up: uint64, downPackets: uint64, upPackets: uint64, count: nat)
    ensures down == WrapU64(Sum(clients, Tx)) && up == WrapU64(Sum(clients, Rx))
    ensures downPackets == WrapU64(Sum(clients, TxP)) && upPackets == WrapU64(Sum(clients, RxP))
    ensures count == Objects(clients)
  {
    hide WrapU64, Counter;
    down, up, downPackets, upPackets, count := 0, 0, 0, 0, 0;
    assert clients[0..] == clients;
    for i := 0 to |clients|
      invariant WrapU64(down + Sum(clients[i..], Tx)) == WrapU64(Sum(clients, Tx))
      invariant WrapU64(up + Sum(clients[i..], Rx)) == WrapU64(Sum(clients, Rx))
      invariant WrapU64(downPackets + Sum(clients[i..], TxP)) == WrapU64(Sum(clients, TxP))
      invariant WrapU64(upPackets + Sum(clients[i..], RxP)) == WrapU64(Sum(clients, RxP))
      invariant count + Objects(clients[i..]) == Objects(clients)
    {
      assert clients[i..][1..] == clients[i + 1..];
      if clients[i].None? {
        continue;
      }
      var c := clients[i].value;
      CounterOf(c);
      WrapStep(down, c.tx, Sum(clients[i + 1..], Tx));
      WrapStep(up, c.rx, Sum(clients[i + 1..], Rx));
      WrapStep(downPackets, c.txPackets, Sum(clients[i + 1..], TxP));
      WrapStep(upPackets, c.rxPackets, Sum(clients[i + 1..], RxP));
      count := count + 1;
      down := WrapU64(down + c.tx);
      up := WrapU64(up + c.rx);
      downPackets := WrapU64(downPackets + c.txPackets);
      upPackets := WrapU64(upPackets + c.rxPackets);
    }
    assert clients[|clients|..] == [];
    WrapSmall(down);
    WrapSmall(up);
    WrapSmall(downPackets);
    WrapSmall(upPackets);
  }

  lemma WrapSmall(n: uint64)
    ensures WrapU64(n) == n
  {
  }

  lemma CounterOf(c: ClientCounters)
    ensures Counter(c, Tx) == c.tx && Counter(c, Rx) == c.rx && Counter(c, TxP) == c.txPackets && Counter(c, RxP) == c.rxPackets
  {
  }

  lemma WrapStep(a: uint64, b: Count, rest: nat)
    ensures WrapU64(WrapU64(a + b) + rest) == WrapU64(a + (b + rest))
  {
  }

  lemma KeysDistinct()
    ensures var keys := TrafficKeys(); forall i, j :: 0 <= i < j < |keys| ==> keys[i] != keys[j]
    ensures forall k :: k in TrafficKeys()
  {
    forall k ensures k in TrafficKeys() { KeyPresent(k); }
  }

  lemma KeyPresent(k: TrafficKey)
    ensures k in TrafficKeys()
  {
    var keys := TrafficKeys();
    match k
    case Tx => assert keys[0] == k;
    case Rx => assert keys[1] == k;
    case TxP => assert keys[2] == k;
    case RxP => assert keys[3] == k;
    case TxDP => assert keys[4] == k;
    case RxDP => assert keys[5] == k;
    case TxEP => assert keys[6] == k;
    case RxEP => assert keys[7] == k;
    case TxRP => assert keys[8] == k;
    case RxRP => assert keys[9] == k;
  }

  lemma NextKey(keys: seq<TrafficKey>, i: nat)
    requires i < |keys| && forall a, b :: 0 <= a < b < |keys| ==> keys[a] != keys[b]
    ensures keys[i] !in keys[..i] && forall k :: k in keys[..i + 1] <==> k in keys[..i] || k == keys[i]
  {
    assert keys[..i + 1] == keys[..i] + [keys[i]];
  }

  function Raised(value: uint64, doc: Traffic, k: TrafficKey): uint64 { WrapU64(value + Field(doc, k)) }

  // add the counters of a parsed document to the values
  method AddCounters(values: Traffic, doc: Traffic, keys: seq<TrafficKey>) returns (sum: Traffic)
    requires values.Keys == (set k | k in keys) && forall i, j :: 0 <= i < j < |keys| ==> keys[i] != keys[j]
    ensures sum == map k | k in keys :: WrapU64(values[k] + Field(doc, k))
  {
    sum := values;
    for i := 0 to |keys|
      invariant sum.Keys == values.Keys
      invariant forall k :: k in values ==> sum[k] == if k in keys[..i] then Raised(values[k], doc, k) else values[k]
    {
      hide Raised;
      NextKey(keys, i);
      var key := keys[i];
      sum := sum[key := Raised(sum[key], doc, key)];
    }
    assert keys[..|keys|] == keys;
  }

  function Zeros(): Traffic { map k | k in TrafficKeys() :: 0 }

  function Plus(values: Traffic, doc: Traffic): Traffic {
    map k | k in TrafficKeys() && k in values :: WrapU64(values[k] + Field(doc, k))
  }

  lemma ZerosPlus(doc: Traffic, k: TrafficKey)
    ensures k in Zeros() && k in Plus(Zeros(), doc) && Plus(Zeros(), doc)[k] == Field(doc, k)
  {
    hide TrafficKeys, WrapU64, Field;
    KeyPresent(k);
    WrapSmall(Field(doc, k));
  }

  lemma MergedIsTwoSums(existing: Traffic, addition: Traffic)
    ensures MergedTraffic(existing, addition) == Plus(Plus(Zeros(), existing), addition)
  {
    hide TrafficKeys, WrapU64, Field, Zeros;
    forall k ensures k in TrafficKeys() && k in Plus(Zeros(), existing) && Plus(Zeros(), existing)[k] == Field(existing, k) {
      KeyPresent(k);
      ZerosPlus(existing, k);
    }
    var first := Plus(Zeros(), existing);
    hide Plus;
    assert forall k :: k in first && first[k] == Field(existing, k);
    PlusIs(first, addition);
  }

  lemma PlusIs(values: Traffic, doc: Traffic)
    ensures Plus(values, doc) == map k | k in TrafficKeys() && k in values :: WrapU64(values[k] + Field(doc, k))
  {
    hide TrafficKeys, WrapU64, Field;
  }

  method MergeRadioTraffic(existing: Traffic, addition: Traffic) returns (values: Traffic)
    ensures values == MergedTraffic(existing, addition)
  {
    KeysDistinct();
    hide TrafficKeys, WrapU64, Field;
    values := Zeros();
    values := AddCounters(values, existing, TrafficKeys());
    assert values == Plus(Zeros(), existing);
    values := AddCounters(values, addition, TrafficKeys());
    assert values == Plus(Plus(Zeros(), existing), addition);
    hide *;
    MergedIsTwoSums(existing, addition);
  }

  method MergeSsidStats(existing: seq<Stat>, s: Stat) returns (items: seq<Stat>)
    ensures items == MergedStats(existing, s)
  {
    items := [];
    assert existing[0..] == existing && items + Without(existing, s.ssid) == Without(existing, s.ssid);
    for i := 0 to |existing|
      invariant items + Without(existing[i..], s.ssid) == Without(existing, s.ssid)
    {
      assert existing[i..][1..] == existing[i + 1..];
      if existing[i].ssid == s.ssid {
        continue;
      }
      Text.Regroup(items, [existing[i]], Without(existing[i + 1..], s.ssid));
      items := items + [existing[i]];
    }
    assert existing[|existing|..] == [] && items + [] == items;
    items := items + [s];
  }

  // the loop's step: the member after the front is replaced, or passed over
  lemma SetNext(front: seq<Member>, tail: seq<Member>, k: Key, d: Doc, whole: seq<Member>)
    requires tail != [] && front + SetMember(tail, k, d) == whole
    ensures tail[0].0 == k ==> front + ([(k, d)] + tail[1..]) == whole
    ensures tail[0].0 != k ==> (front + [tail[0]]) + SetMember(tail[1..], k, d) == whole
  {
    SetHead(tail, k, d);
    hide SetMember;
    Text.Regroup(front, [tail[0]], SetMember(tail[1..], k, d));
  }

  lemma Split<T>(s: seq<T>, i: nat, x: T)
    requires i < |s|
    ensures s[i..] != [] && s[i..][0] == s[i] && s[i..][1..] == s[i + 1..]
    ensures s[..i] + [s[i]] == s[..i + 1]
    ensures s[i := x] == s[..i] + ([x] + s[i + 1..])
  {
  }

  lemma NothingToReplace(k: Key, d: Doc)
    ensures SetMember([], k, d) == [(k, d)]
  {
  }

  lemma SetHead(members: seq<Member>, k: Key, d: Doc)
    requires members != []
    ensures SetMember(members, k, d) == if members[0].0 == k then [(k, d)] + members[1..] else [members[0]] + SetMember(members[1..], k, d)
  {
  }

  class InformPayload {
    var members: seq<Member>

    constructor (members: seq<Member>)
      ensures this.members == members
    {
      this.members := members;
    }

    method Get(k: Key) returns (d: Option<Doc>)
      ensures d == MemberOf(members, k)
    {
      for i := 0 to |members|
        invariant MemberOf(members[i..], k) == MemberOf(members, k)
      {
        assert members[i..][1..] == members[i + 1..];
        if members[i].0 == k {
          return Some(members[i].1);
        }
      }
      return None;
    }

    method Set(k: Key, d: Doc)
      modifies this
      ensures members == SetMember(old(members), k, d)
    {
      hide SetMember;
      ghost var whole := SetMember(members, k, d);
      assert members[0..] == members && members[..0] + whole == whole;
      for i := 0 to |members|
        invariant members == old(members)
        invariant members[..i] + SetMember(members[i..], k, d) == whole
      {
        Split(members, i, (k, d));
        SetNext(members[..i], members[i..], k, d, whole);
        if members[i].0 == k {
          members := members[i := (k, d)];
          return;
        }
      }
      assert members[|members|..] == [] && members[..|members|] == members;
      NothingToReplace(k, d);
      members := members + [(k, d)];
    }

    // one interface with its hostapd document
    method Augment(o: Observed, h: Hostapd)
      modifies this
      ensures members == Augmented(old(members), o, h)
    {
      hide MergedStats, HostapdStat, MergedStaNum, MergedTraffic, TrafficOf, MemberOf, SetMember;
      if o.band.None? || o.ssid == "" || h.NotJson? || h.clients.None? {
        return;
      }
      var band, clients := o.band.value, h.clients.value;
      var down, up, downPackets, upPackets, count := SumClients(clients);
      var stat := Stat(o.ssid, count, "", down, up, downPackets, upPackets);
      StatIs(stat, o.ssid, clients);

      var existing := Get(SsidStats(band));
      var items := MergeSsidStats(Items(existing), stat);
      Set(SsidStats(band), StatsDoc(items));

      var current := Get(WSettings(band));
      var (fields, staNum) := SettingsIn(current);
      Set(WSettings(band), SettingsDoc(fields, Some(MergedStaNum(staNum, |clients|))));

      var traffic := Get(RadioTraffic(band));
      var merged := MergeRadioTraffic(TrafficIn(traffic), TrafficOf(clients));
      Set(RadioTraffic(band), TrafficDoc(merged));
    }
  }

  lemma StatIs(s: Stat, ssid: string, clients: seq<Option<ClientCounters>>)
    requires s == Stat(ssid, Objects(clients), "", WrapU64(Sum(clients, Tx)), WrapU64(Sum(clients, Rx)),
                       WrapU64(Sum(clients, TxP)), WrapU64(Sum(clients, RxP)))
    ensures s == HostapdStat(ssid, clients)
  {
  }

  /** The whole inform, for a status that parsed. */
  function InformMembers(radios: seq<Radio>, hostapd: seq<Hostapd>): seq<Member> {
    var observed := AllObserved(radios);
    After(StatusMembers(radios), observed, hostapd, Min(|observed|, |hostapd|))
  }

  method WirelessInform(radios: seq<Radio>, hostapd: seq<Hostapd>) returns (payload: InformPayload)
    ensures fresh(payload) && payload.members == InformMembers(radios, hostapd)
  {
    hide Augmented, StatusMembers, AllObserved;
    var members := StatusInform(radios);
    payload := new InformPayload(members);
    var interfaces := StatusInterfaces(radios);
    var count := Min(|interfaces|, |hostapd|);
    for index := 0 to count
      invariant fresh(payload) && payload.members == After(StatusMembers(radios), interfaces, hostapd, index)
    {
      payload.Augment(interfaces[index], hostapd[index]);
    }
  }
}
