/** What the members of an inform report, in terms of the radios, interfaces and clients they come from. */
module TelemetryReports {
  import opened Wrappers
  import opened FixedWidth
  import opened Config
  import opened Mac
  import opened Telemetry
  import Text

  /* ---- the status ---- */

  /** An entry of an SSID: its stations, its address in the controller's form where it is one, and its
      counters. Byte counters that read 0 are replaced by the general ones. */
  ghost predicate Reports(s: Stat, i: Interface) {
    && s.ssid == i.ssid && s.clientNum == i.stations
    && s.bssid == (if ParseMac(i.bssid).Some? then Omada(ParseMac(i.bssid).value) else i.bssid)
    && match i.counters
       case None => s.down == 0 && s.up == 0 && s.downPackets == 0 && s.upPackets == 0
       case Some(c) =>
         && (if c.txBytes > 0 then s.down == c.txBytes else s.down == c.tx)
         && (if c.rxBytes > 0 then s.up == c.rxBytes else s.up == c.rx)
         && s.downPackets == c.txPackets && s.upPackets == c.rxPackets
  }

  /** The interfaces with an SSID, in order. */
  function WithSsid(interfaces: seq<Interface>): seq<Interface> {
    if interfaces == [] then []
    else if interfaces[0].ssid != "" then [interfaces[0]] + WithSsid(interfaces[1..])
    else WithSsid(interfaces[1..])
  }

  /** The entries of a radio are one for each of its interfaces with an SSID, in order. */
  lemma {:induction false} StatsReport(interfaces: seq<Interface>)
    ensures |StatsOf(interfaces)| == |WithSsid(interfaces)|
    ensures forall k :: 0 <= k < |StatsOf(interfaces)| ==> Reports(StatsOf(interfaces)[k], WithSsid(interfaces)[k])
  {
    if interfaces != [] {
      StatsReport(interfaces[1..]);
      EntryReports(interfaces[0]);
      hide StatOf, Reports;
      var own, later := StatOf(interfaces[0]), StatsOf(interfaces[1..]);
      assert [] + later == later;
      if own.Some? {
        var named := WithSsid(interfaces[1..]);
        assert StatsOf(interfaces) == [own.value] + later && WithSsid(interfaces) == [interfaces[0]] + named;
        hide StatsOf, WithSsid;
        forall k | 0 <= k < |[own.value] + later| ensures Reports(([own.value] + later)[k], ([interfaces[0]] + named)[k]) {
          if k > 0 { assert Reports(later[k - 1], named[k - 1]); }
        }
      }
    }
  }

  lemma EntryReports(i: Interface)
    ensures StatOf(i).Some? <==> i.ssid != ""
    ensures StatOf(i).Some? ==> Reports(StatOf(i).value, i)
  {
    hide ParseMac, Omada;
  }

  /** The settings of a radio are those of the status and, if anyone is connected, the number of stations
      over all its interfaces; there are none when both are missing. */
  lemma SettingsReport(r: Radio)
    requires Stations(r.interfaces) < TWO_63
    ensures SettingsOf(r) == if r.settings == [] && Stations(r.interfaces) == 0 then None
                             else Some(SettingsDoc(r.settings, if Stations(r.interfaces) > 0 then Some(Stations(r.interfaces)) else None))
  {
    StationsCounted(r.interfaces);
    hide Stations;
  }

  /** Every interface counts. */
  lemma {:induction false} StationsCounted(interfaces: seq<Interface>)
    ensures Stations(interfaces) >= 0
    ensures forall i :: 0 <= i < |interfaces| ==>
              Stations(interfaces) == Stations(interfaces[..i]) + interfaces[i].stations + Stations(interfaces[i + 1..])
  {
    if interfaces != [] {
      StationsCounted(interfaces[1..]);
      assert interfaces[..0] == [];
      forall i | 0 < i < |interfaces|
        ensures Stations(interfaces) == Stations(interfaces[..i]) + interfaces[i].stations + Stations(interfaces[i + 1..])
      {
        assert interfaces[..i][1..] == interfaces[1..][..i - 1] && interfaces[..i][0] == interfaces[0];
        assert interfaces[1..][i - 1] == interfaces[i] && interfaces[1..][i..] == interfaces[i + 1..];
      }
    }
  }

  /** What the status says under a key comes from the first radio of the band that has anything to say. */
  lemma {:induction false} FirstRadioSpeaks(radios: seq<Radio>, i: nat, b: RadioBand)
    requires i < |radios| && radios[i].band == Some(b)
    ensures SettingsOf(radios[i]).Some? && (forall j :: 0 <= j < i ==> !(radios[j].band == Some(b) && SettingsOf(radios[j]).Some?)) ==>
              MemberOf(StatusMembers(radios), WSettings(b)) == SettingsOf(radios[i])
    ensures StatsOf(radios[i].interfaces) != []
            && (forall j :: 0 <= j < i ==> !(radios[j].band == Some(b) && StatsOf(radios[j].interfaces) != [])) ==>
              MemberOf(StatusMembers(radios), SsidStats(b)) == Some(StatsDoc(StatsOf(radios[i].interfaces)))
  {
    var first, rest := radios[0], StatusMembers(radios[1..]);
    OwnMembers(first, rest, b);
    if i > 0 {
      FirstRadioSpeaks(radios[1..], i - 1, b);
      assert radios[1..][i - 1] == radios[i];
      hide SettingsOf, StatsOf, RadioMembers, MemberOf;
      if forall j :: 0 <= j < i ==> !(radios[j].band == Some(b) && SettingsOf(radios[j]).Some?) {
        forall j | 0 <= j < i - 1 ensures !(radios[1..][j].band == Some(b) && SettingsOf(radios[1..][j]).Some?) { assert radios[1..][j] == radios[j + 1]; }
      }
      if forall j :: 0 <= j < i ==> !(radios[j].band == Some(b) && StatsOf(radios[j].interfaces) != []) {
        forall j | 0 <= j < i - 1 ensures !(radios[1..][j].band == Some(b) && StatsOf(radios[1..][j].interfaces) != []) { assert radios[1..][j] == radios[j + 1]; }
      }
    }
  }

  lemma OwnMembers(r: Radio, rest: seq<Member>, b: RadioBand)
    ensures MemberOf(RadioMembers(r) + rest, WSettings(b))
         == if r.band == Some(b) && SettingsOf(r).Some? then SettingsOf(r) else MemberOf(rest, WSettings(b))
    ensures MemberOf(RadioMembers(r) + rest, SsidStats(b))
         == if r.band == Some(b) && StatsOf(r.interfaces) != [] then Some(StatsDoc(StatsOf(r.interfaces))) else MemberOf(rest, SsidStats(b))
  {
    hide SettingsOf, StatsOf;
    if r.band.Some? {
      var settings, stats := SettingsOf(r), StatsOf(r.interfaces);
      var s := if settings.Some? then [(WSettings(r.band.value), settings.value)] else [];
      var t := if stats != [] then [(SsidStats(r.band.value), StatsDoc(stats))] else [];
      Text.Regroup(s, t, rest);
      AtFront(s, t + rest, WSettings(b));
      AtFront(s, t + rest, SsidStats(b));
      AtFront(t, rest, WSettings(b));
      AtFront(t, rest, SsidStats(b));
    } else {
      assert [] + rest == rest;
    }
  }

  lemma AtFront(front: seq<Member>, rest: seq<Member>, k: Key)
    requires |front| <= 1
    ensures MemberOf(front + rest, k) == if front != [] && front[0].0 == k then Some(front[0].1) else MemberOf(rest, k)
  {
    if front == [] {
      assert front + rest == rest;
    } else {
      assert (front + rest)[0] == front[0] && (front + rest)[1..] == rest;
    }
  }

  /* ---- the interfaces hostapd is asked about ---- */

  /** The interfaces with a name, in order, each with its SSID and the band of its radio. */
  ghost predicate Watches(observed: seq<Observed>, radios: seq<Radio>)
    decreases |radios|
  {
    if radios == [] then observed == []
    else
      exists n :: 0 <= n <= |observed| && WatchesRadio(observed[..n], radios[0].interfaces, radios[0].band) && Watches(observed[n..], radios[1..])
  }

  ghost predicate WatchesRadio(observed: seq<Observed>, interfaces: seq<Interface>, band: Option<RadioBand>)
    decreases |interfaces|
  {
    if interfaces == [] then observed == []
    else if interfaces[0].ifname == "" then WatchesRadio(observed, interfaces[1..], band)
    else
      && observed != [] && observed[0].ifname == interfaces[0].ifname && observed[0].ssid == interfaces[0].ssid && observed[0].band == band
      && WatchesRadio(observed[1..], interfaces[1..], band)
  }

  lemma {:induction false} WatchedOn(interfaces: seq<Interface>, band: Option<RadioBand>)
    ensures WatchesRadio(ObservedOn(band, interfaces), interfaces, band)
    decreases |interfaces|
  {
    if interfaces != [] {
      WatchedOn(interfaces[1..], band);
      var rest := ObservedOn(band, interfaces[1..]);
      assert [] + rest == rest;
      if interfaces[0].ifname != "" { assert ObservedOn(band, interfaces)[1..] == rest; }
    }
  }

  lemma {:induction false} AllWatched(radios: seq<Radio>)
    ensures Watches(AllObserved(radios), radios)
    decreases |radios|
  {
    if radios != [] {
      AllWatched(radios[1..]);
      WatchedOn(radios[0].interfaces, radios[0].band);
      var own, rest := ObservedOn(radios[0].band, radios[0].interfaces), AllObserved(radios[1..]);
      hide ObservedOn, WatchesRadio;
      assert (own + rest)[..|own|] == own && (own + rest)[|own|..] == rest;
    }
  }

  /* ---- what hostapd reports ---- */

  /** The clients of a list and the sums of what they sent and received. */
  datatype Totals = Totals(clients: nat, down: nat, up: nat, downPackets: nat, upPackets: nat)

  function Plus(t: Totals, c: ClientCounters): Totals {
    Totals(t.clients + 1, t.down + c.tx, t.up + c.rx, t.downPackets + c.txPackets, t.upPackets + c.rxPackets)
  }

  function TotalsOf(clients: seq<Option<ClientCounters>>): Totals {
    if clients == [] then Totals(0, 0, 0, 0, 0)
    else
      var later := TotalsOf(clients[1..]);
      if clients[0].Some? then Plus(later, clients[0].value) else later
  }

  /** The entry and the traffic counters made of a client list: downwards is what the clients were sent.
      The counters of dropped and failed packets stay at 0. */
  lemma HostapdReports(ssid: string, clients: seq<Option<ClientCounters>>)
    ensures var t := TotalsOf(clients);
            && HostapdStat(ssid, clients)
               == Stat(ssid, t.clients, "", t.down % TWO_64, t.up % TWO_64, t.downPackets % TWO_64, t.upPackets % TWO_64)
            && Sum(clients, Tx) == t.down && Sum(clients, Rx) == t.up && Sum(clients, TxP) == t.downPackets && Sum(clients, RxP) == t.upPackets
            && forall k :: k in {TxDP, RxDP, TxEP, RxEP, TxRP, RxRP} ==> Sum(clients, k) == 0
  {
    Totalled(clients);
    forall k | k in {TxDP, RxDP, TxEP, RxEP, TxRP, RxRP} ensures Sum(clients, k) == 0 { NotCounted(clients, k); }
    hide Sum, Objects, TotalsOf;
  }

  lemma {:induction false} Totalled(clients: seq<Option<ClientCounters>>)
    ensures var t := TotalsOf(clients);
            && Objects(clients) == t.clients
            && Sum(clients, Tx) == t.down && Sum(clients, Rx) == t.up && Sum(clients, TxP) == t.downPackets && Sum(clients, RxP) == t.upPackets
  {
    if clients != [] { Totalled(clients[1..]); }
  }

  lemma {:induction false} NotCounted(clients: seq<Option<ClientCounters>>, k: TrafficKey)
    requires k in {TxDP, RxDP, TxEP, RxEP, TxRP, RxRP}
    ensures Sum(clients, k) == 0
  {
    if clients != [] { NotCounted(clients[1..], k); }
  }

  /** A number that is printed and read again comes back as it was, or as the largest signed one. */
  lemma Saturates(n: uint64)
    ensures Reparsed(n) == if n <= 0x7FFF_FFFF_FFFF_FFFF then n else 0x7FFF_FFFF_FFFF_FFFF
  {
  }

  /** hostapd's word counts for an interface on a known band with an SSID, when it has a client object. */
  lemma CountsExactly(o: Observed, h: Hostapd)
    ensures Contribution(o, h).Some? <==> o.band.Some? && o.ssid != "" && h.Status? && h.clients.Some?
    ensures Contribution(o, h).Some? ==> Contribution(o, h) == h.clients
  {
  }
}
