/** Merging what different sources know about wireless clients, keyed by MAC address. */
module Clients {
  import opened Wrappers
  import opened FixedWidth
  import opened Config
  import opened Mac
  import opened OrderedMap

  datatype PortalState = Unknown | Unauthenticated | Authenticating | Authenticated | Expired | Blocked

  datatype Client = Client(
    mac: MacAddress,
    ipv4: string,
    ipv6: seq<string>,
    hostname: string,
    ssid: string,
    radio: Option<RadioBand>,
    rssi: Option<int64>,
    snr: Option<int64>,
    vlanId: Option<int64>,
    portalState: PortalState,
    rxBytes: uint64,
    txBytes: uint64,
    rxPackets: Option<uint64>,
    txPackets: Option<uint64>,
    rxRate: Option<uint64>,
    txRate: Option<uint64>,
    associationTime: Option<uint64>)

  datatype Lease = Lease(expiresAt: int64, mac: MacAddress, ipv4: string, hostname: string, clientId: string)

  function Or<T>(base: Option<T>, overlay: Option<T>): Option<T> { if overlay.Some? then overlay else base }

  // merge_client
  function MergeClient(base: Client, overlay: Client): Client {
    Client(
      base.mac,
      if overlay.ipv4 != "" then overlay.ipv4 else base.ipv4,
      if overlay.ipv6 != [] then overlay.ipv6 else base.ipv6,
      if overlay.hostname != "" then overlay.hostname else base.hostname,
      if overlay.ssid != "" then overlay.ssid else base.ssid,
      Or(base.radio, overlay.radio),
      Or(base.rssi, overlay.rssi),
      Or(base.snr, overlay.snr),
      Or(base.vlanId, overlay.vlanId),
      if overlay.portalState != Unknown then overlay.portalState else base.portalState,
      if overlay.rxBytes != 0 then overlay.rxBytes else base.rxBytes,
      if overlay.txBytes != 0 then overlay.txBytes else base.txBytes,
      Or(base.rxPackets, overlay.rxPackets),
      Or(base.txPackets, overlay.txPackets),
      Or(base.rxRate, overlay.rxRate),
      Or(base.txRate, overlay.txRate),
      Or(base.associationTime, overlay.associationTime))
  }

  lemma MergeAssociative(a: Client, b: Client, c: Client)
    ensures MergeClient(MergeClient(a, b), c) == MergeClient(a, MergeClient(b, c))
  {
  }

  /* ---- the maps the loops build ---- */

  type Table = map<string, Client>

  function Key(c: Client): string { Normalized(c.mac) }

  function Put(m: Table, c: Client): Table { m[Key(c) := c] }

  function Join(base: Option<Client>, overlay: Client): Client {
    if base.Some? then MergeClient(base.value, overlay) else overlay
  }

  function Get<V>(m: map<string, V>, k: string): Option<V> { if k in m then Some(m[k]) else None }

  function Lay(m: Table, c: Client): Table { m[Key(c) := Join(Get(m, Key(c)), c)] }

  function LayKnown(m: Table, c: Client): Table { if Key(c) in m then Lay(m, c) else m }

  function Index(clients: seq<Client>, m: Table): Table
    decreases |clients|
  {
    if clients == [] then m else Index(clients[1..], Put(m, clients[0]))
  }

  function Overlay(clients: seq<Client>, m: Table): Table
    decreases |clients|
  {
    if clients == [] then m else Overlay(clients[1..], Lay(m, clients[0]))
  }

  function OverlayKnown(clients: seq<Client>, m: Table): Table
    decreases |clients|
  {
    if clients == [] then m else OverlayKnown(clients[1..], LayKnown(m, clients[0]))
  }

  ghost function Merged(base: seq<Client>, overlay: seq<Client>): seq<Client> {
    Listing(Overlay(overlay, Index(base, map[])))
  }

  ghost function MergedAssociated(associated: seq<Client>, metadata: seq<Client>): seq<Client> {
    Listing(OverlayKnown(metadata, Index(associated, map[])))
  }

  method IndexAll(clients: seq<Client>) returns (byMac: Table)
    ensures byMac == Index(clients, map[])
  {
    byMac := map[];
    for i := 0 to |clients|
      invariant Index(clients[i..], byMac) == Index(clients, map[])
    {
      assert clients[i..][1..] == clients[i + 1..];
      byMac := byMac[Key(clients[i]) := clients[i]];
    }
  }

  method MergeWirelessClientStates(base: seq<Client>, overlay: seq<Client>) returns (merged: seq<Client>)
    ensures merged == Merged(base, overlay)
  {
    var byMac := IndexAll(base);
    ghost var start := byMac;
    for i := 0 to |overlay|
      invariant Overlay(overlay[i..], byMac) == Overlay(overlay, start)
    {
      assert overlay[i..][1..] == overlay[i + 1..];
      var client := overlay[i];
      var mac := Normalized(client.mac);
      byMac := byMac[mac := if mac !in byMac then client else MergeClient(byMac[mac], client)];
    }
    merged := List(byMac);
  }

  method MergeAssociatedWirelessClientStates(associated: seq<Client>, metadata: seq<Client>) returns (merged: seq<Client>)
    ensures merged == MergedAssociated(associated, metadata)
  {
    var byMac := IndexAll(associated);
    ghost var start := byMac;
    for i := 0 to |metadata|
      invariant OverlayKnown(metadata[i..], byMac) == OverlayKnown(metadata, start)
    {
      assert metadata[i..][1..] == metadata[i + 1..];
      var client := metadata[i];
      var mac := Normalized(client.mac);
      if mac in byMac {
        byMac := byMac[mac := MergeClient(byMac[mac], client)];
      }
    }
    merged := List(byMac);
  }

  /* ---- one entry per address, in order ---- */

  /** Every value sits under its own key. */
  ghost predicate Keyed(m: Table) { forall k :: k in m ==> Key(m[k]) == k }

  ghost predicate Has(clients: seq<Client>, k: string) { exists c :: c in clients && Key(c) == k }

  lemma HasStep(clients: seq<Client>, k: string)
    requires clients != []
    ensures Has(clients, k) <==> k == Key(clients[0]) || Has(clients[1..], k)
  {
    assert clients == [clients[0]] + clients[1..];
    assert clients[0] in clients;
  }

  lemma {:induction false} IndexKeyed(clients: seq<Client>, m: Table)
    requires Keyed(m)
    ensures Keyed(Index(clients, m))
    ensures forall k :: k in Index(clients, m) <==> k in m || Has(clients, k)
    decreases |clients|
  {
    if clients != [] {
      hide Normalized;
      IndexKeyed(clients[1..], Put(m, clients[0]));
      forall k ensures Has(clients, k) <==> k == Key(clients[0]) || Has(clients[1..], k) {
        HasStep(clients, k);
      }
    }
  }

  lemma {:induction false} OverlayKeyed(clients: seq<Client>, m: Table)
    requires Keyed(m)
    ensures Keyed(Overlay(clients, m)) && Keyed(OverlayKnown(clients, m))
    decreases |clients|
  {
    if clients != [] {
      hide Normalized;
      OverlayKeyed(clients[1..], Lay(m, clients[0]));
      OverlayKeyed(clients[1..], LayKnown(m, clients[0]));
    }
  }

  ghost predicate StrictlySorted(s: seq<Client>) {
    forall i, j :: 0 <= i < j < |s| ==> BytesLess(s[i].mac, s[j].mac)
  }

  lemma ListingSorted(m: Table)
    requires Keyed(m)
    ensures StrictlySorted(Listing(m))
    ensures forall c :: c in Listing(m) <==> exists k :: k in m && m[k] == c
  {
    KeysOrdered(m.Keys);
    var ks := Keys(m.Keys);
    forall i, j | 0 <= i < j < |ks| ensures BytesLess(Listing(m)[i].mac, Listing(m)[j].mac) {
      assert ks[i] in ks && ks[j] in ks;
      NormalizedOrder(Listing(m)[i].mac, Listing(m)[j].mac);
    }
    forall c ensures c in Listing(m) <==> exists k :: k in m && m[k] == c {
      if c in Listing(m) {
        var i :| 0 <= i < |ks| && Listing(m)[i] == c;
        assert ks[i] in ks && m[ks[i]] == c;
      }
      if k :| k in m && m[k] == c {
        var i :| 0 <= i < |ks| && ks[i] == k;
        assert Listing(m)[i] == c;
      }
    }
  }

  /** Both merges list each address at most once, in address order. */
  lemma MergesSorted(base: seq<Client>, overlay: seq<Client>)
    ensures StrictlySorted(Merged(base, overlay)) && StrictlySorted(MergedAssociated(base, overlay))
  {
    hide Index, Overlay, OverlayKnown, Keyed, Listing;
    assert Keyed(map[]) by { NoneKeyed(); }
    IndexKeyed(base, map[]);
    OverlayKeyed(overlay, Index(base, map[]));
    ListingSorted(Overlay(overlay, Index(base, map[])));
    ListingSorted(OverlayKnown(overlay, Index(base, map[])));
  }

  lemma NoneKeyed()
    ensures Keyed(map[])
  {
  }

  /* ---- the associated merge is a restriction of the merge ---- */

  lemma {:induction false} KnownIsPart(clients: seq<Client>, all: Table, known: Table, keep: set<string>)
    requires known == Part(all, keep) && keep <= all.Keys
    ensures OverlayKnown(clients, known) == Part(Overlay(clients, all), keep)
    decreases |clients|
  {
    if clients != [] {
      hide Normalized, MergeClient;
      var c := clients[0];
      assert Part(Lay(all, c), keep) == LayKnown(known, c);
      KnownIsPart(clients[1..], Lay(all, c), LayKnown(known, c), keep);
    }
  }

  /** Merging metadata into the associated clients keeps, of the full merge, the associated addresses. */
  lemma AssociatedIsRestriction(associated: seq<Client>, metadata: seq<Client>)
    ensures MergedAssociated(associated, metadata)
         == Filter(Merged(associated, metadata), (c: Client) => exists a :: a in associated && a.mac == c.mac)
  {
    var index := Index(associated, map[]);
    var all := Overlay(metadata, index);
    var p := (c: Client) => exists a :: a in associated && a.mac == c.mac;
    NoneKeyed();
    IndexKeyed(associated, map[]);
    OverlayKeyed(metadata, index);
    assert Part(index, index.Keys) == index;
    KnownIsPart(metadata, index, index, index.Keys);
    forall k | k in all ensures p(all[k]) <==> k in index.Keys {
      forall a | a in associated ensures Key(a) == k <==> a.mac == all[k].mac {
        NormalizedInjective(a.mac, all[k].mac);
      }
    }
    hide Index, Overlay, OverlayKnown, Part, Filter, Listing, Normalized;
    ListingRestricted(all, index.Keys, p);
  }

  /* ---- merging twice ---- */

  // what a list of clients makes of one table entry
  function Fold(clients: seq<Client>, k: string, at: Option<Client>): Option<Client>
    decreases |clients|
  {
    if clients == [] then at
    else Fold(clients[1..], k, if Key(clients[0]) == k then Some(Join(at, clients[0])) else at)
  }

  function Last(clients: seq<Client>, k: string, at: Option<Client>): Option<Client>
    decreases |clients|
  {
    if clients == [] then at
    else Last(clients[1..], k, if Key(clients[0]) == k then Some(clients[0]) else at)
  }

  function JoinAll(base: Option<Client>, overlay: Option<Client>): Option<Client> {
    if overlay.Some? then Some(Join(base, overlay.value)) else base
  }

  lemma {:induction false} OverlayAt(clients: seq<Client>, m: Table, k: string)
    ensures Get(Overlay(clients, m), k) == Fold(clients, k, Get(m, k))
    decreases |clients|
  {
    if clients != [] {
      hide Normalized, MergeClient;
      OverlayAt(clients[1..], Lay(m, clients[0]), k);
    }
  }

  lemma {:induction false} IndexAt(clients: seq<Client>, m: Table, k: string)
    ensures Get(Index(clients, m), k) == Last(clients, k, Get(m, k))
    decreases |clients|
  {
    if clients != [] {
      hide Normalized;
      IndexAt(clients[1..], Put(m, clients[0]), k);
    }
  }

  lemma JoinAllAssociative(a: Option<Client>, b: Option<Client>, c: Client)
    ensures Join(JoinAll(a, b), c) == JoinAll(a, Some(Join(b, c))).value
  {
    if a.Some? && b.Some? { MergeAssociative(a.value, b.value, c); }
    hide MergeClient;
  }

  lemma {:induction false} FoldJoins(clients: seq<Client>, k: string, base: Option<Client>, at: Option<Client>)
    ensures Fold(clients, k, JoinAll(base, at)) == JoinAll(base, Fold(clients, k, at))
    decreases |clients|
  {
    if clients != [] {
      hide Normalized, MergeClient;
      var c := clients[0];
      if Key(c) == k {
        JoinAllAssociative(base, at, c);
        FoldJoins(clients[1..], k, base, Some(Join(at, c)));
      } else {
        FoldJoins(clients[1..], k, base, at);
      }
    }
  }

  lemma {:induction false} ListingAt(m: Table, k: string, at: Option<Client>)
    requires Keyed(m)
    ensures Fold(Listing(m), k, at) == JoinAll(at, Get(m, k))
    ensures Last(Listing(m), k, at) == Or(at, Get(m, k))
    decreases |m.Keys|
  {
    hide Listing, Normalized, MergeClient;
    if m.Keys == {} {
      NothingListed(m);
    } else {
      LeastExists(m.Keys);
      var least :| Least(least, m.Keys);
      var rest := m - {least};
      assert rest.Keys == m.Keys - {least};
      ListingStep(m, least);
      assert Listing(m)[1..] == Listing(rest);
      if least == k {
        ListingAt(rest, k, Some(Join(at, m[k])));
        ListingAt(rest, k, Some(m[k]));
      } else {
        ListingAt(rest, k, at);
      }
    }
  }

  lemma NothingListed(m: Table)
    requires m.Keys == {}
    ensures Listing(m) == []
  {
  }

  lemma SameTable(a: Table, b: Table)
    requires forall k :: Get(a, k) == Get(b, k)
    ensures a == b
  {
    assert forall k :: k in a ==> Get(b, k) == Some(a[k]);
    assert forall k :: k in b ==> Get(a, k) == Some(b[k]);
  }

  /** Listing a table and tabulating the list again, either way, changes nothing. */
  lemma Relisted(m: Table)
    requires Keyed(m)
    ensures Index(Listing(m), map[]) == m && Overlay(Listing(m), map[]) == m
  {
    forall k ensures Get(Index(Listing(m), map[]), k) == Get(m, k) && Get(Overlay(Listing(m), map[]), k) == Get(m, k) {
      ListingAt(m, k, None);
      IndexAt(Listing(m), map[], k);
      OverlayAt(Listing(m), map[], k);
    }
    SameTable(Index(Listing(m), map[]), m);
    SameTable(Overlay(Listing(m), map[]), m);
  }

  // tabulating a list as a base and as an overlay is the same
  ghost predicate TablesAgree(clients: seq<Client>) { Overlay(clients, map[]) == Index(clients, map[]) }

  lemma TwiceAt(base: seq<Client>, first: seq<Client>, second: seq<Client>, k: string)
    requires TablesAgree(first)
    ensures var m := Index(base, map[]);
            Get(Overlay(second, Overlay(first, m)), k) == Get(Overlay(Merged(first, second), m), k)
  {
    hide Listing, Normalized, MergeClient, Index, Overlay, Fold, Last;
    var m := Index(base, map[]);
    var at := Get(m, k);
    NoneKeyed();
    IndexKeyed(first, map[]);
    var pre := Overlay(second, Index(first, map[]));
    OverlayKeyed(second, Index(first, map[]));
    ListingAt(pre, k, at);
    OverlayAt(Listing(pre), m, k);
    OverlayAt(second, Index(first, map[]), k);
    IndexAt(first, map[], k);
    OverlayAt(first, map[], k);
    OverlayAt(second, Overlay(first, m), k);
    OverlayAt(first, m, k);
    assert JoinAll(at, None) == at;
    FoldJoins(first, k, at, None);
    FoldJoins(second, k, at, Fold(first, k, None));
  }

  lemma PremergeOfNothing(first: seq<Client>)
    ensures Merged(Merged([], first), []) == Merged([], Merged(first, [])) <==> TablesAgree(first)
  {
    hide Listing, Index, Overlay;
    NoneKeyed();
    IndexKeyed(first, map[]);
    OverlayKeyed(first, map[]);
    Relisted(Index(first, map[]));
    Relisted(Overlay(first, map[]));
    EmptyMerges(Index(first, map[]));
    EmptyMerges(Overlay(first, map[]));
    EmptyMerges(map[]);
  }

  lemma EmptyMerges(m: Table)
    ensures Overlay([], m) == m && Index([], m) == m
  {
  }

  lemma Premerge(base: seq<Client>, first: seq<Client>, second: seq<Client>)
    requires TablesAgree(first)
    ensures Merged(Merged(base, first), second) == Merged(base, Merged(first, second))
  {
    hide Listing, Index, Overlay, TablesAgree;
    NoneKeyed();
    var m := Index(base, map[]);
    IndexKeyed(base, map[]);
    OverlayKeyed(first, m);
    Relisted(Overlay(first, m));
    forall k ensures Get(Overlay(second, Overlay(first, m)), k) == Get(Overlay(Merged(first, second), m), k) {
      TwiceAt(base, first, second, k);
    }
    SameTable(Overlay(second, Overlay(first, m)), Overlay(Merged(first, second), m));
  }

  /* ---- the condition, entry by entry ---- */

  /** No field is set in an entry that is not set in another one. */
  predicate AddsNothing(entry: Client, last: Client) {
    && (last.ipv4 == "" ==> entry.ipv4 == "")
    && (last.ipv6 == [] ==> entry.ipv6 == [])
    && (last.hostname == "" ==> entry.hostname == "")
    && (last.ssid == "" ==> entry.ssid == "")
    && (last.radio.None? ==> entry.radio.None?)
    && (last.rssi.None? ==> entry.rssi.None?)
    && (last.snr.None? ==> entry.snr.None?)
    && (last.vlanId.None? ==> entry.vlanId.None?)
    && (last.portalState == Unknown ==> entry.portalState == Unknown)
    && (last.rxBytes == 0 ==> entry.rxBytes == 0)
    && (last.txBytes == 0 ==> entry.txBytes == 0)
    && (last.rxPackets.None? ==> entry.rxPackets.None?)
    && (last.txPackets.None? ==> entry.txPackets.None?)
    && (last.rxRate.None? ==> entry.rxRate.None?)
    && (last.txRate.None? ==> entry.txRate.None?)
    && (last.associationTime.None? ==> entry.associationTime.None?)
  }

  ghost predicate LastOfAddress(clients: seq<Client>, j: int) {
    0 <= j < |clients| && forall m :: j < m < |clients| ==> clients[m].mac != clients[j].mac
  }

  /** No entry of the list sets a field that the last entry of its address leaves open. */
  ghost predicate NoneCompletes(clients: seq<Client>) {
    forall i, j :: 0 <= i < |clients| && LastOfAddress(clients, j) && clients[i].mac == clients[j].mac ==>
      AddsNothing(clients[i], clients[j])
  }

  lemma MergeAdds(a: Client, b: Client, last: Client)
    ensures AddsNothing(MergeClient(a, b), last) <==> AddsNothing(a, last) && AddsNothing(b, last)
  {
  }

  lemma AbsorbedIsLast(merged: Client, last: Client)
    requires MergeClient(merged, last) == merged && merged.mac == last.mac
    ensures merged == last <==> AddsNothing(merged, last)
  {
  }

  /** What is merged from a list sets what one of its entries of that address sets. */
  lemma {:induction false} FoldAdds(clients: seq<Client>, k: string, at: Option<Client>, last: Client)
    ensures (Fold(clients, k, at).Some? ==> AddsNothing(Fold(clients, k, at).value, last)) <==>
            (at.Some? ==> AddsNothing(at.value, last)) && forall c :: c in clients && Key(c) == k ==> AddsNothing(c, last)
    decreases |clients|
  {
    if clients != [] {
      hide Normalized, MergeClient, AddsNothing;
      var c := clients[0];
      if Key(c) == k {
        if at.Some? { MergeAdds(at.value, c, last); }
        FoldAdds(clients[1..], k, Some(Join(at, c)), last);
      } else {
        FoldAdds(clients[1..], k, at, last);
      }
      assert clients == [c] + clients[1..];
    }
  }

  lemma {:induction false} LastOr(clients: seq<Client>, k: string, at: Option<Client>)
    ensures Last(clients, k, at) == Or(at, Last(clients, k, None))
    ensures Last(clients, k, None).None? ==> Fold(clients, k, at) == at
    decreases |clients|
  {
    if clients != [] {
      hide Normalized, MergeClient;
      LastOr(clients[1..], k, at);
      LastOr(clients[1..], k, Some(clients[0]));
    }
  }

  lemma MergeAbsorbs(a: Option<Client>, c: Client)
    ensures MergeClient(Join(a, c), c) == Join(a, c)
  {
  }

  /** The last entry is part of what is merged. */
  lemma {:induction false} FoldAbsorbs(clients: seq<Client>, k: string, at: Option<Client>)
    requires Last(clients, k, None).Some?
    ensures var f := Fold(clients, k, at); f.Some? && MergeClient(f.value, Last(clients, k, None).value) == f.value
    decreases |clients|
  {
    hide Normalized, MergeClient;
    var c, rest := clients[0], clients[1..];
    var next := if Key(c) == k then Some(Join(at, c)) else at;
    LastOr(rest, k, if Key(c) == k then Some(c) else None);
    if Last(rest, k, None).Some? {
      FoldAbsorbs(rest, k, next);
    } else {
      LastOr(rest, k, next);
      MergeAbsorbs(at, c);
    }
  }

  lemma {:induction false} LastIndex(clients: seq<Client>, k: string)
    ensures Last(clients, k, None).None? ==> forall c :: c in clients ==> Key(c) != k
    ensures Last(clients, k, None).Some? ==>
              exists j :: LastOfAddress(clients, j) && clients[j] == Last(clients, k, None).value && Key(clients[j]) == k
    decreases |clients|
  {
    if clients != [] {
      hide Normalized;
      var c, rest := clients[0], clients[1..];
      LastIndex(rest, k);
      LastOr(rest, k, if Key(c) == k then Some(c) else None);
      if Last(rest, k, None).Some? {
        var j :| LastOfAddress(rest, j) && rest[j] == Last(rest, k, None).value && Key(rest[j]) == k;
        assert clients[j + 1] == rest[j];
        forall m | j + 1 < m < |clients| ensures clients[m].mac != clients[j + 1].mac { assert clients[m] == rest[m - 1]; }
        assert LastOfAddress(clients, j + 1);
      } else if Key(c) == k {
        forall m | 0 < m < |clients| ensures clients[m].mac != c.mac {
          assert clients[m] == rest[m - 1] && rest[m - 1] in rest;
        }
        assert LastOfAddress(clients, 0);
      }
    }
  }

  // the condition for one address
  ghost predicate NoneCompletesAt(clients: seq<Client>, k: string) {
    Last(clients, k, None).Some? ==> forall c :: c in clients && Key(c) == k ==> AddsNothing(c, Last(clients, k, None).value)
  }

  lemma SameAt(clients: seq<Client>, k: string)
    ensures Fold(clients, k, None) == Last(clients, k, None) <==> NoneCompletesAt(clients, k)
  {
    hide Normalized, MergeClient, AddsNothing, Fold, Last, Index, Overlay;
    if Last(clients, k, None).None? {
      LastOr(clients, k, None);
    } else {
      var last := Last(clients, k, None).value;
      FoldAbsorbs(clients, k, None);
      FoldAdds(clients, k, None, last);
      var merged := Fold(clients, k, None).value;
      NoneKeyed();
      OverlayKeyed(clients, map[]);
      IndexKeyed(clients, map[]);
      OverlayAt(clients, map[], k);
      IndexAt(clients, map[], k);
      NormalizedInjective(merged.mac, last.mac);
      AbsorbedIsLast(merged, last);
    }
  }

  lemma LastIs(clients: seq<Client>, j: int)
    requires LastOfAddress(clients, j)
    ensures Last(clients, Key(clients[j]), None) == Some(clients[j])
  {
    var k := Key(clients[j]);
    LastIndex(clients, k);
    assert clients[j] in clients;
    hide Normalized, Last;
    var i :| LastOfAddress(clients, i) && clients[i] == Last(clients, k, None).value && Key(clients[i]) == k;
    NormalizedInjective(clients[i].mac, clients[j].mac);
  }

  lemma NoneCompletesExactly(clients: seq<Client>)
    ensures TablesAgree(clients) <==> NoneCompletes(clients)
  {
    hide Normalized, AddsNothing, Fold, Last, Index, Overlay;
    forall k ensures Get(Overlay(clients, map[]), k) == Get(Index(clients, map[]), k) <==> NoneCompletesAt(clients, k) {
      OverlayAt(clients, map[], k);
      IndexAt(clients, map[], k);
      SameAt(clients, k);
    }
    if NoneCompletes(clients) {
      forall k ensures NoneCompletesAt(clients, k) {
        if Last(clients, k, None).Some? {
          LastIndex(clients, k);
          var j :| LastOfAddress(clients, j) && clients[j] == Last(clients, k, None).value && Key(clients[j]) == k;
          forall c | c in clients && Key(c) == k ensures AddsNothing(c, clients[j]) { NormalizedInjective(c.mac, clients[j].mac); }
        }
      }
      SameTable(Overlay(clients, map[]), Index(clients, map[]));
    }
    if TablesAgree(clients) {
      forall i, j | 0 <= i < |clients| && LastOfAddress(clients, j) && clients[i].mac == clients[j].mac
        ensures AddsNothing(clients[i], clients[j])
      {
        LastIs(clients, j);
        assert NoneCompletesAt(clients, Key(clients[j]));
        assert clients[i] in clients && Key(clients[i]) == Key(clients[j]);
      }
    }
  }

  /** Two merges in a row equal one merge with the pre-merged lists, whatever lies below and above,
      exactly when no entry of the middle list sets a field that the last one of its address leaves open. */
  lemma PremergeExactly(first: seq<Client>)
    ensures (forall base, second :: Merged(Merged(base, first), second) == Merged(base, Merged(first, second)))
            <==> NoneCompletes(first)
  {
    NoneCompletesExactly(first);
    hide Merged, NoneCompletes, TablesAgree;
    forall base, second
      ensures TablesAgree(first) ==> Merged(Merged(base, first), second) == Merged(base, Merged(first, second))
    {
      if TablesAgree(first) { Premerge(base, first, second); }
    }
    PremergeOfNothing(first);
    if forall base, second :: Merged(Merged(base, first), second) == Merged(base, Merged(first, second)) {
      assert Merged(Merged([], first), []) == Merged([], Merged(first, []));
    }
  }

  /** Lists without repeated addresses meet the condition. */
  lemma DistinctPremerge(base: seq<Client>, first: seq<Client>, second: seq<Client>)
    requires forall i, j :: 0 <= i < j < |first| ==> first[i].mac != first[j].mac
    ensures Merged(Merged(base, first), second) == Merged(base, Merged(first, second))
  {
    PremergeExactly(first);
    hide Merged;
    forall i, j | 0 <= i < |first| && LastOfAddress(first, j) && first[i].mac == first[j].mac ensures i == j {}
  }

  const BLANK := Client([0, 0, 0, 0, 0, 0], "", [], "", "", None, None, None, None, Unknown, 0, 0, None, None, None, None, None)

  /** A repeated address shows the condition is needed: the name known from its first entry is lost
      when the list is merged as a base. */
  lemma RepeatedAddressLosesData(name: string, address: string)
    requires name != "" && address != ""
    ensures var first := [BLANK.(hostname := name), BLANK.(ipv4 := address)];
            Merged(Merged([], first), []) != Merged([], Merged(first, []))
  {
    var first := [BLANK.(hostname := name), BLANK.(ipv4 := address)];
    assert LastOfAddress(first, 1) && !AddsNothing(first[0], first[1]);
    NoneCompletesExactly(first);
    hide Merged;
    PremergeOfNothing(first);
  }

  /* ---- DHCP leases ---- */

  function BestLeases(leases: seq<Lease>, m: map<string, Lease>): map<string, Lease>
    decreases |leases|
  {
    if leases == [] then m
    else
      var l := leases[0];
      var k := Normalized(l.mac);
      BestLeases(leases[1..], if k !in m || l.expiresAt >= m[k].expiresAt then m[k := l] else m)
  }

  function LeaseClient(l: Lease): Client { BLANK.(mac := l.mac, ipv4 := l.ipv4, hostname := l.hostname) }

  ghost function LeaseClients(leases: seq<Lease>): seq<Client> {
    var chosen := Listing(BestLeases(leases, map[]));
    seq(|chosen|, i requires 0 <= i < |chosen| => LeaseClient(chosen[i]))
  }

  method ClientsFromDhcpLeases(leases: seq<Lease>) returns (clients: seq<Client>)
    ensures clients == LeaseClients(leases)
  {
    var byMac: map<string, Lease> := map[];
    for i := 0 to |leases|
      invariant BestLeases(leases[i..], byMac) == BestLeases(leases, map[])
    {
      assert leases[i..][1..] == leases[i + 1..];
      var mac := Normalized(leases[i].mac);
      if mac !in byMac || leases[i].expiresAt >= byMac[mac].expiresAt {
        byMac := byMac[mac := leases[i]];
      }
    }
    var chosen := List(byMac);
    clients := [];
    for i := 0 to |chosen|
      invariant |clients| == i && forall j :: 0 <= j < i ==> clients[j] == LeaseClient(chosen[j])
    {
      clients := clients + [LeaseClient(chosen[i])];
    }
  }

  predicate NotLater(a: Lease, b: Lease) { a.mac == b.mac ==> a.expiresAt <= b.expiresAt }

  predicate SameExpiry(a: Lease, b: Lease) { a.mac == b.mac && a.expiresAt == b.expiresAt }

  /** The lease at position i is the one to keep for its address among the first n: no later expiry
      before it, and earlier ones only after it. */
  ghost predicate Wins(leases: seq<Lease>, n: nat, i: int) {
    && 0 <= i < n <= |leases|
    && (forall j :: 0 <= j < i ==> NotLater(leases[j], leases[i]))
    && (forall j :: i < j < n ==> NotLater(leases[j], leases[i]) && !SameExpiry(leases[j], leases[i]))
  }

  ghost predicate Winner(leases: seq<Lease>, n: nat, k: string, l: Lease) {
    Normalized(l.mac) == k && exists i :: Wins(leases, n, i) && leases[i] == l
  }

  /** For a table that stands for the first n leases. */
  ghost predicate Chosen(leases: seq<Lease>, n: nat, m: map<string, Lease>)
    requires n <= |leases|
  {
    && (forall k :: k in m ==> Winner(leases, n, k, m[k]))
    && (forall i :: 0 <= i < n ==> Normalized(leases[i].mac) in m)
  }

  lemma NewWinner(leases: seq<Lease>, n: nat, m: map<string, Lease>)
    requires n < |leases| && Chosen(leases, n, m)
    requires var k := Normalized(leases[n].mac); k !in m || leases[n].expiresAt >= m[k].expiresAt
    ensures Winner(leases, n + 1, Normalized(leases[n].mac), leases[n])
  {
    hide Normalized;
    var key := Normalized(leases[n].mac);
    forall j | 0 <= j < n ensures NotLater(leases[j], leases[n]) {
      if leases[j].mac == leases[n].mac {
        assert Normalized(leases[j].mac) == key && Winner(leases, n, key, m[key]);
        var i :| Wins(leases, n, i) && leases[i] == m[key];
        NormalizedInjective(leases[i].mac, leases[n].mac);
        assert i == j || NotLater(leases[j], leases[i]);
      }
    }
    assert Wins(leases, n + 1, n);
  }

  lemma StillWinner(leases: seq<Lease>, n: nat, k: string, l: Lease)
    requires n < |leases| && Winner(leases, n, k, l)
    requires Normalized(leases[n].mac) == k ==> leases[n].expiresAt < l.expiresAt
    ensures Winner(leases, n + 1, k, l)
  {
    hide Normalized;
    var i :| Wins(leases, n, i) && leases[i] == l;
    if leases[n].mac == l.mac {
      assert Normalized(leases[n].mac) == k;
    }
    hide Winner;
    assert NotLater(leases[n], leases[i]) && !SameExpiry(leases[n], leases[i]);
    hide NotLater, SameExpiry;
    assert Wins(leases, n + 1, i);
  }

  lemma ChosenStep(leases: seq<Lease>, n: nat, m: map<string, Lease>)
    requires n < |leases| && Chosen(leases, n, m)
    ensures var k := Normalized(leases[n].mac);
            Chosen(leases, n + 1, if k !in m || leases[n].expiresAt >= m[k].expiresAt then m[k := leases[n]] else m)
  {
    hide Normalized, Winner;
    var key := Normalized(leases[n].mac);
    var replaced := key !in m || leases[n].expiresAt >= m[key].expiresAt;
    if replaced { NewWinner(leases, n, m); }
    forall k | k in m && (k != key || !replaced) ensures Winner(leases, n + 1, k, m[k]) {
      StillWinner(leases, n, k, m[k]);
    }
  }

  lemma {:induction false} BestAreChosen(leases: seq<Lease>, n: nat, m: map<string, Lease>)
    requires n <= |leases| && Chosen(leases, n, m)
    ensures Chosen(leases, |leases|, BestLeases(leases[n..], m))
    decreases |leases| - n
  {
    hide Normalized, Chosen;
    if n < |leases| {
      ChosenStep(leases, n, m);
      assert leases[n..][1..] == leases[n + 1..];
      var k := Normalized(leases[n].mac);
      BestAreChosen(leases, n + 1, if k !in m || leases[n].expiresAt >= m[k].expiresAt then m[k := leases[n]] else m);
    }
  }

  lemma TableChosen(leases: seq<Lease>)
    ensures Chosen(leases, |leases|, BestLeases(leases, map[]))
  {
    assert leases[0..] == leases;
    BestAreChosen(leases, 0, map[]);
  }

  function AsClients(m: map<string, Lease>): Table { map k | k in m :: LeaseClient(m[k]) }

  lemma ListedAsClients(leases: seq<Lease>)
    ensures LeaseClients(leases) == Listing(AsClients(BestLeases(leases, map[])))
  {
    var m := BestLeases(leases, map[]);
    assert AsClients(m).Keys == m.Keys;
    KeysOrdered(m.Keys);
    var ks := Keys(m.Keys);
    assert forall i :: 0 <= i < |ks| ==> ks[i] in ks;
    hide LeaseClient, BestLeases;
  }

  /** A client known from a lease alone: by the address and name in it, and nothing else. */
  ghost predicate LeasedTo(c: Client, l: Lease) {
    c == Client(l.mac, l.ipv4, [], l.hostname, "", None, None, None, None, Unknown, 0, 0, None, None, None, None, None)
  }

  lemma LeaseKnown(l: Lease)
    ensures LeasedTo(LeaseClient(l), l)
  {
  }

  lemma KeyOfLease()
    ensures forall l :: LeaseClient(l).mac == l.mac
  {
  }

  ghost predicate Lists(clients: seq<Client>, mac: MacAddress) { exists c :: c in clients && c.mac == mac }

  /** The list returned is in address order without repeats; each entry is the lease of its address
      with the greatest expiry, the last one on ties; and no address of the leases is missing. */
  lemma LatestLeaseWins(leases: seq<Lease>)
    ensures StrictlySorted(LeaseClients(leases))
    ensures forall c :: c in LeaseClients(leases) ==> exists i :: Wins(leases, |leases|, i) && LeasedTo(c, leases[i])
    ensures forall i :: 0 <= i < |leases| ==> Lists(LeaseClients(leases), leases[i].mac)
  {
    var m := BestLeases(leases, map[]);
    var table := AsClients(m);
    TableChosen(leases);
    ListedAsClients(leases);
    KeyOfLease();
    hide BestLeases, Normalized, LeaseClients, Listing, StrictlySorted, LeaseClient, LeasedTo;
    assert Keyed(table) by {
      forall k | k in table ensures Key(table[k]) == k { assert Winner(leases, |leases|, k, m[k]); }
    }
    ListingSorted(table);
    forall c | c in LeaseClients(leases) ensures exists i :: Wins(leases, |leases|, i) && LeasedTo(c, leases[i]) {
      var k :| k in table && table[k] == c;
      assert Winner(leases, |leases|, k, m[k]);
      var i :| Wins(leases, |leases|, i) && leases[i] == m[k];
      LeaseKnown(leases[i]);
    }
    forall i | 0 <= i < |leases| ensures Lists(LeaseClients(leases), leases[i].mac) {
      var k := Normalized(leases[i].mac);
      assert k in table && Key(table[k]) == k;
      NormalizedInjective(table[k].mac, leases[i].mac);
      assert table[k] in LeaseClients(leases);
    }
  }
}
