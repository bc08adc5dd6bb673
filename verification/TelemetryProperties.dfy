/** Conservation of the counters hostapd reports, and what becomes of the entries per SSID. */
module TelemetryProperties {
  import opened Wrappers
  import opened FixedWidth
  import opened Config
  import opened Telemetry
  import Mac
  import Text

  type ClientList = seq<Option<ClientCounters>>

  /* ---- the member list ---- */

  lemma {:induction false} MemberAfterSet(members: seq<Member>, k: Key, d: Doc, j: Key)
    ensures MemberOf(SetMember(members, k, d), j) == if j == k then Some(d) else MemberOf(members, j)
  {
    if members == [] {
      assert [(k, d)][1..] == [];
    } else if members[0].0 == k {
      assert ([(k, d)] + members[1..])[1..] == members[1..];
    } else {
      MemberAfterSet(members[1..], k, d, j);
      assert ([members[0]] + SetMember(members[1..], k, d))[1..] == SetMember(members[1..], k, d);
    }
  }

  /** The three documents of a band after one interface; those of other bands are untouched. */
  lemma AugmentedAt(members: seq<Member>, o: Observed, h: Hostapd, b: RadioBand)
    ensures var after, clients := Augmented(members, o, h), Contribution(o, h);
            if clients.None? || o.band != Some(b) then
              && MemberOf(after, SsidStats(b)) == MemberOf(members, SsidStats(b))
              && MemberOf(after, WSettings(b)) == MemberOf(members, WSettings(b))
              && MemberOf(after, RadioTraffic(b)) == MemberOf(members, RadioTraffic(b))
            else
              && MemberOf(after, SsidStats(b))
                 == Some(StatsDoc(MergedStats(Items(MemberOf(members, SsidStats(b))), HostapdStat(o.ssid, clients.value))))
              && MemberOf(after, WSettings(b))
                 == Some(SettingsDoc(SettingsIn(MemberOf(members, WSettings(b))).0,
                                     Some(MergedStaNum(SettingsIn(MemberOf(members, WSettings(b))).1, |clients.value|))))
              && MemberOf(after, RadioTraffic(b))
                 == Some(TrafficDoc(MergedTraffic(TrafficIn(MemberOf(members, RadioTraffic(b))), TrafficOf(clients.value))))
  {
    hide MemberOf, SetMember, MergedStats, HostapdStat, MergedStaNum, MergedTraffic, TrafficOf;
    var clients := Contribution(o, h);
    if clients.Some? {
      var band := o.band.value;
      var stats := StatsDoc(MergedStats(Items(MemberOf(members, SsidStats(band))), HostapdStat(o.ssid, clients.value)));
      var m1 := SetMember(members, SsidStats(band), stats);
      var current := SettingsIn(MemberOf(m1, WSettings(band)));
      var settings := SettingsDoc(current.0, Some(MergedStaNum(current.1, |clients.value|)));
      var m2 := SetMember(m1, WSettings(band), settings);
      var traffic := TrafficDoc(MergedTraffic(TrafficIn(MemberOf(m2, RadioTraffic(band))), TrafficOf(clients.value)));
      forall k ensures MemberOf(m1, k) == if k == SsidStats(band) then Some(stats) else MemberOf(members, k) {
        MemberAfterSet(members, SsidStats(band), stats, k);
      }
      forall k ensures MemberOf(m2, k) == if k == WSettings(band) then Some(settings) else MemberOf(m1, k) {
        MemberAfterSet(m1, WSettings(band), settings, k);
      }
      forall k ensures MemberOf(SetMember(m2, RadioTraffic(band), traffic), k) == if k == RadioTraffic(band) then Some(traffic) else MemberOf(m2, k) {
        MemberAfterSet(m2, RadioTraffic(band), traffic, k);
      }
    }
  }

  predicate ContributesTo(o: Observed, h: Hostapd, b: RadioBand) { Contribution(o, h).Some? && o.band == Some(b) }

  /** The client lists contributed to a band by the first n interfaces, in order. */
  function Contributions(observed: seq<Observed>, hostapd: seq<Hostapd>, b: RadioBand, n: nat): seq<ClientList>
    requires n <= |observed| && n <= |hostapd|
  {
    if n == 0 then []
    else Contributions(observed, hostapd, b, n - 1)
         + if ContributesTo(observed[n - 1], hostapd[n - 1], b) then [Contribution(observed[n - 1], hostapd[n - 1]).value] else []
  }

  lemma ContributionStep(observed: seq<Observed>, hostapd: seq<Hostapd>, b: RadioBand, n: nat)
    requires 0 < n <= |observed| && n <= |hostapd|
    ensures var before, o, h := Contributions(observed, hostapd, b, n - 1), observed[n - 1], hostapd[n - 1];
            Contributions(observed, hostapd, b, n) == if ContributesTo(o, h, b) then before + [Contribution(o, h).value] else before
  {
    var before := Contributions(observed, hostapd, b, n - 1);
    assert before + [] == before;
  }

  /* ---- traffic ---- */

  /** The sum over all clients of all contributions, unbounded. */
  function Total(cs: seq<ClientList>, k: TrafficKey): nat {
    if cs == [] then 0 else Total(cs[..|cs| - 1], k) + Sum(cs[|cs| - 1], k)
  }

  // what the chain of prints, parses and 64-bit additions makes of it
  function Accumulated(cs: seq<ClientList>, k: TrafficKey): uint64 {
    if cs == [] then 0
    else WrapU64(Reparsed(Accumulated(cs[..|cs| - 1], k)) + Reparsed(WrapU64(Sum(cs[|cs| - 1], k))))
  }

  function Traffics(cs: seq<ClientList>): Traffic { map k | k in TrafficKeys() :: Accumulated(cs, k) }

  lemma MergeAccumulates(cs: seq<ClientList>, clients: ClientList)
    ensures MergedTraffic(Traffics(cs), TrafficOf(clients)) == Traffics(cs + [clients])
    ensures MergedTraffic(map[], TrafficOf(clients)) == Traffics([clients])
  {
    hide WrapU64, TrafficKeys;
    var next := cs + [clients];
    assert next[..|next| - 1] == cs && next[|next| - 1] == clients;
    assert [clients][..0] == [];
    forall k | k in TrafficKeys()
      ensures Field(Traffics(cs), k) == Reparsed(Accumulated(cs, k)) && Field(TrafficOf(clients), k) == Reparsed(WrapU64(Sum(clients, k)))
      ensures Accumulated([clients], k) == WrapU64(Reparsed(0) + Reparsed(WrapU64(Sum(clients, k))))
    {
      assert Accumulated([], k) == 0;
    }
  }

  // the traffic document after the given contributions
  function TrafficDocOf(cs: seq<ClientList>): Option<Doc> { if cs == [] then None else Some(TrafficDoc(Traffics(cs))) }

  lemma TrafficStep(before: Option<Doc>, cs: seq<ClientList>, clients: ClientList)
    requires before == TrafficDocOf(cs)
    ensures MergedTraffic(TrafficIn(before), TrafficOf(clients)) == Traffics(cs + [clients]) && cs + [clients] != []
  {
    hide MergedTraffic, TrafficOf, Traffics;
    MergeAccumulates(cs, clients);
    if cs == [] { assert cs + [clients] == [clients]; }
  }

  lemma TrafficAfterOne(members: seq<Member>, o: Observed, h: Hostapd, b: RadioBand, before: seq<ClientList>)
    requires MemberOf(members, RadioTraffic(b)) == TrafficDocOf(before)
    ensures MemberOf(Augmented(members, o, h), RadioTraffic(b))
         == TrafficDocOf(if ContributesTo(o, h, b) then before + [Contribution(o, h).value] else before)
  {
    AugmentedAt(members, o, h, b);
    if ContributesTo(o, h, b) { TrafficStep(MemberOf(members, RadioTraffic(b)), before, Contribution(o, h).value); }
    hide MemberOf, Augmented, Contribution, MergedTraffic, TrafficIn, TrafficOf, MergedStats, HostapdStat, MergedStaNum, Traffics;
  }

  lemma {:induction false} TrafficAfter(members: seq<Member>, observed: seq<Observed>, hostapd: seq<Hostapd>, b: RadioBand, n: nat)
    requires n <= |observed| && n <= |hostapd| && MemberOf(members, RadioTraffic(b)).None?
    ensures MemberOf(After(members, observed, hostapd, n), RadioTraffic(b)) == TrafficDocOf(Contributions(observed, hostapd, b, n))
  {
    hide MemberOf, Augmented, Contribution, Traffics;
    if n > 0 {
      hide TrafficDocOf;
      TrafficAfter(members, observed, hostapd, b, n - 1);
      TrafficAfterOne(After(members, observed, hostapd, n - 1), observed[n - 1], hostapd[n - 1], b, Contributions(observed, hostapd, b, n - 1));
      ContributionStep(observed, hostapd, b, n);
      hide Contributions, ContributesTo;
    }
  }

  lemma {:induction false} NoTrafficInStatus(radios: seq<Radio>, b: RadioBand)
    ensures MemberOf(StatusMembers(radios), RadioTraffic(b)).None?
  {
    if radios != [] {
      NoTrafficInStatus(radios[1..], b);
      Prepended(RadioMembers(radios[0]), StatusMembers(radios[1..]), RadioTraffic(b));
    }
  }

  lemma {:induction false} Prepended(front: seq<Member>, members: seq<Member>, k: Key)
    requires forall m :: m in front ==> m.0 != k
    ensures MemberOf(front + members, k) == MemberOf(members, k)
  {
    if front == [] {
      assert front + members == members;
    } else {
      assert (front + members)[1..] == front[1..] + members;
      Prepended(front[1..], members, k);
    }
  }

  /** Printing and parsing can only lose counts, and loses none exactly when everything before the
      last contribution, and that contribution itself, stay below 2^63. */
  lemma {:induction false} ConservedExactly(cs: seq<ClientList>, k: TrafficKey)
    ensures Accumulated(cs, k) <= Total(cs, k)
    ensures Accumulated(cs, k) == Total(cs, k)
            <==> cs == [] || (Total(cs[..|cs| - 1], k) < TWO_63 && Sum(cs[|cs| - 1], k) < TWO_63)
    decreases |cs|
  {
    if cs != [] {
      ConservedExactly(cs[..|cs| - 1], k);
      OneAddition(Accumulated(cs[..|cs| - 1], k), Total(cs[..|cs| - 1], k), Sum(cs[|cs| - 1], k));
      if Total(cs[..|cs| - 1], k) < TWO_63 { SmallTotals(cs[..|cs| - 1], k); }
    }
  }

  lemma OneAddition(before: uint64, total: nat, sum: nat)
    requires before <= total
    ensures var after := WrapU64(Reparsed(before) + Reparsed(WrapU64(sum)));
            after <= total + sum && (after == total + sum <==> before == total && total < TWO_63 && sum < TWO_63)
  {
    assert WrapU64(sum) <= sum;
  }

  lemma {:induction false} SmallTotals(cs: seq<ClientList>, k: TrafficKey)
    requires Total(cs, k) < TWO_63
    ensures Accumulated(cs, k) == Total(cs, k)
    decreases |cs|
  {
    if cs != [] {
      SmallTotals(cs[..|cs| - 1], k);
      OneAddition(Accumulated(cs[..|cs| - 1], k), Total(cs[..|cs| - 1], k), Sum(cs[|cs| - 1], k));
    }
  }

  /** The radioTraffic of a band is, counter by counter, the sum over all clients of all paired
      interfaces of the band, as long as that sum stays below 2^63. */
  lemma TrafficConserved(radios: seq<Radio>, hostapd: seq<Hostapd>, b: RadioBand, k: TrafficKey)
    ensures var observed := AllObserved(radios);
            var cs := Contributions(observed, hostapd, b, Min(|observed|, |hostapd|));
            var traffic := MemberOf(InformMembers(radios, hostapd), RadioTraffic(b));
            && (traffic.None? <==> cs == [])
            && (traffic.Some? ==> traffic.value.TrafficDoc? && k in traffic.value.traffic)
            && (traffic.Some? && Total(cs, k) < TWO_63 ==> traffic.value.traffic[k] == Total(cs, k))
            && (traffic.Some? ==> traffic.value.traffic[k] <= Total(cs, k))
  {
    var observed := AllObserved(radios);
    var n := Min(|observed|, |hostapd|);
    var cs := Contributions(observed, hostapd, b, n);
    NoTrafficInStatus(radios, b);
    TrafficAfter(StatusMembers(radios), observed, hostapd, b, n);
    KeyPresent(k);
    ConservedExactly(cs, k);
    if Total(cs, k) < TWO_63 { SmallTotals(cs, k); }
    hide MemberOf, Contributions, TrafficKeys;
  }

  /* ---- SSID entries ---- */

  function Only(items: seq<Stat>, ssid: string): seq<Stat> {
    if items == [] then [] else (if items[0].ssid == ssid then [items[0]] else []) + Only(items[1..], ssid)
  }

  lemma {:induction false} OnlyAppend(a: seq<Stat>, s: Stat, ssid: string)
    ensures Only(a + [s], ssid) == Only(a, ssid) + if s.ssid == ssid then [s] else []
  {
    var added := if s.ssid == ssid then [s] else [];
    if a == [] {
      assert a + [s] == [s] && [s][1..] == [] && [] + added == added == added + [];
    } else {
      assert (a + [s])[1..] == a[1..] + [s];
      OnlyAppend(a[1..], s, ssid);
      Text.Regroup(if a[0].ssid == ssid then [a[0]] else [], Only(a[1..], ssid), added);
    }
  }

  lemma {:induction false} OnlyWithout(items: seq<Stat>, dropped: string, ssid: string)
    ensures Only(Without(items, dropped), ssid) == if dropped == ssid then [] else Only(items, ssid)
  {
    if items != [] {
      OnlyWithout(items[1..], dropped, ssid);
      assert [] + Without(items[1..], dropped) == Without(items[1..], dropped);
      assert [] + Only(items[1..], ssid) == Only(items[1..], ssid);
      if items[0].ssid != dropped {
        assert ([items[0]] + Without(items[1..], dropped))[1..] == Without(items[1..], dropped);
      }
    }
  }

  lemma OnlyMerged(existing: seq<Stat>, s: Stat, ssid: string)
    ensures Only(MergedStats(existing, s), ssid) == if s.ssid == ssid then [s] else Only(existing, ssid)
  {
    OnlyWithout(existing, s.ssid, ssid);
    OnlyAppend(Without(existing, s.ssid), s, ssid);
  }

  /** The clients of the last interface, among the first n, that augments an SSID of a band. */
  function LastOf(observed: seq<Observed>, hostapd: seq<Hostapd>, b: RadioBand, ssid: string, n: nat): Option<ClientList>
    requires n <= |observed| && n <= |hostapd|
  {
    if n == 0 then None
    else if ContributesTo(observed[n - 1], hostapd[n - 1], b) && observed[n - 1].ssid == ssid then Contribution(observed[n - 1], hostapd[n - 1])
    else LastOf(observed, hostapd, b, ssid, n - 1)
  }

  /** An SSID that hostapd reports on has exactly one entry in its band, that of its last interface;
      the entries of any other SSID are those of the status. */
  lemma {:induction false} OneEntryPerAugmentedSsid(members: seq<Member>, observed: seq<Observed>, hostapd: seq<Hostapd>, b: RadioBand,
                                                    ssid: string, n: nat)
    requires n <= |observed| && n <= |hostapd|
    ensures var last := LastOf(observed, hostapd, b, ssid, n);
            Only(Items(MemberOf(After(members, observed, hostapd, n), SsidStats(b))), ssid)
            == if last.Some? then [HostapdStat(ssid, last.value)] else Only(Items(MemberOf(members, SsidStats(b))), ssid)
  {
    hide MemberOf, Augmented, MergedTraffic, TrafficOf, MergedStats, MergedStaNum, Only, Sum, WrapU64;
    if n > 0 {
      OneEntryPerAugmentedSsid(members, observed, hostapd, b, ssid, n - 1);
      var before := After(members, observed, hostapd, n - 1);
      AugmentedAt(before, observed[n - 1], hostapd[n - 1], b);
      if ContributesTo(observed[n - 1], hostapd[n - 1], b) {
        OnlyMerged(Items(MemberOf(before, SsidStats(b))),
                   HostapdStat(observed[n - 1].ssid, Contribution(observed[n - 1], hostapd[n - 1]).value), ssid);
      }
    }
  }

  /* ---- station numbers ---- */

  /** A station number that is the largest of a first value and the sizes of some lists. */
  ghost predicate Largest(staNum: Option<uint64>, first: Option<uint64>, cs: seq<ClientList>) {
    if cs == [] then staNum == first
    else
      && staNum.Some? && Reparsed(first.GetOr(0)) <= staNum.value < TWO_63
      && (forall c :: c in cs ==> |c| <= staNum.value)
      && (staNum.value == Reparsed(first.GetOr(0)) || exists c :: c in cs && |c| == staNum.value)
  }

  lemma LargestStep(staNum: Option<uint64>, first: Option<uint64>, cs: seq<ClientList>, c: ClientList)
    requires Largest(staNum, first, cs) && |c| < TWO_63
    ensures Largest(Some(MergedStaNum(staNum, |c|)), first, cs + [c])
  {
    var next := MergedStaNum(staNum, |c|);
    assert next == if Reparsed(staNum.GetOr(0)) >= |c| then Reparsed(staNum.GetOr(0)) else |c|;
    hide MergedStaNum;
    assert c in cs + [c];
    if next != |c| && cs != [] && staNum.value != Reparsed(first.GetOr(0)) {
      var d :| d in cs && |d| == staNum.value;
      assert d in cs + [c];
    }
  }

  ghost predicate RealisticSizes(hostapd: seq<Hostapd>) {
    forall h :: h in hostapd && h.Status? && h.clients.Some? ==> |h.clients.value| < TWO_63
  }

  /** The station number is the largest of what the status said and what each interface's hostapd
      said; the other settings stay. */
  lemma {:induction false} StationsAreTheMaximum(members: seq<Member>, observed: seq<Observed>, hostapd: seq<Hostapd>, b: RadioBand, n: nat)
    requires n <= |observed| && n <= |hostapd| && RealisticSizes(hostapd)
    ensures var after := SettingsIn(MemberOf(After(members, observed, hostapd, n), WSettings(b)));
            var before := SettingsIn(MemberOf(members, WSettings(b)));
            after.0 == before.0 && Largest(after.1, before.1, Contributions(observed, hostapd, b, n))
  {
    hide MemberOf, Augmented, MergedTraffic, TrafficOf, MergedStats, HostapdStat, Largest, MergedStaNum;
    if n == 0 {
      NothingLarger(SettingsIn(MemberOf(members, WSettings(b))).1);
    } else {
      StationsAreTheMaximum(members, observed, hostapd, b, n - 1);
      var before := After(members, observed, hostapd, n - 1);
      AugmentedAt(before, observed[n - 1], hostapd[n - 1], b);
      ContributionStep(observed, hostapd, b, n);
      if ContributesTo(observed[n - 1], hostapd[n - 1], b) {
        assert hostapd[n - 1] in hostapd;
        LargestStep(SettingsIn(MemberOf(before, WSettings(b))).1, SettingsIn(MemberOf(members, WSettings(b))).1,
                    Contributions(observed, hostapd, b, n - 1), Contribution(observed[n - 1], hostapd[n - 1]).value);
      }
    }
  }

  lemma NothingLarger(staNum: Option<uint64>)
    ensures Largest(staNum, staNum, [])
  {
  }

  /* ---- one member per key ---- */

  function KeysOf(members: seq<Member>): (ks: seq<Key>)
    ensures |ks| == |members|
  {
    seq(|members|, i requires 0 <= i < |members| => members[i].0)
  }

  ghost predicate Distinct(ks: seq<Key>) { forall i, j :: 0 <= i < j < |ks| ==> ks[i] != ks[j] }

  lemma {:induction false} KeysAfterSet(members: seq<Member>, k: Key, d: Doc)
    ensures KeysOf(SetMember(members, k, d)) == if k in KeysOf(members) then KeysOf(members) else KeysOf(members) + [k]
  {
    if members == [] {
      assert KeysOf([(k, d)]) == [k];
    } else {
      assert KeysOf(members) == [members[0].0] + KeysOf(members[1..]);
      if members[0].0 == k {
        assert KeysOf([(k, d)] + members[1..]) == [k] + KeysOf(members[1..]);
      } else {
        KeysAfterSet(members[1..], k, d);
        assert KeysOf([members[0]] + SetMember(members[1..], k, d)) == [members[0].0] + KeysOf(SetMember(members[1..], k, d));
      }
    }
  }

  lemma SetKeepsDistinct(members: seq<Member>, k: Key, d: Doc)
    ensures Distinct(KeysOf(SetMember(members, k, d))) <==> Distinct(KeysOf(members))
  {
    KeysAfterSet(members, k, d);
    hide KeysOf;
    if k !in KeysOf(members) {
      var ks := KeysOf(members) + [k];
      assert forall i :: 0 <= i < |KeysOf(members)| ==> ks[i] == KeysOf(members)[i];
    }
  }

  /** Augmenting repeats no key: the inform has one member per key exactly when the status had. */
  lemma {:induction false} AugmentingRepeatsNoKey(members: seq<Member>, observed: seq<Observed>, hostapd: seq<Hostapd>, n: nat)
    requires n <= |observed| && n <= |hostapd|
    ensures Distinct(KeysOf(After(members, observed, hostapd, n))) <==> Distinct(KeysOf(members))
  {
    if n > 0 {
      hide SetMember, MemberOf, MergedStats, HostapdStat, MergedStaNum, MergedTraffic, TrafficOf, KeysOf;
      AugmentingRepeatsNoKey(members, observed, hostapd, n - 1);
      var before, o, h := After(members, observed, hostapd, n - 1), observed[n - 1], hostapd[n - 1];
      var clients := Contribution(o, h);
      if clients.Some? {
        var band := o.band.value;
        var stats := StatsDoc(MergedStats(Items(MemberOf(before, SsidStats(band))), HostapdStat(o.ssid, clients.value)));
        SetKeepsDistinct(before, SsidStats(band), stats);
        var m1 := SetMember(before, SsidStats(band), stats);
        var current := SettingsIn(MemberOf(m1, WSettings(band)));
        var settings := SettingsDoc(current.0, Some(MergedStaNum(current.1, |clients.value|)));
        SetKeepsDistinct(m1, WSettings(band), settings);
        var m2 := SetMember(m1, WSettings(band), settings);
        SetKeepsDistinct(m2, RadioTraffic(band),
                         TrafficDoc(MergedTraffic(TrafficIn(MemberOf(m2, RadioTraffic(band))), TrafficOf(clients.value))));
      }
    }
  }

  lemma OwnKeys(r: Radio)
    ensures Distinct(KeysOf(RadioMembers(r))) && forall k :: k in KeysOf(RadioMembers(r)) ==> r.band == Some(k.band)
  {
    hide StatsOf, SettingsOf;
  }

  lemma DistinctJoin(a: seq<Key>, b: seq<Key>)
    requires Distinct(a) && Distinct(b) && forall k :: k in a ==> k !in b
    ensures Distinct(a + b)
  {
    assert forall i :: 0 <= i < |a| ==> a[i] in a;
    assert forall i :: 0 <= i < |b| ==> b[i] in b;
  }

  ghost predicate OnSomeRadio(radios: seq<Radio>, b: RadioBand) { exists i :: 0 <= i < |radios| && radios[i].band == Some(b) }

  /** Radios on different bands give distinct keys. */
  lemma {:induction false} OneRadioPerBand(radios: seq<Radio>)
    requires forall i, j :: 0 <= i < j < |radios| && radios[i].band.Some? ==> radios[i].band != radios[j].band
    ensures Distinct(KeysOf(StatusMembers(radios)))
    ensures forall k :: k in KeysOf(StatusMembers(radios)) ==> OnSomeRadio(radios, k.band)
  {
    if radios != [] {
      OneRadioPerBand(radios[1..]);
      OwnKeys(radios[0]);
      KeysJoin(RadioMembers(radios[0]), StatusMembers(radios[1..]));
      var own, rest := KeysOf(RadioMembers(radios[0])), KeysOf(StatusMembers(radios[1..]));
      hide RadioMembers, KeysOf, Distinct;
      forall k | k in rest ensures radios[0].band != Some(k.band) && OnSomeRadio(radios, k.band) {
        LaterRadio(radios, k.band);
      }
      DistinctJoin(own, rest);
    }
  }

  lemma KeysJoin(a: seq<Member>, b: seq<Member>)
    ensures KeysOf(a + b) == KeysOf(a) + KeysOf(b)
  {
  }

  lemma LaterRadio(radios: seq<Radio>, b: RadioBand)
    requires radios != [] && OnSomeRadio(radios[1..], b)
    requires forall i, j :: 0 <= i < j < |radios| && radios[i].band.Some? ==> radios[i].band != radios[j].band
    ensures radios[0].band != Some(b) && OnSomeRadio(radios, b)
  {
    var i :| 0 <= i < |radios[1..]| && radios[1..][i].band == Some(b);
    assert radios[i + 1].band == Some(b);
  }

  /** Whether the status gives a radio a member of this key. */
  predicate Gives(r: Radio, k: Key) {
    r.band == Some(k.band) && (if k.WSettings? then SettingsOf(r).Some? else k.SsidStats? && StatsOf(r.interfaces) != [])
  }

  lemma GivenKeys(r: Radio, k: Key)
    ensures k in KeysOf(RadioMembers(r)) <==> Gives(r, k)
  {
    hide StatsOf, SettingsOf;
    var members := RadioMembers(r);
    if Gives(r, k) {
      if k.WSettings? { assert KeysOf(members)[0] == k; } else { assert KeysOf(members)[|members| - 1] == k; }
    }
  }

  lemma {:induction false} StatusKeys(radios: seq<Radio>, k: Key)
    ensures k in KeysOf(StatusMembers(radios)) <==> exists i :: 0 <= i < |radios| && Gives(radios[i], k)
  {
    if radios != [] {
      GivenKeys(radios[0], k);
      StatusKeys(radios[1..], k);
      KeysJoin(RadioMembers(radios[0]), StatusMembers(radios[1..]));
      hide RadioMembers, KeysOf, Gives;
      assert forall i :: 0 < i < |radios| ==> radios[i] == radios[1..][i - 1];
      assert forall i :: 0 <= i < |radios[1..]| ==> radios[1..][i] == radios[i + 1];
    }
  }

  /** No two radios of one band both have settings, and no two both have an entry for an SSID. */
  ghost predicate NoneShares(radios: seq<Radio>) {
    forall i, j :: 0 <= i < j < |radios| && radios[i].band.Some? && radios[i].band == radios[j].band ==>
      && !(SettingsOf(radios[i]).Some? && SettingsOf(radios[j]).Some?)
      && !(StatsOf(radios[i].interfaces) != [] && StatsOf(radios[j].interfaces) != [])
  }

  ghost predicate Disjoint(a: Radio, b: Radio) { forall k :: !(Gives(a, k) && Gives(b, k)) }

  lemma DisjointIs(a: Radio, b: Radio)
    ensures Disjoint(a, b) <==>
            (a.band.Some? && a.band == b.band ==>
               && !(SettingsOf(a).Some? && SettingsOf(b).Some?)
               && !(StatsOf(a.interfaces) != [] && StatsOf(b.interfaces) != []))
  {
    hide SettingsOf, StatsOf;
    if a.band.Some? {
      assert Gives(a, WSettings(a.band.value)) <==> SettingsOf(a).Some?;
      assert Gives(a, SsidStats(a.band.value)) <==> StatsOf(a.interfaces) != [];
      assert b.band == a.band ==> (Gives(b, WSettings(a.band.value)) <==> SettingsOf(b).Some?);
      assert b.band == a.band ==> (Gives(b, SsidStats(a.band.value)) <==> StatsOf(b.interfaces) != []);
    }
  }

  lemma NoneSharesStep(radios: seq<Radio>)
    requires radios != []
    ensures NoneShares(radios) <==> NoneShares(radios[1..]) && forall j :: 0 <= j < |radios[1..]| ==> Disjoint(radios[0], radios[1..][j])
  {
    var rest := radios[1..];
    hide Disjoint, SettingsOf, StatsOf;
    forall j | 0 <= j < |rest| ensures rest[j] == radios[j + 1] { DisjointIs(radios[0], rest[j]); }
    forall j | 0 <= j < |rest|
      ensures Disjoint(radios[0], rest[j]) <==>
              (radios[0].band.Some? && radios[0].band == rest[j].band ==>
                 && !(SettingsOf(radios[0]).Some? && SettingsOf(rest[j]).Some?)
                 && !(StatsOf(radios[0].interfaces) != [] && StatsOf(rest[j].interfaces) != []))
    {
      DisjointIs(radios[0], rest[j]);
    }
    assert forall j :: 0 < j < |radios| ==> radios[j] == rest[j - 1];
  }

  lemma DistinctSplit(a: seq<Key>, b: seq<Key>)
    ensures Distinct(a + b) <==> Distinct(a) && Distinct(b) && forall k :: k in a ==> k !in b
  {
    if Distinct(a + b) { DistinctParts(a, b); }
    if Distinct(a) && Distinct(b) && forall k :: k in a ==> k !in b { DistinctJoin(a, b); }
  }

  lemma DistinctParts(a: seq<Key>, b: seq<Key>)
    requires Distinct(a + b)
    ensures Distinct(a) && Distinct(b) && forall k :: k in a ==> k !in b
  {
    var ab := a + b;
    forall i, j | 0 <= i < j < |a| ensures a[i] != a[j] { assert ab[i] != ab[j]; }
    forall i, j | 0 <= i < j < |b| ensures b[i] != b[j] { assert ab[|a| + i] != ab[|a| + j]; }
    forall i, j | 0 <= i < |a| && 0 <= j < |b| ensures a[i] != b[j] { assert ab[i] != ab[|a| + j]; }
  }

  /** The status has one member per key exactly when no two radios share one. */
  lemma {:induction false} StatusKeysExactly(radios: seq<Radio>)
    ensures Distinct(KeysOf(StatusMembers(radios))) <==> NoneShares(radios)
  {
    if radios != [] {
      var first, rest := radios[0], radios[1..];
      StatusKeysExactly(rest);
      OwnKeys(first);
      NoneSharesStep(radios);
      KeysJoin(RadioMembers(first), StatusMembers(rest));
      var own, others := KeysOf(RadioMembers(first)), KeysOf(StatusMembers(rest));
      DistinctSplit(own, others);
      forall k ensures (k in own <==> Gives(first, k)) && (k in others <==> exists j :: 0 <= j < |rest| && Gives(rest[j], k)) {
        GivenKeys(first, k);
        StatusKeys(rest, k);
      }
      hide RadioMembers, KeysOf, Gives, Distinct, NoneShares;
      SeparateExactly(first, rest, own, others);
    }
  }

  lemma SeparateExactly(first: Radio, rest: seq<Radio>, own: seq<Key>, others: seq<Key>)
    requires forall k :: k in own <==> Gives(first, k)
    requires forall k :: k in others <==> exists j :: 0 <= j < |rest| && Gives(rest[j], k)
    ensures (forall k :: k in own ==> k !in others) <==> forall j :: 0 <= j < |rest| ==> Disjoint(first, rest[j])
  {
    hide Gives;
    if forall k :: k in own ==> k !in others {
      forall j, k | 0 <= j < |rest| ensures !(Gives(first, k) && Gives(rest[j], k)) {
        assert k in own ==> k !in others;
      }
    }
  }

  /** So the inform has one member per key exactly when no two radios of one band both have settings
      and no two both have entries, whatever hostapd reports. */
  lemma InformKeysExactly(radios: seq<Radio>, hostapd: seq<Hostapd>)
    ensures Distinct(KeysOf(InformMembers(radios, hostapd))) <==> NoneShares(radios)
  {
    var observed := AllObserved(radios);
    StatusKeysExactly(radios);
    AugmentingRepeatsNoKey(StatusMembers(radios), observed, hostapd, Min(|observed|, |hostapd|));
    hide StatusMembers, KeysOf, Distinct, NoneShares;
  }

  /** Two radios on one band do repeat a key, and hostapd's report reaches the first member only: the
      second keeps the status entry for the same SSID. */
  lemma SharedBandKeepsStaleEntry(clients: ClientList)
    ensures var one := Interface("wlan0", "net", 0, "", None);
            var two := Interface("wlan1", "net", 7, "", None);
            var radios := [Radio(Some(TwoG), [], [one]), Radio(Some(TwoG), [], [two])];
            var members := InformMembers(radios, [Status(Some(clients))]);
            && !Distinct(KeysOf(members))
            && |members| > 2 && members[2] == (SsidStats(TwoG), StatsDoc([Stat("net", 7, "", 0, 0, 0, 0)]))
  {
    var one := Interface("wlan0", "net", 0, "", None);
    var two := Interface("wlan1", "net", 7, "", None);
    var (first, second) := (Radio(Some(TwoG), [], [one]), Radio(Some(TwoG), [], [two]));
    SoleInterface(one);
    SoleInterface(two);
    hide Mac.ParseMac, Stations, StatsOf, ObservedOn;
    TwoRadios(first, second);
    var before := StatusMembers([first, second]);
    var hostapd := [Status(Some(clients))];
    assert before == [(SsidStats(TwoG), StatsDoc([Stat("net", 0, "", 0, 0, 0, 0)])),
                      (WSettings(TwoG), SettingsDoc([], Some(7))),
                      (SsidStats(TwoG), StatsDoc([Stat("net", 7, "", 0, 0, 0, 0)]))];
    var o := Observed("wlan0", "net", Some(TwoG));
    assert AllObserved([first, second])[0] == o;
    assert After(before, AllObserved([first, second]), hostapd, 0) == before;
    assert InformMembers([first, second], hostapd) == Augmented(before, o, hostapd[0]);
    ThirdStays(before, o, hostapd[0]);
  }

  lemma TwoRadios(first: Radio, second: Radio)
    ensures StatusMembers([first, second]) == RadioMembers(first) + RadioMembers(second)
    ensures AllObserved([first, second]) == ObservedOn(first.band, first.interfaces) + ObservedOn(second.band, second.interfaces)
  {
    assert [first, second][1..] == [second] && [second][1..] == [];
    hide RadioMembers, ObservedOn;
    assert StatusMembers([second]) == RadioMembers(second) + [] == RadioMembers(second);
    assert AllObserved([second]) == ObservedOn(second.band, second.interfaces) + [] == ObservedOn(second.band, second.interfaces);
  }

  /** Only the first member of a key is replaced. */
  lemma {:induction false} LaterStays(members: seq<Member>, k: Key, d: Doc, i: nat)
    requires i < |members| && (members[i].0 != k || exists j :: 0 <= j < i && members[j].0 == k)
    ensures i < |SetMember(members, k, d)| && SetMember(members, k, d)[i] == members[i]
  {
    if members[0].0 != k && i > 0 {
      if members[i].0 == k {
        var j :| 0 <= j < i && members[j].0 == k;
        assert members[1..][j - 1].0 == k;
      }
      LaterStays(members[1..], k, d, i - 1);
    }
  }

  lemma KeyStays(members: seq<Member>, k: Key, d: Doc, i: nat)
    requires i < |members|
    ensures i < |SetMember(members, k, d)| && SetMember(members, k, d)[i].0 == members[i].0
  {
    KeysAfterSet(members, k, d);
    assert KeysOf(SetMember(members, k, d))[i] == KeysOf(members)[i];
  }

  lemma ThirdStays(members: seq<Member>, o: Observed, h: Hostapd)
    requires |members| == 3 && o.band.Some? && Contribution(o, h).Some?
    requires members[0].0 == members[2].0 == SsidStats(o.band.value) && members[1].0 == WSettings(o.band.value)
    ensures var after := Augmented(members, o, h);
            |after| > 2 && after[2] == members[2] && !Distinct(KeysOf(after))
  {
    hide SetMember, MemberOf, MergedStats, HostapdStat, MergedStaNum, MergedTraffic, TrafficOf;
    var band, clients := o.band.value, Contribution(o, h).value;
    var stats := StatsDoc(MergedStats(Items(MemberOf(members, SsidStats(band))), HostapdStat(o.ssid, clients)));
    var m1 := SetMember(members, SsidStats(band), stats);
    LaterStays(members, SsidStats(band), stats, 2);
    KeyStays(members, SsidStats(band), stats, 0);
    var current := SettingsIn(MemberOf(m1, WSettings(band)));
    var settings := SettingsDoc(current.0, Some(MergedStaNum(current.1, |clients|)));
    var m2 := SetMember(m1, WSettings(band), settings);
    LaterStays(m1, WSettings(band), settings, 2);
    KeyStays(m1, WSettings(band), settings, 0);
    var traffic := TrafficDoc(MergedTraffic(TrafficIn(MemberOf(m2, RadioTraffic(band))), TrafficOf(clients)));
    LaterStays(m2, RadioTraffic(band), traffic, 2);
    KeyStays(m2, RadioTraffic(band), traffic, 0);
    var after := SetMember(m2, RadioTraffic(band), traffic);
    assert KeysOf(after)[0] == after[0].0 && KeysOf(after)[2] == after[2].0;
  }

  lemma SoleInterface(i: Interface)
    requires i.ssid != "" && i.bssid == "" && i.counters == None && i.ifname != ""
    ensures Stations([i]) == i.stations && StatsOf([i]) == [Stat(i.ssid, i.stations, "", 0, 0, 0, 0)]
    ensures forall b :: ObservedOn(b, [i]) == [Observed(i.ifname, i.ssid, b)]
  {
    assert [i][1..] == [];
    assert Mac.ParseMac("").None?;
  }
}
