/** Which state files are taken up again, told from the members of the document they hold. */
module StateDocuments {
  import opened Wrappers
  import opened FixedWidth
  import opened Text
  import opened JsonText
  import opened Mac
  import opened ManagedRequests
  import opened Persistence

  /** The last member of a name counts; a name that does not occur reads as null. */
  ghost predicate Holds(members: seq<Member>, key: string, v: Value) {
    || (exists i :: 0 <= i < |members| && members[i] == (key, v) && forall j :: i < j < |members| ==> members[j].0 != key)
    || (v == JNull && forall j :: 0 <= j < |members| ==> members[j].0 != key)
  }

  /** A string counts up to its first NUL. */
  ghost predicate CutAtNul(s: string, cut: string) {
    cut <= s && Free(cut, '\0') && (cut == s || s[|cut|] == '\0')
  }

  ghost predicate Says(members: seq<Member>, key: string, text: string) {
    exists s :: Holds(members, key, JString(s)) && CutAtNul(s, text)
  }

  ghost predicate SaysOrEmpty(members: seq<Member>, key: string, text: string) {
    Says(members, key, text) || (text == "" && forall s :: !Holds(members, key, JString(s)))
  }

  /** A 32-bit number, or null or nothing for none. */
  ghost predicate Gives(members: seq<Member>, key: string, n: Option<uint32>) {
    Holds(members, key, if n.Some? then JInt(n.value) else JNull)
  }

  /** The time stamp: 0 unless a number is given, which counts up to the largest 64-bit one. */
  ghost predicate Dates(members: seq<Member>, at: uint64) {
    exists v :: Holds(members, "updated_at", v) && at == if v.JInt? && v.n >= 0 then Min(v.n, TWO_63 - 1) else 0
  }

  /** A document that describes a state of this device with this controller. */
  ghost predicate Describes(members: seq<Member>, device: MacAddress, host: string, s: ManagedState) {
    && Holds(members, "version", JInt(1)) && s.version == 1
    && (exists text :: Says(members, "mac", text) && ParseMac(text) == Some(device)) && s.mac == Normalized(device)
    && Says(members, "controller_host", host) && s.controllerHost == host
    && Says(members, "controller_id", s.controllerId) && s.controllerId != ""
    && Holds(members, "manage_port", JInt(s.managePort)) && s.managePort != 0
    && SaysOrEmpty(members, "site_id", s.siteId) && SaysOrEmpty(members, "username", s.username)
    && Gives(members, "config_version", s.configVersion) && Gives(members, "sequence_id", s.sequenceId)
    && Dates(members, s.updatedAt)
  }

  /* ---- looking members up ---- */

  lemma HoldsSnoc(members: seq<Member>, last: Member, key: string, v: Value)
    ensures Holds(members + [last], key, v) <==> if last.0 == key then last.1 == v else Holds(members, key, v)
  {
    var all, n := members + [last], |members|;
    assert forall j :: 0 <= j < n ==> all[j] == members[j];
    if last.0 == key {
      assert all[n] == last;
    } else {
      if i :| 0 <= i < n && members[i] == (key, v) && forall j :: i < j < n ==> members[j].0 != key {
        assert all[i] == (key, v) && forall j :: i < j < |all| ==> all[j].0 != key;
      }
      if i :| 0 <= i < |all| && all[i] == (key, v) && forall j :: i < j < |all| ==> all[j].0 != key {
        assert members[i] == (key, v) && forall j :: i < j < n ==> all[j] == members[j];
      }
    }
  }

  lemma {:induction false} LookupHolds(members: seq<Member>, key: string, v: Value)
    ensures Holds(members, key, v) <==> Lookup(members, key) == v
  {
    if members != [] {
      var n := |members| - 1;
      assert members == members[..n] + [members[n]];
      HoldsSnoc(members[..n], members[n], key, v);
      LookupHolds(members[..n], key, v);
      hide Holds;
    }
  }

  lemma {:induction false} CutIsCString(s: string, cut: string)
    ensures CutAtNul(s, cut) <==> CString(s) == cut
  {
    if s != "" && s[0] != '\0' {
      if cut != "" {
        CutIsCString(s[1..], cut[1..]);
        assert cut == [cut[0]] + cut[1..] && s == [s[0]] + s[1..];
        assert CString(s)[0] == s[0] && CString(s)[1..] == CString(s[1..]);
      }
    }
  }

  /* ---- which documents load ---- */

  lemma StringIs(members: seq<Member>, key: string, text: string)
    ensures Says(members, key, text) <==> StringValue(Lookup(members, key)) == Some(text)
    ensures SaysOrEmpty(members, key, text) <==> StringValue(Lookup(members, key)).GetOr("") == text
    ensures StringValue(Lookup(members, key)).None? <==> forall s :: !Holds(members, key, JString(s))
  {
    var v := Lookup(members, key);
    forall s ensures Holds(members, key, JString(s)) <==> v == JString(s) { LookupHolds(members, key, JString(s)); }
    if v.JString? {
      CutIsCString(v.s, text);
      assert Holds(members, key, JString(v.s));
    }
    hide Holds, CutAtNul, CString, Lookup;
  }

  lemma NumberIs(members: seq<Member>, key: string, n: Option<uint32>)
    ensures Gives(members, key, n) <==> OptionalU32(Lookup(members, key)) == Some(n)
  {
    LookupHolds(members, key, if n.Some? then JInt(n.value) else JNull);
    hide Holds, Lookup;
  }

  lemma SmallIs(members: seq<Member>, key: string, n: int)
    requires 0 < n <= 65535
    ensures Holds(members, key, JInt(n)) <==> IntValue(Lookup(members, key)) == Some(n)
  {
    LookupHolds(members, key, JInt(n));
    hide Holds, Lookup;
  }

  lemma DateIs(members: seq<Member>, at: uint64)
    ensures var t := IntValue(Lookup(members, "updated_at"));
            Dates(members, at) <==> at == if t.Some? && t.value >= 0 then t.value else 0
  {
    forall v ensures Holds(members, "updated_at", v) <==> Lookup(members, "updated_at") == v { LookupHolds(members, "updated_at", v); }
    hide Holds, Lookup;
  }

  lemma MacIs(members: seq<Member>, device: MacAddress)
    ensures (exists text :: Says(members, "mac", text) && ParseMac(text) == Some(device)) <==>
            var text := StringValue(Lookup(members, "mac"));
            text.Some? && ParseMac(text.value).Some? && Normalized(ParseMac(text.value).value) == Normalized(device)
  {
    var text := StringValue(Lookup(members, "mac"));
    forall t ensures Says(members, "mac", t) <==> text == Some(t) { StringIs(members, "mac", t); }
    if text.Some? && ParseMac(text.value).Some? { NormalizedInjective(ParseMac(text.value).value, device); }
    hide Says, Lookup, StringValue, ParseMac, Normalized;
  }

  // the same, by the readers of the agent
  ghost predicate Identifies(members: seq<Member>, device: MacAddress, host: string, s: ManagedState) {
    var mac := StringValue(Lookup(members, "mac"));
    && IntValue(Lookup(members, "version")) == Some(1) && s.version == 1
    && mac.Some? && ParseMac(mac.value).Some? && Normalized(ParseMac(mac.value).value) == Normalized(device)
    && s.mac == Normalized(device)
    && StringValue(Lookup(members, "controller_host")) == Some(host) && s.controllerHost == host
    && StringValue(Lookup(members, "controller_id")) == Some(s.controllerId) && s.controllerId != ""
    && IntValue(Lookup(members, "manage_port")) == Some(s.managePort) && s.managePort != 0
  }

  ghost predicate Details(members: seq<Member>, s: ManagedState) {
    var at := IntValue(Lookup(members, "updated_at"));
    && s.siteId == StringValue(Lookup(members, "site_id")).GetOr("")
    && s.username == StringValue(Lookup(members, "username")).GetOr("")
    && OptionalU32(Lookup(members, "config_version")) == Some(s.configVersion)
    && OptionalU32(Lookup(members, "sequence_id")) == Some(s.sequenceId)
    && s.updatedAt == if at.Some? && at.value >= 0 then at.value else 0
  }

  lemma ReadersLoad(members: seq<Member>, device: MacAddress, host: string, s: ManagedState)
    ensures LoadMembers(members, device, host) == Loaded(s) <==> Identifies(members, device, host, s) && Details(members, s)
  {
    hide Lookup, StringValue, IntValue, OptionalU32, ParseMac, Normalized;
  }

  lemma Identified(members: seq<Member>, device: MacAddress, host: string, s: ManagedState)
    ensures Identifies(members, device, host, s) <==>
            && Holds(members, "version", JInt(1)) && s.version == 1
            && (exists text :: Says(members, "mac", text) && ParseMac(text) == Some(device)) && s.mac == Normalized(device)
            && Says(members, "controller_host", host) && s.controllerHost == host
            && Says(members, "controller_id", s.controllerId) && s.controllerId != ""
            && Holds(members, "manage_port", JInt(s.managePort)) && s.managePort != 0
  {
    SmallIs(members, "version", 1);
    MacIs(members, device);
    StringIs(members, "controller_host", host);
    StringIs(members, "controller_id", s.controllerId);
    if s.managePort != 0 { SmallIs(members, "manage_port", s.managePort); }
    hide Holds, Says, SaysOrEmpty, Lookup, StringValue, IntValue, ParseMac, Normalized;
  }

  lemma Detailed(members: seq<Member>, s: ManagedState)
    ensures Details(members, s) <==>
            && SaysOrEmpty(members, "site_id", s.siteId) && SaysOrEmpty(members, "username", s.username)
            && Gives(members, "config_version", s.configVersion) && Gives(members, "sequence_id", s.sequenceId)
            && Dates(members, s.updatedAt)
  {
    StringIs(members, "site_id", s.siteId);
    StringIs(members, "username", s.username);
    NumberIs(members, "config_version", s.configVersion);
    NumberIs(members, "sequence_id", s.sequenceId);
    DateIs(members, s.updatedAt);
    hide Holds, Says, SaysOrEmpty, Gives, Dates, Lookup, StringValue, IntValue, OptionalU32;
  }

  /** A document is taken up as a state exactly when it describes that state, for this device and this
      controller. */
  lemma DocumentLoads(members: seq<Member>, device: MacAddress, host: string, s: ManagedState)
    ensures LoadMembers(members, device, host) == Loaded(s) <==> Describes(members, device, host, s)
  {
    ReadersLoad(members, device, host, s);
    Identified(members, device, host, s);
    Detailed(members, s);
    hide Holds, Says, SaysOrEmpty, Gives, Dates, ParseMac, Normalized, Identifies, Details, LoadMembers;
  }

  /** A file is taken up as a state exactly when it is there, opens, holds at most 64 KiB, is read to its
      end, and is an object that describes the state. It fails to load exactly when it is there and cannot
      be opened, is larger or is not read to its end. */
  lemma FileLoads(file: Option<string>, device: MacAddress, host: string, opens: bool, reading: seq<IoEvent>, s: ManagedState)
    ensures LoadOf(file, device, host, opens, reading) == Loaded(s) <==>
            && file.Some? && opens && |file.value| <= 65536 && ReadCompletes(reading, |file.value|)
            && ReadObject(file.value).Some? && Describes(ReadObject(file.value).value, device, host, s)
    ensures LoadOf(file, device, host, opens, reading) == LoadFailed <==>
            file.Some? && (!opens || |file.value| > 65536 || !ReadCompletes(reading, |file.value|))
    ensures LoadOf(file, device, host, opens, reading) == NotFound(None) <==> file.None?
  {
    if file.Some? && ReadObject(file.value).Some? {
      DocumentLoads(ReadObject(file.value).value, device, host, s);
      NeverFails(ReadObject(file.value).value, device, host);
    }
    hide LoadMembers, ReadObject, Describes, ReadCompletes;
  }

  lemma NeverFails(members: seq<Member>, device: MacAddress, host: string)
    ensures var r := LoadMembers(members, device, host); r.Loaded? || (r.NotFound? && r.ignored.Some?)
  {
    hide Lookup, ParseMac, Normalized;
  }

  /** Whatever the file holds, a state that is taken up is one the repository would write: of this
      device and this controller, with a controller id and a port. */
  lemma LoadedIsOurs(file: Option<string>, device: MacAddress, host: string, opens: bool, reading: seq<IoEvent>)
    ensures var r := LoadOf(file, device, host, opens, reading);
            r.Loaded? ==>
              && SaveRefusal(r.state, device, host).None?
              && r.state.mac == Normalized(device) && r.state.controllerHost == host
              && r.state.controllerId != "" && 1 <= r.state.managePort <= 65535
  {
    var r := LoadOf(file, device, host, opens, reading);
    if r.Loaded? {
      FileLoads(file, device, host, opens, reading, r.state);
      MacRoundTrip(device);
      hide LoadOf, ReadObject, ParseMac, Normalized, ReadCompletes;
    }
  }

  /* ---- which documents are passed over, and why ---- */

  ghost predicate HasString(members: seq<Member>, key: string) { exists s :: Holds(members, key, JString(s)) }

  ghost predicate HasInt(members: seq<Member>, key: string) { exists n :: Holds(members, key, JInt(n)) }

  ghost predicate GivesNothingUsable(members: seq<Member>, key: string) { forall n :: !Gives(members, key, n) }

  /** What is wrong with a document that is passed over for a reason, given that nothing checked before
      is wrong with it. */
  ghost predicate Faulty(members: seq<Member>, device: MacAddress, host: string, why: Ignored) {
    match why
    case UnsupportedVersion => !Holds(members, "version", JInt(1))
    case MissingIdentity =>
      !(HasString(members, "mac") && HasString(members, "controller_host") && HasString(members, "controller_id")
        && HasInt(members, "manage_port"))
    case InvalidMac => forall text :: Says(members, "mac", text) ==> ParseMac(text).None?
    case OtherDevice => forall text :: Says(members, "mac", text) ==> ParseMac(text) != Some(device)
    case OtherController => !Says(members, "controller_host", host)
    case Incomplete =>
      Says(members, "controller_id", "") || forall port :: Holds(members, "manage_port", JInt(port)) ==> !(1 <= port <= 65535)
    case InvalidField(f) =>
      (f == ConfigVersion && GivesNothingUsable(members, "config_version"))
      || (f == SequenceId && GivesNothingUsable(members, "sequence_id"))
    case NotAnObject => false
  }

  const REASONS: seq<Ignored> :=
    [UnsupportedVersion, MissingIdentity, InvalidMac, OtherDevice, OtherController, Incomplete, InvalidField(ConfigVersion),
     InvalidField(SequenceId)]

  /** A document is passed over for the first reason, in the order of the checks, that applies to it. */
  lemma PassedOverFor(members: seq<Member>, device: MacAddress, host: string, i: nat)
    requires i < |REASONS|
    ensures LoadMembers(members, device, host) == NotFound(Some(REASONS[i])) <==>
            Faulty(members, device, host, REASONS[i]) && forall k :: 0 <= k < i ==> !Faulty(members, device, host, REASONS[k])
  {
    forall k | 0 <= k < |REASONS| ensures Faulty(members, device, host, REASONS[k]) <==> Fault(members, device, host, k) {
      FaultyIs(members, device, host, k);
    }
    hide Faulty;
    FirstFault(members, device, host, i);
  }

  // the same, by the readers of the agent; later ones count on what earlier ones found
  ghost predicate Fault(members: seq<Member>, device: MacAddress, host: string, i: nat) {
    var mac, id := StringValue(Lookup(members, "mac")), StringValue(Lookup(members, "controller_id"));
    var port := IntValue(Lookup(members, "manage_port"));
    match i
    case 0 => IntValue(Lookup(members, "version")) != Some(1)
    case 1 => mac.None? || StringValue(Lookup(members, "controller_host")).None? || id.None? || port.None?
    case 2 => mac.None? || ParseMac(mac.value).None?
    case 3 => mac.None? || ParseMac(mac.value).None? || Normalized(ParseMac(mac.value).value) != Normalized(device)
    case 4 => StringValue(Lookup(members, "controller_host")) != Some(host)
    case 5 => id == Some("") || port.None? || !(1 <= port.value <= 65535)
    case 6 => OptionalU32(Lookup(members, "config_version")).None?
    case 7 => OptionalU32(Lookup(members, "sequence_id")).None?
    case _ => false
  }

  lemma FirstFault(members: seq<Member>, device: MacAddress, host: string, i: nat)
    requires i < 8
    ensures LoadMembers(members, device, host) == NotFound(Some(REASONS[i])) <==>
            Fault(members, device, host, i) && forall k :: 0 <= k < i ==> !Fault(members, device, host, k)
  {
    hide Lookup, StringValue, IntValue, OptionalU32, ParseMac, Normalized;
    var first := if Fault(members, device, host, 0) then 0
                 else if Fault(members, device, host, 1) then 1
                 else if Fault(members, device, host, 2) then 2
                 else if Fault(members, device, host, 3) then 3
                 else if Fault(members, device, host, 4) then 4
                 else if Fault(members, device, host, 5) then 5
                 else if Fault(members, device, host, 6) then 6
                 else if Fault(members, device, host, 7) then 7
                 else 8;
    assert first < 8 ==> LoadMembers(members, device, host) == NotFound(Some(REASONS[first]));
    assert first == 8 ==> LoadMembers(members, device, host).Loaded?;
    assert first < 8 ==> Fault(members, device, host, first);
    assert forall k :: 0 <= k < first ==> !Fault(members, device, host, k);
    assert forall k :: 0 <= k < 8 && REASONS[k] == REASONS[i] ==> k == i;
    hide LoadMembers, Fault;
  }

  lemma FaultyIs(members: seq<Member>, device: MacAddress, host: string, i: nat)
    requires i < 8
    ensures Faulty(members, device, host, REASONS[i]) <==> Fault(members, device, host, i)
  {
    hide Holds, Says, Gives, Lookup, StringValue, OptionalU32, ParseMac, Normalized;
    if i == 0 {
      SmallIs(members, "version", 1);
    } else if i == 1 {
      StringIs(members, "mac", "");
      StringIs(members, "controller_host", "");
      StringIs(members, "controller_id", "");
      IntIs(members, "manage_port");
    } else if i <= 3 {
      forall t ensures Says(members, "mac", t) <==> StringValue(Lookup(members, "mac")) == Some(t) { StringIs(members, "mac", t); }
      MacIs(members, device);
    } else if i == 4 {
      StringIs(members, "controller_host", host);
    } else if i == 5 {
      StringIs(members, "controller_id", "");
      IntIs(members, "manage_port");
    } else {
      var key := if i == 6 then "config_version" else "sequence_id";
      forall n ensures Gives(members, key, n) <==> OptionalU32(Lookup(members, key)) == Some(n) { NumberIs(members, key, n); }
    }
  }

  lemma IntIs(members: seq<Member>, key: string)
    ensures HasInt(members, key) <==> IntValue(Lookup(members, key)).Some?
    ensures (forall n :: Holds(members, key, JInt(n)) ==> !(1 <= n <= 65535)) <==>
            IntValue(Lookup(members, key)).None? || !(1 <= IntValue(Lookup(members, key)).value <= 65535)
  {
    forall n ensures Holds(members, key, JInt(n)) <==> Lookup(members, key) == JInt(n) { LookupHolds(members, key, JInt(n)); }
    var v := Lookup(members, key);
    if v.JInt? { assert Holds(members, key, JInt(v.n)); }
    hide Holds, Lookup;
  }

  /* ---- when a save takes, and when a read gets through ---- */

  /** The bytes moved by the calls of a schedule; one call reads at least one byte and at most 1024. */
  function Written(schedule: seq<IoEvent>): nat {
    if schedule == [] then 0
    else Written(schedule[..|schedule| - 1]) + match schedule[|schedule| - 1] case Moved(n) => n case _ => 0
  }

  function Delivered(schedule: seq<IoEvent>): nat {
    if schedule == [] then 0
    else Delivered(schedule[..|schedule| - 1])
         + match schedule[|schedule| - 1] case Moved(n) => if n == 0 then 1 else Min(n, 1024) case _ => 0
  }

  predicate Stops(e: IoEvent) { e == Failed || e == Moved(0) }

  lemma {:induction false} WrittenFront(e: IoEvent, schedule: seq<IoEvent>)
    ensures Written([e] + schedule) == (match e case Moved(n) => n case _ => 0) + Written(schedule)
    ensures Delivered([e] + schedule)
         == (match e case Moved(n) => if n == 0 then 1 else Min(n, 1024) case _ => 0) + Delivered(schedule)
    decreases |schedule|
  {
    var all := [e] + schedule;
    if schedule == [] {
      assert all[..0] == [];
    } else {
      var n := |schedule| - 1;
      assert all[..n + 1] == [e] + schedule[..n] && all[n + 1] == schedule[n];
      WrittenFront(e, schedule[..n]);
    }
  }

  /** A write gets through exactly when every call that fails or moves nothing comes after all bytes
      were moved. */
  lemma {:induction false} WriteGetsThrough(schedule: seq<IoEvent>, size: nat)
    ensures WriteCompletes(schedule, size) <==> forall i :: 0 <= i < |schedule| && Stops(schedule[i]) ==> Written(schedule[..i]) >= size
    decreases |schedule|
  {
    if size > 0 && schedule != [] {
      var e, later := schedule[0], schedule[1..];
      var moved := match e case Moved(n) => n case _ => 0;
      WriteGetsThrough(later, size - Min(moved, size));
      forall i | 0 < i < |schedule|
        ensures Written(schedule[..i]) == moved + Written(later[..i - 1]) && schedule[i] == later[i - 1]
      {
        assert schedule[..i] == [e] + later[..i - 1];
        WrittenFront(e, later[..i - 1]);
      }
      assert Written(schedule[..0]) == 0 by { assert schedule[..0] == []; }
      hide Written;
      Shifted(schedule, size, moved);
    }
  }

  lemma Shifted(schedule: seq<IoEvent>, size: nat, moved: nat)
    requires schedule != [] && size > 0 && moved == (match schedule[0] case Moved(n) => n case _ => 0)
    requires Written(schedule[..0]) == 0
    requires forall i :: 0 < i < |schedule| ==>
               Written(schedule[..i]) == moved + Written(schedule[1..][..i - 1]) && schedule[i] == schedule[1..][i - 1]
    ensures (forall i :: 0 <= i < |schedule| && Stops(schedule[i]) ==> Written(schedule[..i]) >= size)
            <==> !Stops(schedule[0]) && forall j :: 0 <= j < |schedule[1..]| && Stops(schedule[1..][j]) ==>
                   Written(schedule[1..][..j]) >= size - Min(moved, size)
  {
    hide Written;
    var later := schedule[1..];
    if forall i :: 0 <= i < |schedule| && Stops(schedule[i]) ==> Written(schedule[..i]) >= size {
      forall j | 0 <= j < |later| && Stops(later[j]) ensures Written(later[..j]) >= size - Min(moved, size) {
        assert Written(schedule[..j + 1]) >= size && Written(schedule[..j + 1]) == moved + Written(later[..j]);
      }
    }
    if !Stops(schedule[0]) && forall j :: 0 <= j < |later| && Stops(later[j]) ==> Written(later[..j]) >= size - Min(moved, size) {
      forall i | 0 <= i < |schedule| && Stops(schedule[i]) ensures Written(schedule[..i]) >= size {
        assert i > 0 && Stops(later[i - 1]) && Written(later[..i - 1]) >= size - Min(moved, size);
      }
    }
  }

  /** The end of a file of this size was seen among the first calls. */
  ghost predicate SeesEnd(schedule: seq<IoEvent>, size: nat, n: nat)
    requires n <= |schedule|
  {
    exists j :: 0 <= j < n && schedule[j].Moved? && Delivered(schedule[..j]) >= size
  }

  /** A read gets through exactly when every call that fails comes after the end of the file was seen. */
  lemma {:induction false} ReadGetsThrough(schedule: seq<IoEvent>, size: nat)
    ensures ReadCompletes(schedule, size) <==> forall i :: 0 <= i < |schedule| && schedule[i].Failed? ==> SeesEnd(schedule, size, i)
    decreases |schedule|
  {
    assert schedule[..0] == [];
    assert Delivered([]) == 0;
    if schedule != [] {
      var e, later := schedule[0], schedule[1..];
      if e.Moved? && size == 0 {
        forall i | 0 <= i < |schedule| && schedule[i].Failed? ensures SeesEnd(schedule, size, i) {
          assert i > 0 && Delivered(schedule[..0]) >= size;
        }
      } else {
        var chunk := match e case Moved(n) => if n == 0 then 1 else Min(n, 1024) case _ => 0;
        var left := size - Min(chunk, size);
        assert ReadCompletes(schedule, size) == (!e.Failed? && ReadCompletes(later, left));
        ReadGetsThrough(later, left);
        hide Delivered, ReadCompletes;
        forall i | 0 < i <= |schedule| ensures SeesEnd(schedule, size, i) <==> SeesEnd(later, left, i - 1) {
          SeenLater(schedule, size, chunk, i);
        }
        assert forall i :: 0 < i < |schedule| ==> schedule[i] == later[i - 1];
        ShiftedRead(schedule, size, left);
      }
    }
  }

  lemma SeenLater(schedule: seq<IoEvent>, size: nat, chunk: nat, i: nat)
    requires 0 < i <= |schedule| && Delivered(schedule[..0]) == 0
    requires chunk == match schedule[0] case Moved(n) => if n == 0 then 1 else Min(n, 1024) case _ => 0
    requires !(schedule[0].Moved? && size == 0)
    ensures SeesEnd(schedule, size, i) <==> SeesEnd(schedule[1..], size - Min(chunk, size), i - 1)
  {
    var e, later := schedule[0], schedule[1..];
    forall j | 0 < j < |schedule| ensures Delivered(schedule[..j]) == chunk + Delivered(later[..j - 1]) && schedule[j] == later[j - 1] {
      assert schedule[..j] == [e] + later[..j - 1];
      WrittenFront(e, later[..j - 1]);
    }
    hide Delivered;
    if SeesEnd(schedule, size, i) {
      var j :| 0 <= j < i && schedule[j].Moved? && Delivered(schedule[..j]) >= size;
      assert j > 0 && later[j - 1].Moved? && Delivered(later[..j - 1]) >= size - Min(chunk, size);
    }
    if SeesEnd(later, size - Min(chunk, size), i - 1) {
      var j :| 0 <= j < i - 1 && later[j].Moved? && Delivered(later[..j]) >= size - Min(chunk, size);
      assert schedule[j + 1].Moved? && Delivered(schedule[..j + 1]) >= size;
    }
  }

  lemma ShiftedRead(schedule: seq<IoEvent>, size: nat, left: nat)
    requires schedule != [] && !SeesEnd(schedule, size, 0)
    requires forall i :: 0 < i <= |schedule| ==> (SeesEnd(schedule, size, i) <==> SeesEnd(schedule[1..], left, i - 1))
    ensures (forall i :: 0 <= i < |schedule| && schedule[i].Failed? ==> SeesEnd(schedule, size, i))
            <==> !schedule[0].Failed? && forall i :: 0 <= i < |schedule[1..]| && schedule[1..][i].Failed? ==> SeesEnd(schedule[1..], left, i)
  {
    hide SeesEnd;
    var later := schedule[1..];
    if forall i :: 0 <= i < |schedule| && schedule[i].Failed? ==> SeesEnd(schedule, size, i) {
      forall i | 0 <= i < |later| && later[i].Failed? ensures SeesEnd(later, left, i) { assert schedule[i + 1].Failed?; }
    }
    if !schedule[0].Failed? && forall i :: 0 <= i < |later| && later[i].Failed? ==> SeesEnd(later, left, i) {
      forall i | 0 <= i < |schedule| && schedule[i].Failed? ensures SeesEnd(schedule, size, i) { assert i > 0 && later[i - 1].Failed?; }
    }
  }

  /** A state is accepted exactly when it is one of this device and this controller, with an id and a port;
      a save then takes exactly when the directory and the temporary file can be had, the write gets
      through, and the data can be synced and the file renamed. Otherwise the file stays as it was. */
  lemma SaveTakes(s: ManagedState, device: MacAddress, host: string, file: Option<string>, io: SaveIo)
    ensures var accepted := s.version == 1 && ParseMac(s.mac) == Some(device) && s.controllerHost == host && s.controllerId != "" && s.managePort != 0;
            && (SaveRefusal(s, device, host).None? <==> accepted)
            && SavedFile(s, device, host, file, io)
               == if accepted && io.mkdir && io.open && io.fsync && io.rename
                     && forall i :: 0 <= i < |io.writes| && Stops(io.writes[i]) ==> Written(io.writes[..i]) >= |StateText(s, device)|
                  then Some(StateText(s, device)) else file
  {
    if ParseMac(s.mac).Some? { NormalizedInjective(ParseMac(s.mac).value, device); }
    WriteGetsThrough(io.writes, |StateText(s, device)|);
    hide ParseMac, Normalized, StateText, WriteCompletes, Written, Stops;
  }
}
