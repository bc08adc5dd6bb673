/** The file the managed state survives a restart in: what is written, what is accepted back, and
    the replacement of the file. A string's characters stand for its bytes. */
module Persistence {
  import opened Wrappers
  import opened FixedWidth
  import opened Text
  import opened JsonText
  import opened Mac
  import opened ManagedRequests

  const STATE_VERSION: uint32 := 1
  const MAX_STATE_FILE_BYTES: nat := 64 * 1024

  /* ---- the document ---- */

  datatype Field =
    ConfigVersion | ControllerHost | ControllerId | MacText | ManagePort | SequenceId | SiteId | UpdatedAt | Username | Version

  function Name(f: Field): string {
    match f
    case ConfigVersion => "config_version"
    case ControllerHost => "controller_host"
    case ControllerId => "controller_id"
    case MacText => "mac"
    case ManagePort => "manage_port"
    case SequenceId => "sequence_id"
    case SiteId => "site_id"
    case UpdatedAt => "updated_at"
    case Username => "username"
    case Version => "version"
  }

  // enough of a name to tell it from the others
  function Signature(f: Field): (int, char, char) {
    (|Name(f)|, Name(f)[0], Name(f)[2])
  }

  lemma NamesDistinct(f: Field, g: Field)
    ensures Name(f) == Name(g) <==> f == g
  {
    assert Signature(f) == Signature(g) ==> f == g;
  }

  function OptionalInt(v: Option<uint32>): Value { if v.Some? then JInt(v.value) else JNull }

  /** The members written for a state whose address is `mac`. */
  function Fields(s: ManagedState, mac: MacAddress): seq<(Field, Value)> {
    [ (ConfigVersion, OptionalInt(s.configVersion)),
      (ControllerHost, JString(s.controllerHost)),
      (ControllerId, JString(s.controllerId)),
      (MacText, JString(Normalized(mac))),
      (ManagePort, JInt(s.managePort)),
      (SequenceId, OptionalInt(s.sequenceId)),
      (SiteId, JString(s.siteId)),
      (UpdatedAt, JInt(s.updatedAt)),
      (Username, JString(s.username)),
      (Version, JInt(STATE_VERSION)) ]
  }

  function Members(fields: seq<(Field, Value)>): (m: seq<Member>)
    ensures |m| == |fields|
  {
    seq(|fields|, i requires 0 <= i < |fields| => (Name(fields[i].0), fields[i].1))
  }

  /** state_json */
  function StateText(s: ManagedState, mac: MacAddress): string { WriteObject(Members(Fields(s, mac))) }

  /* ---- reading it back ---- */

  /** The last member of a name; a JSON null is no member. */
  function Lookup(members: seq<Member>, key: string): Value {
    if members == [] then JNull
    else
      var last := members[|members| - 1];
      if last.0 == key then last.1 else Lookup(members[..|members| - 1], key)
  }

  // C strings end at the first NUL
  function CString(s: string): string {
    if s == "" || s[0] == '\0' then "" else [s[0]] + CString(s[1..])
  }

  // json_string
  function StringValue(v: Value): Option<string> { if v.JString? then Some(CString(v.s)) else None }

  // json_int, which saturates
  function IntValue(v: Value): Option<int64> {
    if !v.JInt? then None
    else if v.n >= TWO_63 then Some(TWO_63 - 1)
    else if v.n < -TWO_63 then Some(-TWO_63)
    else Some(v.n)
  }

  /** optional_uint32: None is a range error. */
  function OptionalU32(v: Value): Option<Option<uint32>> {
    if v.JNull? then Some(None)
    else
      var n := IntValue(v);
      if n.None? || !FitsU32(n.value) then None else Some(Some(n.value))
  }

  datatype Ignored =
    | NotAnObject
    | UnsupportedVersion
    | MissingIdentity
    | InvalidMac
    | OtherDevice
    | OtherController
    | Incomplete
    | InvalidField(field: Field)

  /** ok with a state, ok without one (and why a file was passed over), or a read failure. */
  datatype LoadResult = Loaded(state: ManagedState) | NotFound(ignored: Option<Ignored>) | LoadFailed

  function Pass(why: Ignored): LoadResult { NotFound(Some(why)) }

  /** The state in a document, for the device and controller the repository belongs to. */
  function LoadMembers(members: seq<Member>, device: MacAddress, host: string): LoadResult {
    if IntValue(Lookup(members, Name(Version))) != Some(STATE_VERSION) then Pass(UnsupportedVersion)
    else
      var rawMac := StringValue(Lookup(members, Name(MacText)));
      var controllerHost := StringValue(Lookup(members, Name(ControllerHost)));
      var controllerId := StringValue(Lookup(members, Name(ControllerId)));
      var port := IntValue(Lookup(members, Name(ManagePort)));
      if rawMac.None? || controllerHost.None? || controllerId.None? || port.None? then Pass(MissingIdentity)
      else
        var mac := ParseMac(rawMac.value);
        if mac.None? then Pass(InvalidMac)
        else if Normalized(mac.value) != Normalized(device) then Pass(OtherDevice)
        else if controllerHost.value != host then Pass(OtherController)
        else if controllerId.value == "" || port.value <= 0 || port.value > 65535 then Pass(Incomplete)
        else
          var configVersion := OptionalU32(Lookup(members, Name(ConfigVersion)));
          var sequenceId := OptionalU32(Lookup(members, Name(SequenceId)));
          if configVersion.None? then Pass(InvalidField(ConfigVersion))
          else if sequenceId.None? then Pass(InvalidField(SequenceId))
          else
            var updatedAt := IntValue(Lookup(members, Name(UpdatedAt)));
            Loaded(ManagedState(
              STATE_VERSION, Normalized(mac.value), controllerHost.value, controllerId.value, port.value,
              StringValue(Lookup(members, Name(SiteId))).GetOr(""),
              StringValue(Lookup(members, Name(Username))).GetOr(""),
              configVersion.value, sequenceId.value,
              if updatedAt.Some? && updatedAt.value >= 0 then updatedAt.value else 0))
  }

  /** load, of a file that can be read. */
  function LoadText(text: string, device: MacAddress, host: string): LoadResult {
    if |text| > MAX_STATE_FILE_BYTES then LoadFailed
    else
      var members := ReadObject(text);
      if members.None? then Pass(NotAnObject) else LoadMembers(members.value, device, host)
  }

  function LoadFile(file: Option<string>, device: MacAddress, host: string): LoadResult {
    if file.None? then NotFound(None) else LoadText(file.value, device, host)
  }

  /* ---- what is accepted for writing ---- */

  function SaveRefusal(s: ManagedState, device: MacAddress, host: string): (r: Option<Ignored>)
    ensures r.None? ==> ParseMac(s.mac).Some?
  {
    if s.version != STATE_VERSION then Some(UnsupportedVersion)
    else if ParseMac(s.mac).None? then Some(InvalidMac)
    else if Normalized(ParseMac(s.mac).value) != Normalized(device) then Some(OtherDevice)
    else if s.controllerHost != host then Some(OtherController)
    else if s.controllerId == "" || s.managePort == 0 then Some(Incomplete)
    else None
  }

  /* ---- the file ---- */

  /** What one read or write call does; a schedule that has run out moves everything that is left. */
  datatype IoEvent = Interrupted | Failed | Moved(bytes: nat)

  predicate WriteCompletes(schedule: seq<IoEvent>, remaining: nat)
    decreases |schedule|
  {
    || remaining == 0
    || schedule == []
    || match schedule[0] {
         case Interrupted => WriteCompletes(schedule[1..], remaining)
         case Failed => false
         case Moved(n) => n > 0 && WriteCompletes(schedule[1..], remaining - Min(n, remaining))
       }
  }

  const READ_BUFFER: nat := 1024

  // bytes delivered by a read call; none at the end of the file
  function ReadCount(asked: nat, remaining: nat): (n: nat)
    ensures n <= remaining && (n == 0 <==> remaining == 0)
  {
    Min(Min(if asked == 0 then 1 else asked, READ_BUFFER), remaining)
  }

  predicate ReadCompletes(schedule: seq<IoEvent>, remaining: nat)
    decreases |schedule|
  {
    schedule == [] ||
    match schedule[0]
    case Interrupted => ReadCompletes(schedule[1..], remaining)
    case Failed => false
    case Moved(n) => remaining == 0 || ReadCompletes(schedule[1..], remaining - ReadCount(n, remaining))
  }

  /** load: a missing file is no state, one that cannot be opened or read a failure. */
  function LoadOf(file: Option<string>, device: MacAddress, host: string, opens: bool, reading: seq<IoEvent>): LoadResult {
    if file.Some? && (!opens || (|file.value| <= MAX_STATE_FILE_BYTES && !ReadCompletes(reading, |file.value|))) then LoadFailed
    else LoadFile(file, device, host)
  }

  datatype SaveIo = SaveIo(mkdir: bool, open: bool, writes: seq<IoEvent>, fsync: bool, rename: bool)

  predicate SaveCompletes(io: SaveIo, size: nat) {
    io.mkdir && io.open && WriteCompletes(io.writes, size) && io.fsync && io.rename
  }

  function SavedFile(s: ManagedState, device: MacAddress, host: string, file: Option<string>, io: SaveIo): Option<string> {
    if SaveRefusal(s, device, host).Some? then file
    else
      var text := StateText(s, ParseMac(s.mac).value);
      if SaveCompletes(io, |text|) then Some(text) else file
  }

  datatype SaveStatus = Saved | Refused(why: Ignored) | IoFailed

  class SessionStateRepository {
    const deviceMac: MacAddress
    const controllerHost: string
    var file: Option<string>
    var temporary: Option<string>

    constructor (deviceMac: MacAddress, controllerHost: string, file: Option<string>)
      ensures this.deviceMac == deviceMac && this.controllerHost == controllerHost
      ensures this.file == file && temporary == None
    {
      this.deviceMac, this.controllerHost, this.file, this.temporary := deviceMac, controllerHost, file, None;
    }

    // write_all, into the temporary file
    method WriteAll(data: string, writes: seq<IoEvent>) returns (ok: bool)
      requires temporary == Some("")
      modifies this`temporary
      ensures ok == WriteCompletes(writes, |data|)
      ensures temporary.Some? && temporary.value <= data && (ok ==> temporary.value == data)
    {
      var offset, calls := 0, 0;
      while offset < |data|
        invariant 0 <= offset <= |data| && 0 <= calls <= |writes|
        invariant temporary == Some(data[..offset])
        invariant WriteCompletes(writes[calls..], |data| - offset) == WriteCompletes(writes, |data|)
        decreases |writes| - calls, |data| - offset
      {
        if calls == |writes| {
          temporary := Some(data);
          return true;
        }
        var event := writes[calls];
        assert writes[calls..][0] == event && writes[calls..][1..] == writes[calls + 1..];
        calls := calls + 1;
        if event.Interrupted? {
          continue;
        }
        if event.Failed? || event.bytes == 0 {
          return false;
        }
        var written := Min(event.bytes, |data| - offset);
        temporary := Some(data[..offset + written]);
        offset := offset + written;
      }
      return true;
    }

    method Save(s: ManagedState, io: SaveIo) returns (status: SaveStatus)
      modifies this`file, this`temporary
      ensures file == SavedFile(s, deviceMac, controllerHost, old(file), io)
      ensures status.Refused? <==> SaveRefusal(s, deviceMac, controllerHost).Some?
      ensures status.Refused? ==> SaveRefusal(s, deviceMac, controllerHost) == Some(status.why) && temporary == old(temporary)
      ensures status.Saved? ==> file == Some(StateText(s, ParseMac(s.mac).value)) && temporary == None
      ensures status.IoFailed? ==> file == old(file)
    {
      var refusal := SaveRefusal(s, deviceMac, controllerHost);
      if refusal.Some? {
        return Refused(refusal.value);
      }
      if !io.mkdir || !io.open {
        return IoFailed;
      }
      temporary := Some("");
      var data := StateText(s, ParseMac(s.mac).value);
      var written := WriteAll(data, io.writes);
      if !written || !io.fsync || !io.rename {
        return IoFailed;
      }
      file, temporary := temporary, None;
      return Saved;
    }

    // read_file_limited
    method ReadFile(reading: seq<IoEvent>) returns (data: Option<string>)
      requires file.Some? && |file.value| <= MAX_STATE_FILE_BYTES
      ensures data == if ReadCompletes(reading, |file.value|) then file else None
    {
      var content := file.value;
      var read, calls := "", 0;
      while true
        invariant 0 <= calls <= |reading| && |read| <= |content| && read == content[..|read|]
        invariant ReadCompletes(reading[calls..], |content| - |read|) == ReadCompletes(reading, |content|)
        decreases |reading| - calls, |content| - |read|
      {
        var asked := READ_BUFFER;
        if calls < |reading| {
          var event := reading[calls];
          assert reading[calls..][0] == event && reading[calls..][1..] == reading[calls + 1..];
          calls := calls + 1;
          if event.Interrupted? {
            continue;
          }
          if event.Failed? {
            return None;
          }
          asked := event.bytes;
        }
        var count := ReadCount(asked, |content| - |read|);
        if count == 0 {
          assert content[..|content|] == content;
          return Some(read);
        }
        read := content[..|read| + count];
      }
    }

    method Load(opens: bool, reading: seq<IoEvent>) returns (result: LoadResult)
      ensures result == LoadOf(file, deviceMac, controllerHost, opens, reading)
    {
      hide LoadMembers, ReadObject;
      if file.None? {
        return NotFound(None);
      }
      if !opens || |file.value| > MAX_STATE_FILE_BYTES {
        return LoadFailed;
      }
      var data := ReadFile(reading);
      if data.None? {
        return LoadFailed;
      }
      var members := ReadObject(data.value);
      if members.None? {
        return NotFound(Some(NotAnObject));
      }
      return LoadMembers(members.value, deviceMac, controllerHost);
    }

    method Clear(unlinks: bool) returns (ok: bool)
      modifies this`file
      ensures ok == (old(file).None? || unlinks)
      ensures file == if ok then None else old(file)
    {
      if file.None? {
        return true;
      }
      if unlinks {
        file := None;
      }
      return unlinks;
    }
  }

  /* ---- what comes back is what was saved ---- */

  lemma {:induction false} CStringWhole(s: string)
    ensures CString(s) == s <==> Free(s, '\0')
  {
    if s != "" {
      if s[0] != '\0' {
        CStringWhole(s[1..]);
        assert s == [s[0]] + s[1..];
        assert CString(s)[1..] == CString(s[1..]);
      }
    }
  }

  lemma {:induction false} LookupAt(fields: seq<(Field, Value)>, i: nat)
    requires i < |fields| && forall j :: i < j < |fields| ==> fields[j].0 != fields[i].0
    ensures Lookup(Members(fields), Name(fields[i].0)) == fields[i].1
  {
    var n := |fields| - 1;
    NamesDistinct(fields[n].0, fields[i].0);
    hide Name;
    if i < n {
      assert Members(fields)[..n] == Members(fields[..n]);
      LookupAt(fields[..n], i);
    }
  }

  /** Looking the written fields up again. */
  lemma LooksUp(s: ManagedState, mac: MacAddress, i: nat)
    requires i < 10
    ensures var f := Fields(s, mac)[i]; Lookup(Members(Fields(s, mac)), Name(f.0)) == f.1
  {
    hide Name, Lookup;
    LookupAt(Fields(s, mac), i);
  }

  /** What of a state survives the file format: addresses are normalized, C strings end at NUL,
      JSON integers saturate. */
  ghost predicate Representable(s: ManagedState, device: MacAddress) {
    && s.mac == Normalized(device)
    && Free(s.controllerHost, '\0') && Free(s.controllerId, '\0') && Free(s.siteId, '\0') && Free(s.username, '\0')
    && s.updatedAt < TWO_63
  }

  function MembersOf(s: ManagedState, mac: MacAddress): seq<Member> { Members(Fields(s, mac)) }

  lemma AllFields(s: ManagedState, mac: MacAddress)
    ensures var m := MembersOf(s, mac);
            && Lookup(m, Name(ConfigVersion)) == OptionalInt(s.configVersion)
            && Lookup(m, Name(ControllerHost)) == JString(s.controllerHost)
            && Lookup(m, Name(ControllerId)) == JString(s.controllerId)
            && Lookup(m, Name(MacText)) == JString(Normalized(mac))
            && Lookup(m, Name(ManagePort)) == JInt(s.managePort)
            && Lookup(m, Name(SequenceId)) == OptionalInt(s.sequenceId)
            && Lookup(m, Name(SiteId)) == JString(s.siteId)
            && Lookup(m, Name(UpdatedAt)) == JInt(s.updatedAt)
            && Lookup(m, Name(Username)) == JString(s.username)
            && Lookup(m, Name(Version)) == JInt(STATE_VERSION)
  {
    hide Name, Lookup, Normalized, Members;
    for i := 0 to 10
      invariant forall j :: 0 <= j < i ==>
                  var f := Fields(s, mac)[j]; Lookup(Members(Fields(s, mac)), Name(f.0)) == f.1
    {
      LooksUp(s, mac, i);
    }
    var fs := Fields(s, mac);
    assert fs[0].0 == ConfigVersion && fs[1].0 == ControllerHost && fs[2].0 == ControllerId && fs[3].0 == MacText
           && fs[4].0 == ManagePort && fs[5].0 == SequenceId && fs[6].0 == SiteId && fs[7].0 == UpdatedAt
           && fs[8].0 == Username && fs[9].0 == Version;
  }

  /** Reading the written members gives back the state exactly when it is representable. */
  lemma MembersReadBack(s: ManagedState, device: MacAddress, host: string)
    requires SaveRefusal(s, device, host).None?
    ensures LoadMembers(MembersOf(s, device), device, host) == Loaded(s) <==> Representable(s, device)
  {
    AllFields(s, device);
    MacRoundTrip(device);
    CStringWhole(s.controllerHost);
    CStringWhole(s.controllerId);
    CStringWhole(s.siteId);
    CStringWhole(s.username);
    NormalizedNulFree(device);
    hide Name, Lookup, Normalized, CString, ParseMac, MembersOf;
  }

  lemma {:induction false} TailNulFree(bytes: seq<uint8>)
    ensures Free(Tail(bytes, ':', false), '\0')
  {
    if bytes != [] {
      TailNulFree(bytes[1..]);
      assert Free(Digits(bytes[0], false), '\0');
      hide Digits;
    }
  }

  lemma NormalizedNulFree(mac: MacAddress)
    ensures CString(Normalized(mac)) == Normalized(mac)
  {
    TailNulFree(mac[1..]);
    assert Free(Digits(mac[0], false), '\0');
    hide Digits;
    CStringWhole(Normalized(mac));
  }

  /** What a successful save writes, load gives back unchanged exactly when the state is
      representable and the text within the size limit. */
  lemma LoadAfterSave(s: ManagedState, device: MacAddress, host: string, file: Option<string>, io: SaveIo)
    requires SaveRefusal(s, device, host).None? && SaveCompletes(io, |StateText(s, device)|)
    ensures LoadFile(SavedFile(s, device, host, file, io), device, host) == Loaded(s)
            <==> Representable(s, device) && |StateText(s, device)| <= MAX_STATE_FILE_BYTES
  {
    var mac := ParseMac(s.mac).value;
    NormalizedInjective(mac, device);
    MembersReadBack(s, device, host);
    ObjectRoundTrip(MembersOf(s, device));
    hide LoadMembers, Fields, Members, WriteObject, ReadObject, SaveRefusal, Representable, SaveCompletes;
  }

  /** A save that does not complete leaves the previous state in place. */
  lemma SaveIsAtomic(s: ManagedState, device: MacAddress, host: string, file: Option<string>, io: SaveIo)
    ensures var after := SavedFile(s, device, host, file, io);
            after == file || (ParseMac(s.mac) == Some(device) && after == Some(StateText(s, device)))
  {
    if SaveRefusal(s, device, host).None? { NormalizedInjective(ParseMac(s.mac).value, device); }
    hide StateText;
  }

  /* ---- size ---- */

  // a bound on the line of one member
  function LineBound(f: (Field, Value)): nat { 107 + |ValueText(f.1)| }

  function LinesBound(fields: seq<(Field, Value)>, i: nat): nat
    requires i <= |fields|
    decreases |fields| - i
  {
    if i == |fields| then 0 else LineBound(fields[i]) + LinesBound(fields, i + 1)
  }

  lemma {:induction false} EscapeLength(s: string)
    ensures |s| <= |Escape(s)| <= 6 * |s|
  {
    if s != "" { EscapeLength(s[1..]); }
  }

  lemma NameLength(f: Field)
    ensures |Quoted(Name(f))| <= 96
  {
    EscapeLength(Name(f));
    assert |Name(f)| <= 15;
  }

  lemma {:induction false} MembersLength(fields: seq<(Field, Value)>, i: nat)
    requires i < |fields|
    ensures |WriteMembers(Members(fields)[i..])| <= LinesBound(fields, i)
    decreases |fields| - i
  {
    NameLength(fields[i].0);
    hide Quoted, ValueText, Name;
    var members := Members(fields)[i..];
    assert members[0] == Members(fields)[i];
    if i + 1 < |fields| {
      assert members[1..] == Members(fields)[i + 1..];
      MembersLength(fields, i + 1);
    }
  }

  lemma IntLength(n: int)
    requires -TWO_63 <= n < TWO_64
    ensures |ValueText(JInt(n))| <= 21
  {
    assert Pow10(5) == 100_000;
    assert Pow10(10) == 10_000_000_000;
    assert Pow10(15) == 1_000_000_000_000_000;
    assert Pow10(20) == 100_000_000_000_000_000_000;
    DecimalNatLength(if n < 0 then -n else n, 20);
  }

  lemma OptionalIntLength(v: Option<uint32>)
    ensures |ValueText(OptionalInt(v))| <= 21
  {
    if v.Some? { IntLength(v.value); } else { assert |ValueText(JNull)| == 4; }
  }

  /** The room the identity strings take once escaped. */
  function IdentitySize(s: ManagedState): nat {
    |Escape(s.controllerHost)| + |Escape(s.controllerId)| + |Escape(s.siteId)| + |Escape(s.username)|
  }

  const IDENTITY_LIMIT: nat := 62 * 1024

  lemma NormalizedLength(mac: MacAddress)
    ensures |Normalized(mac)| == 17
  {
    TailLength(mac[1..]);
  }

  lemma {:induction false} TailLength(bytes: seq<uint8>)
    ensures |Tail(bytes, ':', false)| == 3 * |bytes|
  {
    if bytes != [] { TailLength(bytes[1..]); }
  }

  /** States whose strings stay below a fixed bound never outgrow the file. */
  lemma SmallStatesFit(s: ManagedState, mac: MacAddress)
    requires IdentitySize(s) <= IDENTITY_LIMIT
    ensures |StateText(s, mac)| <= MAX_STATE_FILE_BYTES
  {
    var fs := Fields(s, mac);
    OptionalIntLength(s.configVersion);
    OptionalIntLength(s.sequenceId);
    IntLength(s.managePort);
    IntLength(s.updatedAt);
    IntLength(STATE_VERSION);
    NormalizedLength(mac);
    EscapeLength(Normalized(mac));
    StringLength(s.controllerHost);
    StringLength(s.controllerId);
    StringLength(s.siteId);
    StringLength(s.username);
    StringLength(Normalized(mac));
    MembersLength(fs, 0);
    assert Members(fs)[0..] == Members(fs);
    hide ValueText, Members, Escape, Normalized, WriteMembers;
    TotalOfTen(fs);
  }

  lemma StringLength(s: string)
    ensures |ValueText(JString(s))| == 2 + |Escape(s)|
  {
  }

  lemma TotalOfTen(fs: seq<(Field, Value)>)
    requires |fs| == 10
    ensures LinesBound(fs, 0) == 1070 + |ValueText(fs[0].1)| + |ValueText(fs[1].1)| + |ValueText(fs[2].1)| + |ValueText(fs[3].1)|
            + |ValueText(fs[4].1)| + |ValueText(fs[5].1)| + |ValueText(fs[6].1)| + |ValueText(fs[7].1)| + |ValueText(fs[8].1)|
            + |ValueText(fs[9].1)|
  {
    hide ValueText;
    assert LinesBound(fs, 10) == 0;
    forall i | 0 <= i < 10 ensures LinesBound(fs, i) == 107 + |ValueText(fs[i].1)| + LinesBound(fs, i + 1) {}
    assert LinesBound(fs, 9) == 107 + |ValueText(fs[9].1)|;
    assert LinesBound(fs, 8) == 214 + |ValueText(fs[8].1)| + |ValueText(fs[9].1)|;
    var five := LinesBound(fs, 5);
    assert five == 535 + |ValueText(fs[5].1)| + |ValueText(fs[6].1)| + |ValueText(fs[7].1)| + |ValueText(fs[8].1)| + |ValueText(fs[9].1)|;
  }
}
