/** The meaning of UCI commands: a store of packages, sections and options with a staged and a
    committed copy, and what a list of commands does to it. Setting an option of a section that
    does not exist has no effect, and a command without effect does not stop the batch. */
module UciStore {
  import opened Wrappers
  import opened UciText

  datatype Section = Section(kind: string, options: map<string, string>)

  datatype Key = Key(package: string, section: string)

  type Tree = map<Key, Section>

  datatype Store = Store(staged: Tree, committed: Tree)

  function Lookup(t: Tree, k: Key): Option<Section> {
    if k in t then Some(t[k]) else None
  }

  function Put(t: Tree, k: Key, section: Option<Section>): Tree {
    if section.Some? then t[k := section.value] else t - {k}
  }

  predicate Touches(c: Command, k: Key) {
    !c.Commit? && c.package == k.package && c.section == k.section
  }

  /** What a command makes of the section it names. */
  function Effect(c: Command, before: Option<Section>): Option<Section> {
    match c
    case Delete(_, _) => None
    case AddSection(_, _, kind) => Some(Section(kind, if before.Some? then before.value.options else map[]))
    case SetOption(_, _, option, value) =>
      if before.Some? then Some(Section(before.value.kind, before.value.options[option := value])) else None
    case Commit(_) => before
  }

  function Execute(c: Command, s: Store): Store {
    if c.Commit? then
      Store(s.staged,
            (map k | k in s.committed && k.package != c.package :: s.committed[k])
            + (map k | k in s.staged && k.package == c.package :: s.staged[k]))
    else
      var k := Key(c.package, c.section);
      Store(Put(s.staged, k, Effect(c, Lookup(s.staged, k))), s.committed)
  }

  function Run(commands: seq<Command>, s: Store): Store {
    if commands == [] then s else Run(commands[1..], Execute(commands[0], s))
  }

  function Step(c: Command, k: Key, before: Option<Section>): Option<Section> {
    if Touches(c, k) then Effect(c, before) else before
  }

  /** The same run seen from one section. */
  function SectionAfter(commands: seq<Command>, k: Key, before: Option<Section>): Option<Section> {
    if commands == [] then before
    else SectionAfter(commands[1..], k, Step(commands[0], k, before))
  }

  lemma {:induction false} RunSection(commands: seq<Command>, k: Key, s: Store)
    ensures Lookup(Run(commands, s).staged, k) == SectionAfter(commands, k, Lookup(s.staged, k))
  {
    if commands != [] { RunSection(commands[1..], k, Execute(commands[0], s)); }
  }

  lemma {:induction false} SectionAfterAppend(a: seq<Command>, b: seq<Command>, k: Key, before: Option<Section>)
    ensures SectionAfter(a + b, k, before) == SectionAfter(b, k, SectionAfter(a, k, before))
  {
    if a == [] {
      assert a + b == b;
    } else {
      assert (a + b)[1..] == a[1..] + b;
      SectionAfterAppend(a[1..], b, k, Step(a[0], k, before));
    }
  }

  lemma SectionAfterOne(c: Command, k: Key, before: Option<Section>)
    ensures SectionAfter([c], k, before) == Step(c, k, before)
  {
    assert [c][1..] == [];
  }

  lemma SectionAfterTwo(a: Command, b: Command, k: Key, before: Option<Section>)
    ensures SectionAfter([a, b], k, before) == Step(b, k, Step(a, k, before))
  {
    assert [a, b][1..] == [b];
    SectionAfterOne(b, k, Step(a, k, before));
  }

  ghost predicate Untouched(commands: seq<Command>, k: Key) {
    forall c :: c in commands ==> !Touches(c, k)
  }

  lemma {:induction false} SectionAfterUntouched(commands: seq<Command>, k: Key, before: Option<Section>)
    requires Untouched(commands, k)
    ensures SectionAfter(commands, k, before) == before
  {
    if commands != [] { SectionAfterUntouched(commands[1..], k, before); }
  }

  ghost predicate Deleted(commands: seq<Command>, k: Key) { Delete(k.package, k.section) in commands }

  /** Once a run deletes a section, what the section was before no longer matters. */
  lemma {:induction false} DeleteForgets(commands: seq<Command>, k: Key, a: Option<Section>, b: Option<Section>)
    requires Deleted(commands, k)
    ensures SectionAfter(commands, k, a) == SectionAfter(commands, k, b)
  {
    var c := commands[0];
    if c != Delete(k.package, k.section) {
      DeleteForgets(commands[1..], k, Step(c, k, a), Step(c, k, b));
    }
  }

  function Own(c: Command, k: Key): map<string, string> {
    if c.SetOption? && Touches(c, k) then map[c.option := c.value] else map[]
  }

  /** The last value a run assigns to each option of a section. */
  function Assigned(commands: seq<Command>, k: Key): map<string, string> {
    if commands == [] then map[] else Own(commands[0], k) + Assigned(commands[1..], k)
  }

  /** A section, where it exists, with some options overridden. */
  function Over(section: Option<Section>, options: map<string, string>): Option<Section> {
    if section.None? then None else Some(Section(section.value.kind, section.value.options + options))
  }

  lemma OverTwice(section: Option<Section>, a: map<string, string>, b: map<string, string>)
    ensures Over(Over(section, a), b) == Over(section, a + b)
    ensures Over(section, map[]) == section
  {
    if section.Some? {
      assert (section.value.options + a) + b == section.value.options + (a + b);
      assert section.value.options + map[] == section.value.options;
    }
  }

  ghost predicate OnlySets(commands: seq<Command>, k: Key) {
    forall c :: c in commands && Touches(c, k) ==> c.SetOption?
  }

  lemma {:induction false} SetsOverride(commands: seq<Command>, k: Key, before: Option<Section>)
    requires OnlySets(commands, k)
    ensures SectionAfter(commands, k, before) == Over(before, Assigned(commands, k))
  {
    if commands == [] {
      OverTwice(before, map[], map[]);
    } else {
      var c := commands[0];
      var next := Step(c, k, before);
      OverTwice(before, Own(c, k), Assigned(commands[1..], k));
      assert next == Over(before, Own(c, k)) by {
        if Touches(c, k) && before.Some? {
          assert before.value.options[c.option := c.value] == before.value.options + Own(c, k);
        }
      }
      SetsOverride(commands[1..], k, next);
    }
  }

  lemma MapPlusAssoc<K, V>(a: map<K, V>, b: map<K, V>, c: map<K, V>)
    ensures (a + b) + c == a + (b + c)
  {
  }

  lemma {:induction false} AssignedAppend(a: seq<Command>, b: seq<Command>, k: Key)
    ensures Assigned(a + b, k) == Assigned(a, k) + Assigned(b, k)
  {
    if a == [] {
      assert a + b == b;
    } else {
      assert (a + b)[1..] == a[1..] + b;
      AssignedAppend(a[1..], b, k);
      MapPlusAssoc(Own(a[0], k), Assigned(a[1..], k), Assigned(b, k));
    }
  }

  /** Every section the run creates is also deleted by it. */
  ghost predicate CreatesDeleted(commands: seq<Command>) {
    forall c :: c in commands && c.AddSection? ==> Deleted(commands, Key(c.package, c.section))
  }

  lemma SectionReplay(commands: seq<Command>, k: Key, before: Option<Section>)
    requires CreatesDeleted(commands)
    ensures SectionAfter(commands, k, SectionAfter(commands, k, before)) == SectionAfter(commands, k, before)
  {
    var once := SectionAfter(commands, k, before);
    if Deleted(commands, k) {
      DeleteForgets(commands, k, once, before);
    } else {
      forall c | c in commands && Touches(c, k)
        ensures c.SetOption?
      {
        assert c.Delete? ==> c == Delete(k.package, k.section);
      }
      var m := Assigned(commands, k);
      SetsOverride(commands, k, before);
      SetsOverride(commands, k, once);
      OverTwice(before, m, m);
      assert m + m == m;
    }
  }

  /* ---- committing ---- */

  predicate Concerns(c: Command, package: string) { c.package == package }

  /** The last command about the package is its commit. */
  ghost predicate Settles(commands: seq<Command>, package: string) {
    commands != [] &&
    var last := commands[|commands| - 1];
    last == Commit(package) || (!Concerns(last, package) && Settles(commands[..|commands| - 1], package))
  }

  ghost predicate InSync(s: Store, package: string) {
    forall k: Key :: k.package == package ==> Lookup(s.committed, k) == Lookup(s.staged, k)
  }

  lemma {:induction false} RunSnoc(commands: seq<Command>, c: Command, s: Store)
    ensures Run(commands + [c], s) == Execute(c, Run(commands, s))
  {
    if commands == [] {
      assert (commands + [c])[1..] == [];
    } else {
      assert (commands + [c])[1..] == commands[1..] + [c];
      RunSnoc(commands[1..], c, Execute(commands[0], s));
    }
  }

  lemma {:induction false} SettledInSync(commands: seq<Command>, package: string, s: Store)
    requires Settles(commands, package)
    ensures InSync(Run(commands, s), package)
  {
    var init, last := commands[..|commands| - 1], commands[|commands| - 1];
    assert commands == init + [last];
    RunSnoc(init, last, s);
    if last != Commit(package) {
      SettledInSync(init, package, s);
      forall k: Key | k.package == package
        ensures Lookup(Run(commands, s).committed, k) == Lookup(Run(commands, s).staged, k)
      {
        assert Lookup(Run(init, s).committed, k) == Lookup(Run(init, s).staged, k);
      }
    }
  }

  lemma {:induction false} UncommittedKept(commands: seq<Command>, package: string, s: Store, k: Key)
    requires Commit(package) !in commands && k.package == package
    ensures Lookup(Run(commands, s).committed, k) == Lookup(s.committed, k)
  {
    if commands != [] { UncommittedKept(commands[1..], package, Execute(commands[0], s), k); }
  }

  lemma TreesEqual(a: Tree, b: Tree)
    requires forall k :: Lookup(a, k) == Lookup(b, k)
    ensures a == b
  {
    forall k ensures k in a <==> k in b {
      assert Lookup(a, k) == Lookup(b, k);
    }
    forall k | k in a ensures a[k] == b[k] {
      assert Lookup(a, k) == Lookup(b, k);
    }
  }

  /** A batch that deletes what it creates and commits what it changes has, run twice, the
      effect of one run, on the staged and on the committed copy. */
  lemma RunReplay(commands: seq<Command>, s: Store)
    requires CreatesDeleted(commands)
    requires forall p :: Commit(p) in commands ==> Settles(commands, p)
    ensures Run(commands, Run(commands, s)) == Run(commands, s)
  {
    var once := Run(commands, s);
    var twice := Run(commands, once);
    forall k ensures Lookup(twice.staged, k) == Lookup(once.staged, k) {
      RunSection(commands, k, once);
      RunSection(commands, k, s);
      SectionReplay(commands, k, Lookup(s.staged, k));
    }
    forall k: Key ensures Lookup(twice.committed, k) == Lookup(once.committed, k) {
      if Commit(k.package) in commands {
        SettledInSync(commands, k.package, s);
        SettledInSync(commands, k.package, once);
        assert Lookup(twice.staged, k) == Lookup(once.staged, k);
      } else {
        UncommittedKept(commands, k.package, once, k);
      }
    }
    TreesEqual(twice.staged, once.staged);
    TreesEqual(twice.committed, once.committed);
  }

  lemma SectionRetry(commands: seq<Command>, n: nat, k: Key, before: Option<Section>)
    requires n <= |commands| && CreatesDeleted(commands)
    ensures SectionAfter(commands, k, SectionAfter(commands[..n], k, before)) == SectionAfter(commands, k, before)
  {
    var part, rest := commands[..n], commands[n..];
    var begun := SectionAfter(part, k, before);
    if Deleted(commands, k) {
      DeleteForgets(commands, k, begun, before);
    } else {
      forall c | c in commands && Touches(c, k)
        ensures c.SetOption?
      {
        assert c.Delete? ==> c == Delete(k.package, k.section);
      }
      assert forall c :: c in part ==> c in commands;
      SetsOverride(part, k, before);
      SetsOverride(commands, k, before);
      SetsOverride(commands, k, begun);
      assert commands == part + rest;
      AssignedAppend(part, rest, k);
      var m, all := Assigned(part, k), Assigned(commands, k);
      OverTwice(before, m, all);
      assert m + all == all;
    }
  }

  /** A batch of that kind, run in whole after any part of it, has the effect of the batch alone. */
  lemma RunRetry(commands: seq<Command>, n: nat, s: Store)
    requires n <= |commands| && CreatesDeleted(commands)
    requires forall p :: Commit(p) in commands ==> Settles(commands, p)
    ensures Run(commands, Run(commands[..n], s)) == Run(commands, s)
  {
    var begun := Run(commands[..n], s);
    var (retried, once) := (Run(commands, begun), Run(commands, s));
    forall k ensures Lookup(retried.staged, k) == Lookup(once.staged, k) {
      RunSection(commands[..n], k, s);
      RunSection(commands, k, begun);
      RunSection(commands, k, s);
      SectionRetry(commands, n, k, Lookup(s.staged, k));
    }
    forall k: Key ensures Lookup(retried.committed, k) == Lookup(once.committed, k) {
      if Commit(k.package) in commands {
        SettledInSync(commands, k.package, s);
        SettledInSync(commands, k.package, begun);
        assert Lookup(retried.staged, k) == Lookup(once.staged, k);
      } else {
        UncommittedKept(commands, k.package, begun, k);
        UncommittedKept(commands[..n], k.package, s, k);
        UncommittedKept(commands, k.package, s, k);
      }
    }
    TreesEqual(retried.staged, once.staged);
    TreesEqual(retried.committed, once.committed);
  }
}
