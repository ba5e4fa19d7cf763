/**
 The agent registry: built-in definitions, overridden or extended by the files of
 a directory, and the map in memory that `save` and `delete` keep up with them.
 */
module Registry {
  import opened Common

  datatype Tier = BuiltIn | UserDefined

  datatype Definition = Definition(id: string, tier: Tier, details: string)

  /** What reading a file gives: a definition, or text that is none. */
  datatype Content = Toml(definition: Definition) | Unreadable

  datatype RegistryError = NoUserDir | InvalidId | NotFound | Io

  const TOML := ".toml"
  const EXAMPLE := ".example.toml"

  // ------------------------------------------------------------------- names

  predicate EndsWith(s: string, suffix: string) {
    |suffix| <= |s| && s[|s| - |suffix|..] == suffix
  }

  /** A name with a stem and the extension `toml`, not one of the example files. */
  predicate Loadable(name: string) {
    EndsWith(name, TOML) && |name| > |TOML| && !EndsWith(name, EXAMPLE)
  }

  predicate IsSafeId(id: string) {
    id != [] && forall c | c in id :: 'a' <= c <= 'z' || 'A' <= c <= 'Z' || '0' <= c <= '9' || c == '-' || c == '_'
  }

  function FileName(id: string): string {
    id + TOML
  }

  /** `save` never writes a file that the loader would skip. */
  lemma SavedFilesAreLoaded(id: string)
    requires IsSafeId(id)
    ensures Loadable(FileName(id))
  {
    var name := FileName(id);
    assert name[|name| - |TOML|..] == TOML;
    var k := |name| - |EXAMPLE|;
    if k >= 0 {
      assert name[k] == id[k] && id[k] in id;
      assert name[k..][0] != EXAMPLE[0];
    }
  }

  /** Letters, digits, hyphen and underscore of ASCII, at least one. */
  lemma SafeIdIff(id: string)
    ensures IsSafeId(id)
            <==> |id| > 0 && forall i | 0 <= i < |id| ::
                   var n := id[i] as int;
                   48 <= n <= 57 || 65 <= n <= 90 || 97 <= n <= 122 || n == 45 || n == 95
  {
    if IsSafeId(id) {
      forall i | 0 <= i < |id|
        ensures var n := id[i] as int; 48 <= n <= 57 || 65 <= n <= 90 || 97 <= n <= 122 || n == 45 || n == 95
      {
        assert id[i] in id;
      }
    }
  }

  /** So the file of a safe identifier is in the directory itself: no separator, no parent, no hidden name. */
  lemma SafeNamesStayInside(id: string)
    requires IsSafeId(id)
    ensures '/' !in FileName(id) && '\\' !in FileName(id) && FileName(id)[0] != '.'
    ensures forall i | 0 <= i < |FileName(id)| :: FileName(id)[i] == '.' <==> i == |id|
  {
    forall i | 0 <= i < |id| ensures id[i] != '/' && id[i] != '\\' && id[i] != '.' {
      assert id[i] in id;
    }
    forall i | 0 <= i < |FileName(id)| ensures FileName(id)[i] == if i < |id| then id[i] else TOML[i - |id|] {
    }
  }

  /** Loaded are exactly the names that end in `.toml` after something, and not in `.example.toml`. */
  lemma LoadableIff(name: string)
    ensures Loadable(name)
            <==> (exists stem :: stem != "" && name == stem + ".toml") && !exists stem :: name == stem + ".example.toml"
  {
    forall suffix ensures EndsWith(name, suffix) <==> exists stem :: name == stem + suffix {
      if EndsWith(name, suffix) {
        assert name == name[..|name| - |suffix|] + suffix;
      }
    }
    if Loadable(name) {
      assert name == name[..|name| - 5] + ".toml";
    }
  }

  lemma FileNameInjective(a: string, b: string)
    requires FileName(a) == FileName(b)
    ensures a == b
  {
    assert FileName(a)[..|a|] == a && FileName(b)[..|b|] == b;
  }

  // ----------------------------------------------------------------- loading

  type Agents = map<string, Definition>
  type Files = map<string, Content>

  predicate IsAgentFile(files: Files, name: string) {
    name in files && Loadable(name) && files[name].Toml?
  }

  function AsUser(d: Definition): Definition {
    d.(tier := UserDefined)
  }

  /** One directory entry: an agent file replaces or adds its definition, anything else is skipped. */
  function LoadEntry(agents: Agents, files: Files, name: string): Agents {
    if IsAgentFile(files, name) then agents[files[name].definition.id := AsUser(files[name].definition)] else agents
  }

  function LoadEntries(agents: Agents, files: Files, names: seq<string>): Agents {
    if names == [] then agents else LoadEntry(LoadEntries(agents, files, Init(names)), files, Last(names))
  }

  /** `names` lists the files of the directory, each once, in some order. */
  ghost predicate Lists(names: seq<string>, files: Files) {
    (forall n :: n in names <==> n in files) && forall i, j | 0 <= i < j < |names| :: names[i] != names[j]
  }

  /** Every agent file is named after the id inside it. */
  ghost predicate NamedById(files: Files) {
    forall n | IsAgentFile(files, n) :: n == FileName(files[n].definition.id)
  }

  /** No two agent files define one id differently. */
  ghost predicate IdsAgree(files: Files) {
    forall m, n | IsAgentFile(files, m) && IsAgentFile(files, n) && files[m].definition.id == files[n].definition.id ::
      AsUser(files[m].definition) == AsUser(files[n].definition)
  }

  /** Some agent file among `names` defines `id` as `d`. */
  ghost predicate Defined(files: Files, names: seq<string>, id: string, d: Definition) {
    exists n | n in names :: IsAgentFile(files, n) && files[n].definition.id == id && AsUser(files[n].definition) == d
  }

  /** Some agent file among `names` defines `id`. */
  ghost predicate Named(files: Files, names: seq<string>, id: string) {
    exists n | n in names :: IsAgentFile(files, n) && files[n].definition.id == id
  }

  lemma DefinedInLonger(files: Files, names: seq<string>, id: string)
    requires names != []
    ensures var last := Last(names);
            Named(files, names, id) <==>
              Named(files, Init(names), id) || (IsAgentFile(files, last) && files[last].definition.id == id)
    ensures var last := Last(names);
            forall d :: Defined(files, names, id, d) <==>
              || Defined(files, Init(names), id, d)
              || (IsAgentFile(files, last) && files[last].definition.id == id && AsUser(files[last].definition) == d)
  {
    assert names == Init(names) + [Last(names)];
  }

  /** Loading gives each id a definition some file holds, or leaves it as it was when no file defines it. */
  lemma {:induction false} LoadedFrom(agents: Agents, files: Files, names: seq<string>, id: string)
    ensures var loaded := LoadEntries(agents, files, names);
            if Named(files, names, id) then id in loaded && Defined(files, names, id, loaded[id])
            else (id in loaded <==> id in agents) && (id in agents ==> loaded[id] == agents[id])
  {
    if names != [] {
      LoadedFrom(agents, files, Init(names), id);
      DefinedInLonger(files, names, id);
    }
  }

  lemma {:induction false} ListingOf(members: set<string>) returns (names: seq<string>)
    ensures (forall n :: n in names <==> n in members) && forall i, j | 0 <= i < j < |names| :: names[i] != names[j]
  {
    if members == {} {
      names := [];
    } else {
      var n :| n in members;
      var rest := ListingOf(members - {n});
      names := rest + [n];
    }
  }

  /** The directory gives the same agents in whatever order its entries are listed. */
  ghost predicate LoadOrderIrrelevant(builtins: Agents, files: Files) {
    forall a, b | Lists(a, files) && Lists(b, files) ::
      LoadEntries(builtins, files, a) == LoadEntries(builtins, files, b)
  }

  /**
   Loading is well defined, whatever order the directory lists its files in, if and only
   if no two files define one id differently.
   */
  lemma LoadOrderIrrelevantIff(builtins: Agents, files: Files)
    ensures LoadOrderIrrelevant(builtins, files) <==> IdsAgree(files)
  {
    if IdsAgree(files) {
      forall a, b | Lists(a, files) && Lists(b, files)
        ensures LoadEntries(builtins, files, a) == LoadEntries(builtins, files, b)
      {
        SameLoad(builtins, files, a, b);
      }
    } else {
      var m, n :| IsAgentFile(files, m) && IsAgentFile(files, n) && files[m].definition.id == files[n].definition.id &&
                  AsUser(files[m].definition) != AsUser(files[n].definition);
      var a := EndingWith(files, m);
      var b := EndingWith(files, n);
      var id := files[m].definition.id;
      assert LoadEntries(builtins, files, a)[id] == AsUser(files[m].definition);
      assert LoadEntries(builtins, files, b)[id] == AsUser(files[n].definition);
    }
  }

  lemma EndingWith(files: Files, n: string) returns (names: seq<string>)
    requires n in files
    ensures names != [] && Lists(names, files) && Last(names) == n
  {
    var rest := ListingOf(files.Keys - {n});
    names := rest + [n];
  }

  lemma SameLoad(builtins: Agents, files: Files, a: seq<string>, b: seq<string>)
    requires IdsAgree(files) && Lists(a, files) && Lists(b, files)
    ensures LoadEntries(builtins, files, a) == LoadEntries(builtins, files, b)
  {
    var p, q := LoadEntries(builtins, files, a), LoadEntries(builtins, files, b);
    forall id ensures (id in p <==> id in q) && (id in p ==> p[id] == q[id]) {
      LoadedFrom(builtins, files, a, id);
      LoadedFrom(builtins, files, b, id);
      forall d ensures Defined(files, a, id, d) <==> Defined(files, b, id, d) {
      }
    }
  }

  // ----------------------------------------------------------- save and delete

  /** The ids the agent files define. */
  ghost function UserIds(files: Files): set<string> {
    set n | n in files && IsAgentFile(files, n) :: files[n].definition.id
  }

  /** What a fresh registry over the directory holds, when files are named by their ids. */
  ghost function Reload(builtins: Agents, files: Files): Agents
    requires NamedById(files)
  {
    map id | id in builtins.Keys + UserIds(files) ::
      if id in UserIds(files) then AsUser(files[FileName(id)].definition) else builtins[id]
  }

  lemma LoadIsReload(builtins: Agents, files: Files, names: seq<string>)
    requires NamedById(files) && Lists(names, files)
    ensures LoadEntries(builtins, files, names) == Reload(builtins, files)
  {
    var loaded := LoadEntries(builtins, files, names);
    forall id ensures (id in loaded <==> id in Reload(builtins, files)) &&
      (id in loaded ==> loaded[id] == Reload(builtins, files)[id]) {
      LoadedFrom(builtins, files, names, id);
      if id in UserIds(files) {
        assert Defined(files, names, id, AsUser(files[FileName(id)].definition));
      }
    }
  }

  /** The map in memory and the directory. */
  datatype State = State(agents: Agents, files: Files)

  /**
   How the write of a `save` ends: done, failed with the old file in place, or failed
   after the new file replaced it.
   */
  datatype SaveOutcome = Saved | NotSaved | Unsynced

  datatype Op = Save(definition: Definition, outcome: SaveOutcome) | Delete(id: string, removed: bool)

  function Step(builtins: Agents, s: State, op: Op): (State, Result<(), RegistryError>) {
    match op
    case Save(d, outcome) =>
      if !IsSafeId(d.id) then (s, Err(InvalidId))
      else
        var files := s.files[FileName(d.id) := Toml(AsUser(d))];
        (match outcome
         case NotSaved => (s, Err(Io))
         case Unsynced => (s.(files := files), Err(Io))
         case Saved => (State(s.agents[d.id := AsUser(d)], files), Ok(())))
    case Delete(id, removed) =>
      if !IsSafeId(id) then (s, Err(InvalidId))
      else if FileName(id) in s.files && !removed then (s, Err(Io))
      else
        var files := s.files - {FileName(id)};
        if id in builtins then (State(s.agents[id := builtins[id]], files), Ok(()))
        else (State(s.agents - {id}, files), if id in s.agents then Ok(()) else Err(NotFound))
  }

  /** Both directories hold the same but for the file `name`. */
  ghost predicate SameFilesBut(a: Files, b: Files, name: string) {
    forall n | n != name :: (n in a <==> n in b) && (n in a ==> a[n] == b[n])
  }

  ghost predicate SameAgentsBut(a: Agents, b: Agents, id: string) {
    forall i | i != id :: (i in a <==> i in b) && (i in a ==> a[i] == b[i])
  }

  /** What a save does, by outcome: it files and registers the definition as a user's, and touches nothing else. */
  lemma SaveMeans(builtins: Agents, s: State, d: Definition, outcome: SaveOutcome)
    ensures var (s', r) := Step(builtins, s, Save(d, outcome));
            var user, name := Definition(d.id, UserDefined, d.details), d.id + ".toml";
            && (!IsSafeId(d.id) ==> r == Err(InvalidId) && s' == s)
            && (IsSafeId(d.id) && outcome == NotSaved ==> r == Err(Io) && s' == s)
            && (IsSafeId(d.id) && outcome != NotSaved ==>
                 name in s'.files && s'.files[name] == Toml(user) && SameFilesBut(s'.files, s.files, name))
            && (IsSafeId(d.id) && outcome == Unsynced ==> r == Err(Io) && s'.agents == s.agents)
            && (IsSafeId(d.id) && outcome == Saved ==>
                 && r == Ok(()) && d.id in s'.agents && s'.agents[d.id] == user
                 && SameAgentsBut(s'.agents, s.agents, d.id))
  {
  }

  /**
   What a delete does: a file that cannot be removed fails it and nothing changes; otherwise the file is gone,
   and the built-in is back, or the agent is dropped, which fails exactly when there was none.
   */
  lemma DeleteMeans(builtins: Agents, s: State, id: string, removed: bool)
    ensures var (s', r) := Step(builtins, s, Delete(id, removed));
            var name := id + ".toml"; var stuck := name in s.files && !removed;
            && (!IsSafeId(id) ==> r == Err(InvalidId) && s' == s)
            && (IsSafeId(id) && stuck ==> r == Err(Io) && s' == s)
            && (IsSafeId(id) && !stuck ==>
                 && name !in s'.files && SameFilesBut(s'.files, s.files, name)
                 && SameAgentsBut(s'.agents, s.agents, id)
                 && (id in builtins ==> r == Ok(()) && id in s'.agents && s'.agents[id] == builtins[id])
                 && (id !in builtins ==> id !in s'.agents && r == (if id in s.agents then Ok(()) else Err(NotFound))))
  {
  }

  /** Files are named by their ids, and the map is what a fresh registry over the directory would hold. */
  ghost predicate Agrees(builtins: Agents, s: State) {
    NamedById(s.files) && s.agents == Reload(builtins, s.files)
  }

  /** The write failed only after the new file was in place, and the file says something new. */
  predicate LeavesStale(s: State, op: Op) {
    op.Save? && op.outcome == Unsynced && IsSafeId(op.definition.id) &&
    (op.definition.id in s.agents ==> s.agents[op.definition.id] != AsUser(op.definition))
  }

  lemma SaveAddsId(builtins: Agents, files: Files, d: Definition)
    requires NamedById(files) && IsSafeId(d.id)
    ensures var after := files[FileName(d.id) := Toml(AsUser(d))];
            NamedById(after) && Reload(builtins, after) == Reload(builtins, files)[d.id := AsUser(d)]
  {
    var after := files[FileName(d.id) := Toml(AsUser(d))];
    SavedFilesAreLoaded(d.id);
    forall id ensures id in UserIds(after) <==> id == d.id || id in UserIds(files) {
      if id in UserIds(files) {
        assert IsAgentFile(files, FileName(id));
        if id != d.id && FileName(id) == FileName(d.id) {
          FileNameInjective(id, d.id);
        }
        assert id != d.id ==> IsAgentFile(after, FileName(id));
      }
      assert IsAgentFile(after, FileName(d.id));
    }
    forall id | id in UserIds(files) && id != d.id ensures after[FileName(id)] == files[FileName(id)] {
      if FileName(id) == FileName(d.id) {
        FileNameInjective(id, d.id);
      }
    }
  }

  lemma UserIdsAfterDelete(files: Files, id: string)
    requires NamedById(files)
    ensures UserIds(files - {FileName(id)}) == UserIds(files) - {id}
  {
    var after := files - {FileName(id)};
    forall other ensures other in UserIds(after) <==> other != id && other in UserIds(files) {
      if other in UserIds(files) && other != id {
        if FileName(other) == FileName(id) {
          FileNameInjective(other, id);
        }
        assert IsAgentFile(files, FileName(other)) && IsAgentFile(after, FileName(other));
      }
    }
  }

  lemma DeleteDropsId(builtins: Agents, files: Files, id: string)
    requires NamedById(files)
    ensures var after := files - {FileName(id)};
            NamedById(after) &&
            Reload(builtins, after) ==
            if id in builtins then Reload(builtins, files)[id := builtins[id]] else Reload(builtins, files) - {id}
  {
    var after := files - {FileName(id)};
    assert forall n | IsAgentFile(after, n) :: IsAgentFile(files, n) && after[n] == files[n];
    UserIdsAfterDelete(files, id);
    forall other | other in UserIds(after) ensures after[FileName(other)] == files[FileName(other)] {
    }
  }

  /**
   A step keeps the map and the directory in agreement unless its write failed after
   replacing the file with something new.
   */
  lemma StepAgreesIff(builtins: Agents, s: State, op: Op)
    requires Agrees(builtins, s)
    ensures Agrees(builtins, Step(builtins, s, op).0) <==> !LeavesStale(s, op)
  {
    match op {
      case Save(d, outcome) =>
        if IsSafeId(d.id) {
          SaveAddsId(builtins, s.files, d);
        }
      case Delete(id, removed) =>
        DeleteDropsId(builtins, s.files, id);
    }
  }

  function Run(builtins: Agents, s: State, ops: seq<Op>): State {
    if ops == [] then s else Step(builtins, Run(builtins, s, Init(ops)), Last(ops)).0
  }

  /** After any saves and deletes whose writes do not fail half-way, the map equals a fresh reload. */
  lemma {:induction false} RunAgrees(builtins: Agents, s: State, ops: seq<Op>)
    requires Agrees(builtins, s) && forall op | op in ops :: op.Save? ==> op.outcome != Unsynced
    ensures Agrees(builtins, Run(builtins, s, ops))
  {
    if ops != [] {
      assert forall op | op in Init(ops) :: op in ops;
      RunAgrees(builtins, s, Init(ops));
      StepAgreesIff(builtins, Run(builtins, s, Init(ops)), Last(ops));
    }
  }

  predicate SameAt(a: Agents, b: Agents, id: string) {
    (id in a <==> id in b) && (id in a ==> a[id] == b[id])
  }

  /** The ids on which memory and a fresh reload disagree. */
  ghost function Differs(builtins: Agents, s: State): set<string>
    requires NamedById(s.files)
  {
    var reload := Reload(builtins, s.files);
    set id | id in s.agents.Keys + reload.Keys && !SameAt(s.agents, reload, id)
  }

  /**
   The ids left stale by a half-failed write and not repaired since: a save or a
   delete that reaches the file repairs its id, and so does a half-failed write of
   what memory already holds.
   */
  function NextStale(s: State, op: Op, stale: set<string>): set<string> {
    match op
    case Save(d, outcome) =>
      if !IsSafeId(d.id) || outcome == NotSaved then stale
      else if LeavesStale(s, op) then stale + {d.id}
      else stale - {d.id}
    case Delete(id, removed) => if !IsSafeId(id) || (FileName(id) in s.files && !removed) then stale else stale - {id}
  }

  function Stale(builtins: Agents, s: State, ops: seq<Op>): set<string> {
    if ops == [] then {} else NextStale(Run(builtins, s, Init(ops)), Last(ops), Stale(builtins, s, Init(ops)))
  }

  lemma StepStale(builtins: Agents, s: State, op: Op)
    requires NamedById(s.files)
    ensures var after := Step(builtins, s, op).0;
            NamedById(after.files) && Differs(builtins, after) == NextStale(s, op, Differs(builtins, s))
  {
    hide NamedById, IsSafeId, FileName, Reload;
    match op {
      case Save(d, outcome) =>
        if IsSafeId(d.id) {
          SaveAddsId(builtins, s.files, d);
        }
      case Delete(id, removed) =>
        DeleteDropsId(builtins, s.files, id);
        NoFileNoChange(builtins, s.files, id);
    }
  }

  lemma NoFileNoChange(builtins: Agents, files: Files, id: string)
    ensures FileName(id) !in files ==> files - {FileName(id)} == files
  {
  }

  lemma {:induction false} StaleTracks(builtins: Agents, s: State, ops: seq<Op>)
    requires Agrees(builtins, s)
    ensures var after := Run(builtins, s, ops);
            NamedById(after.files) && Differs(builtins, after) == Stale(builtins, s, ops)
  {
    hide Step, NextStale, NamedById, Reload;
    AgreesIffSame(builtins, s);
    if ops != [] {
      StaleTracks(builtins, s, Init(ops));
      StepStale(builtins, Run(builtins, s, Init(ops)), Last(ops));
    }
  }

  lemma AgreesIffSame(builtins: Agents, s: State)
    ensures Agrees(builtins, s) <==> NamedById(s.files) && Differs(builtins, s) == {}
  {
    hide NamedById, Reload;
    if NamedById(s.files) && Differs(builtins, s) == {} {
      var reload := Reload(builtins, s.files);
      forall id ensures (id in s.agents <==> id in reload) && (id in s.agents ==> s.agents[id] == reload[id]) {
        assert id !in Differs(builtins, s);
      }
    }
  }

  /**
   After any saves and deletes, failed ones included, the map equals a fresh reload
   if and only if every id whose write failed half-way has been repaired.
   */
  lemma RunAgreesIff(builtins: Agents, s: State, ops: seq<Op>)
    requires Agrees(builtins, s)
    ensures Agrees(builtins, Run(builtins, s, ops)) <==> Stale(builtins, s, ops) == {}
  {
    StaleTracks(builtins, s, ops);
    AgreesIffSame(builtins, Run(builtins, s, ops));
  }

  /** Saving an agent that had no file and deleting it again gives back the state, built-in included. */
  lemma SaveThenDelete(builtins: Agents, s: State, d: Definition)
    requires Agrees(builtins, s) && IsSafeId(d.id) && FileName(d.id) !in s.files
    ensures var saved := Step(builtins, s, Save(d, Saved));
            saved.1.Ok? && Step(builtins, saved.0, Delete(d.id, true)) == (s, Ok(()))
  {
    assert FileName(d.id) in s.files <== d.id in UserIds(s.files);
    var saved := Step(builtins, s, Save(d, Saved)).0;
    var after := Step(builtins, saved, Delete(d.id, true)).0;
    assert after.files == s.files;
    assert after.agents == s.agents;
  }

  class AgentRegistry {
    const builtins: Agents
    const hasDir: bool
    var agents: Agents
    var files: Files

    ghost function Now(): State
      reads this
    {
      State(agents, files)
    }

    constructor Builtin(builtins: Agents)
      ensures this.builtins == agents == builtins && !hasDir
    {
      this.builtins, this.agents, this.hasDir, this.files := builtins, builtins, false, map[];
    }

    /** A registry over a directory whose entries are listed as `entries`. */
    constructor WithUserDir(builtins: Agents, files: Files, entries: seq<string>)
      requires Lists(entries, files)
      ensures this.builtins == builtins && this.files == files && hasDir
      ensures agents == LoadEntries(builtins, files, entries)
      ensures NamedById(files) ==> Agrees(builtins, Now())
    {
      this.builtins, this.agents, this.hasDir, this.files := builtins, builtins, true, files;
      new;
      LoadUserAgents(entries);
      if NamedById(files) {
        LoadIsReload(builtins, files, entries);
      }
    }

    method LoadUserAgents(entries: seq<string>)
      modifies this`agents
      ensures agents == LoadEntries(old(agents), files, entries)
    {
      for i := 0 to |entries|
        invariant agents == LoadEntries(old(agents), files, entries[..i])
      {
        assert Init(entries[..i + 1]) == entries[..i];
        if IsAgentFile(files, entries[i]) {
          var d := AsUser(files[entries[i]].definition);
          agents := agents[d.id := d];
        }
      }
      assert entries[..|entries|] == entries;
    }

    method SaveAgent(d: Definition, outcome: SaveOutcome) returns (r: Result<(), RegistryError>)
      modifies this
      ensures !hasDir ==> r == Err(NoUserDir) && Now() == old(Now())
      ensures hasDir ==> (Now(), r) == Step(builtins, old(Now()), Save(d, outcome))
      ensures hasDir && Agrees(builtins, old(Now())) ==>
              (Agrees(builtins, Now()) <==> !LeavesStale(old(Now()), Save(d, outcome)))
    {
      ghost var was := Now();
      if !hasDir {
        return Err(NoUserDir);
      }
      if !IsSafeId(d.id) {
        return Err(InvalidId);
      }
      if Agrees(builtins, was) {
        StepAgreesIff(builtins, was, Save(d, outcome));
      }
      if outcome == NotSaved {
        return Err(Io);
      }
      files := files[FileName(d.id) := Toml(AsUser(d))];
      if outcome == Unsynced {
        return Err(Io);
      }
      agents := agents[d.id := AsUser(d)];
      return Ok(());
    }

    method DeleteAgent(id: string, removed: bool) returns (r: Result<(), RegistryError>)
      modifies this
      ensures !hasDir ==> r == Err(NoUserDir) && Now() == old(Now())
      ensures hasDir ==> (Now(), r) == Step(builtins, old(Now()), Delete(id, removed))
      ensures hasDir && Agrees(builtins, old(Now())) ==> Agrees(builtins, Now())
    {
      ghost var was := Now();
      if !hasDir {
        return Err(NoUserDir);
      }
      if !IsSafeId(id) {
        return Err(InvalidId);
      }
      if Agrees(builtins, was) {
        StepAgreesIff(builtins, was, Delete(id, removed));
      }
      if FileName(id) in files {
        if !removed {
          return Err(Io);
        }
        files := files - {FileName(id)};
      }
      assert files == was.files - {FileName(id)};
      if id in builtins {
        agents := agents[id := builtins[id]];
        return Ok(());
      }
      if id !in agents {
        assert agents - {id} == agents;
        return Err(NotFound);
      }
      agents := agents - {id};
      return Ok(());
    }
  }
}
