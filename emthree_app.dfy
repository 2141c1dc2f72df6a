/**
 * emthree/app.py: how `init` decides what to load, the two phases of its
 * dependency discovery, and the duplicate check and dependency collection of
 * `add_mod`. Registry answers are a function `resolve` from a dependency
 * entry to the mod `get_mod` returns for it.
 */
module EmthreeApp {
  import opened Wrappers
  import opened Records
  import opened Seqs
  import opened ModtoolsMod
  import opened EmthreeApi
  import opened EmthreeUtils

  // ----- Choosing the list to load (emthree/app.py:14-34) -----

  /** What `init` goes on with. */
  datatype InitMode =
    | UserlistMissing                     // `--userlist` names no file: return
    | Setup(modsToLoad: seq<string>)      // fresh setup from the user's list
    | Reload(modsToLoad: seq<string>)     // the names of the generated list
    | NothingToLoad                       // neither list usable: return

  /** The mode and whether the override question was asked. */
  datatype InitStart = InitStart(mode: InitMode, askedOverride: bool)

  /** A loaded user list is truthy when it exists and is not empty. */
  predicate Truthy(ul: Option<seq<string>>)
  {
    ul.Some? && ul.value != []
  }

  /**
   * The start of `init`: `userlistArg` is `args.userlist` (`""` when not
   * given), `userlistIsFile` whether it names a file, `loaded` what
   * `load_userlist` returns for it, `generatedExists` whether the generated
   * list is a file, `overrideAnswer` the answer the override question would
   * get, and `generatedNames` the `name`s of the generated list.
   */
  function StartInit(
    userlistArg: string, userlistIsFile: bool, loaded: Option<seq<string>>,
    generatedExists: bool, overrideAnswer: bool, generatedNames: seq<string>): (s: InitStart)
    ensures userlistArg != "" && !userlistIsFile ==> s == InitStart(UserlistMissing, false)
    // with a usable user list: no generated list, or a confirmed override, sets up from it
    ensures s.mode.Setup? <==>
      userlistArg != "" && userlistIsFile && Truthy(loaded) && (!generatedExists || overrideAnswer)
    ensures s.mode.Setup? ==> s.mode.modsToLoad == loaded.value
    // the question is asked only when there is both a user list and a generated one
    ensures s.askedOverride <==> userlistArg != "" && userlistIsFile && Truthy(loaded) && generatedExists
    // without a (usable) user list, the generated list is reloaded when it exists
    ensures s.mode.Reload? <==>
      (userlistArg == "" || (userlistIsFile && !Truthy(loaded))) && generatedExists
    ensures s.mode.Reload? ==> s.mode.modsToLoad == generatedNames
    // a declined override ends `init` without loading anything
    ensures s.askedOverride && !overrideAnswer ==> s.mode == NothingToLoad
  {
    if userlistArg != "" && !userlistIsFile then InitStart(UserlistMissing, false)
    else
      var ul := if userlistArg != "" then loaded else None;
      var asked := Truthy(ul) && generatedExists;
      if Truthy(ul) && (!generatedExists || overrideAnswer) then InitStart(Setup(ul.value), asked)
      else if !Truthy(ul) && generatedExists then InitStart(Reload(generatedNames), asked)
      else InitStart(NothingToLoad, asked)
  }

  /** A user list that fails validation falls back to the generated list, without a question. */
  lemma InvalidUserlistReloadsGenerated(userlistArg: string, overrideAnswer: bool, generatedNames: seq<string>)
    requires userlistArg != ""
    ensures StartInit(userlistArg, true, None, true, overrideAnswer, generatedNames)
      == InitStart(Reload(generatedNames), false)
  {
  }

  // ----- Dependency discovery (emthree/app.py:46-78) -----

  /** The key the first phase records: `mod.project_id` (emthree/app.py:59). */
  function ProjectIdKey(m: EmMod): Option<string>
  {
    Some(m.projectId)
  }

  /** The key the second phase records: `mod.id` (emthree/app.py:75). */
  function IdKey(m: EmMod): Option<string>
  {
    m.id
  }

  /** `to_add`: the dependencies of `m` whose project is not among `ids` (emthree/app.py:51, 67). */
  function ToAdd(m: EmMod, ids: seq<Option<string>>): seq<Edge>
  {
    Filter(m.dependencies, (e: Edge) => e.projectId !in ids)
  }

  /** `to_add` holds exactly the dependencies of `m` whose project is not among `ids`. */
  lemma ToAddMembers(m: EmMod, ids: seq<Option<string>>)
    ensures forall e :: e in ToAdd(m, ids) <==> e in m.dependencies && e.projectId !in ids
  {
  }

  /** A mod with a single dependency adds it exactly when its project is not yet known. */
  lemma ToAddSingle(m: EmMod, ids: seq<Option<string>>)
    requires |m.dependencies| == 1
    ensures ToAdd(m, ids) == if m.dependencies[0].projectId in ids then [] else m.dependencies
  {
    var p := (e: Edge) => e.projectId !in ids;
    assert m.dependencies[1..] == [];
    assert Filter(m.dependencies[1..], p) == [];
  }

  /** The entries fetched by one pass over `sources`, and `ids` afterwards. */
  datatype SweepResult = SweepResult(fetched: seq<Edge>, ids: seq<Option<string>>)

  /**
   * One pass of the `for m in ...` loop (emthree/app.py:50-59 and 66-75):
   * each source's new dependencies are fetched, and their `key`s appended to
   * `ids` before the next source is looked at.
   */
  function Sweep(sources: seq<EmMod>, ids: seq<Option<string>>, key: EmMod -> Option<string>,
                 resolve: Edge -> EmMod): (r: SweepResult)
    decreases |sources|
  {
    if sources == [] then SweepResult([], ids)
    else
      var before := Sweep(sources[..|sources| - 1], ids, key, resolve);
      var toAdd := ToAdd(sources[|sources| - 1], before.ids);
      SweepResult(before.fetched + toAdd, before.ids + Map(Map(toAdd, resolve), key))
  }

  /** The pass over the first `i + 1` sources extends the pass over the first `i`. */
  lemma SweepStep(sources: seq<EmMod>, i: int, ids: seq<Option<string>>,
                  key: EmMod -> Option<string>, resolve: Edge -> EmMod)
    requires 0 <= i < |sources|
    ensures var before := Sweep(sources[..i], ids, key, resolve);
            var toAdd := ToAdd(sources[i], before.ids);
      Sweep(sources[..i + 1], ids, key, resolve)
        == SweepResult(before.fetched + toAdd, before.ids + Map(Map(toAdd, resolve), key))
  {
    assert sources[..i + 1][..i] == sources[..i];
    assert sources[..i + 1][i] == sources[i];
  }

  /** `ids` is append-only: a pass adds the keys of the mods it fetched, in order, and nothing else. */
  lemma {:induction false} SweepAppendsKeys(sources: seq<EmMod>, ids: seq<Option<string>>,
                                            key: EmMod -> Option<string>, resolve: Edge -> EmMod)
    ensures Sweep(sources, ids, key, resolve).ids == ids + Map(Map(Sweep(sources, ids, key, resolve).fetched, resolve), key)
    decreases |sources|
  {
    if sources != [] {
      var before := Sweep(sources[..|sources| - 1], ids, key, resolve);
      var toAdd := ToAdd(sources[|sources| - 1], before.ids);
      var r := Sweep(sources, ids, key, resolve);
      var oldKeys := Map(Map(before.fetched, resolve), key);
      var newKeys := Map(Map(toAdd, resolve), key);
      assert r.fetched == before.fetched + toAdd && r.ids == before.ids + newKeys;
      assert before.ids == ids + oldKeys by {
        SweepAppendsKeys(sources[..|sources| - 1], ids, key, resolve);
      }
      assert Map(Map(r.fetched, resolve), key) == oldKeys + newKeys by {
        MapAppend(before.fetched, toAdd, resolve);
        MapAppend(Map(before.fetched, resolve), Map(toAdd, resolve), key);
      }
    }
  }

  /** No entry whose project id was already known is fetched, whatever key is recorded. */
  lemma {:induction false} SweepSkipsKnown(sources: seq<EmMod>, ids: seq<Option<string>>,
                                           key: EmMod -> Option<string>, resolve: Edge -> EmMod)
    ensures forall e :: e in Sweep(sources, ids, key, resolve).fetched ==> e.projectId !in ids
    decreases |sources|
  {
    if sources != [] {
      SweepSkipsKnown(sources[..|sources| - 1], ids, key, resolve);
      SweepAppendsKeys(sources[..|sources| - 1], ids, key, resolve);
    }
  }

  /** The registry answers an entry with the mod of the project it names. */
  ghost predicate ResolvesToProject(resolve: Edge -> EmMod)
  {
    forall e: Edge :: e.projectId.Some? ==> Some(resolve(e).projectId) == e.projectId
  }

  /** Every source lists each dependency project once, by id. */
  ghost predicate WellFormedSources(sources: seq<EmMod>)
  {
    forall m :: m in sources ==>
      (forall e :: e in m.dependencies ==> e.projectId.Some?) &&
      (forall i, j :: 0 <= i < j < |m.dependencies| ==> m.dependencies[i].projectId != m.dependencies[j].projectId)
  }

  /** The fetched entries name pairwise different projects. */
  ghost predicate DistinctProjects(edges: seq<Edge>)
  {
    forall i, j :: 0 <= i < j < |edges| ==> edges[i].projectId != edges[j].projectId
  }

  /** Recording `project_id`, every fetched entry's project ends up among the ids. */
  lemma FetchedProjectsRecorded(sources: seq<EmMod>, ids: seq<Option<string>>, resolve: Edge -> EmMod)
    requires ResolvesToProject(resolve)
    requires WellFormedSources(sources)
    ensures var r := Sweep(sources, ids, ProjectIdKey, resolve);
      forall e :: e in r.fetched ==> e.projectId in r.ids
  {
    var r := Sweep(sources, ids, ProjectIdKey, resolve);
    SweepAppendsKeys(sources, ids, ProjectIdKey, resolve);
    SweepFetchesSome(sources, ids, ProjectIdKey, resolve);
    forall e | e in r.fetched ensures e.projectId in r.ids {
      var k :| 0 <= k < |r.fetched| && r.fetched[k] == e;
      assert r.ids[|ids| + k] == ProjectIdKey(resolve(e));
    }
  }

  /**
   * Recording `project_id` (as the first phase does) fetches every project at
   * most once in a pass, and none that was known before it.
   */
  lemma {:induction false} SweepFetchesEachProjectOnce(sources: seq<EmMod>, ids: seq<Option<string>>,
                                                       resolve: Edge -> EmMod)
    requires ResolvesToProject(resolve)
    requires WellFormedSources(sources)
    ensures DistinctProjects(Sweep(sources, ids, ProjectIdKey, resolve).fetched)
    decreases |sources|
  {
    if sources != [] {
      var init := sources[..|sources| - 1];
      var last := sources[|sources| - 1];
      var before := Sweep(init, ids, ProjectIdKey, resolve);
      var toAdd := ToAdd(last, before.ids);
      assert last in sources;
      assert WellFormedSources(init) by {
        forall m | m in init ensures m in sources {
        }
      }
      SweepFetchesEachProjectOnce(init, ids, resolve);
      FetchedProjectsRecorded(init, ids, resolve);
      FilterKeepsDistinct(last.dependencies, (e: Edge) => e.projectId !in before.ids, (e: Edge) => e.projectId);
      assert DistinctProjects(toAdd);
      DistinctConcat(before.fetched, toAdd, before.ids);
    }
  }

  /** Two lists of distinct projects, the second avoiding `ids`, which holds the first's. */
  lemma DistinctConcat(a: seq<Edge>, b: seq<Edge>, ids: seq<Option<string>>)
    requires DistinctProjects(a) && DistinctProjects(b)
    requires forall e :: e in a ==> e.projectId in ids
    requires forall e :: e in b ==> e.projectId !in ids
    ensures DistinctProjects(a + b)
  {
    var all := a + b;
    forall i, j | 0 <= i < j < |all| ensures all[i].projectId != all[j].projectId {
      if j >= |a| && i < |a| {
        assert all[i] in a && all[j] in b;
      }
    }
  }

  /** Entries fetched from well-formed sources all name a project. */
  lemma {:induction false} SweepFetchesSome(sources: seq<EmMod>, ids: seq<Option<string>>,
                                            key: EmMod -> Option<string>, resolve: Edge -> EmMod)
    requires WellFormedSources(sources)
    ensures forall e :: e in Sweep(sources, ids, key, resolve).fetched ==> e.projectId.Some?
    decreases |sources|
  {
    if sources != [] {
      var init := sources[..|sources| - 1];
      assert WellFormedSources(init) by {
        forall m | m in init ensures m in sources {
        }
      }
      SweepFetchesSome(init, ids, key, resolve);
    }
  }

  /** The pass over the first of two mods that need one project `c` fetches `c`. */
  lemma SharedDependencyFirstStep(b1: EmMod, b2: EmMod, c: Edge, ids: seq<Option<string>>,
                                  key: EmMod -> Option<string>, resolve: Edge -> EmMod)
    requires b1.dependencies == [c] && c.projectId !in ids
    ensures Sweep([b1, b2][..1], ids, key, resolve) == SweepResult([c], ids + [key(resolve(c))])
  {
    SweepStep([b1, b2], 0, ids, key, resolve);
    assert [b1, b2][..0] == [];
    assert Sweep([], ids, key, resolve) == SweepResult([], ids);
    ToAddSingle(b1, ids);
    assert Map([c], resolve) == [resolve(c)];
    assert Map([resolve(c)], key) == [key(resolve(c))];
  }

  /** The pass over two mods adds to the first one's result what the second still needs. */
  lemma SweepSecond(b1: EmMod, b2: EmMod, ids: seq<Option<string>>, key: EmMod -> Option<string>,
                    resolve: Edge -> EmMod, first: SweepResult)
    requires Sweep([b1, b2][..1], ids, key, resolve) == first
    ensures Sweep([b1, b2], ids, key, resolve).fetched == first.fetched + ToAdd(b2, first.ids)
  {
    SweepStep([b1, b2], 1, ids, key, resolve);
    assert [b1, b2][..2] == [b1, b2];
  }

  /** Recording `mod.id`, where it is not the project id, the second mod fetches `c` again. */
  lemma SharedDependencyById(b1: EmMod, b2: EmMod, c: Edge, ids: seq<Option<string>>, resolve: Edge -> EmMod)
    requires b1.dependencies == [c] && b2.dependencies == [c]
    requires c.projectId !in ids && resolve(c).id != c.projectId
    ensures Sweep([b1, b2], ids, IdKey, resolve).fetched == [c, c]
  {
    var known := ids + [resolve(c).id];
    SharedDependencyFirstStep(b1, b2, c, ids, IdKey, resolve);
    SweepSecond(b1, b2, ids, IdKey, resolve, SweepResult([c], known));
    ToAddSingle(b2, known);
  }

  /** Recording `project_id`, the second mod finds `c` known and fetches nothing. */
  lemma SharedDependencyByProject(b1: EmMod, b2: EmMod, c: Edge, ids: seq<Option<string>>, resolve: Edge -> EmMod)
    requires b1.dependencies == [c] && b2.dependencies == [c]
    requires c.projectId !in ids && Some(resolve(c).projectId) == c.projectId
    ensures Sweep([b1, b2], ids, ProjectIdKey, resolve).fetched == [c]
  {
    var known := ids + [c.projectId];
    SharedDependencyFirstStep(b1, b2, c, ids, ProjectIdKey, resolve);
    SweepSecond(b1, b2, ids, ProjectIdKey, resolve, SweepResult([c], known));
    assert known[|ids|] == c.projectId;
    ToAddSingle(b2, known);
  }

  /**
   * The second phase records `mod.id`. When the mod fetched for a project `c`
   * has an `id` that is not `c`, two mods of one pass that both need `c`
   * fetch it twice; recording `project_id` fetches it once.
   */
  lemma SecondPhaseRefetchesById(b1: EmMod, b2: EmMod, c: Edge, ids: seq<Option<string>>, resolve: Edge -> EmMod)
    requires b1.dependencies == [c] && b2.dependencies == [c]
    requires c.projectId !in ids
    requires Some(resolve(c).projectId) == c.projectId && resolve(c).id != c.projectId
    ensures Sweep([b1, b2], ids, IdKey, resolve).fetched == [c, c]
    ensures Sweep([b1, b2], ids, ProjectIdKey, resolve).fetched == [c]
  {
    SharedDependencyById(b1, b2, c, ids, resolve);
    SharedDependencyByProject(b1, b2, c, ids, resolve);
  }

  /** The `as_completed` loop: the mod of every entry, in entry order. */
  method FetchAll(toAdd: seq<Edge>, resolve: Edge -> EmMod) returns (discovered: seq<EmMod>)
    ensures discovered == Map(toAdd, resolve)
  {
    discovered := [];
    for j := 0 to |toAdd|
      invariant |discovered| == j
      invariant forall k :: 0 <= k < j ==> discovered[k] == resolve(toAdd[k])
    {
      discovered := discovered + [resolve(toAdd[j])];
    }
  }

  /**
   * A pass as the source runs it (emthree/app.py:50-59 and 66-75): `found`
   * are the mods fetched, in order, `ids'` the grown list of ids. The
   * completion order of the concurrent fetches is taken to be entry order.
   */
  method SweepMods(sources: seq<EmMod>, ids: seq<Option<string>>, key: EmMod -> Option<string>,
                   resolve: Edge -> EmMod) returns (found: seq<EmMod>, ids': seq<Option<string>>)
    ensures found == Map(Sweep(sources, ids, key, resolve).fetched, resolve)
    ensures ids' == Sweep(sources, ids, key, resolve).ids
  {
    found, ids' := [], ids;
    for i := 0 to |sources|
      invariant found == Map(Sweep(sources[..i], ids, key, resolve).fetched, resolve)
      invariant ids' == Sweep(sources[..i], ids, key, resolve).ids
    {
      var toAdd := ToAdd(sources[i], ids');
      var discovered := FetchAll(toAdd, resolve);
      SweepStep(sources, i, ids, key, resolve);
      MapAppend(Sweep(sources[..i], ids, key, resolve).fetched, toAdd, resolve);
      found := found + discovered;
      ids' := ids' + Map(discovered, key);
    }
    assert sources[..|sources|] == sources;
  }

  /** Both phases only append to `ids`: the loaded mods' ids stay in front. */
  lemma LoadedIdsStayInFront(mods: seq<EmMod>, resolve: Edge -> EmMod, secondKey: EmMod -> Option<string>)
    ensures var ids := Map(mods, ProjectIdKey);
            var first := Sweep(mods, ids, ProjectIdKey, resolve);
            var second := Sweep(Map(first.fetched, resolve), first.ids, secondKey, resolve);
      && |first.ids| >= |mods| && first.ids[..|mods|] == ids
      && |second.ids| >= |mods| && second.ids[..|mods|] == ids
  {
    var ids := Map(mods, ProjectIdKey);
    var first := Sweep(mods, ids, ProjectIdKey, resolve);
    SweepAppendsKeys(mods, ids, ProjectIdKey, resolve);
    SweepAppendsKeys(Map(first.fetched, resolve), first.ids, secondKey, resolve);
  }

  /**
   * The discovery of emthree/app.py:43-78 over the mods loaded from the list.
   * `secondKey` is the key the second phase records: the source's `IdKey`, or
   * the intended `ProjectIdKey`. `rounds` counts the runs of the `while` body.
   */
  method DiscoverDependencies(mods: seq<EmMod>, resolve: Edge -> EmMod, secondKey: EmMod -> Option<string>)
    returns (dependencies: seq<EmMod>, ids: seq<Option<string>>, rounds: nat)
    ensures var first := Sweep(mods, Map(mods, ProjectIdKey), ProjectIdKey, resolve);
            var second := Sweep(Map(first.fetched, resolve), first.ids, secondKey, resolve);
      // the body of the `while` runs once exactly when the first phase found something ...
      && (rounds == 1 <==> first.fetched != [])
      && (rounds == 0 <==> first.fetched == [])
      // ... so two levels are explored: the direct dependencies and theirs
      && (first.fetched == [] ==> dependencies == [] && ids == first.ids)
      && (first.fetched != [] ==>
            dependencies == Map(first.fetched, resolve) + Map(second.fetched, resolve) && ids == second.ids)
    // both lists only grow: the loaded mods' ids stay in front
    ensures |ids| >= |mods| && ids[..|mods|] == Map(mods, ProjectIdKey)
  {
    ids := Map(mods, ProjectIdKey);
    ghost var first := Sweep(mods, ids, ProjectIdKey, resolve);
    ghost var second := Sweep(Map(first.fetched, resolve), first.ids, secondKey, resolve);
    LoadedIdsStayInFront(mods, resolve, secondKey);
    dependencies := [];
    var dependenciesNew;
    dependenciesNew, ids := SweepMods(mods, ids, ProjectIdKey, resolve);
    dependencies := dependencies + dependenciesNew;
    var lastLen := 0;
    rounds := 0;
    while |dependencies| != lastLen
      invariant rounds <= 1
      invariant rounds == 0 ==>
        dependencies == dependenciesNew == Map(first.fetched, resolve) && lastLen == 0 && ids == first.ids
      invariant rounds == 1 ==> first.fetched != [] && lastLen == |dependencies|
      invariant rounds == 1 ==>
        dependencies == Map(first.fetched, resolve) + Map(second.fetched, resolve) && ids == second.ids
      decreases if |dependencies| != lastLen then 1 else 0
    {
      var discoveredNew;
      discoveredNew, ids := SweepMods(dependenciesNew, ids, secondKey, resolve);
      dependencies := dependencies + discoveredNew;
      dependenciesNew := discoveredNew;
      lastLen := |dependencies|;
      rounds := rounds + 1;
    }
  }

  // ----- `add_mod` (emthree/app.py:104-121) -----

  /** What `add_mod` goes on with. */
  datatype AddOutcome =
    | AlreadyKnown                        // the manifest holds a mod of that name: return
    | ModsToAdd(mods: seq<EmMod>)         // the mod and its dependencies, to confirm and write

  /**
   * `add_mod` as written up to line 111: a name that is not in the manifest
   * reaches `ModrinthAPI()`, whose constructor requires a session.
   */
  function AddModAsWritten(modName: string, knownNames: seq<string>): (r: Result<AddOutcome, Exception>)
    ensures r.Ok? <==> modName in knownNames
    ensures r.Ok? ==> r.value == AlreadyKnown
  {
    if modName in knownNames then Ok(AlreadyKnown) else Err(TypeError)
  }

  /** As written, no new mod is ever added: every new name raises. */
  lemma AddModAsWrittenNeverAdds(modName: string, knownNames: seq<string>)
    requires modName !in knownNames
    ensures AddModAsWritten(modName, knownNames) == Err(TypeError)
  {
  }

  /**
   * `add_mod` with the session passed on: `knownNames` are the manifest's
   * `name`s, `mod` what `get_mod` returns, `getDependencies` the mod's
   * `get_dependencies()`. `loopEntered` is whether the `while` body is entered.
   */
  method AddMod(modName: string, knownNames: seq<string>, mod: Option<EmMod>,
                getDependencies: EmMod -> seq<EmMod>) returns (r: Result<AddOutcome, Exception>, loopEntered: bool)
    ensures modName in knownNames ==> r == Ok(AlreadyKnown)
    // a mod `get_mod` dropped leaves `dependencies` unbound at line 116
    ensures modName !in knownNames && mod.None? ==> r == Err(UnboundLocalError)
    // the recursive search never runs: only the direct dependencies are added
    ensures modName !in knownNames && mod.Some? ==>
      r == Ok(ModsToAdd([mod.value] + getDependencies(mod.value))) && !loopEntered
  {
    loopEntered := false;
    var i := 0;
    while i < |knownNames|
      invariant 0 <= i <= |knownNames|
      invariant forall k :: 0 <= k < i ==> knownNames[k] != modName
    {
      if knownNames[i] == modName {
        return Ok(AlreadyKnown), false;
      }
      i := i + 1;
    }
    if mod.None? {
      return Err(UnboundLocalError), false;
    }
    var dependencies := getDependencies(mod.value);
    var count := |dependencies|;
    // `while len(dependencies) != count` right after `count = len(dependencies)`
    loopEntered := |dependencies| != count;
    r := Ok(ModsToAdd([mod.value] + dependencies));
  }
}
