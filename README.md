# mcmodtools — a Dafny model of its mod-resolution core

mcmodtools is a command-line tool that picks Minecraft mods from the Modrinth
registry, resolves their dependencies and downloads them. It comes in three
generations that share one design: the stand-alone script `modtool.py`, the
synchronous `modtools` package and the asynchronous `emthree` package. This
project models their decision logic in Dafny and proves what it promises:

- the **version-selection state machine** of `modtools/mod.py`, which splits a
  mod's versions into those compatible with the game version and the fabric
  loader, picks the first release and the first non-release, compares their
  publication times and assigns a `VersionStatus` (the rules are proved for
  every version list: `ModtoolsMod.LatestOfRules`, `ModtoolsMod.LegacyOfRules`); also the `Mod` object's life
  cycle (selection flags, install, locating the file, the manifest entry);
- the three **request limiters** (300 calls per minute): the identical window
  counters of `modtools/modtool.py` and `modtool.py`, which share one
  specification function (`Limiter.WindowTick`), and the emthree variant,
  which keeps a running total, returns early on the first call and compares
  with `==`;
- the **response filters**: the required-dependency projections, the
  publication-time sort, removing the `/mod/` prefix, the download rules
  (exclusive create, skip if the file exists, the number of limiter ticks) and
  the dictionaries built from the registry's answers;
- **input validation**: the all-or-nothing user list (3–64 characters from a
  fixed class), the CSV reader of `modtool.py` and the `Y`/`n` prompt;
- **dependency discovery**: the fixpoint of `auto_get_dependencies`, the
  two-phase discovery of emthree's `init` (which explores two levels, not
  arbitrarily many), and `add_mod`, whose recursive loop never runs;
- the **status gating** of `get_mod` in both packages.

HTTP answers, file existence, prompt answers and the clock are parameters.
The clock is an integer number of nanoseconds. A sleep is returned as the
argument the source hands to `time.sleep`. Python exceptions are the `Exception` values of a `Result`.
State the source mutates in place lives in classes: the three registry
clients and the modtools `Mod`. Loops are methods proved against specification
functions. Each file is one module:

| file | module | models |
|---|---|---|
| `wrappers.dfy` | `Wrappers` | `Option`, `Result` |
| `records.dfy` | `Records` | version and dependency records, the exceptions raised |
| `seqs.dfy` | `Seqs` | `filter` and `next(...)` on sequences |
| `limiter.dfy` | `Limiter` | the window limiter of `modtools/modtool.py` and `modtool.py` |
| `modtools_modtool.dfy` | `ModtoolsModtool` | `modtools/modtool.py` |
| `modtools_mod.dfy` | `ModtoolsMod` | `modtools/mod.py` |
| `modtools_utils.dfy` | `ModtoolsUtils` | `modtools/utils.py`, and `load_userlist`/`prompt` of `emthree/utils.py` |
| `modtool_script.dfy` | `ModtoolScript` | `modtool.py` |
| `emthree_api.dfy` | `EmthreeApi` | `emthree/api.py` |
| `emthree_utils.dfy` | `EmthreeUtils` | `get_mod` of `emthree/utils.py` |
| `emthree_app.dfy` | `EmthreeApp` | `init` and `add_mod` of `emthree/app.py` |

The limiters are documented as allowing 300 requests per minute. The code
sleeps on the 300th call of a window, so 299 calls go through undelayed.
The model follows the code (`Limiter.BurstSleepsOnLastCall`). In
`modtools/modtool.py` and `modtool.py` the argument handed to `time.sleep` is
the rest of the minute counted in nanoseconds, while `time.sleep` takes
seconds (see "## Findings"). `Limiter.Ticks` and the client classes read the
argument as nanoseconds, as intended. `Limiter.TicksAsWritten` reads it as
seconds.

## Model

| member | source | states |
|---|---|---|
| ModtoolsMod.Code | modtools/mod.py:8-16 | each status has its source code; the tens digit is 1 exactly for the "latest" statuses and 2 exactly for the legacy ones |
| ModtoolsMod.CompatibleMembership | modtools/mod.py:66-69 | a version is compatible iff it is in the list, supports fabric and lists the target game version |
| ModtoolsMod.CompatibleNonEmpty | modtools/mod.py:66-71 | the compatible list is non-empty iff some version is compatible (the branch taken at line 71) |
| ModtoolsMod.SelectVersionsAsWritten | modtools/mod.py:61-162 | as written: the internal-error `raise` is unreachable; the only failure is the unbound `status`, so LATEST_NONRELEASE_W_RELEASE is never returned; the alternate is set iff LEGACY_NONRELEASE_W_RELEASE; the version is the tuple `(None,)` iff UNAVAILABLE |
| ModtoolsMod.LatestOf | modtools/mod.py:71-111 | repaired "latest" branch: one of the three "latest" statuses; the chosen version is in the list; a release status chooses a release, a non-release-only status a non-release; an alternate exists iff the status is ambiguous, and it is then a non-release no older than the release |
| ModtoolsMod.LegacyOf | modtools/mod.py:112-159 | repaired "legacy" branch: a legacy status or UNAVAILABLE, UNAVAILABLE iff no version is for fabric, and then no version is stored; otherwise the chosen version is a fabric version of the list; release statuses choose a release, the non-release-only status a non-release; an alternate iff LEGACY_NONRELEASE_W_RELEASE, a fabric non-release no older than the release |
| ModtoolsMod.FirstPairRules | modtools/mod.py:74-111 | the comparison of the two `next(...)` results, restated over first matches: "release exists and is strictly newer (or no non-release)" iff the first release beats every first non-release; "both exist, non-release not older" iff the first matches compare so; each `next` result is the element at the first match |
| ModtoolsMod.LatestOfRules | modtools/mod.py:71-111 | for every non-empty compatible list: LATEST_NONRELEASE_ONLY iff it has no release, and then the first non-release is chosen; LATEST_RELEASE iff the first release is strictly newer than the first non-release or there is none; LATEST_NONRELEASE_W_RELEASE iff both exist and the non-release is not older; every other status chooses the first release, and the alternate is the first non-release |
| ModtoolsMod.LegacyOfRules | modtools/mod.py:112-159 | for every version list: LEGACY_NONRELEASE_ONLY iff there is a fabric non-release and no fabric release, and then the first fabric non-release is chosen; LEGACY_RELEASE iff the first fabric release is strictly newer than the first fabric non-release or there is none; LEGACY_NONRELEASE_W_RELEASE iff both exist and the non-release is not older; the release statuses choose the first fabric release, and the alternate is the first fabric non-release |
| ModtoolsMod.SelectVersions | modtools/mod.py:61-162 | repaired selection: a "latest" status iff some version is compatible; UNAVAILABLE iff no version supports fabric, and then nothing is chosen; the chosen and alternate versions come from the list, support fabric and match their status; the alternate exists iff the status is ambiguous; the "latest" rules decide iff a version is compatible (on the compatible list), the "legacy" rules otherwise (on the whole list) |
| ModtoolsMod.TiesFavourNonrelease | modtools/mod.py:99-111 | a release not strictly newer than the compatible non-release leaves the choice to the user, with the release as version and the non-release as alternate |
| ModtoolsMod.AsWrittenTiesRaise | modtools/mod.py:99-111 | as written, the same tie fails with UnboundLocalError |
| ModtoolsMod.AsWrittenAmbiguousLatestRaises | modtools/mod.py:106-111 | a compatible release and a newer compatible beta: as written, UnboundLocalError |
| ModtoolsMod.AmbiguousLatestSelected | modtools/mod.py:106-111 | the same versions, repaired: LATEST_NONRELEASE_W_RELEASE with the release and the beta |
| ModtoolsMod.AsWrittenUnavailableStoresTuple | modtools/mod.py:128-134 | with no fabric version, as written the status is UNAVAILABLE and the version the truthy tuple `(None,)` |
| ModtoolsMod.UnavailableStoresNothing | modtools/mod.py:128-134 | repaired, UNAVAILABLE stores no version, which is falsy |
| ModtoolsMod.AsWrittenNonreleaseIgnoresGameVersion | modtools/mod.py:79-84 | as written, a newer fabric beta for another game version is chosen over the fabric beta for the target game version, with status LATEST_NONRELEASE_ONLY |
| ModtoolsMod.NonreleaseCandidateIsCompatible | modtools/mod.py:79-84 | repaired, the beta for the target game version is chosen |
| ModtoolsMod.LegacyReleaseScenario | modtools/mod.py:112-145 | a fabric release that does not list the target game version gives LEGACY_RELEASE, both as written and repaired |
| ModtoolsMod.FetchDependencies | modtools/mod.py:164-170 | a chosen version yields the required ids of its registry answer; a missing version (TypeError caught) yields `None` |
| ModtoolsMod.Mod.constructor | modtools/mod.py:19-41 | without a version id the status and versions are those of the repaired selection `SelectVersions`, not of the source's `_get_versions` (which raises or stores `(None,)` in the cases under "## Findings"); with one, MANUAL and the fetched version; `_selected` iff the status is not ambiguous; dependencies are fetched iff selected; not installed, no path, not using the alternate |
| ModtoolsMod.Mod.UseAlt | modtools/mod.py:47-55 | repaired: only a mod with an ambiguous status switches to its alternate and becomes selected; any other mod is unchanged |
| ModtoolsMod.Mod.UseAltAsWritten | modtools/mod.py:47-55 | as written, calling `use_alt` raises TypeError on every mod and changes nothing |
| ModtoolsMod.Mod.InstallAsWritten | modtools/mod.py:178-184 | as written, always TypeError: without a version at once, with one after `download` has ticked the limiter once and subscripted the bare id string; the path and `installed` never change |
| ModtoolsMod.Mod.Install | modtools/mod.py:178-184 | repaired: without a version, TypeError before any request; otherwise the download's two ticks; IndexError without files and FileExistsError for an existing target leave the mod as it was; else the file is created and recorded as the mod's path, and the mod is installed |
| ModtoolsMod.Mod.LocateFile | modtools/mod.py:187-194 | the path when the file exists; `None` when it does not, and then `installed` is cleared; AttributeError when no path was ever set |
| ModtoolsMod.Mod.CreateDict | modtools/mod.py:199-209 | `None` iff not selected; version name and id from the alternate iff it is in use; the file name iff installed, else `NOT_INSTALLED`; a missing dependency list becomes `[]`; a selected mod without a version raises TypeError; an unassigned dependency list raises AttributeError, and a selected mod with a version fails only then |
| ModtoolsMod.AlternateChoiceLosesDependencies | modtools/mod.py:38-39 | for every version list whose selection is ambiguous: building the mod, switching it to its alternate and building its manifest entry raises AttributeError, as `__init__` never set `dependencies` |
| Limiter.WindowTick | modtools/modtool.py:12-23 | keeps `0 <= count < 300`; the first call of a window restarts it at `now`; sleeps iff the window is open and the count reached the limit, handing `time.sleep` the rest of the minute in nanoseconds (at most a minute's worth); the count restarts after a sleep or an expired window and otherwise counts the call |
| Limiter.Clocked | modtools/modtool.py:12-23 | several calls in a row, each sleep argument lasting a given number of nanoseconds, keep the bound and never move the clock back |
| Limiter.Ticks | modtools/modtool.py:12-23 | the same with the sleep argument read as nanoseconds, as intended: the bound is kept and the clock never goes back |
| Limiter.TicksAsWritten | modtools/modtool.py:20 | the same with the argument read as seconds, as `time.sleep` does: the bound is kept and the clock never goes back |
| Limiter.BurstFrom | modtools/modtool.py:17-21 | from a window of count k started at `now`, the calls up to the limit do not sleep and the last one sleeps a whole minute's argument, resetting the count |
| Limiter.BurstClock | modtools/modtool.py:12-23 | 300 calls in a row from a fresh window end with a zero count and the clock one minute's argument later |
| Limiter.BurstWaitsAMinute | modtools/modtool.py:17-21 | intended: 300 calls in a row from a fresh window hold the caller up for exactly one minute |
| Limiter.AsWrittenBurstWaitsMinuteInSeconds | modtools/modtool.py:20 | as written: the same 300 calls ask `time.sleep` for 60·10⁹ seconds, so the clock moves on by 60·10⁹ times a minute's worth of nanoseconds |
| Limiter.AsWrittenSleepOverrunsWindow | modtools/modtool.py:16-20 | a sleep read as nanoseconds ends exactly when the window does; read as seconds it ends `sleep·(10⁹ − 1)` ns later, past the window |
| Limiter.NoSleepBelowLimit | modtools/modtool.py:17-23 | inside one minute, calls below the limit never sleep and are all counted |
| Limiter.BurstSleepsOnLastCall | modtools/modtool.py:17-21 | 300 calls in one minute from a fresh window: the first 299 go through, the 300th hands `time.sleep` the rest of the minute in nanoseconds and resets the count |
| Limiter.SpacedCallsNeverSleep | modtools/modtool.py:22-23 | calls a minute or more apart never sleep |
| ModtoolsModtool.RequiredIdsMembership | modtools/modtool.py:59-63 | an id is returned iff some required dependency names it |
| ModtoolsModtool.RequiredIdsAppend | modtools/modtool.py:59-63 | the projection keeps response order: it distributes over concatenation |
| ModtoolsModtool.CollectRequiredIds | modtools/modtool.py:59-63 | the loop returns exactly the required dependencies' project ids, in order |
| ModtoolsModtool.ModrinthApi.constructor | modtools/modtool.py:5-10 | a zero count, the window starting at `now` |
| ModtoolsModtool.ModrinthApi.Ratelimit | modtools/modtool.py:12-23 | the new counter, window start and sleep are those of `Limiter.WindowTick`; the bound is kept |
| ModtoolsModtool.ModrinthApi.RatelimitTimes | modtools/modtool.py:12-23 | n calls in a row: the state and clock of `Limiter.Ticks` |
| ModtoolsModtool.ModrinthApi.CheckDependencies | modtools/modtool.py:56-63 | one limiter tick; the required ids of the version's dependencies |
| ModtoolsModtool.ModrinthApi.Download | modtools/modtool.py:34-44 | two ticks; IndexError without files; otherwise `path + files[0].filename` is created exclusively (FileExistsError if present) and the bare filename returned |
| ModtoolsModtool.ModrinthApi.GetMod | modtools/modtool.py:65-76 | IndexError after two ticks for an empty version list; otherwise three ticks and the dictionary of element 0: its name, id and date, the project's id and the required ids of the registry's record for that version |
| ModtoolScript.ModrinthApi.constructor | modtool.py:8-13 | a zero count, the window starting at `now` |
| ModtoolScript.ModrinthApi.RateLimit | modtool.py:15-26 | the same window tick as modtools/modtool.py; the bound is kept |
| ModtoolScript.ModrinthApi.Download | modtool.py:37-44 | one tick; an existing file raises FileExistsError and is not overwritten; otherwise it is created |
| ModtoolScript.ModrinthApi.CheckDependencies | modtool.py:48-54 | one tick; the `project_id` of every project object, in order, KeyError if one lacks it |
| ModtoolScript.ProjectIdsAll | modtool.py:51-54 | the result is defined iff every object has a `project_id`; it then holds every object's id, in order, with no type filtering; the only failure is KeyError |
| ModtoolScript.CollectProjectIds | modtool.py:51-54 | the loop computes exactly that result |
| ModtoolScript.RemoveAllNoOccurrence | modtool.py:88 | `replace(p, '')` leaves a string without an occurrence of `p` unchanged |
| ModtoolScript.RemoveAllInterior | modtool.py:88 | an occurrence after plain text is removed too, not only a leading one |
| ModtoolScript.DatapackUrlHasNoModPrefix | modtool.py:88 | a datapack URL whose slug has no `/` contains no occurrence of the mod URL prefix, so removing that prefix changes nothing |
| ModtoolScript.UrlYieldsSlug | modtool.py:79-88 | a mod or datapack URL in column 4 yields its slug |
| ModtoolScript.UserModListStep | modtool.py:86-90 | one more row adds its name to the non-empty server-side names iff it is marked `TRUE` |
| ModtoolScript.ServerSideNamesMembership | modtool.py:86-89 | a name is collected iff some row marked `TRUE` in column 8 yields it |
| ModtoolScript.UserModListMembership | modtool.py:86-90 | a name is returned iff it is non-empty and some server-side row yields it |
| ModtoolScript.ParseUserModList | modtool.py:78-91 | IndexError iff some row has no column 8; otherwise the non-empty server-side names, in row order |
| EmthreeApi.EmRatelimit | emthree/api.py:17-32 | keeps `0 <= count < 300`; the total counts every call; `init_req` is set at the first call only; the first call of a window restarts it and checks nothing; sleeps iff the count equals the limit inside the window, for the rest of it, then resets the count and restarts the window after the sleep |
| EmthreeApi.EmRatelimitAgreesWithWindowTick | emthree/api.py:17-32 | on bounded states it has the same counter and sleep as the modtools limiter, and the same window start unless it slept |
| EmthreeApi.EmTicks | emthree/api.py:17-32 | n calls keep the bound, add n to the total and never move the clock back |
| EmthreeApi.EmTicksKeepInit | emthree/api.py:19-20 | once a call was made, `init_req` never changes |
| EmthreeApi.RequiredEdgesRefineRequiredIds | emthree/api.py:73-79 | the entries kept are those of modtools, one for one, each with the `project_id` and `version_id` of a required dependency |
| EmthreeApi.CollectRequiredEdges | emthree/api.py:73-79 | the loop returns exactly the required entries, in order |
| EmthreeApi.RemovePrefix | emthree/api.py:60 | a leading prefix is removed; any other string is unchanged |
| EmthreeApi.SlugRoundTrip | emthree/api.py:60 | a redirect to `/mod/<slug>` gives back the slug |
| EmthreeApi.OnlyOnePrefixRemoved | emthree/api.py:60 | only one leading `/mod/` is removed |
| EmthreeApi.SortByPublished | emthree/api.py:66 | the array is sorted ascending by publication time and is a permutation of what it was |
| EmthreeApi.JoinPath | emthree/api.py:41 | the directory and the file name joined by one separator |
| EmthreeApi.ModrinthApi.constructor | emthree/api.py:8-15 | zero counters; the window start and `init_req` at `now` |
| EmthreeApi.ModrinthApi.Ratelimit | emthree/api.py:17-32 | the new fields and sleep are those of `EmRatelimit`; the bound is kept |
| EmthreeApi.ModrinthApi.RatelimitTimes | emthree/api.py:17-32 | n calls in a row: the state and clock of `EmTicks` |
| EmthreeApi.ModrinthApi.Download | emthree/api.py:39-54 | an existing target: `None`, no tick, nothing written; otherwise one tick, the file created and its path returned |
| EmthreeApi.ModrinthApi.GetSlugFromId | emthree/api.py:56-60 | one tick; the `location` header without its leading `/mod/` |
| EmthreeApi.ModrinthApi.FetchVersions | emthree/api.py:62-67 | one tick; the answer sorted in place by publication time, a permutation of it |
| EmthreeApi.ModrinthApi.CheckDependencies | emthree/api.py:69-80 | two ticks (the explicit one and the one inside `get_async`); the required entries |
| ModtoolsUtils.StripNewlines | modtools/utils.py:71 | `rstrip('\n')` removes trailing newlines only: the result is a prefix, the rest is newlines, and it does not end in one |
| ModtoolsUtils.ParseUserlistSomeIff | modtools/utils.py:69-79 | the parse gives a list iff every stripped line is 3–64 allowed characters |
| ModtoolsUtils.ParseUserlistNames | modtools/utils.py:69-79 | a list that is given holds every stripped line, in file order |
| ModtoolsUtils.ParseUserlistAllOrNothing | modtools/utils.py:69-79 | a list is returned iff every stripped line is 3–64 allowed characters; it then holds every name, in file order |
| ModtoolsUtils.UserlistRoundTrip | modtools/utils.py:65-80 | valid names written one per line load back as the same names |
| ModtoolsUtils.UserlistStopsAt | modtools/utils.py:74-76 | one invalid line makes the whole result `None` |
| ModtoolsUtils.LoadUserlist | modtools/utils.py:65-80 | `None` for a missing file; otherwise the all-or-nothing parse of its lines (the emthree copy at emthree/utils.py:62-77 is the same code) |
| ModtoolsUtils.Prompt | modtools/utils.py:42-48 | the first input exactly `Y` or `n` decides (`Y` iff true); every input before it is re-asked; no answer iff none of the inputs is one (the emthree copy at emthree/utils.py:39-45 is the same code) |
| ModtoolsUtils.GetModGate | modtools/utils.py:85-97 | kept iff not UNAVAILABLE and, for a legacy status, the continue question was answered yes; the continue question iff legacy; the bleeding-edge question iff kept and ambiguous, after the continue question; `use_alt` called iff that question was answered yes |
| ModtoolsUtils.GetMod | modtools/utils.py:82-98 | with the repaired `use_alt`: returns the mod iff the gate keeps it; the mod switches to its alternate iff `use_alt` is called, and is otherwise unchanged |
| ModtoolsUtils.GetModAsWritten | modtools/utils.py:82-98 | as written: raises TypeError iff `use_alt` is called (a "yes" to the bleeding-edge question); otherwise returns the mod iff the gate keeps it |
| ModtoolsUtils.BatchGetMod | modtools/utils.py:100-107 | one entry per query, in query order, `None` entries included |
| ModtoolsUtils.SomeValues | modtools/utils.py:153 | the filter keeps exactly the values of the non-`None` entries |
| ModtoolsUtils.KnownDependencies | modtools/utils.py:141 | the set holds exactly the ids some mod references, `None` included |
| ModtoolsUtils.DiscoveryPass | modtools/utils.py:146-149 | appends to the recorded ids, keeps them distinct, and records exactly the known ids that are no mod's project; a pass that finds nothing new changes nothing |
| ModtoolsUtils.AutoGetDependencies | modtools/utils.py:140-155 | returns each id that some mod references and no mod is, exactly once; one pass when nothing is missing, two otherwise |
| EmthreeUtils.EmGetModGate | emthree/utils.py:84-97 | the same keep and question rules; `use_alt` is called exactly when the bleeding-edge question is asked, with its answer |
| EmthreeUtils.EmGateRefinesModtoolsGate | emthree/utils.py:84-97 | both packages keep the same mods after the same questions; only a "no" differs: emthree calls `use_alt(False)`, modtools calls nothing |
| EmthreeUtils.EmGetMod | emthree/utils.py:79-98 | the mod is returned iff kept; an ambiguous mod records the answer passed to `use_alt`; any other mod is returned unchanged |
| EmthreeUtils.LegacyAmbiguousAsksBoth | emthree/utils.py:84-97 | LEGACY_NONRELEASE_W_RELEASE asks the continue question first and then the bleeding-edge one; declining the first asks nothing more |
| EmthreeApp.StartInit | emthree/app.py:14-34 | a named list that is not a file ends `init`; set up from the user list iff it is valid and non-empty and either there is no generated list or the override is confirmed; the override question iff both lists exist; reload the generated names iff there is no usable user list and the generated list exists; a declined override loads nothing |
| EmthreeApp.InvalidUserlistReloadsGenerated | emthree/app.py:15-31 | a user list that fails validation falls back to the generated list, without a question |
| EmthreeApp.ToAddMembers | emthree/app.py:51 | `to_add` holds exactly the dependencies whose project is not among the ids |
| EmthreeApp.ToAddSingle | emthree/app.py:51 | a mod with one dependency adds it iff its project is not yet among the ids |
| EmthreeApp.SweepAppendsKeys | emthree/app.py:50-59 | `ids` is append-only: a pass adds the keys of the fetched mods, in order |
| EmthreeApp.SweepSkipsKnown | emthree/app.py:50-59 | no dependency whose project was already in `ids` is fetched |
| EmthreeApp.FetchedProjectsRecorded | emthree/app.py:58-59 | recording `project_id`, every fetched project ends up among the ids |
| EmthreeApp.SweepFetchesEachProjectOnce | emthree/app.py:50-59 | recording `project_id`, a pass fetches each project at most once, provided every source lists each dependency project once and with an id, and the registry answers an entry with a mod of its project (a mod listing one project twice makes the source fetch it twice) |
| EmthreeApp.SweepStep | emthree/app.py:50-59 | the pass over one more mod extends the previous pass by that mod's new dependencies and their keys |
| EmthreeApp.SharedDependencyFirstStep | emthree/app.py:66-75 | the first of two mods needing an unknown project `c` fetches `c` and records the key of its mod |
| EmthreeApp.SharedDependencyById | emthree/app.py:66-75 | recording `mod.id`, when the mod fetched for `c` has an `id` other than `c`, the second mod fetches `c` again |
| EmthreeApp.SharedDependencyByProject | emthree/app.py:66-75 | recording `project_id`, the second mod finds `c` known and fetches nothing |
| EmthreeApp.SecondPhaseRefetchesById | emthree/app.py:66-75 | for a registry that answers `c` with a mod of project `c` whose `id` is not `c`, two mods that both need `c` fetch it twice by `mod.id`, once by `project_id` |
| EmthreeApp.LoadedIdsStayInFront | emthree/app.py:46-76 | through both phases the loaded mods' project ids stay the leading entries of `ids` |
| EmthreeApp.FetchAll | emthree/app.py:52-57 | the mod of every entry, in entry order |
| EmthreeApp.SweepMods | emthree/app.py:50-59 | the loop fetches exactly the pass's entries and grows `ids` as the pass does |
| EmthreeApp.DiscoverDependencies | emthree/app.py:46-78 | the `while` body runs once iff the first phase found something, else never; the result is the first-level dependencies plus theirs (two levels only); the loaded mods' ids stay in front |
| EmthreeApp.AddModAsWritten | emthree/app.py:104-111 | as written: a known name returns; any new name raises TypeError |
| EmthreeApp.AddModAsWrittenNeverAdds | emthree/app.py:108-111 | no new mod is ever added as written |
| EmthreeApp.AddMod | emthree/app.py:104-121 | a known name returns unchanged; a dropped mod leaves `dependencies` unbound (UnboundLocalError); otherwise the mod and its direct dependencies, and the `while` body is never entered |

## Left out

- HTTP, aiohttp sessions, redirects and status checks. Registry answers are parameters.
- Concurrency: `asyncio.gather`, `as_completed` and the thread pool of `idfyUserModList`. The model is sequential.
- Wall-clock time and `time.sleep`. The clock is an integer parameter; a sleep is returned as the argument handed to `time.sleep` (the emthree limiter's is a duration in seconds, here nanoseconds).
- ISO 8601 parsing. Publication times are integers.
- File contents, JSON, configuration and the chunked writes of the emthree download. File existence is a set of paths.
- `load_config`, `parse_args`, `main`, `list_installed`, `create_modlist`, `batch_download` and the CLI modules `modtools/app.py` and `modtools/main.py`. These are I/O and orchestration.
- The import-time tail of `modtool.py` (lines 75, 111-113) and `idfyUserModList`. They run argparse and network calls.
- `get` and `fetch_versions` of `modtools/modtool.py` are represented by their answers. The loader and game-version query parameters are not modelled.
- `Mod.get_dependencies` and `update` of `modtools/mod.py`. Each dependency becomes a new `Mod` built by a network call; `update` does nothing.
- The `selected` property of `modtools/mod.py` (lines 57-59). It recurses until the stack overflows, so no caller can read it.
- modtools/mod.py:2 imports `MODRINTH_API`, which `modtools/modtool.py` does not define, so the package as written fails at import. The model passes the shared registry client to the methods that use it (`ModtoolsMod.Mod.InstallAsWritten`, `ModtoolsMod.Mod.Install`).
- ModtoolsMod.Mod.constructor: `slug` is a parameter. For `is_slug=False` the source calls `get_slug_from_id` (modtools/mod.py:23), which the modtools client does not have, so it raises AttributeError; every `Mod` built by `get_dependencies` (line 175) takes that path. The registry lookups of `__init__` are parameters too.
- ModtoolsMod.Mod.Install: `download` writes to `installDir + name` by string concatenation, and the repaired install records the path as directory `installDir` and name `name`; the separator is taken to be part of `installDir`. A `Path` argument, as annotated, would make that concatenation raise TypeError.
- `emthree/mod.py` is not part of this model. The emthree mod is a value with the attributes the modelled code reads.
- `add_mod` after line 121 (printing, the prompt and the write).
- Limiter.TicksAsWritten: moves the clock by the whole requested wait. On CPython, `time.sleep` refuses a wait too long for its 64-bit nanosecond clock (about 292 years) with OverflowError instead, which the burst from a fresh window would ask for; that exception is not modelled.
- ModtoolsMod.Mod.UseAlt: models the flag flip `use_alt` is meant to perform; the call as written is `ModtoolsMod.Mod.UseAltAsWritten` (see "## Findings"). Its body would also read the missing `self.versions`. The dependencies the body fetches are discarded, as in the source.
- ModtoolsUtils.IsWordChar: Python's Unicode `\w` is approximated by its ASCII part (letters, digits, underscore).
- ModtoolsUtils.LoadUserlist: the `except Exception` path for a file that exists but cannot be read is not modelled.
- ModtoolsUtils.LoadUserlist: the lines are taken after Python's text-mode newline translation (`\r\n` and `\r` arrive as `\n`), which is not modelled; a `\r` left in a name is rejected like any other disallowed character.
- ModtoolsUtils.AutoGetDependencies: the result's order follows Python set iteration, which is unspecified, so no order is stated.
- EmthreeApi.SortByPublished: Python's sort is stable; stability is not stated.
- EmthreeApi.JoinPath: `Path(dir) / name` is modelled as joining strings with `/`. Path normalisation and absolute names are not modelled.
- EmthreeApi.EmRatelimit: the float seconds of the source are integer nanoseconds here. The `last_req` taken after the sleep is the clock plus the sleep.
- EmthreeApp.SweepMods: the completion order of `as_completed` is taken to be entry order.
- EmthreeApp.DiscoverDependencies: the resolver always returns a mod. A dependency `get_mod` drops (`None`) would crash on `d.slug`; that crash is not modelled.
- EmthreeApp.AddMod: the never-entered `while` loop is modelled as one evaluation of its guard, which is proved false.
- ModtoolsModtool.ModrinthApi.CheckDependencies: the response is a typed record, so a missing key (KeyError) is not modelled. The `modtool.py` client uses maps and does model KeyError.

## Findings

| source | as written | input that shows it | evidently intended | confidence | as-written member | corrected member |
|---|---|---|---|---|---|---|
| modtools/mod.py:106-111 | the ambiguous-latest branch assigns `self.version_status`/`self.version`/`self.version_alt`; line 160 then reads the unbound local `status` | a fabric release published at 1 and a newer fabric beta at 2, both for the target game version | status LATEST_NONRELEASE_W_RELEASE with the release as version and the beta as alternate | not executed | ModtoolsMod.AsWrittenAmbiguousLatestRaises | ModtoolsMod.AmbiguousLatestSelected |
| modtools/mod.py:133 | `version = None,` stores the truthy tuple `(None,)` | any version list without a fabric version | `version = None` | not executed | ModtoolsMod.AsWrittenUnavailableStoresTuple | ModtoolsMod.UnavailableStoresNothing |
| modtools/mod.py:80-84 | the latest non-release is taken from all versions, with no game-version filter | a fabric beta at 5 for 1.20.1 and a fabric beta at 3 for 1.21.1, target 1.21.1 (`fetch_versions` is called without a game version, so both are listed) | probably the first non-release among the compatible versions, the beta at 3: the status comments at lines 10-11 promise an alpha/beta for the target game version. Uncertain: the wider search may be a deliberate bias towards the newest build | not executed; intent uncertain | ModtoolsMod.AsWrittenNonreleaseIgnoresGameVersion | ModtoolsMod.NonreleaseCandidateIsCompatible |
| emthree/app.py:75 | the second phase records `mod.id` where the first records `mod.project_id` | two first-level dependencies that both need only project `c`, not yet known, whose registry mod has project `c` and an `id` other than `c` | record `mod.project_id`, so each project is fetched once | not executed | EmthreeApp.SecondPhaseRefetchesById | EmthreeApp.SweepFetchesEachProjectOnce |
| modtools/mod.py:181 | `download(version['id'], install_dir)` passes the bare version id; `download` (modtools/modtool.py:37) subscripts it with `"version_id"` | any mod with a chosen version | pass the version's record to `download` and record the file it reports as the mod's path | not executed | ModtoolsMod.Mod.InstallAsWritten | ModtoolsMod.Mod.Install |
| modtools/modtool.py:20 | `time.sleep(self.minute - elapsed)` hands a count of nanoseconds to `time.sleep`, which takes seconds; modtool.py:23 does the same | 300 calls in a row from a fresh window | sleep `(self.minute - elapsed) / 10**9` seconds, to the end of the minute | not executed | Limiter.AsWrittenBurstWaitsMinuteInSeconds | Limiter.BurstWaitsAMinute |
| modtools/mod.py:47-55 | `@using_alt_ver.setter def use_alt(self)` makes `use_alt` a property, so `mod.use_alt()` (modtools/utils.py:96) calls a bool and raises TypeError | any "yes" to the bleeding-edge question in `get_mod` | a method `use_alt` that switches an ambiguous mod to its alternate and selects it | not executed | ModtoolsMod.Mod.UseAltAsWritten | ModtoolsMod.Mod.UseAlt |
| emthree/app.py:111 | `ModrinthAPI()` is called without the session its constructor requires | any mod name not yet in the manifest | create the client with a session, as `init` does at line 39 | not executed | EmthreeApp.AddModAsWrittenNeverAdds | EmthreeApp.AddMod |
