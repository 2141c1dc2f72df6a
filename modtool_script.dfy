/**
 * The stand-alone script modtool.py: its own copy of the Modrinth client
 * (the same request-window limiter as modtools/modtool.py, an exclusive-create
 * download and the dependency lookup) and the reading of the user's CSV list.
 */
module ModtoolScript {
  import opened Wrappers
  import opened Records
  import opened Limiter
  import opened Seqs

  /** `modrinthAPI`: the limiter fields `reqCount` and `accessTime`. */
  class ModrinthApi {
    var reqCount: int
    var accessTime: int

    function State(): Window
      reads this
    {
      Window(reqCount, accessTime)
    }

    ghost predicate Valid()
      reads this
    {
      Bounded(State())
    }

    /** `__init__` at clock reading `now` (modtool.py:8-13). */
    constructor (now: int)
      ensures Valid() && State() == Window(0, now)
    {
      reqCount := 0;
      accessTime := now;
    }

    /**
     * `rateLimit` (modtool.py:15-26); both `time_ns()` readings are `now`, and
     * `sleep` is the argument handed to `time.sleep` (a count of nanoseconds).
     */
    method RateLimit(now: int) returns (sleep: nat)
      requires Valid()
      modifies this
      ensures Valid()
      ensures State() == WindowTick(old(State()), now).window
      ensures sleep == WindowTick(old(State()), now).sleep
    {
      reqCount := reqCount + 1;
      if reqCount == 1 {
        accessTime := now;
      }
      var elapsed := now - accessTime;
      if elapsed < Minute && reqCount >= MaxCalls {
        reqCount := 0;
        sleep := Minute - elapsed;
      } else if elapsed >= Minute {
        reqCount := 0;
        sleep := 0;
      } else {
        sleep := 0;
      }
    }

    /**
     * `download` (modtool.py:37-44): one tick, then `open(path, "xb")`, which
     * refuses an existing file. `existing` are the files already on disk.
     */
    method Download(now: int, path: string, existing: set<string>)
      returns (r: Result<(), Exception>, files: set<string>, sleep: nat)
      requires Valid()
      modifies this
      ensures Valid()
      ensures State() == WindowTick(old(State()), now).window
      ensures sleep == WindowTick(old(State()), now).sleep
      ensures path in existing ==> r == Err(FileExistsError) && files == existing
      ensures path !in existing ==> r == Ok(()) && files == existing + {path}
    {
      sleep := RateLimit(now);
      if path in existing {
        return Err(FileExistsError), existing, sleep;
      }
      r, files := Ok(()), existing + {path};
    }

    /**
     * `checkDependencies` (modtool.py:48-54): one tick for the `get`, then the
     * `project_id` of every object of `res["projects"]`, each object a dictionary.
     */
    method CheckDependencies(now: int, projects: seq<map<string, string>>)
      returns (r: Result<seq<string>, Exception>, sleep: nat)
      requires Valid()
      modifies this
      ensures Valid()
      ensures State() == WindowTick(old(State()), now).window
      ensures sleep == WindowTick(old(State()), now).sleep
      ensures r == ProjectIds(projects)
    {
      sleep := RateLimit(now);
      r := CollectProjectIds(projects);
    }
  }

  /** What `checkDependencies` returns for the project objects `projects`. */
  function ProjectIds(projects: seq<map<string, string>>): (r: Result<seq<string>, Exception>)
    decreases |projects|
  {
    if projects == [] then Ok([])
    else
      match ProjectIds(projects[..|projects| - 1])
      case Err(e) => Err(e)
      case Ok(ids) =>
        var project := projects[|projects| - 1];
        if "project_id" in project then Ok(ids + [project["project_id"]]) else Err(KeyError)
  }

  /**
   * Every object is kept, whatever its type, in response order; an object
   * without a `project_id` key raises `KeyError`.
   */
  lemma {:induction false} ProjectIdsAll(projects: seq<map<string, string>>)
    ensures ProjectIds(projects).Ok? <==> forall i :: 0 <= i < |projects| ==> "project_id" in projects[i]
    ensures ProjectIds(projects).Err? ==> ProjectIds(projects).error == KeyError
    ensures ProjectIds(projects).Ok? ==>
      |ProjectIds(projects).value| == |projects| &&
      forall i :: 0 <= i < |projects| ==> ProjectIds(projects).value[i] == projects[i]["project_id"]
    decreases |projects|
  {
    if projects != [] {
      var init := projects[..|projects| - 1];
      ProjectIdsAll(init);
      assert forall i :: 0 <= i < |init| ==> init[i] == projects[i];
    }
  }

  /** The loop of `checkDependencies` (modtool.py:51-54). */
  method CollectProjectIds(projects: seq<map<string, string>>) returns (r: Result<seq<string>, Exception>)
    ensures r == ProjectIds(projects)
  {
    var dependencies := [];
    for i := 0 to |projects|
      invariant ProjectIds(projects[..i]) == Ok(dependencies)
    {
      var project := projects[i];
      assert projects[..i + 1][..i] == projects[..i];
      if "project_id" !in project {
        ProjectIdsAll(projects);
        return Err(KeyError);
      }
      dependencies := dependencies + [project["project_id"]];
    }
    assert projects[..|projects|] == projects;
    r := Ok(dependencies);
  }

  /** `s.replace(pat, '')`: occurrences removed in one left-to-right scan, without rescanning what is left. */
  function RemoveAll(s: string, pat: string): (r: string)
    requires pat != []
    ensures |r| <= |s|
    decreases |s|
  {
    if |s| < |pat| then s
    else if s[..|pat|] == pat then RemoveAll(s[|pat|..], pat)
    else [s[0]] + RemoveAll(s[1..], pat)
  }

  /** `pat` occurs in `s` at position `i`. */
  ghost predicate OccursAt(s: string, pat: string, i: int)
  {
    0 <= i && i + |pat| <= |s| && s[i..i + |pat|] == pat
  }

  /** A string without an occurrence of the pattern is left as it is. */
  lemma {:induction false} RemoveAllNoOccurrence(s: string, pat: string)
    requires pat != []
    requires forall i :: !OccursAt(s, pat, i)
    ensures RemoveAll(s, pat) == s
    decreases |s|
  {
    if |s| >= |pat| {
      assert !OccursAt(s, pat, 0);
      assert s[..|pat|] == s[0..0 + |pat|];
      forall i ensures !OccursAt(s[1..], pat, i) {
        if OccursAt(s[1..], pat, i) {
          assert s[1..][i..i + |pat|] == s[i + 1..i + 1 + |pat|];
          assert OccursAt(s, pat, i + 1);
        }
      }
      RemoveAllNoOccurrence(s[1..], pat);
    }
  }

  /**
   * An occurrence after plain text is removed too, not only a leading one:
   * text that cannot start the pattern is kept and the scan goes on past it.
   */
  lemma {:induction false} RemoveAllInterior(x: string, y: string, pat: string)
    requires pat != []
    requires forall i :: 0 <= i < |x| ==> x[i] != pat[0]
    ensures RemoveAll(x + pat + y, pat) == x + RemoveAll(y, pat)
    decreases |x|
  {
    var s := x + pat + y;
    assert |s| >= |pat|;
    if x == [] {
      assert s == pat + y;
      assert s[..|pat|] == pat && s[|pat|..] == y;
    } else {
      assert s[0] == x[0] && s[..|pat|][0] == s[0];
      assert s[..|pat|] != pat;
      assert s[1..] == x[1..] + pat + y;
      RemoveAllInterior(x[1..], y, pat);
      assert RemoveAll(s, pat) == [x[0]] + RemoveAll(s[1..], pat);
      assert [x[0]] + x[1..] == x;
    }
  }

  /** The two URL prefixes `parseUserModList` removes (modtool.py:79-80). */
  const PrefixA: string := "https://modrinth.com/mod/"
  const PrefixB: string := "https://modrinth.com/datapack/"
  /** The columns it reads (modtool.py:81-82). */
  const ColumnModrinthLink: nat := 4
  const ColumnServerSide: nat := 8

  /** A string without `/` contains no pattern that has one. */
  lemma SlashFreeHasNoOccurrence(s: string, pat: string, k: nat)
    requires k < |pat| && pat[k] == '/'
    requires forall i :: 0 <= i < |s| ==> s[i] != '/'
    ensures forall i :: !OccursAt(s, pat, i)
  {
  }

  /** A row's name: column 4 with every occurrence of both prefixes removed (modtool.py:88). */
  function KeptName(row: seq<string>): (name: string)
    requires |row| > ColumnModrinthLink
    ensures |name| <= |row[ColumnModrinthLink]|
  {
    RemoveAll(RemoveAll(row[ColumnModrinthLink], PrefixA), PrefixB)
  }

  /** A datapack URL holds no mod prefix: its text differs early on, and a slug has no `/`. */
  lemma DatapackUrlHasNoModPrefix(slug: string)
    requires forall i :: 0 <= i < |slug| ==> slug[i] != '/'
    ensures forall i :: !OccursAt(PrefixB + slug, PrefixA, i)
  {
    var url := PrefixB + slug;
    assert |PrefixA| == 25 && |PrefixB| == 30;
    assert PrefixA[21] == 'm' && PrefixA[24] == '/';
    assert forall j :: 21 <= j <= 26 ==> PrefixB[j] != 'm';
    forall i ensures !OccursAt(url, PrefixA, i) {
      if 0 <= i && i + 25 <= |url| {
        var window := url[i..i + 25];
        if i <= 5 {
          assert window[21] == PrefixB[i + 21] != PrefixA[21];
        } else {
          assert window[24] == slug[i + 24 - 30] != PrefixA[24];
        }
      }
    }
  }

  /** A mod or datapack URL in column 4 gives back its slug (a slug has no `/`). */
  lemma UrlYieldsSlug(row: seq<string>, slug: string)
    requires |row| > ColumnModrinthLink
    requires row[ColumnModrinthLink] == PrefixA + slug || row[ColumnModrinthLink] == PrefixB + slug
    requires forall i :: 0 <= i < |slug| ==> slug[i] != '/'
    ensures KeptName(row) == slug
  {
    SlashFreeHasNoOccurrence(slug, PrefixA, 6);
    SlashFreeHasNoOccurrence(slug, PrefixB, 6);
    RemoveAllNoOccurrence(slug, PrefixA);
    RemoveAllNoOccurrence(slug, PrefixB);
    if row[ColumnModrinthLink] == PrefixA + slug {
      RemoveAllInterior([], slug, PrefixA);
      assert [] + PrefixA + slug == PrefixA + slug;
    } else {
      DatapackUrlHasNoModPrefix(slug);
      RemoveAllNoOccurrence(PrefixB + slug, PrefixA);
      RemoveAllInterior([], slug, PrefixB);
      assert [] + PrefixB + slug == PrefixB + slug;
    }
  }

  /** The row is marked for the server: column 8 is exactly `TRUE`. */
  predicate ServerSide(row: seq<string>)
    requires |row| > ColumnServerSide
  {
    row[ColumnServerSide] == "TRUE"
  }

  /** The names of the server-side rows, in row order (every row long enough), empty names included. */
  function ServerSideNames(rows: seq<seq<string>>): (names: seq<string>)
    requires forall i :: 0 <= i < |rows| ==> |rows[i]| > ColumnServerSide
    decreases |rows|
  {
    if rows == [] then []
    else
      var row := rows[|rows| - 1];
      ServerSideNames(rows[..|rows| - 1]) + if ServerSide(row) then [KeptName(row)] else []
  }

  /** `filter(None, ...)` on strings: the empty string is dropped. */
  predicate NonEmpty(name: string)
  {
    name != ""
  }

  /**
   * What `parseUserModList` returns for the CSV `rows`: `IndexError` as soon
   * as any row has no column 8, otherwise the non-empty server-side names.
   */
  function UserModList(rows: seq<seq<string>>): (r: Result<seq<string>, Exception>)
  {
    if exists i :: 0 <= i < |rows| && |rows[i]| <= ColumnServerSide then Err(IndexError)
    else Ok(Filter(ServerSideNames(rows), NonEmpty))
  }

  /** A name is listed exactly when some server-side row yields it and it is not empty. */
  lemma {:induction false} ServerSideNamesMembership(rows: seq<seq<string>>, name: string)
    requires forall i :: 0 <= i < |rows| ==> |rows[i]| > ColumnServerSide
    ensures name in ServerSideNames(rows) <==>
      exists i :: 0 <= i < |rows| && ServerSide(rows[i]) && KeptName(rows[i]) == name
    decreases |rows|
  {
    if rows != [] {
      var init := rows[..|rows| - 1];
      ServerSideNamesMembership(init, name);
      assert forall i :: 0 <= i < |init| ==> init[i] == rows[i];
    }
  }

  lemma UserModListMembership(rows: seq<seq<string>>, name: string)
    requires UserModList(rows).Ok?
    ensures name in UserModList(rows).value <==>
      name != "" && exists i :: 0 <= i < |rows| && ServerSide(rows[i]) && KeptName(rows[i]) == name
  {
    ServerSideNamesMembership(rows, name);
  }

  /**
   * One row of the loop: appending the row's name and filtering again gives
   * the filtered names of the rows so far.
   */
  lemma UserModListStep(rows: seq<seq<string>>, i: int)
    requires 0 <= i < |rows|
    requires forall j :: 0 <= j <= i ==> |rows[j]| > ColumnServerSide
    ensures var names := ServerSideNames(rows[..i]);
      Filter(ServerSideNames(rows[..i + 1]), NonEmpty) ==
        if ServerSide(rows[i]) then Filter(Filter(names, NonEmpty) + [KeptName(rows[i])], NonEmpty)
        else Filter(names, NonEmpty)
  {
    var names := ServerSideNames(rows[..i]);
    assert rows[..i + 1][..i] == rows[..i];
    assert rows[..i + 1][i] == rows[i];
    if ServerSide(rows[i]) {
      var name := KeptName(rows[i]);
      assert ServerSideNames(rows[..i + 1]) == names + [name];
      FilterAppend(Filter(names, NonEmpty), name, NonEmpty);
      FilterKeepsAll(Filter(names, NonEmpty), NonEmpty);
      FilterAppend(names, name, NonEmpty);
    } else {
      assert ServerSideNames(rows[..i + 1]) == names;
    }
  }

  /** `parseUserModList` (modtool.py:78-91) over the rows the CSV reader yields. */
  method ParseUserModList(rows: seq<seq<string>>) returns (r: Result<seq<string>, Exception>)
    ensures r == UserModList(rows)
  {
    var modList := [];
    for i := 0 to |rows|
      invariant forall j :: 0 <= j < i ==> |rows[j]| > ColumnServerSide
      invariant modList == Filter(ServerSideNames(rows[..i]), NonEmpty)
    {
      var row := rows[i];
      if |row| <= ColumnServerSide {
        return Err(IndexError);
      }
      UserModListStep(rows, i);
      if row[ColumnServerSide] == "TRUE" {
        var modName := RemoveAll(RemoveAll(row[ColumnModrinthLink], PrefixA), PrefixB);
        modList := modList + [modName];
        modList := Filter(modList, NonEmpty);
      }
    }
    assert rows[..|rows|] == rows;
    r := Ok(modList);
  }
}
