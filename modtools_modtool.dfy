/**
 * modtools/modtool.py: the registry client of the `modtools` package. The
 * HTTP responses are parameters; what the client does with them, and with its
 * request counter, is modelled.
 */
module ModtoolsModtool {
  import opened Wrappers
  import opened Records
  import opened Limiter

  /** What `check_dependencies` returns: the `project_id` of every `required` dependency, in response order. */
  function RequiredIds(deps: seq<DependencyRecord>): (r: seq<Option<string>>)
    ensures |r| <= |deps|
    decreases |deps|
  {
    if deps == [] then []
    else (if IsRequired(deps[0]) then [deps[0].projectId] else []) + RequiredIds(deps[1..])
  }

  /** The projection keeps response order: it distributes over concatenation. */
  lemma {:induction false} RequiredIdsAppend(a: seq<DependencyRecord>, b: seq<DependencyRecord>)
    ensures RequiredIds(a + b) == RequiredIds(a) + RequiredIds(b)
    decreases |a|
  {
    if a == [] {
      assert a + b == b;
    } else {
      var c := a + b;
      assert c[0] == a[0] && c[1..] == a[1..] + b;
      var head := if IsRequired(a[0]) then [a[0].projectId] else [];
      RequiredIdsAppend(a[1..], b);
      calc {
        RequiredIds(c);
        head + RequiredIds(a[1..] + b);
        head + (RequiredIds(a[1..]) + RequiredIds(b));
        (head + RequiredIds(a[1..])) + RequiredIds(b);
        RequiredIds(a) + RequiredIds(b);
      }
    }
  }

  /** An id is in the result exactly when some required dependency names it. */
  lemma {:induction false} RequiredIdsMembership(deps: seq<DependencyRecord>, id: Option<string>)
    ensures id in RequiredIds(deps) <==>
            exists i :: 0 <= i < |deps| && IsRequired(deps[i]) && deps[i].projectId == id
    decreases |deps|
  {
    if deps != [] {
      RequiredIdsMembership(deps[1..], id);
      if exists i :: 0 <= i < |deps[1..]| && IsRequired(deps[1..][i]) && deps[1..][i].projectId == id {
        var i :| 0 <= i < |deps[1..]| && IsRequired(deps[1..][i]) && deps[1..][i].projectId == id;
        assert deps[i + 1] == deps[1..][i];
      }
      if exists i :: 0 <= i < |deps| && IsRequired(deps[i]) && deps[i].projectId == id {
        var i :| 0 <= i < |deps| && IsRequired(deps[i]) && deps[i].projectId == id;
        if i > 0 {
          assert deps[1..][i - 1] == deps[i];
        }
      }
    }
  }

  /** The loop of `check_dependencies` (modtools/modtool.py:59-63). */
  method CollectRequiredIds(deps: seq<DependencyRecord>) returns (dep: seq<Option<string>>)
    ensures dep == RequiredIds(deps)
  {
    dep := [];
    for i := 0 to |deps|
      invariant dep == RequiredIds(deps[..i])
    {
      RequiredIdsAppend(deps[..i], [deps[i]]);
      assert deps[..i + 1] == deps[..i] + [deps[i]];
      if IsRequired(deps[i]) {
        dep := dep + [deps[i].projectId];
      }
    }
    assert deps[..|deps|] == deps;
  }

  /** The dictionary `get_mod` builds. */
  datatype ModDict = ModDict(
    name: string,
    projectId: string,
    versionId: string,
    date: int,
    dependencies: seq<Option<string>>)

  class ModrinthApi {
    var reqcount: int
    var accesstime: int

    function State(): Window
      reads this
    {
      Window(reqcount, accesstime)
    }

    ghost predicate Valid()
      reads this
    {
      Bounded(State())
    }

    constructor (now: int)
      ensures Valid() && State() == Window(0, now)
    {
      reqcount := 0;
      accesstime := now;
    }

    /**
     * `ratelimit` (modtools/modtool.py:12-23), called at clock reading `now`;
     * `sleep` is the argument handed to `time.sleep` (a count of nanoseconds).
     */
    method Ratelimit(now: int) returns (sleep: nat)
      requires Valid()
      modifies this
      ensures Valid()
      ensures State() == WindowTick(old(State()), now).window
      ensures sleep == WindowTick(old(State()), now).sleep
    {
      reqcount := reqcount + 1;
      if reqcount == 1 {
        accesstime := now;
      }
      var elapsed := now - accesstime;
      if elapsed < Minute && reqcount >= MaxCalls {
        reqcount := 0;
        sleep := Minute - elapsed;
      } else if elapsed >= Minute {
        reqcount := 0;
        sleep := 0;
      } else {
        sleep := 0;
      }
    }

    /**
     * `ratelimit` `n` times in a row, the clock moving on by each sleep read as
     * nanoseconds, the intended reading (`Limiter.TicksAsWritten` is the other).
     */
    method RatelimitTimes(now: int, n: nat) returns (after: int)
      requires Valid()
      modifies this
      ensures Valid()
      ensures (State(), after) == Ticks(old(State()), now, n)
    {
      after := now;
      var k := 0;
      while k < n
        invariant 0 <= k <= n && Valid()
        invariant Ticks(old(State()), now, n) == Ticks(State(), after, n - k)
      {
        var sleep := Ratelimit(after);
        after := after + sleep;
        k := k + 1;
      }
    }

    /** `check_dependencies` (modtools/modtool.py:56-63): one request for the version, then the filter. */
    method CheckDependencies(now: int, version: Version) returns (dep: seq<Option<string>>)
      requires Valid()
      modifies this
      ensures Valid() && State() == Ticks(old(State()), now, 1).0
      ensures dep == RequiredIds(version.dependencies)
    {
      var _ := RatelimitTimes(now, 1);
      dep := CollectRequiredIds(version.dependencies);
    }

    /**
     * `download` (modtools/modtool.py:34-44): `version` is the registry's answer
     * for the mod's version id, `existing` the set of file paths already on disk.
     * The file written is the string concatenation of `path` and the first
     * file's name, created exclusively.
     */
    method Download(now: int, version: Version, path: string, existing: set<string>)
      returns (r: Result<string, Exception>, files: set<string>)
      requires Valid()
      modifies this
      ensures Valid() && State() == Ticks(old(State()), now, 2).0
      ensures version.files == [] ==> r == Err(IndexError) && files == existing
      ensures version.files != [] ==>
        var target := path + version.files[0].filename;
        if target in existing then r == Err(FileExistsError) && files == existing
        else r == Ok(version.files[0].filename) && files == existing + {target}
    {
      var _ := RatelimitTimes(now, 2);
      if version.files == [] {
        return Err(IndexError), existing;
      }
      var target := path + version.files[0].filename;
      if target in existing {
        return Err(FileExistsError), existing;
      }
      r, files := Ok(version.files[0].filename), existing + {target};
    }

    /**
     * `get_mod` (modtools/modtool.py:65-76): `projectId` is the `id` of the
     * project answer, `versions` the version list answer, `latest` the answer
     * for the first version's id.
     */
    method GetMod(now: int, projectId: string, versions: seq<Version>, latest: Version)
      returns (r: Result<ModDict, Exception>)
      requires Valid()
      requires versions != [] ==> latest.id == versions[0].id
      modifies this
      ensures Valid()
      ensures versions == [] ==> r == Err(IndexError) && State() == Ticks(old(State()), now, 2).0
      ensures versions != [] ==>
        && State() == Ticks(old(State()), now, 3).0
        && r == Ok(ModDict(versions[0].name, projectId, versions[0].id, versions[0].published,
                           RequiredIds(latest.dependencies)))
    {
      var after := RatelimitTimes(now, 2);
      if versions == [] {
        return Err(IndexError);
      }
      var first := versions[0];
      assert Ticks(old(State()), now, 3) == Ticks(State(), after, 1);
      var dependencies := CheckDependencies(after, latest);
      r := Ok(ModDict(first.name, projectId, first.id, first.published, dependencies));
    }
  }
}
