/**
 * emthree/api.py: the asynchronous registry client of the `emthree` package.
 * Its limiter keeps a running total besides the window counter, returns
 * early on the first call of a window and compares with `==`; the clock is
 * an integer number of nanoseconds here (the source reads float seconds).
 */
module EmthreeApi {
  import opened Wrappers
  import opened Records
  import opened Limiter
  import ModtoolsModtool

  /** `reqcount`, `reqcount_total`, `last_req` and `init_req`. */
  datatype EmWindow = EmWindow(count: int, total: int, lastReq: int, initReq: int)

  /** The limiter state after one call and how long that call sleeps. */
  datatype EmTick = EmTick(window: EmWindow, sleep: nat)

  /** The invariant the limiter keeps. */
  predicate EmBounded(w: EmWindow)
  {
    0 <= w.count < MaxCalls && 0 <= w.total
  }

  /** One `ratelimit` call (emthree/api.py:17-32) at clock reading `now`. */
  function EmRatelimit(w: EmWindow, now: int): (t: EmTick)
    ensures EmBounded(w) ==> EmBounded(t.window)
    // the total counts every call, and `init_req` is taken at the very first one only
    ensures t.window.total == w.total + 1
    ensures t.window.initReq == if w.total + 1 == 1 then now else w.initReq
    // the first call of a window restarts it at `now` and checks nothing else
    ensures w.count + 1 == 1 ==> t == EmTick(EmWindow(1, w.total + 1, now, t.window.initReq), 0)
    // a sleep happens only on the call that reaches the limit within the window, for the rest of it
    ensures t.sleep > 0 <==> w.count + 1 != 1 && w.count + 1 == MaxCalls && now - w.lastReq < Minute
    ensures t.sleep > 0 ==> t.sleep == Minute - (now - w.lastReq) && t.window.count == 0
    // after sleeping, the window restarts at the clock reading after the sleep
    ensures t.sleep > 0 ==> t.window.lastReq == now + t.sleep
  {
    var count := w.count + 1;
    var total := w.total + 1;
    var initReq := if total == 1 then now else w.initReq;
    if count == 1 then
      EmTick(EmWindow(count, total, now, initReq), 0)
    else
      var elapsed := now - w.lastReq;
      if elapsed < Minute && count == MaxCalls then
        var sleep := Minute - elapsed;
        EmTick(EmWindow(0, total, now + sleep, initReq), sleep)
      else if elapsed >= Minute then
        EmTick(EmWindow(0, total, w.lastReq, initReq), 0)
      else
        EmTick(EmWindow(count, total, w.lastReq, initReq), 0)
  }

  /**
   * On a bounded state this limiter behaves as the one of modtools/modtool.py
   * with `last_req` as the window start: the same counter and the same sleep;
   * the window start differs only after a sleep, when the counter is 0 and the
   * next call restarts the window anyway.
   */
  lemma EmRatelimitAgreesWithWindowTick(w: EmWindow, now: int)
    requires EmBounded(w)
    ensures var t := EmRatelimit(w, now);
            var u := WindowTick(Window(w.count, w.lastReq), now);
      && t.window.count == u.window.count
      && t.sleep == u.sleep
      && (t.sleep == 0 ==> t.window.lastReq == u.window.accessTime)
  {
  }

  /** `n` calls one right after the other from clock reading `now`: the final state and clock reading. */
  function EmTicks(w: EmWindow, now: int, n: nat): (r: (EmWindow, int))
    ensures EmBounded(w) ==> EmBounded(r.0)
    ensures r.0.total == w.total + n
    ensures r.1 >= now
    decreases n
  {
    if n == 0 then (w, now)
    else
      var t := EmRatelimit(w, now);
      EmTicks(t.window, now + t.sleep, n - 1)
  }

  /** The running total never decreases, and `init_req` is fixed once a call was made. */
  lemma {:induction false} EmTicksKeepInit(w: EmWindow, now: int, n: nat)
    requires w.total >= 1
    ensures EmTicks(w, now, n).0.initReq == w.initReq
    decreases n
  {
    if n > 0 {
      var t := EmRatelimit(w, now);
      EmTicksKeepInit(t.window, now + t.sleep, n - 1);
    }
  }

  /** An entry the emthree `check_dependencies` returns: `{project_id, version_id}`. */
  datatype Edge = Edge(projectId: Option<string>, versionId: Option<string>)

  /** What `check_dependencies` returns: the required dependencies, in order, projected to the two ids. */
  function RequiredEdges(deps: seq<DependencyRecord>): (r: seq<Edge>)
    ensures |r| <= |deps|
    decreases |deps|
  {
    if deps == [] then []
    else
      (if IsRequired(deps[0]) then [Edge(deps[0].projectId, deps[0].versionId)] else []) + RequiredEdges(deps[1..])
  }

  /** The projection keeps order: it distributes over concatenation. */
  lemma {:induction false} RequiredEdgesAppend(a: seq<DependencyRecord>, b: seq<DependencyRecord>)
    ensures RequiredEdges(a + b) == RequiredEdges(a) + RequiredEdges(b)
    decreases |a|
  {
    if a == [] {
      assert a + b == b;
    } else {
      var c := a + b;
      assert c[0] == a[0] && c[1..] == a[1..] + b;
      var head := if IsRequired(a[0]) then [Edge(a[0].projectId, a[0].versionId)] else [];
      RequiredEdgesAppend(a[1..], b);
      calc {
        RequiredEdges(c);
        head + RequiredEdges(a[1..] + b);
        head + (RequiredEdges(a[1..]) + RequiredEdges(b));
        (head + RequiredEdges(a[1..])) + RequiredEdges(b);
        RequiredEdges(a) + RequiredEdges(b);
      }
    }
  }

  /**
   * The emthree client keeps the same entries as modtools/modtool.py: its
   * `project_id`s are that client's answer, one for one, and each entry
   * carries the `version_id` of the same dependency.
   */
  lemma {:induction false} RequiredEdgesRefineRequiredIds(deps: seq<DependencyRecord>)
    ensures |RequiredEdges(deps)| == |ModtoolsModtool.RequiredIds(deps)|
    ensures forall i :: 0 <= i < |RequiredEdges(deps)| ==>
      RequiredEdges(deps)[i].projectId == ModtoolsModtool.RequiredIds(deps)[i]
    ensures forall e :: e in RequiredEdges(deps) ==>
      exists i :: 0 <= i < |deps| && IsRequired(deps[i]) && e == Edge(deps[i].projectId, deps[i].versionId)
    decreases |deps|
  {
    if deps != [] {
      RequiredEdgesRefineRequiredIds(deps[1..]);
      forall e | e in RequiredEdges(deps[1..])
        ensures exists i :: 0 <= i < |deps| && IsRequired(deps[i]) && e == Edge(deps[i].projectId, deps[i].versionId)
      {
        var i :| 0 <= i < |deps[1..]| && IsRequired(deps[1..][i]) && e == Edge(deps[1..][i].projectId, deps[1..][i].versionId);
        assert deps[i + 1] == deps[1..][i];
      }
      if IsRequired(deps[0]) {
        var e0 := Edge(deps[0].projectId, deps[0].versionId);
        assert RequiredEdges(deps) == [e0] + RequiredEdges(deps[1..]);
        assert ModtoolsModtool.RequiredIds(deps) == [deps[0].projectId] + ModtoolsModtool.RequiredIds(deps[1..]);
      } else {
        assert RequiredEdges(deps) == RequiredEdges(deps[1..]);
        assert ModtoolsModtool.RequiredIds(deps) == ModtoolsModtool.RequiredIds(deps[1..]);
      }
    }
  }

  /** The loop of `check_dependencies` (emthree/api.py:73-79). */
  method CollectRequiredEdges(deps: seq<DependencyRecord>) returns (dep: seq<Edge>)
    ensures dep == RequiredEdges(deps)
  {
    dep := [];
    for i := 0 to |deps|
      invariant dep == RequiredEdges(deps[..i])
    {
      RequiredEdgesAppend(deps[..i], [deps[i]]);
      assert deps[..i + 1] == deps[..i] + [deps[i]];
      if deps[i].dependencyType == "required" {
        dep := dep + [Edge(deps[i].projectId, deps[i].versionId)];
      }
    }
    assert deps[..|deps|] == deps;
  }

  /** `location.removeprefix(prefix)`: one leading occurrence, if there is one. */
  function RemovePrefix(s: string, prefix: string): (r: string)
    ensures |prefix| <= |s| && s[..|prefix|] == prefix ==> s == prefix + r
    ensures !(|prefix| <= |s| && s[..|prefix|] == prefix) ==> r == s
  {
    if |prefix| <= |s| && s[..|prefix|] == prefix then s[|prefix|..] else s
  }

  /** The prefix `get_slug_from_id` strips from the redirect target (emthree/api.py:60). */
  const ModPath: string := "/mod/"

  /** A redirect to `/mod/<slug>` gives back the slug, whatever the slug holds. */
  lemma SlugRoundTrip(slug: string)
    ensures RemovePrefix(ModPath + slug, ModPath) == slug
  {
    assert (ModPath + slug)[..|ModPath|] == ModPath;
  }

  /** Only one leading prefix is removed: a doubled `/mod/` keeps its second copy. */
  lemma OnlyOnePrefixRemoved(slug: string)
    ensures RemovePrefix(ModPath + ModPath + slug, ModPath) == ModPath + slug
  {
    assert (ModPath + ModPath + slug)[..|ModPath|] == ModPath;
    assert (ModPath + ModPath + slug)[|ModPath|..] == ModPath + slug;
  }

  /** The order `fetch_versions` sorts by: `date_published`, ascending. */
  ghost predicate SortedByPublished(s: seq<Version>)
  {
    forall k, l :: 0 <= k < l < |s| ==> s[k].published <= s[l].published
  }

  /** Exchanges the neighbours at `j - 1` and `j`. */
  method SwapDown(a: array<Version>, j: int)
    requires 0 < j < a.Length
    modifies a
    ensures a[j - 1] == old(a[j]) && a[j] == old(a[j - 1])
    ensures forall k :: 0 <= k < a.Length && k != j - 1 && k != j ==> a[k] == old(a[k])
    ensures multiset(a[..]) == multiset(old(a[..]))
  {
    a[j - 1], a[j] := a[j], a[j - 1];
  }

  /** Moves `a[i]` down into the sorted prefix `a[..i]`; the rest of the array is left alone. */
  method InsertDown(a: array<Version>, i: int)
    requires 0 <= i < a.Length
    requires SortedByPublished(a[..i])
    modifies a
    ensures SortedByPublished(a[..i + 1])
    ensures forall k :: i < k < a.Length ==> a[k] == old(a[k])
    ensures multiset(a[..]) == multiset(old(a[..]))
  {
    var j := i;
    while j > 0 && a[j - 1].published > a[j].published
      invariant 0 <= j <= i
      invariant forall k :: i < k < a.Length ==> a[k] == old(a[k])
      invariant multiset(a[..]) == multiset(old(a[..]))
      invariant forall k, l :: 0 <= k < l <= i && k != j && l != j ==> a[k].published <= a[l].published
      invariant forall l :: j < l <= i ==> a[j].published <= a[l].published
    {
      SwapDown(a, j);
      j := j - 1;
    }
  }

  /** `all_versions.sort(key=...)`, in place (the stability Python guarantees is not stated). */
  method SortByPublished(a: array<Version>)
    modifies a
    ensures SortedByPublished(a[..])
    ensures multiset(a[..]) == multiset(old(a[..]))
  {
    for i := 0 to a.Length
      invariant SortedByPublished(a[..i])
      invariant multiset(a[..]) == multiset(old(a[..]))
    {
      InsertDown(a, i);
    }
    assert a[..a.Length] == a[..];
  }

  /** `ModrinthAPI` of emthree/api.py: the four limiter fields. */
  class ModrinthApi {
    var reqcount: int
    var reqcountTotal: int
    var lastReq: int
    var initReq: int

    function State(): EmWindow
      reads this
    {
      EmWindow(reqcount, reqcountTotal, lastReq, initReq)
    }

    ghost predicate Valid()
      reads this
    {
      EmBounded(State())
    }

    /** `__init__` at clock reading `now` (emthree/api.py:8-15). */
    constructor (now: int)
      ensures Valid() && State() == EmWindow(0, 0, now, now)
    {
      reqcount := 0;
      reqcountTotal := 0;
      lastReq := now;
      initReq := now;
    }

    /** `ratelimit` (emthree/api.py:17-32). */
    method Ratelimit(now: int) returns (sleep: nat)
      requires Valid()
      modifies this
      ensures Valid()
      ensures State() == EmRatelimit(old(State()), now).window
      ensures sleep == EmRatelimit(old(State()), now).sleep
    {
      reqcount := reqcount + 1;
      reqcountTotal := reqcountTotal + 1;
      if reqcountTotal == 1 {
        initReq := now;
      }
      if reqcount == 1 {
        lastReq := now;
        return 0;
      }
      var elapsed := now - lastReq;
      if elapsed < Minute && reqcount == MaxCalls {
        reqcount := 0;
        sleep := Minute - elapsed;
        lastReq := now + sleep;
      } else if elapsed >= Minute {
        reqcount := 0;
        sleep := 0;
      } else {
        sleep := 0;
      }
    }

    /** `ratelimit` `n` times in a row, the clock moving on by each sleep. */
    method RatelimitTimes(now: int, n: nat) returns (after: int)
      requires Valid()
      modifies this
      ensures Valid()
      ensures (State(), after) == EmTicks(old(State()), now, n)
    {
      after := now;
      var k := 0;
      while k < n
        invariant 0 <= k <= n && Valid()
        invariant EmTicks(old(State()), now, n) == EmTicks(State(), after, n - k)
      {
        var sleep := Ratelimit(after);
        after := after + sleep;
        k := k + 1;
      }
    }

    /**
     * `download` (emthree/api.py:39-54): `existing` are the files on disk. An
     * existing target is skipped with no request and no tick; otherwise one
     * tick, the file is created and its path returned.
     */
    method Download(now: int, fileToGet: FileRef, installDir: string, existing: set<string>)
      returns (r: Option<string>, files: set<string>)
      requires Valid()
      modifies this
      ensures Valid()
      ensures var target := JoinPath(installDir, fileToGet.filename);
        if target in existing then r == None && files == existing && State() == old(State())
        else r == Some(target) && files == existing + {target} && State() == EmTicks(old(State()), now, 1).0
    {
      var filePath := JoinPath(installDir, fileToGet.filename);
      if filePath !in existing {
        var _ := RatelimitTimes(now, 1);
        return Some(filePath), existing + {filePath};
      }
      r, files := None, existing;
    }

    /**
     * `get_slug_from_id` (emthree/api.py:56-60): one tick, then the redirect's
     * `location` header without its leading `/mod/`.
     */
    method GetSlugFromId(now: int, location: string) returns (slug: string)
      requires Valid()
      modifies this
      ensures Valid() && State() == EmTicks(old(State()), now, 1).0
      ensures slug == RemovePrefix(location, ModPath)
    {
      var _ := RatelimitTimes(now, 1);
      slug := RemovePrefix(location, ModPath);
    }

    /**
     * `fetch_versions` (emthree/api.py:62-67): one tick inside `get_async`,
     * then the answer `versions` sorted in place by publication time.
     */
    method FetchVersions(now: int, versions: array<Version>)
      requires Valid()
      modifies this, versions
      ensures Valid() && State() == EmTicks(old(State()), now, 1).0
      ensures SortedByPublished(versions[..])
      ensures multiset(versions[..]) == multiset(old(versions[..]))
    {
      var _ := RatelimitTimes(now, 1);
      SortByPublished(versions);
    }

    /**
     * `check_dependencies` (emthree/api.py:69-80): an explicit tick and the
     * one inside `get_async`, then the required entries of the answer.
     */
    method CheckDependencies(now: int, version: Version) returns (dep: seq<Edge>)
      requires Valid()
      modifies this
      ensures Valid() && State() == EmTicks(old(State()), now, 2).0
      ensures dep == RequiredEdges(version.dependencies)
    {
      var _ := RatelimitTimes(now, 2);
      dep := CollectRequiredEdges(version.dependencies);
    }
  }

  /** `Path(install_dir) / filename`, as a `/`-separated string. */
  function JoinPath(dir: string, name: string): (path: string)
    ensures |path| == |dir| + 1 + |name|
    // the directory, then one separator, then the file name
    ensures path[..|dir|] == dir && path[|dir|] == '/' && path[|dir| + 1..] == name
  {
    dir + "/" + name
  }
}
