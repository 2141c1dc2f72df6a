/**
 * modtools/utils.py: loading and validating the user's list of mod names,
 * the yes/no prompt, the gating of a freshly selected mod, batch lookup and
 * the detection of missing dependencies. `load_userlist` and `prompt` are the
 * same code in emthree/utils.py, which uses the definitions here.
 */
module ModtoolsUtils {
  import opened Wrappers
  import opened Records
  import opened ModtoolsMod

  /**
   * Python's `\w` for a `str` pattern matches every Unicode letter and digit
   * and the underscore; this is its ASCII part.
   */
  predicate IsWordChar(c: char)
  {
    ('a' <= c <= 'z') || ('A' <= c <= 'Z') || ('0' <= c <= '9') || c == '_'
  }

  /** The character class `[\w!@$()`.+,"\-']` of modtools/utils.py:72. */
  predicate AllowedChar(c: char)
  {
    IsWordChar(c) || c in "!@$()`.+,\"-'"
  }

  /** `re.fullmatch("^[...]{3,64}$", name)` succeeds. */
  predicate ValidName(name: string)
  {
    3 <= |name| <= 64 && forall i :: 0 <= i < |name| ==> AllowedChar(name[i])
  }

  /** `line.rstrip('\n')`: every trailing newline removed, nothing else. */
  function StripNewlines(line: string): (r: string)
    ensures |r| <= |line| && r == line[..|r|]
    ensures forall i :: |r| <= i < |line| ==> line[i] == '\n'
    ensures r == [] || r[|r| - 1] != '\n'
    decreases |line|
  {
    if line != [] && line[|line| - 1] == '\n' then StripNewlines(line[..|line| - 1]) else line
  }

  /** What `load_userlist` returns for an existing file with these lines: all names, or `None` once a line is bad. */
  function ParseUserlist(lines: seq<string>): (r: Option<seq<string>>)
    decreases |lines|
  {
    if lines == [] then Some([])
    else
      match ParseUserlist(lines[..|lines| - 1])
      case None => None
      case Some(names) =>
        var name := StripNewlines(lines[|lines| - 1]);
        if ValidName(name) then Some(names + [name]) else None
  }

  /** A list is returned exactly when every stripped line is a valid name. */
  lemma {:induction false} ParseUserlistSomeIff(lines: seq<string>)
    ensures ParseUserlist(lines).Some? <==> forall i :: 0 <= i < |lines| ==> ValidName(StripNewlines(lines[i]))
    decreases |lines|
  {
    if lines != [] {
      var init := lines[..|lines| - 1];
      ParseUserlistSomeIff(init);
      if ParseUserlist(init).None? {
        var k :| 0 <= k < |init| && !ValidName(StripNewlines(init[k]));
        assert init[k] == lines[k];
      } else {
        assert forall i :: 0 <= i < |init| ==> init[i] == lines[i];
      }
    }
  }

  /** A returned list holds the stripped lines, in file order. */
  lemma {:induction false} ParseUserlistNames(lines: seq<string>)
    requires ParseUserlist(lines).Some?
    ensures |ParseUserlist(lines).value| == |lines|
    ensures forall i :: 0 <= i < |lines| ==> ParseUserlist(lines).value[i] == StripNewlines(lines[i])
    decreases |lines|
  {
    if lines != [] {
      var init := lines[..|lines| - 1];
      ParseUserlistNames(init);
      var names := ParseUserlist(init).value;
      assert ParseUserlist(lines).value == names + [StripNewlines(lines[|lines| - 1])];
      assert forall i :: 0 <= i < |init| ==> init[i] == lines[i];
    }
  }

  /** All or nothing: a list is returned exactly when every line is valid, and then it holds every name, in file order. */
  lemma ParseUserlistAllOrNothing(lines: seq<string>)
    ensures ParseUserlist(lines).Some? <==> forall i :: 0 <= i < |lines| ==> ValidName(StripNewlines(lines[i]))
    ensures ParseUserlist(lines).Some? ==>
      |ParseUserlist(lines).value| == |lines| &&
      forall i :: 0 <= i < |lines| ==> ParseUserlist(lines).value[i] == StripNewlines(lines[i])
  {
    ParseUserlistSomeIff(lines);
    if ParseUserlist(lines).Some? {
      ParseUserlistNames(lines);
    }
  }

  /** The file `names` written one per line, each line ending in `\n`. */
  function Lines(names: seq<string>): (r: seq<string>)
    ensures |r| == |names|
    decreases |names|
  {
    if names == [] then [] else Lines(names[..|names| - 1]) + [names[|names| - 1] + "\n"]
  }

  /** A valid name loses exactly its added newline. */
  lemma StripAddedNewline(name: string)
    requires ValidName(name)
    ensures StripNewlines(name + "\n") == name
  {
    var line := name + "\n";
    assert line[..|line| - 1] == name;
    assert AllowedChar(name[|name| - 1]);
  }

  /** Writing valid names one per line and loading them gives the names back. */
  lemma {:induction false} UserlistRoundTrip(names: seq<string>)
    requires forall i :: 0 <= i < |names| ==> ValidName(names[i])
    ensures ParseUserlist(Lines(names)) == Some(names)
    decreases |names|
  {
    if names != [] {
      var init := names[..|names| - 1];
      var lines := Lines(names);
      UserlistRoundTrip(init);
      assert lines[..|lines| - 1] == Lines(init);
      StripAddedNewline(names[|names| - 1]);
      assert init + [names[|names| - 1]] == names;
    }
  }

  /**
   * `load_userlist` (modtools/utils.py:65-80): `fileExists` is `list_path.exists()`,
   * `lines` the file's lines as iteration yields them (each with its `\n`).
   */
  method LoadUserlist(fileExists: bool, lines: seq<string>) returns (r: Option<seq<string>>)
    ensures !fileExists ==> r == None
    ensures fileExists ==> r == ParseUserlist(lines)
  {
    if !fileExists {
      return None;
    }
    var userlist := [];
    for i := 0 to |lines|
      invariant ParseUserlist(lines[..i]) == Some(userlist)
    {
      var name := StripNewlines(lines[i]);
      assert lines[..i + 1][..i] == lines[..i];
      if ValidName(name) {
        userlist := userlist + [name];
      } else {
        UserlistStopsAt(lines, i);
        return None;
      }
    }
    assert lines[..|lines|] == lines;
    r := Some(userlist);
  }

  /** An invalid line ends the parse with `None`, whatever follows. */
  lemma UserlistStopsAt(lines: seq<string>, i: nat)
    requires i < |lines| && !ValidName(StripNewlines(lines[i]))
    ensures ParseUserlist(lines) == None
  {
    ParseUserlistAllOrNothing(lines);
  }

  /** The answers `prompt` accepts. */
  predicate IsAnswer(input: string)
  {
    input == "Y" || input == "n"
  }

  /**
   * `prompt` (modtools/utils.py:42-48) reading the successive `inputs`: the
   * first exact `Y` or `n` decides. `None` means the inputs ran out first
   * (where `input()` would raise at end of file); `consumed` counts the
   * inputs read.
   */
  method Prompt(inputs: seq<string>) returns (r: Option<bool>, consumed: nat)
    ensures consumed <= |inputs|
    ensures r.None? <==> forall i :: 0 <= i < |inputs| ==> !IsAnswer(inputs[i])
    ensures r.None? ==> consumed == |inputs|
    ensures r.Some? ==>
      && 1 <= consumed && IsAnswer(inputs[consumed - 1])
      && (forall i :: 0 <= i < consumed - 1 ==> !IsAnswer(inputs[i]))
      && (r.value <==> inputs[consumed - 1] == "Y")
  {
    consumed := 0;
    while consumed < |inputs|
      invariant consumed <= |inputs|
      invariant forall i :: 0 <= i < consumed ==> !IsAnswer(inputs[i])
    {
      var input := inputs[consumed];
      consumed := consumed + 1;
      if input == "Y" {
        return Some(true), consumed;
      } else if input == "n" {
        return Some(false), consumed;
      }
    }
    r := None;
  }

  /** The two questions `get_mod` can ask. */
  datatype Question = ContinueUnsupported | UseBleedingEdge

  /**
   * The decision `get_mod` takes about a selected mod: whether it is kept,
   * the questions asked, in order, and the argument `use_alt` was called
   * with (`None` when it was not called).
   */
  datatype Gating = Gating(keep: bool, prompts: seq<Question>, useAltCall: Option<bool>)

  /**
   * The gating of modtools/utils.py:83-98, given the status and the answers
   * the two questions would get. Only a "yes" to the second calls `use_alt`.
   */
  function GetModGate(status: VersionStatus, continueAnswer: bool, alternateAnswer: bool): (g: Gating)
    // the legacy statuses need the user's consent; UNAVAILABLE is always dropped; the rest is kept
    ensures g.keep <==> status != Unavailable && (Legacy(status) ==> continueAnswer)
    ensures ContinueUnsupported in g.prompts <==> Legacy(status)
    // the alternate is offered for the ambiguous statuses that were not dropped before
    ensures UseBleedingEdge in g.prompts <==> g.keep && Ambiguous(status)
    // each question at most once, the continue question first
    ensures |g.prompts| <= 2 && (|g.prompts| == 2 ==> g.prompts == [ContinueUnsupported, UseBleedingEdge])
    ensures g.useAltCall.Some? <==> UseBleedingEdge in g.prompts && alternateAnswer
    ensures g.useAltCall.Some? ==> g.useAltCall.value
  {
    var asked := if Legacy(status) then [ContinueUnsupported] else [];
    if Legacy(status) && !continueAnswer then Gating(false, asked, None)
    else if status == Unavailable then Gating(false, asked, None)
    else if Ambiguous(status) then
      Gating(true, asked + [UseBleedingEdge], if alternateAnswer then Some(true) else None)
    else Gating(true, asked, None)
  }

  /**
   * `get_mod` (modtools/utils.py:82-98) on the mod it constructed: drops it or
   * returns it, after switching it to the alternate when the user asks for it.
   */
  method GetMod(mod: Mod, continueAnswer: bool, alternateAnswer: bool) returns (r: Option<Mod>)
    modifies mod`usingAltVer, mod`selected
    ensures var g := GetModGate(old(mod.versionStatus), continueAnswer, alternateAnswer);
      && (r == if g.keep then Some(mod) else None)
      && (g.useAltCall.Some? ==> mod.usingAltVer && mod.selected)
      && (g.useAltCall.None? ==> mod.usingAltVer == old(mod.usingAltVer) && mod.selected == old(mod.selected))
  {
    if Legacy(mod.versionStatus) && !continueAnswer {
      return None;
    }
    if mod.versionStatus == Unavailable {
      return None;
    }
    if Ambiguous(mod.versionStatus) && alternateAnswer {
      mod.UseAlt();
    }
    r := Some(mod);
  }

  /**
   * `get_mod` as written (modtools/utils.py:82-98): the call `mod.use_alt()`
   * raises TypeError (see `Mod.UseAltAsWritten`), so every "yes" to the
   * bleeding-edge question ends in that exception; otherwise the mod is
   * returned or dropped as the gate decides.
   */
  method GetModAsWritten(mod: Mod, continueAnswer: bool, alternateAnswer: bool) returns (r: Result<Option<Mod>, Exception>)
    ensures var g := GetModGate(mod.versionStatus, continueAnswer, alternateAnswer);
      && (g.useAltCall.Some? <==> r.Err?)
      && (g.useAltCall.Some? ==> r == Err(TypeError))
      && (g.useAltCall.None? ==> r == Ok(if g.keep then Some(mod) else None))
  {
    if Legacy(mod.versionStatus) && !continueAnswer {
      return Ok(None);
    }
    if mod.versionStatus == Unavailable {
      return Ok(None);
    }
    if Ambiguous(mod.versionStatus) && alternateAnswer {
      var raised := mod.UseAltAsWritten();
      return Err(raised.error);
    }
    r := Ok(Some(mod));
  }

  /** `batch_get_mod` (modtools/utils.py:100-107): `getMod(q)` is what `get_mod` yields for query `q`. */
  method BatchGetMod<T>(queries: seq<string>, getMod: string -> Option<T>) returns (mods: seq<Option<T>>)
    ensures |mods| == |queries|
    ensures forall i :: 0 <= i < |queries| ==> mods[i] == getMod(queries[i])
  {
    mods := [];
    for i := 0 to |queries|
      invariant |mods| == i
      invariant forall j :: 0 <= j < i ==> mods[j] == getMod(queries[j])
    {
      mods := mods + [getMod(queries[i])];
    }
  }

  /** One dictionary of the mod list: its project id and its dependency ids (possibly `None`). */
  datatype ModEntry = ModEntry(projectId: string, dependencies: seq<Option<string>>)

  /** `d` is referenced by some mod of the list. */
  ghost predicate Referenced(modlist: seq<ModEntry>, d: Option<string>)
  {
    exists i :: 0 <= i < |modlist| && d in modlist[i].dependencies
  }

  /** `d` is not the project id of any mod of the list (`None` never is). */
  ghost predicate NotListed(modlist: seq<ModEntry>, d: Option<string>)
  {
    forall i :: 0 <= i < |modlist| ==> Some(modlist[i].projectId) != d
  }

  /** The values of the `Some` entries, in order: `filter(lambda i: i is not None, ...)`. */
  function SomeValues(xs: seq<Option<string>>): (r: seq<string>)
    ensures forall d :: d in r <==> Some(d) in xs
    decreases |xs|
  {
    if xs == [] then []
    else (if xs[0].Some? then [xs[0].value] else []) + SomeValues(xs[1..])
  }

  lemma {:induction false} SomeValuesDistinct(xs: seq<Option<string>>)
    requires forall i, j :: 0 <= i < j < |xs| ==> xs[i] != xs[j]
    ensures forall i, j :: 0 <= i < j < |SomeValues(xs)| ==> SomeValues(xs)[i] != SomeValues(xs)[j]
    decreases |xs|
  {
    if xs != [] {
      SomeValuesDistinct(xs[1..]);
      if xs[0].Some? {
        assert xs[0] !in xs[1..];
      }
    }
  }

  /** The set of every dependency id of the list, `None` included (modtools/utils.py:141). */
  function KnownDependencies(modlist: seq<ModEntry>): (known: set<Option<string>>)
    ensures forall d :: d in known <==> Referenced(modlist, d)
  {
    var known := set i, j | 0 <= i < |modlist| && 0 <= j < |modlist[i].dependencies| :: modlist[i].dependencies[j];
    assert forall d :: Referenced(modlist, d) ==> d in known by {
      forall d | Referenced(modlist, d) ensures d in known {
        var i :| 0 <= i < |modlist| && d in modlist[i].dependencies;
        var j :| 0 <= j < |modlist[i].dependencies| && modlist[i].dependencies[j] == d;
      }
    }
    known
  }

  /**
   * One round of the `for d in dependencies` loop (modtools/utils.py:146-151):
   * every known id that is not a listed project and not yet recorded is appended.
   */
  method DiscoveryPass(modlist: seq<ModEntry>, known: set<Option<string>>, deps: seq<Option<string>>)
    returns (deps': seq<Option<string>>, newDiscovered: nat)
    requires forall i, j :: 0 <= i < j < |deps| ==> deps[i] != deps[j]
    ensures |deps| <= |deps'| && deps'[..|deps|] == deps
    ensures newDiscovered == |deps'| - |deps|
    ensures forall d :: d in deps' <==> d in deps || (d in known && NotListed(modlist, d))
    ensures forall i, j :: 0 <= i < j < |deps'| ==> deps'[i] != deps'[j]
    ensures (forall d :: d in known && NotListed(modlist, d) ==> d in deps) ==> deps' == deps
  {
    deps' := deps;
    newDiscovered := 0;
    var rest := known;
    while rest != {}
      invariant rest <= known
      invariant |deps| <= |deps'| && deps'[..|deps|] == deps
      invariant newDiscovered == |deps'| - |deps|
      invariant forall d :: d in deps' <==> d in deps || (d in known - rest && NotListed(modlist, d))
      invariant forall i, j :: 0 <= i < j < |deps'| ==> deps'[i] != deps'[j]
      invariant (forall d :: d in known && NotListed(modlist, d) ==> d in deps) ==> deps' == deps
      decreases |rest|
    {
      var d :| d in rest;
      rest := rest - {d};
      if (forall i :: 0 <= i < |modlist| ==> Some(modlist[i].projectId) != d) && d !in deps' {
        deps' := deps' + [d];
        newDiscovered := newDiscovered + 1;
      }
    }
  }

  /**
   * `auto_get_dependencies` (modtools/utils.py:140-155). The set of known
   * dependencies is iterated in an unspecified order, so the order of the
   * result is unspecified too. `passes` counts the rounds of the `while True`.
   */
  method AutoGetDependencies(modlist: seq<ModEntry>) returns (found: seq<string>, passes: nat)
    // every missing dependency id, each exactly once
    ensures forall d :: d in found <==> Referenced(modlist, Some(d)) && NotListed(modlist, Some(d))
    ensures forall i, j :: 0 <= i < j < |found| ==> found[i] != found[j]
    // a second pass adds nothing: one pass when nothing was missing, two otherwise
    ensures passes == 1 <==> forall d :: Referenced(modlist, d) ==> !NotListed(modlist, d)
    ensures passes == 1 || passes == 2
  {
    var known := KnownDependencies(modlist);
    var newDependencies: seq<Option<string>> := [];
    passes := 0;
    while true
      invariant passes <= 1
      invariant passes == 0 ==> newDependencies == []
      invariant forall i, j :: 0 <= i < j < |newDependencies| ==> newDependencies[i] != newDependencies[j]
      invariant passes == 1 ==> newDependencies != []
      invariant passes == 1 ==> forall d :: d in newDependencies <==> Referenced(modlist, d) && NotListed(modlist, d)
      decreases 2 - passes
    {
      var newDiscovered;
      newDependencies, newDiscovered := DiscoveryPass(modlist, known, newDependencies);
      passes := passes + 1;
      if newDiscovered == 0 {
        break;
      }
    }
    assert passes == 1 ==> newDependencies == [];
    if passes == 1 {
      forall d | Referenced(modlist, d) ensures !NotListed(modlist, d) {
        assert d !in newDependencies;
      }
    } else {
      var d := newDependencies[0];
      assert Referenced(modlist, d) && NotListed(modlist, d);
    }
    SomeValuesDistinct(newDependencies);
    found := SomeValues(newDependencies);
  }
}
