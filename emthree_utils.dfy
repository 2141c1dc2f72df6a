/**
 * emthree/utils.py: the asynchronous `get_mod` gating. Its `load_userlist`
 * and `prompt` are the same code as in modtools/utils.py and are modelled
 * there (`ModtoolsUtils.LoadUserlist`, `ModtoolsUtils.Prompt`).
 *
 * The emthree `Mod` class lives in a file that is not part of this model; a
 * mod is a value here, with the attributes the modelled code reads.
 */
module EmthreeUtils {
  import opened Wrappers
  import opened ModtoolsMod
  import opened ModtoolsUtils
  import opened EmthreeApi

  /**
   * An emthree mod: its slug, `project_id`, the attribute `id` (whatever the
   * class stores there), its version status, its required dependencies and
   * the argument of the last `use_alt` call (`None` before any).
   */
  datatype EmMod = EmMod(
    slug: string,
    projectId: string,
    id: Option<string>,
    versionStatus: VersionStatus,
    dependencies: seq<Edge>,
    altChoice: Option<bool>)

  /**
   * The gating of emthree/utils.py:84-97: the same questions as in modtools,
   * but the answer to the second is always passed on, as `use_alt(True)` or
   * `use_alt(False)`.
   */
  function EmGetModGate(status: VersionStatus, continueAnswer: bool, alternateAnswer: bool): (g: Gating)
    ensures g.keep <==> status != Unavailable && (Legacy(status) ==> continueAnswer)
    ensures ContinueUnsupported in g.prompts <==> Legacy(status)
    ensures UseBleedingEdge in g.prompts <==> g.keep && Ambiguous(status)
    ensures |g.prompts| <= 2 && (|g.prompts| == 2 ==> g.prompts == [ContinueUnsupported, UseBleedingEdge])
    // `use_alt` is called exactly when the question was asked, with its answer
    ensures g.useAltCall == if UseBleedingEdge in g.prompts then Some(alternateAnswer) else None
  {
    var asked := if Legacy(status) then [ContinueUnsupported] else [];
    if Legacy(status) && !continueAnswer then Gating(false, asked, None)
    else if status == Unavailable then Gating(false, asked, None)
    else if Ambiguous(status) then Gating(true, asked + [UseBleedingEdge], Some(alternateAnswer))
    else Gating(true, asked, None)
  }

  /**
   * The two packages gate alike: the same mods are kept after the same
   * questions; they differ only in that emthree also calls `use_alt(False)`
   * on a "no", where modtools calls nothing.
   */
  lemma EmGateRefinesModtoolsGate(status: VersionStatus, continueAnswer: bool, alternateAnswer: bool)
    ensures var e := EmGetModGate(status, continueAnswer, alternateAnswer);
            var m := GetModGate(status, continueAnswer, alternateAnswer);
      && e.keep == m.keep
      && e.prompts == m.prompts
      && (alternateAnswer ==> e.useAltCall == m.useAltCall)
      && (!alternateAnswer && UseBleedingEdge in e.prompts ==> e.useAltCall == Some(false) && m.useAltCall == None)
  {
  }

  /**
   * `get_mod` (emthree/utils.py:79-98) on the populated mod: `None` when it is
   * dropped, otherwise the mod with the `use_alt` argument recorded.
   */
  function EmGetMod(mod: EmMod, continueAnswer: bool, alternateAnswer: bool): (r: Option<EmMod>)
    ensures r.Some? <==> mod.versionStatus != Unavailable && (Legacy(mod.versionStatus) ==> continueAnswer)
    ensures r.Some? ==> r.value.projectId == mod.projectId && r.value.dependencies == mod.dependencies
    ensures r.Some? && Ambiguous(mod.versionStatus) ==> r.value.altChoice == Some(alternateAnswer)
    ensures r.Some? && !Ambiguous(mod.versionStatus) ==> r.value == mod
  {
    var g := EmGetModGate(mod.versionStatus, continueAnswer, alternateAnswer);
    if !g.keep then None
    else if g.useAltCall.Some? then Some(mod.(altChoice := g.useAltCall))
    else Some(mod)
  }

  /** A legacy mod with a newer non-release is asked both questions, the continue question first. */
  lemma LegacyAmbiguousAsksBoth(alternateAnswer: bool)
    ensures EmGetModGate(LegacyNonreleaseWRelease, true, alternateAnswer).prompts == [ContinueUnsupported, UseBleedingEdge]
    ensures EmGetModGate(LegacyNonreleaseWRelease, false, alternateAnswer).prompts == [ContinueUnsupported]
  {
  }
}
