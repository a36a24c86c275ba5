/** What the unused-asset finder decides, as functions of what it reads from the Unity
    editor: the asset catalogue, the build settings' scene list, the dependency closure
    of the enabled scenes, which paths are folders, and the text of each file. The window
    class in FinderWindow computes exactly these values with loops. */
module Detection {
  import opened PathText

  datatype Option<T> = None | Some(value: T)

  /** An entry of the build settings' scene list: its path and its "enabled" tick. */
  datatype Scene = Scene(path: string, enabled: bool)

  /** The editor and file-system state that one detection run reads. */
  datatype Project = Project(
    /** AssetDatabase.GetAllAssetPaths(), in the order it returns them. */
    allAssetPaths: seq<string>,
    /** EditorBuildSettings.scenes. */
    scenes: seq<Scene>,
    /** AssetDatabase.GetDependencies: the transitive dependencies of a list of root paths,
        taken as given. */
    getDependencies: seq<string> -> seq<string>,
    /** The paths for which Directory.Exists holds. */
    directories: set<string>,
    /** File.ReadAllText: the text of a path, or None where reading it throws. */
    files: map<string, Option<string>>)

  const AssetsPrefix := "Assets/"
  const ScriptExtension := ".cs"
  const MetaExtension := ".meta"

  /** File.ReadAllText, with a path the map does not know read as an unreadable file. */
  function ReadAllText(files: map<string, Option<string>>, path: string): Option<string>
  {
    if path in files then files[path] else None
  }

  // ---------------------------------------------------------------------------------
  // Root selection

  /** The paths of the enabled scenes, in build-settings order. */
  function EnabledScenePaths(scenes: seq<Scene>): (roots: seq<string>)
    ensures |roots| <= |scenes|
    ensures forall p :: p in roots <==>
      exists i :: 0 <= i < |scenes| && scenes[i].enabled && scenes[i].path == p
  {
    if scenes == [] then []
    else
      var rest := EnabledScenePaths(scenes[1..]);
      assert forall i :: 0 < i < |scenes| ==> scenes[i] == scenes[1..][i - 1];
      (if scenes[0].enabled then [scenes[0].path] else []) + rest
  }

  /** Root selection keeps scene order: the roots of two scene lists put one after the other
      are the roots of the first followed by the roots of the second. */
  lemma {:induction false} EnabledScenePathsAppend(a: seq<Scene>, b: seq<Scene>)
    ensures EnabledScenePaths(a + b) == EnabledScenePaths(a) + EnabledScenePaths(b)
  {
    if a == [] {
      assert a + b == b;
    } else {
      var head := if a[0].enabled then [a[0].path] else [];
      assert (a + b)[0] == a[0];
      assert (a + b)[1..] == a[1..] + b;
      assert EnabledScenePaths(a + b) == head + EnabledScenePaths(a[1..] + b);
      EnabledScenePathsAppend(a[1..], b);
      assert EnabledScenePaths(a) == head + EnabledScenePaths(a[1..]);
    }
  }

  /** A disabled scene contributes no root, wherever it stands in the list. */
  lemma DisabledSceneAddsNoRoot(a: seq<Scene>, path: string, b: seq<Scene>)
    ensures EnabledScenePaths(a + [Scene(path, false)] + b) == EnabledScenePaths(a + b)
  {
    EnabledScenePathsAppend(a + [Scene(path, false)], b);
    EnabledScenePathsAppend(a, [Scene(path, false)]);
    EnabledScenePathsAppend(a, b);
    assert EnabledScenePaths([Scene(path, false)]) == [];
  }

  /** With no scene enabled the root list is empty. */
  lemma {:induction false} NoEnabledSceneNoRoot(scenes: seq<Scene>)
    requires forall i :: 0 <= i < |scenes| ==> !scenes[i].enabled
    ensures EnabledScenePaths(scenes) == []
  {
    if scenes != [] {
      assert forall i :: 0 <= i < |scenes[1..]| ==> scenes[1..][i] == scenes[i + 1];
      NoEnabledSceneNoRoot(scenes[1..]);
    }
  }

  /** The used set: every path the enabled scenes depend on. */
  function UsedAssets(project: Project): set<string>
  {
    set p | p in project.getDependencies(EnabledScenePaths(project.scenes))
  }

  // ---------------------------------------------------------------------------------
  // The textual scanner

  /** Whether the catalogue entry `candidate` counts as a mention of the script at
      `scriptPath`, whose base name is `scriptName`: it is not the script itself, not a script
      and not a .meta file, it can be read, and its text contains `scriptName`. */
  predicate MentionsScript(candidate: string, scriptPath: string, scriptName: string, files: map<string, Option<string>>)
  {
    candidate != scriptPath && !EndsWith(candidate, ScriptExtension) && !EndsWith(candidate, MetaExtension) &&
    match ReadAllText(files, candidate)
    case Some(content) => Contains(content, scriptName)
    case None => false
  }

  /** Whether some entry of `paths` mentions the script at `scriptPath` under the name
      `scriptName`. */
  predicate IsMentionedIn(scriptPath: string, scriptName: string, paths: seq<string>, files: map<string, Option<string>>)
  {
    exists p :: p in paths && MentionsScript(p, scriptPath, scriptName, files)
  }

  /** Whether some entry of the catalogue mentions the script by its file name without
      extension. */
  predicate IsReferenced(scriptPath: string, allAssetPaths: seq<string>, files: map<string, Option<string>>)
  {
    IsMentionedIn(scriptPath, FileNameWithoutExtension(scriptPath), allAssetPaths, files)
  }

  /** The catalogue with every occurrence of `path` taken out. */
  function Without(paths: seq<string>, path: string): (r: seq<string>)
    ensures forall p :: p in r <==> p in paths && p != path
  {
    if paths == [] then []
    else
      var rest := Without(paths[..|paths| - 1], path);
      var last := paths[|paths| - 1];
      assert paths == paths[..|paths| - 1] + [last];
      rest + (if last == path then [] else [last])
  }

  /** An unreadable file never counts as a match: for the scanner it is as if the path were
      not in the catalogue at all. */
  lemma UnreadableIsAbsent(scriptPath: string, allAssetPaths: seq<string>, files: map<string, Option<string>>, path: string)
    requires ReadAllText(files, path) == None
    ensures IsReferenced(scriptPath, allAssetPaths, files) <==>
            IsReferenced(scriptPath, Without(allAssetPaths, path), files)
  {
    assert !MentionsScript(path, scriptPath, FileNameWithoutExtension(scriptPath), files);
  }

  // ---------------------------------------------------------------------------------
  // Classification

  /** Whether the detection reports `path` as unused: it lies under Assets/ and is no folder,
      it is no script unless scripts are included, it is not used by an enabled scene, and
      if it is a script no other file mentions it. */
  predicate IsReported(project: Project, includeScripts: bool, path: string)
  {
    StartsWith(path, AssetsPrefix) && path !in project.directories &&
    (includeScripts || !EndsWith(path, ScriptExtension)) &&
    path !in UsedAssets(project) &&
    (EndsWith(path, ScriptExtension) ==> !IsReferenced(path, project.allAssetPaths, project.files))
  }

  /** The entries of `paths` that the detection reports, in the order of `paths`. */
  ghost function ReportOf(project: Project, includeScripts: bool, paths: seq<string>): seq<string>
  {
    if paths == [] then []
    else
      var last := paths[|paths| - 1];
      ReportOf(project, includeScripts, paths[..|paths| - 1]) +
      (if IsReported(project, includeScripts, last) then [last] else [])
  }

  /** The report of one detection run over the whole catalogue. */
  ghost function UnusedReport(project: Project, includeScripts: bool): seq<string>
  {
    ReportOf(project, includeScripts, project.allAssetPaths)
  }

  /** `a` is `b` with some entries left out and the rest kept in order. */
  ghost predicate IsSubsequence(a: seq<string>, b: seq<string>)
    decreases |b|
  {
    if a == [] then true
    else if b == [] then false
    else (a[|a| - 1] == b[|b| - 1] && IsSubsequence(a[..|a| - 1], b[..|b| - 1]))
         || IsSubsequence(a, b[..|b| - 1])
  }

  /** A path is in the report exactly when it is in the catalogue and passes every filter. */
  lemma {:induction false} ReportMembership(project: Project, includeScripts: bool, paths: seq<string>)
    ensures forall p :: p in ReportOf(project, includeScripts, paths) <==>
      p in paths && IsReported(project, includeScripts, p)
  {
    if paths != [] {
      var init := paths[..|paths| - 1];
      ReportMembership(project, includeScripts, init);
      assert paths == init + [paths[|paths| - 1]];
    }
  }

  /** The report keeps catalogue order: it is a subsequence of the catalogue. */
  lemma {:induction false} ReportIsSubsequence(project: Project, includeScripts: bool, paths: seq<string>)
    ensures IsSubsequence(ReportOf(project, includeScripts, paths), paths)
  {
    if paths != [] {
      var init := paths[..|paths| - 1];
      var last := paths[|paths| - 1];
      var r := ReportOf(project, includeScripts, init);
      ReportIsSubsequence(project, includeScripts, init);
      if IsReported(project, includeScripts, last) {
        assert (r + [last])[..|r|] == r;
      } else {
        assert r + [] == r;
      }
    }
  }

  /** Every reported path lies under Assets/, is no folder, is not a dependency of an enabled
      scene, and is no script when scripts are excluded. */
  lemma ReportIsSound(project: Project, includeScripts: bool)
    ensures forall p :: p in UnusedReport(project, includeScripts) ==>
      StartsWith(p, AssetsPrefix) && p !in project.directories &&
      p !in project.getDependencies(EnabledScenePaths(project.scenes)) &&
      (!includeScripts ==> !EndsWith(p, ScriptExtension))
  {
    ReportMembership(project, includeScripts, project.allAssetPaths);
  }

  /** A catalogue entry that is no script is reported exactly when it lies under Assets/, is
      no folder and is not a dependency of an enabled scene. */
  lemma NonScriptReportedIff(project: Project, includeScripts: bool, p: string)
    requires p in project.allAssetPaths && !EndsWith(p, ScriptExtension)
    ensures p in UnusedReport(project, includeScripts) <==>
      StartsWith(p, AssetsPrefix) && p !in project.directories &&
      p !in project.getDependencies(EnabledScenePaths(project.scenes))
  {
    ReportMembership(project, includeScripts, project.allAssetPaths);
  }

  /** A catalogue entry that is a script is reported exactly when scripts are included, it
      lies under Assets/, is no folder, is not a dependency of an enabled scene, and no other
      catalogue entry that is neither a script nor a .meta file has readable text containing
      the script's base name. */
  lemma ScriptReportedIff(project: Project, includeScripts: bool, p: string)
    requires p in project.allAssetPaths && EndsWith(p, ScriptExtension)
    ensures p in UnusedReport(project, includeScripts) <==>
      includeScripts && StartsWith(p, AssetsPrefix) && p !in project.directories &&
      p !in project.getDependencies(EnabledScenePaths(project.scenes)) &&
      !exists q :: q in project.allAssetPaths && q != p &&
        !EndsWith(q, ScriptExtension) && !EndsWith(q, MetaExtension) &&
        ReadAllText(project.files, q).Some? &&
        Contains(ReadAllText(project.files, q).value, FileNameWithoutExtension(p))
  {
    ReportMembership(project, includeScripts, project.allAssetPaths);
  }

  /** The entries of `paths` that are no scripts, in order. */
  function WithoutScripts(paths: seq<string>): (r: seq<string>)
    ensures forall p :: p in r <==> p in paths && !EndsWith(p, ScriptExtension)
  {
    if paths == [] then []
    else
      var last := paths[|paths| - 1];
      assert paths == paths[..|paths| - 1] + [last];
      WithoutScripts(paths[..|paths| - 1]) + (if EndsWith(last, ScriptExtension) then [] else [last])
  }

  /** Turning scripts on keeps the entries that are no scripts exactly as they were, order
      included, and only adds scripts. */
  lemma {:induction false} IncludeScriptsOnlyAddsScripts(project: Project, paths: seq<string>)
    ensures ReportOf(project, false, paths) == WithoutScripts(ReportOf(project, true, paths))
  {
    if paths != [] {
      var init := paths[..|paths| - 1];
      var last := paths[|paths| - 1];
      var r := ReportOf(project, true, init);
      IncludeScriptsOnlyAddsScripts(project, init);
      if IsReported(project, true, last) {
        assert (r + [last])[..|r|] == r;
      } else {
        assert r + [] == r;
      }
    }
  }

  /** The whole-catalogue form: the report without scripts is the report with scripts with
      its scripts removed, so every entry of the first is in the second. */
  lemma IncludeScriptsMonotone(project: Project)
    ensures UnusedReport(project, false) == WithoutScripts(UnusedReport(project, true))
    ensures forall p :: p in UnusedReport(project, false) ==> p in UnusedReport(project, true)
  {
    IncludeScriptsOnlyAddsScripts(project, project.allAssetPaths);
  }

  /** Two projects on which every catalogue entry gets the same verdict give the same report. */
  lemma {:induction false} ReportOfSameVerdicts(p1: Project, p2: Project, includeScripts: bool, paths: seq<string>)
    requires forall p :: p in paths ==> (IsReported(p1, includeScripts, p) <==> IsReported(p2, includeScripts, p))
    ensures ReportOf(p1, includeScripts, paths) == ReportOf(p2, includeScripts, paths)
  {
    if paths != [] {
      var init := paths[..|paths| - 1];
      assert forall p :: p in init ==> p in paths;
      ReportOfSameVerdicts(p1, p2, includeScripts, init);
    }
  }

  /** Only enabled scenes contribute: adding a disabled scene anywhere in the build settings
      leaves the report unchanged. */
  lemma DisabledSceneLeavesReport(project: Project, includeScripts: bool, a: seq<Scene>, path: string, b: seq<Scene>)
    requires project.scenes == a + b
    ensures UnusedReport(project.(scenes := a + [Scene(path, false)] + b), includeScripts) ==
            UnusedReport(project, includeScripts)
  {
    var other := project.(scenes := a + [Scene(path, false)] + b);
    DisabledSceneAddsNoRoot(a, path, b);
    assert UsedAssets(other) == UsedAssets(project);
    ReportOfSameVerdicts(other, project, includeScripts, project.allAssetPaths);
  }

  /** With no enabled scene and no dependency of an empty root list, every catalogue entry
      under Assets/ that is no folder and no script is reported. */
  lemma NoEnabledSceneReportsEveryAsset(project: Project, includeScripts: bool)
    requires forall i :: 0 <= i < |project.scenes| ==> !project.scenes[i].enabled
    requires project.getDependencies([]) == []
    ensures forall p ::
      (p in project.allAssetPaths && StartsWith(p, AssetsPrefix) &&
       p !in project.directories && !EndsWith(p, ScriptExtension)) ==> p in UnusedReport(project, includeScripts)
  {
    NoEnabledSceneNoRoot(project.scenes);
    ReportMembership(project, includeScripts, project.allAssetPaths);
  }
}
