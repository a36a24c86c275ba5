/** Small projects worked through the detection. */
module DetectionExamples {
  import opened PathText
  import opened Detection

  /** A dependency closure that is empty for every root list. */
  function NoDependencies(roots: seq<string>): seq<string>
  {
    []
  }

  /** The dependency closure of a project whose only scene uses one texture. */
  function SceneUsesTexture(roots: seq<string>): seq<string>
  {
    if "Assets/Main.unity" in roots then ["Assets/Main.unity", "Assets/A.png"] else []
  }

  /** A scene, the texture it uses and a material nobody uses. */
  function SceneProject(): Project
  {
    Project(["Assets/Main.unity", "Assets/A.png", "Assets/B.mat"],
            [Scene("Assets/Main.unity", true)], SceneUsesTexture, {}, map[])
  }

  /** The catalogue path of a script named `name` at the top of the Assets folder. */
  function ScriptPath(name: string): (path: string)
    ensures StartsWith(path, AssetsPrefix) && EndsWith(path, ScriptExtension)
  {
    var path := AssetsPrefix + name + ScriptExtension;
    assert path[|path| - |ScriptExtension|..] == ScriptExtension;
    path
  }

  /** Two scripts, `caller` naming `util` in its text. */
  function ScriptsProject(util: string, caller: string): Project
  {
    Project([ScriptPath(util), ScriptPath(caller)], [], NoDependencies, {},
            map[ScriptPath(caller) := Some(util + ".Run();")])
  }

  /** A script and a prefab that cannot be read. */
  function PrefabProject(util: string): Project
  {
    Project([ScriptPath(util), "Assets/Broken.prefab"], [], NoDependencies, {},
            map["Assets/Broken.prefab" := None])
  }

  /** A catalogue holding only scripts gives no script a mention. */
  lemma ScriptsNeverMention(scriptPath: string, all: seq<string>, files: map<string, Option<string>>)
    requires forall p :: p in all ==> EndsWith(p, ScriptExtension)
    ensures !IsReferenced(scriptPath, all, files)
  {
  }

  /** The enabled scene and what it uses are kept out of the report; the unused material
      is reported. */
  lemma UnusedMaterialIsReported()
    ensures UnusedReport(SceneProject(), false) == ["Assets/B.mat"]
  {
    var project := SceneProject();
    var all := project.allAssetPaths;
    assert EnabledScenePaths(project.scenes) == ["Assets/Main.unity"];
    assert UsedAssets(project) == {"Assets/Main.unity", "Assets/A.png"};
    assert all[..2][..1] == all[..1] && all[..1][..0] == [] && all[..3] == all;
    assert !IsReported(project, false, all[0]) && !IsReported(project, false, all[1]);
    assert IsReported(project, false, all[2]);
    assert ReportOf(project, false, all[..1]) == [];
    assert ReportOf(project, false, all[..2]) == [];
  }

  /** The scan passes over other scripts: a script that only another script mentions is
      reported, and so is the other script. */
  lemma ScriptMentionedOnlyByScriptIsReported(util: string, caller: string)
    ensures UnusedReport(ScriptsProject(util, caller), true) == [ScriptPath(util), ScriptPath(caller)]
  {
    ScriptsAreReported(util, caller);
    BothReported(ScriptsProject(util, caller), true);
  }

  /** Each script of ScriptsProject is reported on its own. */
  lemma ScriptsAreReported(util: string, caller: string)
    ensures var project := ScriptsProject(util, caller);
      IsReported(project, true, ScriptPath(util)) && IsReported(project, true, ScriptPath(caller))
  {
    var project := ScriptsProject(util, caller);
    var all := project.allAssetPaths;
    assert UsedAssets(project) == {};
    assert forall p :: p in all ==> EndsWith(p, ScriptExtension);
    ScriptsNeverMention(all[0], all, project.files);
    ScriptsNeverMention(all[1], all, project.files);
  }

  /** With scripts excluded, no script is reported, mentioned or not. */
  lemma ExcludedScriptsAreNeverReported(util: string, caller: string)
    ensures UnusedReport(ScriptsProject(util, caller), false) == []
  {
    ReportOfTwo(ScriptsProject(util, caller), false);
  }

  /** An unreadable prefab neither fails the run nor counts as a mention: the script and
      the prefab are both reported. */
  lemma UnreadableFileIsNoMatch(util: string)
    ensures UnusedReport(PrefabProject(util), true) == [ScriptPath(util), "Assets/Broken.prefab"]
  {
    PrefabProjectVerdicts(util);
    BothReported(PrefabProject(util), true);
  }

  /** Both entries of PrefabProject are reported on their own. */
  lemma PrefabProjectVerdicts(util: string)
    ensures var project := PrefabProject(util);
      IsReported(project, true, ScriptPath(util)) && IsReported(project, true, "Assets/Broken.prefab")
  {
    var project := PrefabProject(util);
    var all := project.allAssetPaths;
    assert UsedAssets(project) == {};
    assert !EndsWith(all[1], ScriptExtension);
    assert ReadAllText(project.files, all[1]) == None;
    assert !IsReferenced(all[0], all, project.files);
  }

  /** The report of a two-entry catalogue, entry by entry. */
  lemma ReportOfTwo(project: Project, includeScripts: bool)
    requires |project.allAssetPaths| == 2
    ensures var all := project.allAssetPaths;
      UnusedReport(project, includeScripts) ==
        (if IsReported(project, includeScripts, all[0]) then [all[0]] else []) +
        (if IsReported(project, includeScripts, all[1]) then [all[1]] else [])
  {
    var all := project.allAssetPaths;
    assert all[..1][..0] == [] && all[..2][..1] == all[..1] && all[..2] == all;
    assert ReportOf(project, includeScripts, all[..1]) ==
      ReportOf(project, includeScripts, []) + (if IsReported(project, includeScripts, all[0]) then [all[0]] else []);
    assert ReportOf(project, includeScripts, all) ==
      ReportOf(project, includeScripts, all[..1]) + (if IsReported(project, includeScripts, all[1]) then [all[1]] else []);
  }

  /** A two-entry catalogue whose entries are both reported is reported whole. */
  lemma BothReported(project: Project, includeScripts: bool)
    requires |project.allAssetPaths| == 2
    requires IsReported(project, includeScripts, project.allAssetPaths[0])
    requires IsReported(project, includeScripts, project.allAssetPaths[1])
    ensures UnusedReport(project, includeScripts) == project.allAssetPaths
  {
    var all := project.allAssetPaths;
    ReportOfTwo(project, includeScripts);
    assert all == [all[0]] + [all[1]];
  }
}
