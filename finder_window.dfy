/** The editor window that runs the detection and keeps the report and the selection of
    assets marked for deletion. Its methods compute the values that Detection specifies. */
module FinderWindow {
  import opened PathText
  import opened Detection

  class UnusedAssetFinderWindow {
    /** The report of the last run, in catalogue order. */
    var unusedAssets: seq<string>
    /** The reported assets the user has ticked for deletion. */
    var selectedAssetsToDelete: set<string>
    /** Whether scripts take part in the detection. */
    var includeScripts: bool

    /** The selection only ever holds reported assets. */
    ghost predicate Valid()
      reads this
    {
      forall a :: a in selectedAssetsToDelete ==> a in unusedAssets
    }

    constructor ()
      ensures Valid()
      ensures unusedAssets == [] && selectedAssetsToDelete == {} && !includeScripts
    {
      unusedAssets := [];
      selectedAssetsToDelete := {};
      includeScripts := false;
    }

    /** The "Include unused .cs (script) files" toggle. */
    method SetIncludeScripts(value: bool)
      modifies this`includeScripts
      ensures includeScripts == value
    {
      includeScripts := value;
    }

    /** One detection run: the report is rebuilt from scratch over the catalogue and the
        selection is emptied, whatever they held before, so the new state depends only on
        the project and the script toggle. */
    method FindUnusedAssets(project: Project)
      modifies this`unusedAssets, this`selectedAssetsToDelete
      ensures Valid()
      ensures unusedAssets == UnusedReport(project, includeScripts)
      ensures selectedAssetsToDelete == {}
    {
      unusedAssets := [];
      selectedAssetsToDelete := {};

      var allAssetPaths := project.allAssetPaths;
      var scenePaths := EnabledScenePaths(project.scenes);
      var sceneDependencies := project.getDependencies(scenePaths);
      var usedAssets := set p | p in sceneDependencies;

      for i := 0 to |allAssetPaths|
        invariant unusedAssets == ReportOf(project, includeScripts, allAssetPaths[..i])
        invariant selectedAssetsToDelete == {}
      {
        var path := allAssetPaths[i];
        assert allAssetPaths[..i + 1][..i] == allAssetPaths[..i];

        if !StartsWith(path, AssetsPrefix) || path in project.directories {
          continue;
        }
        if !includeScripts && EndsWith(path, ScriptExtension) {
          continue;
        }
        if path in usedAssets {
          continue;
        }
        if EndsWith(path, ScriptExtension) {
          var referenced := ScriptIsReferenced(path, allAssetPaths, project.files);
          if !referenced {
            unusedAssets := unusedAssets + [path];
          }
        } else {
          unusedAssets := unusedAssets + [path];
        }
      }
      assert allAssetPaths[..|allAssetPaths|] == allAssetPaths;
    }

    /** The textual scan: whether some entry of the catalogue other than the script, and
        neither a script nor a .meta file, has readable text containing the script's base
        name. Unreadable entries are passed over; the scan stops at the first match. */
    static method ScriptIsReferenced(scriptPath: string, allAssetPaths: seq<string>, files: map<string, Option<string>>)
      returns (referenced: bool)
      ensures referenced <==> IsReferenced(scriptPath, allAssetPaths, files)
    {
      var scriptName := FileNameWithoutExtension(scriptPath);
      referenced := ScanForName(scriptPath, scriptName, allAssetPaths, files);
    }

    /** The loop of the scan, for the base name `scriptName`: it walks the catalogue in order
        and stops at the first entry that mentions the script. */
    static method ScanForName(scriptPath: string, scriptName: string, allAssetPaths: seq<string>, files: map<string, Option<string>>)
      returns (referenced: bool)
      ensures referenced <==> IsMentionedIn(scriptPath, scriptName, allAssetPaths, files)
    {
      for i := 0 to |allAssetPaths|
        invariant forall j :: 0 <= j < i ==> !MentionsScript(allAssetPaths[j], scriptPath, scriptName, files)
      {
        var path := allAssetPaths[i];
        if path != scriptPath && !EndsWith(path, ScriptExtension) && !EndsWith(path, MetaExtension) {
          match ReadAllText(files, path)
          case Some(content) =>
            if Contains(content, scriptName) {
              assert MentionsScript(path, scriptPath, scriptName, files);
              return true;
            }
          case None =>
        }
        assert !MentionsScript(path, scriptPath, scriptName, files);
      }
      return false;
    }

    /** Ticking the checkbox of a reported asset adds that asset and nothing else. */
    method SelectForDeletion(asset: string)
      requires Valid() && asset in unusedAssets
      modifies this`selectedAssetsToDelete
      ensures Valid()
      ensures selectedAssetsToDelete == old(selectedAssetsToDelete) + {asset}
    {
      selectedAssetsToDelete := selectedAssetsToDelete + {asset};
    }

    /** Clearing the checkbox of an asset removes that asset and nothing else. */
    method DeselectForDeletion(asset: string)
      requires Valid()
      modifies this`selectedAssetsToDelete
      ensures Valid()
      ensures selectedAssetsToDelete == old(selectedAssetsToDelete) - {asset}
    {
      selectedAssetsToDelete := selectedAssetsToDelete - {asset};
    }

    /** One row of the report: the checkbox shows whether the asset is selected, and a new
        value from the user selects or deselects that asset only. */
    method ToggleRow(asset: string, newSelected: bool)
      requires Valid() && asset in unusedAssets
      modifies this`selectedAssetsToDelete
      ensures Valid()
      ensures (asset in selectedAssetsToDelete) == newSelected
      ensures selectedAssetsToDelete - {asset} == old(selectedAssetsToDelete) - {asset}
    {
      var isSelected := asset in selectedAssetsToDelete;
      if newSelected != isSelected {
        if newSelected {
          SelectForDeletion(asset);
        } else {
          DeselectForDeletion(asset);
        }
      }
    }
  }

  /** A window that runs the detection, has an asset ticked, and runs the detection again on
      unchanged inputs: both runs give the same report, and the second leaves nothing
      selected. */
  method RerunDetection(project: Project, includeScripts: bool)
    returns (first: seq<string>, second: seq<string>, selected: set<string>)
    ensures first == second == UnusedReport(project, includeScripts)
    ensures selected == {}
  {
    var window := new UnusedAssetFinderWindow();
    window.SetIncludeScripts(includeScripts);
    window.FindUnusedAssets(project);
    first := window.unusedAssets;
    if first != [] {
      window.ToggleRow(first[0], true);
    }
    window.FindUnusedAssets(project);
    second := window.unusedAssets;
    selected := window.selectedAssetsToDelete;
  }
}
