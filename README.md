# Unused Assets Finder: a Dafny model of the detection

The Unity editor tool `UnusedAssetFinderWindow` lists project assets that no enabled
build scene uses, and lets the user tick them for deletion. This project models its core:

- root selection: the paths of the enabled scenes in the build settings, in order, whose
  dependency closure becomes the used set;
- the classification loop `FindUnusedAssets`. It walks the asset catalogue in order. It drops
  paths outside `Assets/` and folders. It drops scripts (`.cs`) unless scripts are included.
  It drops used paths. It then reports every remaining non-script, and every remaining script
  that the textual scan does not find;
- the textual scan `ScriptIsReferenced`. It computes the script's base name and runs the
  loop `ScanForName`, which searches the text of every catalogue entry for
  the script's file name without extension, as a case-sensitive, unanchored substring. It
  skips the script itself, every `.cs` and every `.meta` entry, and any entry that cannot be
  read. It stops at the first match;
- the selection of assets to delete: ticking and clearing a row's checkbox. The selection
  only ever holds reported assets, and each run empties it.

The editor and file-system calls are inputs, gathered in the `Detection.Project` datatype:
- the catalogue of `AssetDatabase.GetAllAssetPaths`;
- `EditorBuildSettings.scenes` as `(path, enabled)` pairs;
- `AssetDatabase.GetDependencies` as a given function from a root list to a path list;
- `Directory.Exists` as a set of folder paths;
- `File.ReadAllText` as a map from path to `Option<string>`. `None`, or a path missing from
  the map, stands for a read that throws.

Modules:
- `PathText` holds the .NET string and path operations used: `StartsWith`, `EndsWith`,
  `Contains`, `String.LastIndexOf(char)` as `LastIndexOf`, `Path.GetFileName` as `FileName`,
  and `Path.GetFileNameWithoutExtension` as `FileNameWithoutExtension`.
- `Detection` holds the specification: `UnusedReport` is the report as a filter over the
  catalogue, and the lemmas state what the report is.
- `FinderWindow` holds the window class. Its fields are `unusedAssets: seq<string>`,
  `selectedAssetsToDelete: set<string>` and `includeScripts: bool`. Its loop methods are
  proved to compute `UnusedReport` and `IsReferenced`.
- `DetectionExamples` works small projects through the detection.

Behaviours of the code that the model keeps:
- The scan skips every `.cs` entry, so a script that only another script names is still
  reported unused (`DetectionExamples.ScriptMentionedOnlyByScriptIsReported`).
- The scan reads every catalogue entry that is not the script, a `.cs` or a `.meta` file,
  including entries outside `Assets/` and folders, not only the other candidates.
- The loop skips scripts (when they are excluded) before it skips used paths. The report
  would be the same in the other order.

## Model

| member | source | states |
|---|---|---|
| `FinderWindow.UnusedAssetFinderWindow.FindUnusedAssets` | UnityUnusedAssetsFinder/Assets/Editor/UnusedAssetFinderWindow.cs:99-145 | after a run the report is exactly `UnusedReport` of the project and the script toggle, whatever it held before; the selection is empty; the selection invariant holds |
| `FinderWindow.UnusedAssetFinderWindow.ScriptIsReferenced` | UnityUnusedAssetsFinder/Assets/Editor/UnusedAssetFinderWindow.cs:147-170 | returns true exactly when some catalogue entry other than the script, neither `.cs` nor `.meta`, has readable text containing the script's base name |
| `FinderWindow.UnusedAssetFinderWindow.ScanForName` | UnityUnusedAssetsFinder/Assets/Editor/UnusedAssetFinderWindow.cs:151-169 | the loop over the catalogue for a given base name returns true exactly when some entry mentions the script under that name, that is, an entry other than the script, neither `.cs` nor `.meta`, whose text can be read and contains the name |
| `FinderWindow.UnusedAssetFinderWindow.SelectForDeletion` | UnityUnusedAssetsFinder/Assets/Editor/UnusedAssetFinderWindow.cs:78-79 | ticking a reported asset adds that asset and nothing else; the selection stays within the report |
| `FinderWindow.UnusedAssetFinderWindow.DeselectForDeletion` | UnityUnusedAssetsFinder/Assets/Editor/UnusedAssetFinderWindow.cs:80-81 | clearing an asset removes that asset and nothing else; the selection stays within the report |
| `FinderWindow.UnusedAssetFinderWindow.ToggleRow` | UnityUnusedAssetsFinder/Assets/Editor/UnusedAssetFinderWindow.cs:73-82 | after a row's checkbox changes, the asset is selected exactly when the new value says so; no other asset's selection changes |
| `FinderWindow.UnusedAssetFinderWindow.SetIncludeScripts` | UnityUnusedAssetsFinder/Assets/Editor/UnusedAssetFinderWindow.cs:26 | the script toggle takes the user's value |
| `FinderWindow.UnusedAssetFinderWindow.constructor` | UnityUnusedAssetsFinder/Assets/Editor/UnusedAssetFinderWindow.cs:9-12 | a new window has an empty report and selection, excludes scripts, and satisfies the selection invariant |
| `FinderWindow.RerunDetection` | UnityUnusedAssetsFinder/Assets/Editor/UnusedAssetFinderWindow.cs:101-102 | on unchanged inputs, running the detection, ticking an asset and running it again gives the same report twice, and leaves nothing selected |
| `Detection.ReadAllText` | UnityUnusedAssetsFinder/Assets/Editor/UnusedAssetFinderWindow.cs:158-166 | `File.ReadAllText` as a lookup: the file's text, or `None` for a read that throws, which is also what a path the map does not know gives |
| `Detection.UsedAssets` | UnityUnusedAssetsFinder/Assets/Editor/UnusedAssetFinderWindow.cs:113-114 | the used set holds exactly the paths in the dependency closure of the enabled scenes' paths |
| `Detection.MentionsScript` | UnityUnusedAssetsFinder/Assets/Editor/UnusedAssetFinderWindow.cs:154-161 | an entry mentions a script exactly when it is not the script, not a `.cs` and not a `.meta` entry, can be read, and its text contains the base name |
| `Detection.IsReported` | UnityUnusedAssetsFinder/Assets/Editor/UnusedAssetFinderWindow.cs:118-141 | the verdict for one catalogue entry is the conjunction of the loop's four checks: under `Assets/` and no folder, no script unless scripts are included, not used, and for a script not referenced |
| `Detection.EnabledScenePaths` | UnityUnusedAssetsFinder/Assets/Editor/UnusedAssetFinderWindow.cs:107-110 | a path is a root exactly when some enabled scene has that path; there are no more roots than scenes |
| `Detection.EnabledScenePathsAppend` | UnityUnusedAssetsFinder/Assets/Editor/UnusedAssetFinderWindow.cs:107-110 | the roots of two scene lists joined are the roots of the first followed by those of the second, so scene order is kept |
| `Detection.DisabledSceneAddsNoRoot` | UnityUnusedAssetsFinder/Assets/Editor/UnusedAssetFinderWindow.cs:108 | a disabled scene anywhere in the list contributes no root |
| `Detection.NoEnabledSceneNoRoot` | UnityUnusedAssetsFinder/Assets/Editor/UnusedAssetFinderWindow.cs:107-110 | with no scene enabled the root list is empty |
| `Detection.DisabledSceneLeavesReport` | UnityUnusedAssetsFinder/Assets/Editor/UnusedAssetFinderWindow.cs:107-114 | adding a disabled scene anywhere in the build settings leaves the report unchanged |
| `Detection.UnreadableIsAbsent` | UnityUnusedAssetsFinder/Assets/Editor/UnusedAssetFinderWindow.cs:157-166 | for the scan, an unreadable entry is the same as no entry: the verdict equals the verdict over the catalogue without that path |
| `Detection.Without` | UnityUnusedAssetsFinder/Assets/Editor/UnusedAssetFinderWindow.cs:157-166 | a specification helper with no counterpart in the code, used by `UnreadableIsAbsent` to state "as if absent": the catalogue without a path holds exactly the other entries |
| `Detection.ReportMembership` | UnityUnusedAssetsFinder/Assets/Editor/UnusedAssetFinderWindow.cs:116-142 | a path is in the report exactly when it is in the catalogue and passes every filter |
| `Detection.ReportIsSubsequence` | UnityUnusedAssetsFinder/Assets/Editor/UnusedAssetFinderWindow.cs:116-142 | the report is a subsequence of the catalogue, in catalogue order |
| `Detection.ReportIsSound` | UnityUnusedAssetsFinder/Assets/Editor/UnusedAssetFinderWindow.cs:118-128 | every reported path starts with `Assets/`, is no folder, is not a dependency of the enabled scenes, and is no script when scripts are excluded |
| `Detection.NonScriptReportedIff` | UnityUnusedAssetsFinder/Assets/Editor/UnusedAssetFinderWindow.cs:118-141 | a catalogue entry that is no script is reported exactly when it is under `Assets/`, no folder, and not used |
| `Detection.ScriptReportedIff` | UnityUnusedAssetsFinder/Assets/Editor/UnusedAssetFinderWindow.cs:122-161 | a script in the catalogue is reported exactly when scripts are included, it is under `Assets/`, no folder, not used, and no other entry that is neither `.cs` nor `.meta` has readable text containing its base name |
| `Detection.WithoutScripts` | UnityUnusedAssetsFinder/Assets/Editor/UnusedAssetFinderWindow.cs:122-124 | a specification helper with no counterpart in the code, used by `IncludeScriptsOnlyAddsScripts`: it keeps exactly the entries that do not end in `.cs`, in order |
| `Detection.IncludeScriptsOnlyAddsScripts` | UnityUnusedAssetsFinder/Assets/Editor/UnusedAssetFinderWindow.cs:122-124 | over any list of paths, the report without scripts is the report with scripts with its `.cs` entries removed, order included |
| `Detection.IncludeScriptsMonotone` | UnityUnusedAssetsFinder/Assets/Editor/UnusedAssetFinderWindow.cs:122-124 | turning scripts on keeps every non-script entry and only adds `.cs` entries |
| `Detection.ReportOfSameVerdicts` | UnityUnusedAssetsFinder/Assets/Editor/UnusedAssetFinderWindow.cs:116-142 | two projects that give every catalogue entry the same verdict give the same report |
| `Detection.NoEnabledSceneReportsEveryAsset` | UnityUnusedAssetsFinder/Assets/Editor/UnusedAssetFinderWindow.cs:107-141 | with no enabled scene, and no dependencies for an empty root list, every non-script entry under `Assets/` that is no folder is reported |
| `PathText.StartsWith` | UnityUnusedAssetsFinder/Assets/Editor/UnusedAssetFinderWindow.cs:119 | `String.StartsWith` as an ordinal comparison: the prefix is an initial segment of the path |
| `PathText.EndsWith` | UnityUnusedAssetsFinder/Assets/Editor/UnusedAssetFinderWindow.cs:154 | `String.EndsWith` as an ordinal comparison: the suffix fits in the path and equals its last characters (also used at lines 123 and 131) |
| `PathText.Contains` | UnityUnusedAssetsFinder/Assets/Editor/UnusedAssetFinderWindow.cs:160 | `String.Contains` as an ordinal, unanchored substring test: the name is a prefix of the text or of one of its tails |
| `PathText.ContainsAt` | UnityUnusedAssetsFinder/Assets/Editor/UnusedAssetFinderWindow.cs:160 | the substring test holds exactly when the name starts at some offset of the text |
| `PathText.ContainsInfix` | UnityUnusedAssetsFinder/Assets/Editor/UnusedAssetFinderWindow.cs:160 | the match is unanchored: a name is found wherever it stands in the text |
| `PathText.LastIndexOf` | UnityUnusedAssetsFinder/Assets/Editor/UnusedAssetFinderWindow.cs:149 | the result is -1 or an index holding the character, and no later index holds it |
| `PathText.FileName` | UnityUnusedAssetsFinder/Assets/Editor/UnusedAssetFinderWindow.cs:149 | the file name is a suffix of the path that contains no `/` and is the whole path or preceded by a `/` |
| `PathText.FileNameOf` | UnityUnusedAssetsFinder/Assets/Editor/UnusedAssetFinderWindow.cs:149 | the file name of a folder ending in `/` followed by a name without `/` is that name |
| `PathText.FileNameWithoutExtension` | UnityUnusedAssetsFinder/Assets/Editor/UnusedAssetFinderWindow.cs:149 | the result is a prefix of the file name with no `/`; what was cut off is empty when the name has no `.`, and otherwise a `.` followed by text without `.` |
| `PathText.FileNameWithoutExtensionOf` | UnityUnusedAssetsFinder/Assets/Editor/UnusedAssetFinderWindow.cs:149 | the base name of `dir/name.ext` (with `ext` free of `.` and `/`) is exactly `name` |
| `DetectionExamples.UnusedMaterialIsReported` | UnityUnusedAssetsFinder/Assets/Editor/UnusedAssetFinderWindow.cs:107-141 | a scene that uses a texture: the scene and the texture are kept, the unused material is the whole report |
| `DetectionExamples.ScriptMentionedOnlyByScriptIsReported` | UnityUnusedAssetsFinder/Assets/Editor/UnusedAssetFinderWindow.cs:154 | for any two script names, a script named only inside the text of another script is reported, and so is the other script, in catalogue order |
| `DetectionExamples.ExcludedScriptsAreNeverReported` | UnityUnusedAssetsFinder/Assets/Editor/UnusedAssetFinderWindow.cs:123-124 | with scripts excluded, a catalogue of two scripts gives an empty report |
| `DetectionExamples.UnreadableFileIsNoMatch` | UnityUnusedAssetsFinder/Assets/Editor/UnusedAssetFinderWindow.cs:157-166 | for any script name, a script next to an unreadable prefab: the read failure neither fails the run nor counts as a mention, so both are reported |

## Left out

- The window layout, labels, scroll view, the "Ping" button and the menu entry: user interface only.
- Deleting the selected assets, the confirmation dialogs, `AssetDatabase.Refresh` and
  `Debug.Log`: host side effects. The rerun after a deletion batch is `FindUnusedAssets` on
  the project as it stands after the deletions; its contract holds for any project, so that
  rerun reports `UnusedReport` of the changed catalogue. No model of the deletion gives that
  changed project. `FinderWindow.RerunDetection` covers only a rerun on unchanged inputs.
- The dependency graph itself: `AssetDatabase.GetDependencies` is an input function, not a
  reimplemented closure.
- Exceptions from `AssetDatabase.GetAllAssetPaths` or `AssetDatabase.GetDependencies`: the host
  calls are total in the model. In the code such an exception would escape after the report and
  the selection have already been cleared.
- Text decoding in `File.ReadAllText`: a file is either its decoded text or unreadable.
- `StartsWith` and `EndsWith` are modelled as ordinal comparisons. The .NET overloads used are
  culture-sensitive, which can differ for exotic characters.
- `\` separators in `Path.GetFileNameWithoutExtension`: Unity asset paths use `/`, and the model
  splits on `/` only.
- Whether folders can be read: the model takes readability from the file map alone, as the code
  takes it from whether `File.ReadAllText` throws.
