# Asset database data source of the XREF asset bundle browser

This project is a Dafny model of the built-in data source of the asset bundle browser, `AssetDatabaseABDataSource`. It covers five parts:

- **Bundle names.** An asset belongs to a bundle named `name` or `name.variant`.
- **The guard chain of `BuildAssetBundles`.** A request must be given. The build guidelines must be non-empty and a JSON object. The recommended Unity version in them must agree with the running editor's version.
- **The version check.** `CheckUnityVersionCompatibility` compares the two versions. Major and minor must be equal for a build to go ahead. A different patch only prompts a "continue anyway?" dialog.
- **`Build`.**
  - It refuses to run unless both plugin packages are installed at their latest version.
  - It writes a two-line metadata text.
  - It stages a copy of that text in every bundle.
  - It builds the bundle-to-assets map with scripts left out.
  - It runs the bundle pipeline and deletes the staged files. After each one it deletes `Assets/Temp/XREFBundleMeta` if that folder exists. The folder meant is the bundle's staging folder, so as written the per-bundle staging folders stay (see Findings).
  - It reports each built bundle to the `onBuild` callback.
- **.NET library calls.** The library calls these steps rely on are modelled too: `String.Split`, `String.Trim`, `Int32.Parse`, `Int32.ToString`, `Path.GetFileNameWithoutExtension` and `Path.GetDirectoryName`.

The host engine is turned into inputs:

- The asset database is a snapshot value. It holds the importers, the bundle names, the assets of each bundle and the set of script paths.
- The JSON deserialiser and `BuildPipeline.BuildAssetBundles` are function parameters.
- The package manager's answers are four version strings.
- The editor's version (`Application.unityVersion`) is a string argument.
- The user's answer to the dialog is a boolean.

Exceptions that escape are values: `Result.Failure(e)` in the version check, and `Threw(e)` in the outcome of a build request.

Files:

- `outcomes.dfy`: `Option`, `Result` and the .NET exceptions involved.
- `dotnet_text.dfy`: the .NET string, integer and path operations, with their round trips.
- `unity_version.dfy`: `CheckUnityVersionCompatibility` and its properties.
- `data_source.dfy`: `GetAssetBundleName`, the `BuildAssetBundles` guard chain and the imperative `Build` method with its loops.

How the model relates to the code:

- **Version comparison.** The code computes only "major and minor equal" and "patch equal"; it does not order versions.
- **Package checks.** The version comparison at line 174 comes first. A missing package or a failed request leaves the latest version empty, so it is refused there as out of date, and the checks for "ERROR" and "NOT_FOUND" that follow are not reached.
- **Throwing paths.**
  - A recommended version that is not a string reaches `Split` as null and throws a `NullReferenceException`.
  - A version with exactly two parts whose numbers parse throws an `IndexOutOfRangeException` at the third part.
  - These throwing paths are modelled as they are.

## Model

| member | source | states |
|---|---|---|
| AssetDatabaseDataSource.GetAssetBundleName | Editor/AssetBundleDataSource/AssetDatabaseABDataSource.cs:47-60 | Without an importer the name is empty; otherwise it starts with the importer's bundle name |
| AssetDatabaseDataSource.BundleNameSplitsIntoNameAndVariant | Editor/AssetBundleDataSource/AssetDatabaseABDataSource.cs:54-59 | With dot-free parts, the name splits at '.' into exactly the bundle name, plus the variant when there is one |
| UnityVersion.CheckUnityVersionCompatibility | Editor/AssetBundleDataSource/AssetDatabaseABDataSource.cs:366-402 | Fewer than two parts on either side keeps the defaults. Otherwise it throws exactly when a version's major, minor or patch does not parse, or a third part is missing. When both parse it reports major and minor equal, patch equal, and `major.minor` of the recommended version. An exception that escapes is FormatException, OverflowException or IndexOutOfRangeException |
| UnityVersion.RecommendedParts | Editor/AssetBundleDataSource/AssetDatabaseABDataSource.cs:373-375 | Trimming keeps the number of '.'-separated parts |
| UnityVersion.PatchText | Editor/AssetBundleDataSource/AssetDatabaseABDataSource.cs:392-393 | The patch text is the prefix of the part before its first 'f' and holds no 'f' |
| UnityVersion.ParseVersion | Editor/AssetBundleDataSource/AssetDatabaseABDataSource.cs:387-395 | A version parses only from at least three parts |
| UnityVersion.UndottedKeepsDefaults | Editor/AssetBundleDataSource/AssetDatabaseABDataSource.cs:376-386 | The outputs stay at their initial values exactly when one of the versions has no '.' |
| UnityVersion.TwoPartsThrow | Editor/AssetBundleDataSource/AssetDatabaseABDataSource.cs:387-393 | With two parts whose numbers parse, the access to the third part throws IndexOutOfRangeException |
| UnityVersion.ZeroPaddedMinorSameVersion | Editor/AssetBundleDataSource/AssetDatabaseABDataSource.cs:387-388 | The minor is compared as a number: `01` and `1` denote the same version |
| UnityVersion.ParseRendered | Editor/AssetBundleDataSource/AssetDatabaseABDataSource.cs:373-395 | A rendered 32-bit `major.minor.patch` with a release tag parses back to the same numbers, trimmed or not |
| UnityVersion.CompareRendered | Editor/AssetBundleDataSource/AssetDatabaseABDataSource.cs:366-402 | End to end on well-formed versions: the outputs depend only on the numbers, so `0f1` and `0f2` have equal patches |
| UnityVersion.MinCompatibleVersionRoundTrip | Editor/AssetBundleDataSource/AssetDatabaseABDataSource.cs:399 | The minimum compatible version splits into exactly two parts that parse to the recommended major and minor |
| UnityVersion.MinOfExpectedParsesBack | Editor/AssetBundleDataSource/AssetDatabaseABDataSource.cs:399 | `major + "." + minor` parses back to the two numbers |
| DotNetText.Split | Editor/AssetBundleDataSource/AssetDatabaseABDataSource.cs:373 | `String.Split` gives at least one part, none holding the separator |
| DotNetText.SplitThenJoin | Editor/AssetBundleDataSource/AssetDatabaseABDataSource.cs:373 | Joining the parts of a split restores the text |
| DotNetText.SplitThreeParts | Editor/AssetBundleDataSource/AssetDatabaseABDataSource.cs:373 | Three separator-free parts joined by the separator split back into exactly those parts |
| DotNetText.JoinThenSplit | Editor/AssetBundleDataSource/AssetDatabaseABDataSource.cs:373 | Splitting joined separator-free parts restores the parts |
| DotNetText.SinglePartIffNoSeparator | Editor/AssetBundleDataSource/AssetDatabaseABDataSource.cs:376-386 | A split gives one part exactly when the separator is absent |
| DotNetText.TrimBy | Editor/AssetBundleDataSource/AssetDatabaseABDataSource.cs:374 | The trimmed text neither starts nor ends with white space |
| DotNetText.TrimIsMiddleSlice | Editor/AssetBundleDataSource/AssetDatabaseABDataSource.cs:374 | `Trim` keeps a middle slice and drops only white space on either side |
| DotNetText.TrimKeepsTrimmed | Editor/AssetBundleDataSource/AssetDatabaseABDataSource.cs:374 | Text without white space at its ends is left unchanged |
| DotNetText.ParseInt32 | Editor/AssetBundleDataSource/AssetDatabaseABDataSource.cs:387-395 | `int.Parse` gives a 32-bit value or throws FormatException or OverflowException |
| DotNetText.ParseOfIntToString | Editor/AssetBundleDataSource/AssetDatabaseABDataSource.cs:399 | `int.Parse(n.ToString()) == n` for every 32-bit n |
| DotNetText.ParseIgnoresLeadingZero | Editor/AssetBundleDataSource/AssetDatabaseABDataSource.cs:387-390 | A leading zero does not change the parsed value |
| DotNetText.IntToString | Editor/AssetBundleDataSource/AssetDatabaseABDataSource.cs:399 | A minus sign exactly for negatives, then only digits |
| DotNetText.PathOfAppendedFile | Editor/AssetBundleDataSource/AssetDatabaseABDataSource.cs:248 | For `dir/file`, `GetDirectoryName` gives `dir` and `GetFileNameWithoutExtension` looks only at `file` |
| AssetDatabaseDataSource.ReturnValue | Editor/AssetBundleDataSource/AssetDatabaseABDataSource.cs:254-267 | `true` exactly when the pipeline ran and returned a manifest; no value exactly when an exception escaped |
| AssetDatabaseDataSource.PackageCheck | Editor/AssetBundleDataSource/AssetDatabaseABDataSource.cs:173-190 | The build goes on exactly when both packages are at their latest version and neither reads "ERROR" or "NOT_FOUND" |
| AssetDatabaseDataSource.MetaTextLines | Editor/AssetBundleDataSource/AssetDatabaseABDataSource.cs:191 | The metadata text is exactly the two `package: version` lines |
| AssetDatabaseDataSource.NonScriptsMembers | Editor/AssetBundleDataSource/AssetDatabaseABDataSource.cs:223-232 | A path is kept exactly when it is one of the bundle's paths and not a script |
| AssetDatabaseDataSource.NonScriptsKeepOrder | Editor/AssetBundleDataSource/AssetDatabaseABDataSource.cs:223-232 | The script filter keeps order: it distributes over concatenation |
| AssetDatabaseDataSource.Build | Editor/AssetBundleDataSource/AssetDatabaseABDataSource.cs:160-268 | The loops build exactly `BuildResult`: the package guard, then the meta text, build map, staged files, removed folders, manifest and callback calls; returns true exactly when there is a manifest |
| AssetDatabaseDataSource.BuildResult | Editor/AssetBundleDataSource/AssetDatabaseABDataSource.cs:160-268 | `Build`'s own guard and map logic raises no exception (host calls are total in the model; see Left out) |
| AssetDatabaseDataSource.BuildRefusesStalePackages | Editor/AssetBundleDataSource/AssetDatabaseABDataSource.cs:173-192 | `Build` refuses, returning false, exactly when a package is stale or reads as a sentinel; otherwise the meta text is the two package lines |
| AssetDatabaseDataSource.BuildMapShape | Editor/AssetBundleDataSource/AssetDatabaseABDataSource.cs:194-237 | One entry per bundle in order. Each entry starts with that bundle's staged metadata file, followed by exactly its non-script assets in order |
| AssetDatabaseDataSource.OnBuildOncePerBuiltBundle | Editor/AssetBundleDataSource/AssetDatabaseABDataSource.cs:241-267 | The callback receives exactly the manifest's bundles, in order, and only when there is a manifest and a callback. The result is true exactly when there is a manifest |
| AssetDatabaseDataSource.CleanupAsWrittenOf | Editor/AssetBundleDataSource/AssetDatabaseABDataSource.cs:248 | As written, the folder targeted after a file `name.ext` is `Assets/Temp/name`, whatever folder the file is in |
| AssetDatabaseDataSource.CleanupAsWrittenTarget | Editor/AssetBundleDataSource/AssetDatabaseABDataSource.cs:244-251 | As written, every iteration targets `Assets/Temp/XREFBundleMeta` |
| AssetDatabaseDataSource.CleanupAsWrittenMissesStagingFolder | Editor/AssetBundleDataSource/AssetDatabaseABDataSource.cs:248 | As written, the folder removed is never the bundle's staging folder |
| AssetDatabaseDataSource.CleanupRemovesStagingFolders | Editor/AssetBundleDataSource/AssetDatabaseABDataSource.cs:244-251 | Corrected, the cleanup removes exactly the staging folder of each bundle, in order |
| AssetDatabaseDataSource.VersionGate | Editor/AssetBundleDataSource/AssetDatabaseABDataSource.cs:131-154 | The build proceeds exactly when the check succeeds, major and minor agree, and the patch agrees or the user accepts. A failed check propagates its exception, a major or minor mismatch is refused with the minimum compatible version, and a declined patch mismatch is refused |
| AssetDatabaseDataSource.GateBuild | Editor/AssetBundleDataSource/AssetDatabaseABDataSource.cs:103-154 | The build proceeds only with a request and non-empty guidelines holding a string version, and then exactly as the version gate decides |
| AssetDatabaseDataSource.DialogMattersOnlyOnPatchMismatch | Editor/AssetBundleDataSource/AssetDatabaseABDataSource.cs:133-154 | The user's answer changes the decision exactly when major and minor agree and the patch differs |
| AssetDatabaseDataSource.UndottedEditorVersionRefused | Editor/AssetBundleDataSource/AssetDatabaseABDataSource.cs:131-138 | An editor version without '.' is refused as the wrong version, with an empty minimum |
| AssetDatabaseDataSource.RenderedVersionsGate | Editor/AssetBundleDataSource/AssetDatabaseABDataSource.cs:126-154 | On well-formed versions: the same major and minor go ahead, asking only on a patch difference; otherwise the request is refused with the recommended `major.minor` |
| AssetDatabaseDataSource.BuildAssetBundles | Editor/AssetBundleDataSource/AssetDatabaseABDataSource.cs:101-158 | The outcome is the guard chain's refusal or exception, or else exactly `Build`'s outcome; the return value matches it |
| AssetDatabaseDataSource.BuildAssetBundlesGuards | Editor/AssetBundleDataSource/AssetDatabaseABDataSource.cs:101-158 | Returns false for a null request, empty or non-object guidelines, a different major or minor (with the minimum compatible version), or a declined patch. It throws KeyNotFoundException for a missing `unityVersion` key, NullReferenceException for a non-string value, and the check's own exception when the check throws. Otherwise it returns what `Build` returns |
| UnityVersion.CurrentParts | Editor/AssetBundleDataSource/AssetDatabaseABDataSource.cs:376-386 | The editor's version has fewer than two parts exactly when it has no '.' |
| DotNetText.Trim | Editor/AssetBundleDataSource/AssetDatabaseABDataSource.cs:374 | `String.Trim` with `Char.IsWhiteSpace`; its properties are stated by `TrimBy`, `TrimIsMiddleSlice` and `TrimKeepsTrimmed` |
| DotNetText.FileNameWithoutExtension | Editor/AssetBundleDataSource/AssetDatabaseABDataSource.cs:248 | `Path.GetFileNameWithoutExtension` on '/' paths; `PathOfAppendedFile` and `FileNameOfNameAndExtension` state that it takes the last component and drops one extension |
| DotNetText.FileNameOfNameAndExtension | Editor/AssetBundleDataSource/AssetDatabaseABDataSource.cs:248 | A file `name.ext` without '/' or '.' in its parts loses exactly its extension |
| DotNetText.DirectoryName | Editor/AssetBundleDataSource/AssetDatabaseABDataSource.cs:248 | `Path.GetDirectoryName` on '/' paths; `PathOfAppendedFile` states that it gives everything before the last separator |
| AssetDatabaseDataSource.MetaText | Editor/AssetBundleDataSource/AssetDatabaseABDataSource.cs:191 | The metadata text; `MetaTextLines` states that it is exactly the two `package: version` lines |
| AssetDatabaseDataSource.NonScripts | Editor/AssetBundleDataSource/AssetDatabaseABDataSource.cs:223-232 | Keeps at most the given paths, each of them one of the paths and not a script; `NonScriptsMembers` and `NonScriptsKeepOrder` state that it keeps exactly those, in order |
| AssetDatabaseDataSource.BuildEntry | Editor/AssetBundleDataSource/AssetDatabaseABDataSource.cs:201-236 | The entry for one bundle; `BuildMapShape` states that it is the staged metadata file followed by the non-script assets in order |
| AssetDatabaseDataSource.BuildMap | Editor/AssetBundleDataSource/AssetDatabaseABDataSource.cs:194-237 | One entry per bundle name, named after it and never empty; `BuildMapShape` states each entry's contents |
| AssetDatabaseDataSource.TempMetaFiles | Editor/AssetBundleDataSource/AssetDatabaseABDataSource.cs:197-207 | The staged metadata files, one per bundle in order; `BuildMapShape` states that each is the first asset of its bundle's entry |
| AssetDatabaseDataSource.CleanupFolderAsWritten | Editor/AssetBundleDataSource/AssetDatabaseABDataSource.cs:248 | The folder line 248 targets, as written (line 249 deletes it only if it exists); `CleanupAsWrittenOf`, `CleanupAsWrittenTarget` and `CleanupAsWrittenMissesStagingFolder` state that it is `Assets/Temp/XREFBundleMeta`, never the staging folder |
| AssetDatabaseDataSource.CleanupFolder | Editor/AssetBundleDataSource/AssetDatabaseABDataSource.cs:244-251 | The corrected folder to delete: the staged file's directory; `CleanupRemovesStagingFolders` states that it is the bundle's staging folder |
| AssetDatabaseDataSource.BuildAssetBundlesResult | Editor/AssetBundleDataSource/AssetDatabaseABDataSource.cs:101-158 | What `BuildAssetBundles` does; `BuildAssetBundlesGuards` states each refusal, each exception and the hand-off to `Build` |
| UnityVersion.Expected | Editor/AssetBundleDataSource/AssetDatabaseABDataSource.cs:397-399 | The outputs for two parsed versions: major and minor equal, patch equal, and the recommended `major.minor`; `CheckUnityVersionCompatibility` states that the check reports them, and `MinCompatibleVersionRoundTrip` that the minimum parses back |
| UnityVersion.Defaults | Editor/AssetBundleDataSource/AssetDatabaseABDataSource.cs:368-370 | The initial outputs (false, false, ""); `UndottedKeepsDefaults` states that they are kept exactly when a version has no '.' |
| AssetDatabaseDataSource.RecommendedVersion | Editor/AssetBundleDataSource/AssetDatabaseABDataSource.cs:119-126 | The `unityVersion` string of the guidelines once the request and guideline guards pass; `GateBuild` states that the version gate then decides on it |
| AssetDatabaseDataSource.StagingFolder | Editor/AssetBundleDataSource/AssetDatabaseABDataSource.cs:201-203 | The folder `Assets/Temp/{bundle}` created for a bundle's metadata file; `CleanupRemovesStagingFolders` states that the corrected cleanup removes it |
| AssetDatabaseDataSource.BundleMetaFilePath | Editor/AssetBundleDataSource/AssetDatabaseABDataSource.cs:205 | The per-bundle copy `Assets/Temp/{bundle}/XREFBundleMeta.txt`; `BuildMapShape` states that it is the first asset of its bundle's entry |
| AssetDatabaseDataSource.AssetPathsOf | Editor/AssetBundleDataSource/AssetDatabaseABDataSource.cs:210 | The asset paths of a bundle in the database; `BuildMapShape` states that the entry keeps exactly the non-script ones, in order |
| AssetDatabaseDataSource.CleanupFolders | Editor/AssetBundleDataSource/AssetDatabaseABDataSource.cs:244-251 | The corrected targets of the cleanup loop, one per staged file; `CleanupRemovesStagingFolders` states that they are the bundles' staging folders, in order |
| AssetDatabaseDataSource.FirstNamed | Editor/AssetBundleDataSource/AssetDatabaseABDataSource.cs:281-291 | The index of the first listed package with the name asked for, or the list's length when none has it |
| AssetDatabaseDataSource.CheckPackageVersion | Editor/AssetBundleDataSource/AssetDatabaseABDataSource.cs:271-304 | The loop reports the installed and latest version of the first package with that name. Otherwise it reports "NOT_FOUND", or "ERROR" when the request did not succeed, and the latest version stays "" in both cases (`PackageAnswer`) |
| AssetDatabaseDataSource.PackageAnswer | Editor/AssetBundleDataSource/AssetDatabaseABDataSource.cs:271-304 | What `CheckPackageVersion` reports; `UnlistedPackageRefusedAsOutdated` states its consequence for `Build` |
| AssetDatabaseDataSource.HostPackageVersions | Editor/AssetBundleDataSource/AssetDatabaseABDataSource.cs:169-171 | The four strings `Build` compares, from the two `CheckPackageVersion` calls |
| AssetDatabaseDataSource.UnlistedPackageRefusedAsOutdated | Editor/AssetBundleDataSource/AssetDatabaseABDataSource.cs:170-176 | A missing package or a failed request is refused as out of date by the check at line 174 |
| AssetDatabaseDataSource.HostNeverRefusesForSentinels | Editor/AssetBundleDataSource/AssetDatabaseABDataSource.cs:170-189 | When no installed version reads "ERROR" or "NOT_FOUND", the refusals at lines 181-189 never happen |

## Left out

- `GetMetaGuidelines`: the HTTP download of the guidelines is not modelled. Its text is an input, and "" stands for a failed download.
- `CheckPackageVersion`: the polling of the package manager's request is not modelled. Its answer, the listed packages or a request that did not succeed, is the `PackageListing` input. A failed request and one in an unknown state are one case, since both give "ERROR".
- `CheckLatestPackageVersion` (lines 306-339) is not modelled: nothing in the data source calls it.
- AssetDatabaseDataSource.PackageCheck: `Build` takes the four strings of `PackageVersions` as free inputs. The host always pairs a sentinel with an empty latest version (`HostPackageVersions`, from the two calls at lines 170-171). So in the program the refusals `PackageQueryFailed` and `PackageNotFound` (lines 181-189) are reached only when an installed package reports a sentinel as its version; `HostNeverRefusesForSentinels` states this.
- MiniJSON deserialisation is a function parameter. Only the outcome the guards look at is modelled: not an object, no `unityVersion` key, a non-string value, or a string.
- Logging and the error dialog are not modelled: they have no effect on the result. The warning dialog is modelled only through the user's answer.
- File system effects are not performed. Only some of them are recorded in the outcome:
  - the per-bundle copies of the metadata file (`tempMetaFiles`) and the metadata text are recorded, but the root file `Assets/Temp/XREFBundleMeta.txt` (lines 180 and 192) is not, and it is never deleted;
  - creating `Assets/Temp` (lines 163-166, before the package check, so even a refused build creates it) and the per-bundle folders (lines 201-204) is not recorded;
  - `removedFolders` lists the folders the cleanup targets, not whether they existed.
- `Build` is modelled with the corrected cleanup folder (`CleanupFolder`). The cleanup as written is `CleanupFolderAsWritten`; see Findings.
- AssetDatabaseDataSource.BuildResult: exceptions from host calls are not modelled. `Directory.CreateDirectory` (lines 165 and 203), `File.WriteAllText` (192), `File.Copy` (206), `BuildPipeline.BuildAssetBundles` (241), `File.Delete` and `Directory.Delete` (246, 250) and the `onBuild` callback (264) can throw in the source; in the model they are total, so `Build` never yields `Threw`.
- `BuildPipeline.BuildAssetBundles` is a function parameter. A manifest is the sequence of its bundle names, and None stands for null. The `options` and `buildTarget` of a request are carried through unchanged.
- The trivial members are not modelled, because they only forward to the asset database or return constants:
  - `GetAssetPathsFromAssetBundle`, `GetImplicitAssetBundleName`, `GetAllAssetBundleNames`;
  - `SetAssetBundleNameAndVariant`, `RemoveUnusedAssetBundleNames`;
  - `Name`, `ProviderName`, `IsReadOnly`, `CanSpecifyBuildTarget`, `CanSpecifyBuildOutputDirectory`, `CanSpecifyBuildOptions`;
  - `CreateDataSources`.
- `DotNetText.ParseInt32`: the model does not accept trailing NUL characters, which `Int32.Parse` tolerates. It also does not model culture-specific signs: the invariant culture is assumed.
- `DotNetText.IntToString`: the invariant culture is assumed here too. Line 399 formats the major and minor with the current culture's negative sign, which the model always renders as '-'.
- `DotNetText.FileNameWithoutExtension` and `DotNetText.DirectoryName` only know '/' as a separator. Windows' '\\' and path normalisation are left out.
- Asset types are reduced to a set of script paths, which stands for `GetMainAssetTypeAtPath(p) == typeof(MonoScript)`.

## Findings

| source | as written | input that shows it | evidently intended | confidence | as-written member | corrected member |
|---|---|---|---|---|---|---|
| Editor/AssetBundleDataSource/AssetDatabaseABDataSource.cs:248 | The folder deleted after each staged file is `"Assets/Temp/" + GetFileNameWithoutExtension(metaFile)`, which is `Assets/Temp/XREFBundleMeta` for every bundle | A bundle named `ui`: the file `Assets/Temp/ui/XREFBundleMeta.txt` leads to deleting `Assets/Temp/XREFBundleMeta`, and `Assets/Temp/ui` stays | Delete the folder holding the staged file, `Assets/Temp/{bundleName}`, as the comment on line 247 says | not executed | AssetDatabaseDataSource.CleanupAsWrittenMissesStagingFolder | AssetDatabaseDataSource.CleanupRemovesStagingFolders |
