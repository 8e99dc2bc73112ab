/**
 * The built-in asset database data source of the asset bundle browser: how
 * it names an asset's bundle, the guards that decide whether a build may
 * run, and the build itself, which stages a metadata file into every
 * bundle, hands the build map to the engine's pipeline and reports each
 * built bundle to a callback.
 *
 * The host engine is an input: the asset database is a snapshot value, the
 * JSON deserialiser and the bundle pipeline are functions passed in, the
 * package manager's answers are four version strings, and the answer to the
 * "continue anyway?" dialog is a boolean.
 */
module AssetDatabaseDataSource {
  import opened Outcomes
  import opened DotNetText
  import opened UnityVersion

  // ---------------------------------------------------------------------------
  // The host's asset database
  // ---------------------------------------------------------------------------

  /** The bundle settings an asset importer records for one asset. */
  datatype Importer = Importer(assetBundleName: string, assetBundleVariant: string)

  /** What the data source reads from the asset database. */
  datatype AssetDatabase = AssetDatabase(
    importers: map<string, Importer>,        // AssetImporter.GetAtPath, by asset path
    bundleNames: seq<string>,                // AssetDatabase.GetAllAssetBundleNames()
    bundleAssets: map<string, seq<string>>,  // AssetDatabase.GetAssetPathsFromAssetBundle, by bundle
    scripts: set<string>)                    // paths whose main asset type is MonoScript

  /** The bundle an asset belongs to: empty without an importer, otherwise
      the bundle name, followed by `.variant` when there is a variant. */
  function GetAssetBundleName(db: AssetDatabase, assetPath: string): (name: string)
    ensures assetPath !in db.importers ==> name == ""
    ensures assetPath in db.importers ==> db.importers[assetPath].assetBundleName <= name
  {
    if assetPath !in db.importers then ""
    else
      var importer := db.importers[assetPath];
      if |importer.assetBundleVariant| > 0 then importer.assetBundleName + "." + importer.assetBundleVariant
      else importer.assetBundleName
  }

  /** With dot-free names, a bundle name splits at '.' into exactly the
      importer's name and, when there is one, its variant. */
  lemma BundleNameSplitsIntoNameAndVariant(db: AssetDatabase, assetPath: string)
    requires assetPath in db.importers
    requires '.' !in db.importers[assetPath].assetBundleName && '.' !in db.importers[assetPath].assetBundleVariant
    ensures var importer := db.importers[assetPath];
            Split(GetAssetBundleName(db, assetPath), '.')
              == if importer.assetBundleVariant == "" then [importer.assetBundleName]
                 else [importer.assetBundleName, importer.assetBundleVariant]
  {
    var importer := db.importers[assetPath];
    if importer.assetBundleVariant == "" {
      JoinThenSplit([importer.assetBundleName], '.');
    } else {
      JoinThenSplit([importer.assetBundleName, importer.assetBundleVariant], '.');
    }
  }

  // ---------------------------------------------------------------------------
  // Build requests and outcomes
  // ---------------------------------------------------------------------------

  /** The caller's build request; `hasOnBuild` says whether a callback is set. */
  datatype BuildInfo = BuildInfo(outputDirectory: string, options: int, buildTarget: int, hasOnBuild: bool)

  /** One entry of the build map handed to the pipeline. */
  datatype BundleBuild = BundleBuild(assetBundleName: string, assetNames: seq<string>)

  /** The installed and latest versions of the two plugin packages that
      `Build` compares; "ERROR" and "NOT_FOUND" stand for a failed query and
      a missing package. `HostPackageVersions` gives the four strings the
      package manager's answers lead to. */
  datatype PackageVersions = PackageVersions(
    xrefVersion: string, xrefLatestVersion: string,
    builderVersion: string, builderLatestVersion: string)

  /** Why a build was refused. */
  datatype Rejection =
    | NoBuildInfo                                   // the request is null
    | NoGuidelines                                  // the guideline download gave nothing
    | InvalidGuidelines                             // the guidelines are not a JSON object
    | WrongUnityVersion(minCompatibleVersion: string)  // major or minor differ
    | PatchDeclined                                 // patch differs and the user said no
    | PackagesOutdated                              // a package is not at its latest version
    | PackageQueryFailed                            // a package version reads "ERROR"
    | PackageNotFound                               // a package version reads "NOT_FOUND"

  /** What a call did: refused, threw, or ran the pipeline. A run records
      the metadata text, the build map, the staged metadata files, the
      staging folders it removes afterwards, the pipeline's manifest (None
      for null) and the bundle names passed to the callback, in order. */
  datatype BuildOutcome =
    | Rejected(reason: Rejection)
    | Threw(error: Exception)
    | Ran(meta: string, buildMap: seq<BundleBuild>, tempMetaFiles: seq<string>,
          removedFolders: seq<string>, manifest: Option<seq<string>>, onBuildCalls: seq<string>)

  /** The value the C# method returns; None when it throws. */
  function ReturnValue(outcome: BuildOutcome): (r: Option<bool>)
    ensures r == Some(true) <==> outcome.Ran? && outcome.manifest.Some?
    ensures r.None? <==> outcome.Threw?
  {
    match outcome
    case Rejected(_) => Some(false)
    case Threw(_) => None
    case Ran(_, _, _, _, manifest, _) => Some(manifest.Some?)
  }

  // ---------------------------------------------------------------------------
  // The package gate and the metadata text
  // ---------------------------------------------------------------------------

  const XrefPackage := "com.untoldgarden.xref"
  const BuilderPackage := "com.untoldgarden.xref-experience-builder"

  /** The checks on the package versions, in the order `Build` makes them:
      both packages must be at their latest version, and neither version
      may be one of the two sentinels. */
  function PackageCheck(p: PackageVersions): (r: Option<Rejection>)
    ensures r.None? <==>
              && p.xrefVersion == p.xrefLatestVersion && p.builderVersion == p.builderLatestVersion
              && p.xrefVersion !in {"ERROR", "NOT_FOUND"} && p.builderVersion !in {"ERROR", "NOT_FOUND"}
  {
    if p.xrefVersion != p.xrefLatestVersion || p.builderVersion != p.builderLatestVersion then Some(PackagesOutdated)
    else if p.xrefVersion == "ERROR" || p.builderVersion == "ERROR" then Some(PackageQueryFailed)
    else if p.xrefVersion == "NOT_FOUND" || p.builderVersion == "NOT_FOUND" then Some(PackageNotFound)
    else None
  }

  /** A package as the package manager lists it: its name, the installed
      version and the latest version it knows of. */
  datatype PackageInfo = PackageInfo(name: string, version: string, latest: string)

  /** The answer to a package list request: the installed packages, or a
      request that did not succeed (failed, or in a state the code does not
      know, which it treats alike). */
  datatype PackageListing = Listed(packages: seq<PackageInfo>) | NotListed

  /** The index of the first package with the given name, or `|packages|`
      when no package has it. */
  function FirstNamed(packages: seq<PackageInfo>, name: string): (i: nat)
    ensures i <= |packages|
    ensures i < |packages| ==> packages[i].name == name
    ensures forall j :: 0 <= j < i ==> packages[j].name != name
  {
    if packages == [] || packages[0].name == name then 0
    else 1 + FirstNamed(packages[1..], name)
  }

  /** The installed and latest version reported for a package: those of the
      first listed package with that name; otherwise "NOT_FOUND", or "ERROR"
      when the request did not succeed, with the latest version left "". */
  function PackageAnswer(listing: PackageListing, packageName: string): (string, string) {
    match listing
    case NotListed => ("ERROR", "")
    case Listed(packages) =>
      var i := FirstNamed(packages, packageName);
      if i < |packages| then (packages[i].version, packages[i].latest) else ("NOT_FOUND", "")
  }

  /** `CheckPackageVersion`: scans the listing, stopping at the first package
      with the name asked for. */
  method CheckPackageVersion(listing: PackageListing, packageName: string) returns (version: string, latestVersion: string)
    ensures (version, latestVersion) == PackageAnswer(listing, packageName)
  {
    version, latestVersion := "", "";
    if listing.Listed? {
      var packages := listing.packages;
      var i := 0;
      while i < |packages|
        invariant 0 <= i <= |packages|
        invariant forall j :: 0 <= j < i ==> packages[j].name != packageName
      {
        if packages[i].name == packageName {
          version, latestVersion := packages[i].version, packages[i].latest;
          return;
        }
        i := i + 1;
      }
      version := "NOT_FOUND";
    } else {
      version := "ERROR";
    }
  }

  /** The four strings `Build` compares, as its two `CheckPackageVersion`
      calls produce them from the package manager's answers. */
  function HostPackageVersions(xrefListing: PackageListing, builderListing: PackageListing): PackageVersions {
    var (xrefVersion, xrefLatest) := PackageAnswer(xrefListing, XrefPackage);
    var (builderVersion, builderLatest) := PackageAnswer(builderListing, BuilderPackage);
    PackageVersions(xrefVersion, xrefLatest, builderVersion, builderLatest)
  }

  /** The package is absent from the listing, or the request failed. */
  predicate Unlisted(listing: PackageListing, packageName: string) {
    listing.NotListed? || FirstNamed(listing.packages, packageName) == |listing.packages|
  }

  /** No listed package reports a sentinel as its installed version. */
  predicate NoSentinelVersions(listing: PackageListing) {
    listing.Listed? ==> forall i :: 0 <= i < |listing.packages| ==> listing.packages[i].version !in {"ERROR", "NOT_FOUND"}
  }

  /** A sentinel always comes with an empty latest version, so a missing
      package or a failed request is refused as out of date by the first
      check, never as missing or failed. */
  lemma UnlistedPackageRefusedAsOutdated(xrefListing: PackageListing, builderListing: PackageListing)
    requires Unlisted(xrefListing, XrefPackage) || Unlisted(builderListing, BuilderPackage)
    ensures PackageCheck(HostPackageVersions(xrefListing, builderListing)) == Some(PackagesOutdated)
  {
    var p := HostPackageVersions(xrefListing, builderListing);
    assert Unlisted(xrefListing, XrefPackage) ==> p.xrefVersion in {"ERROR", "NOT_FOUND"} && p.xrefLatestVersion == "";
    assert Unlisted(builderListing, BuilderPackage) ==> p.builderVersion in {"ERROR", "NOT_FOUND"} && p.builderLatestVersion == "";
  }

  /** Hence, as long as no installed version reads like a sentinel, the
      refusals for a failed request and a missing package never happen. */
  lemma HostNeverRefusesForSentinels(xrefListing: PackageListing, builderListing: PackageListing)
    requires NoSentinelVersions(xrefListing) && NoSentinelVersions(builderListing)
    ensures PackageCheck(HostPackageVersions(xrefListing, builderListing)) != Some(PackageQueryFailed)
    ensures PackageCheck(HostPackageVersions(xrefListing, builderListing)) != Some(PackageNotFound)
  {
    if Unlisted(xrefListing, XrefPackage) || Unlisted(builderListing, BuilderPackage) {
      UnlistedPackageRefusedAsOutdated(xrefListing, builderListing);
    }
  }

  /** The text of the metadata file: one `package: version` line per package. */
  function MetaText(xrefVersion: string, builderVersion: string): string {
    XrefPackage + ": " + xrefVersion + "\n" + BuilderPackage + ": " + builderVersion
  }

  /** The metadata text reads back, line by line, as the two package lines. */
  lemma MetaTextLines(xrefVersion: string, builderVersion: string)
    requires '\n' !in xrefVersion && '\n' !in builderVersion
    ensures Split(MetaText(xrefVersion, builderVersion), '\n')
              == [XrefPackage + ": " + xrefVersion, BuilderPackage + ": " + builderVersion]
  {
    var lines := [XrefPackage + ": " + xrefVersion, BuilderPackage + ": " + builderVersion];
    assert '\n' !in XrefPackage + ": " && '\n' !in BuilderPackage + ": ";
    assert '\n' !in lines[0] && '\n' !in lines[1];
    assert Join(lines[1..], '\n') == lines[1];
    assert Join(lines, '\n') == lines[0] + "\n" + lines[1];
    assert lines[0] + "\n" + lines[1] == MetaText(xrefVersion, builderVersion);
    JoinThenSplit(lines, '\n');
  }

  // ---------------------------------------------------------------------------
  // The build map
  // ---------------------------------------------------------------------------

  /** The folder a bundle's metadata file is staged in. */
  function StagingFolder(bundleName: string): string {
    "Assets/Temp/" + bundleName
  }

  /** The base name and extension of the metadata file. */
  const MetaFileBaseName := "XREFBundleMeta"
  const MetaFileExtension := "txt"

  /** The per-bundle copy of the metadata file,
      `Assets/Temp/{bundleName}/XREFBundleMeta.txt`. */
  function BundleMetaFilePath(bundleName: string): string {
    StagingFolder(bundleName) + "/" + (MetaFileBaseName + "." + MetaFileExtension)
  }

  /** The asset paths of a bundle; a bundle the database does not know has none. */
  function AssetPathsOf(db: AssetDatabase, bundleName: string): seq<string> {
    if bundleName in db.bundleAssets then db.bundleAssets[bundleName] else []
  }

  /** The paths that are not scripts, in their original order. */
  function NonScripts(paths: seq<string>, scripts: set<string>): (kept: seq<string>)
    ensures |kept| <= |paths|
    ensures forall i :: 0 <= i < |kept| ==> kept[i] in paths && kept[i] !in scripts
    decreases |paths|
  {
    if paths == [] then []
    else
      var last := paths[|paths| - 1];
      NonScripts(paths[..|paths| - 1], scripts) + (if last in scripts then [] else [last])
  }

  /** A path survives the filter exactly when it is one of the paths and not a script. */
  lemma {:induction false} NonScriptsMembers(paths: seq<string>, scripts: set<string>, x: string)
    ensures x in NonScripts(paths, scripts) <==> x in paths && x !in scripts
    decreases |paths|
  {
    if paths != [] {
      var init := paths[..|paths| - 1];
      NonScriptsMembers(init, scripts, x);
      assert paths == init + [paths[|paths| - 1]];
    }
  }

  /** The filter keeps order: filtering a concatenation concatenates the filtered halves. */
  lemma {:induction false} NonScriptsKeepOrder(a: seq<string>, b: seq<string>, scripts: set<string>)
    ensures NonScripts(a + b, scripts) == NonScripts(a, scripts) + NonScripts(b, scripts)
    decreases |b|
  {
    if b == [] {
      assert a + b == a;
    } else {
      var init := b[..|b| - 1];
      NonScriptsKeepOrder(a, init, scripts);
      assert (a + b)[..|a + b| - 1] == a + init;
    }
  }

  /** The entry for one bundle: its metadata file, then its non-script assets. */
  function BuildEntry(db: AssetDatabase, bundleName: string): BundleBuild {
    BundleBuild(bundleName, [BundleMetaFilePath(bundleName)] + NonScripts(AssetPathsOf(db, bundleName), db.scripts))
  }

  /** One entry per bundle name, in the database's order. */
  function BuildMap(db: AssetDatabase): (buildMap: seq<BundleBuild>)
    ensures |buildMap| == |db.bundleNames|
    ensures forall i :: 0 <= i < |buildMap| ==> buildMap[i].assetBundleName == db.bundleNames[i] && buildMap[i].assetNames != []
  {
    seq(|db.bundleNames|, i requires 0 <= i < |db.bundleNames| => BuildEntry(db, db.bundleNames[i]))
  }

  /** The staged metadata files, one per bundle name, in the same order. */
  function TempMetaFiles(db: AssetDatabase): seq<string> {
    seq(|db.bundleNames|, i requires 0 <= i < |db.bundleNames| => BundleMetaFilePath(db.bundleNames[i]))
  }

  // ---------------------------------------------------------------------------
  // Cleaning up the staging folders
  // ---------------------------------------------------------------------------

  /** The folder the cleanup loop deletes after a metadata file, as written:
      named after the metadata file's base name. */
  function CleanupFolderAsWritten(metaFile: string): string {
    "Assets/Temp/" + FileNameWithoutExtension(metaFile)
  }

  /** The folder the cleanup loop is meant to delete: the one holding the
      metadata file, which is the bundle's staging folder. */
  function CleanupFolder(metaFile: string): string {
    DirectoryName(metaFile)
  }

  /** The corrected targets of the cleanup loop, one per staged metadata file. */
  function CleanupFolders(metaFiles: seq<string>): seq<string> {
    seq(|metaFiles|, i requires 0 <= i < |metaFiles| => CleanupFolder(metaFiles[i]))
  }

  /** As written, the cleanup after a file `name.ext` in any folder aims at
      `Assets/Temp/name`. */
  lemma CleanupAsWrittenOf(folder: string, name: string, ext: string)
    requires '/' !in name && '.' !in name && '/' !in ext && '.' !in ext
    ensures CleanupFolderAsWritten(folder + "/" + (name + "." + ext)) == "Assets/Temp/" + name
  {
    PathOfAppendedFile(folder, name + "." + ext);
    FileNameOfNameAndExtension(name, ext);
  }

  /** As written, the cleanup aims at `Assets/Temp/XREFBundleMeta` whatever the bundle. */
  lemma CleanupAsWrittenTarget(bundleName: string)
    ensures CleanupFolderAsWritten(BundleMetaFilePath(bundleName)) == StagingFolder(MetaFileBaseName)
  {
    var name, ext := MetaFileBaseName, MetaFileExtension;
    assert '/' !in name && '.' !in name && '/' !in ext && '.' !in ext;
    CleanupAsWrittenOf(StagingFolder(bundleName), name, ext);
  }

  /** So, as written, a bundle's staging folder is never the one removed
      (unless the bundle happens to be named `XREFBundleMeta`). */
  lemma CleanupAsWrittenMissesStagingFolder(bundleName: string)
    requires bundleName != MetaFileBaseName
    ensures CleanupFolderAsWritten(BundleMetaFilePath(bundleName)) != StagingFolder(bundleName)
  {
    CleanupAsWrittenTarget(bundleName);
    SamePrefixDifferentTails("Assets/Temp/", MetaFileBaseName, bundleName);
  }

  /** Texts with a common prefix differ exactly when their tails do. */
  lemma SamePrefixDifferentTails(prefix: string, a: string, b: string)
    ensures prefix + a != prefix + b <==> a != b
  {
    assert (prefix + a)[|prefix|..] == a;
    assert (prefix + b)[|prefix|..] == b;
  }

  /** Corrected, the cleanup removes exactly the staging folder of each bundle. */
  lemma CleanupRemovesStagingFolders(db: AssetDatabase)
    ensures CleanupFolders(TempMetaFiles(db)) == seq(|db.bundleNames|, i requires 0 <= i < |db.bundleNames| => StagingFolder(db.bundleNames[i]))
  {
    forall i | 0 <= i < |db.bundleNames|
      ensures CleanupFolder(BundleMetaFilePath(db.bundleNames[i])) == StagingFolder(db.bundleNames[i])
    {
      PathOfAppendedFile(StagingFolder(db.bundleNames[i]), MetaFileBaseName + "." + MetaFileExtension);
    }
  }

  // ---------------------------------------------------------------------------
  // Build
  // ---------------------------------------------------------------------------

  /** What `Build` does, as a function of its inputs. */
  function BuildResult(info: BuildInfo, packages: PackageVersions, db: AssetDatabase,
                       pipeline: (BuildInfo, seq<BundleBuild>) -> Option<seq<string>>): (outcome: BuildOutcome)
    ensures !outcome.Threw?
  {
    match PackageCheck(packages)
    case Some(reason) => Rejected(reason)
    case None =>
      var buildMap := BuildMap(db);
      var tempMetaFiles := TempMetaFiles(db);
      var manifest := pipeline(info, buildMap);
      Ran(MetaText(packages.xrefVersion, packages.builderVersion), buildMap, tempMetaFiles,
          CleanupFolders(tempMetaFiles), manifest,
          if manifest.Some? && info.hasOnBuild then manifest.value else [])
  }

  /**
   * Checks the package versions, writes the metadata text, stages a copy of
   * it for every bundle and builds the map of bundles to assets, runs the
   * pipeline, removes the staged files and each bundle's staging folder
   * (the corrected cleanup: see `CleanupFolderAsWritten`), and passes each
   * bundle of the manifest to the callback.
   */
  method Build(info: BuildInfo, packages: PackageVersions, db: AssetDatabase,
               pipeline: (BuildInfo, seq<BundleBuild>) -> Option<seq<string>>)
    returns (ok: bool, outcome: BuildOutcome)
    ensures outcome == BuildResult(info, packages, db, pipeline)
    ensures ok <==> ReturnValue(outcome) == Some(true)
  {
    var rejection := PackageCheck(packages);
    if rejection.Some? {
      return false, Rejected(rejection.value);
    }
    var meta := MetaText(packages.xrefVersion, packages.builderVersion);

    var bundleNames := db.bundleNames;
    var buildMap: seq<BundleBuild> := [];
    var tempMetaFiles: seq<string> := [];
    for i := 0 to |bundleNames|
      invariant |buildMap| == i && |tempMetaFiles| == i
      invariant forall k :: 0 <= k < i ==> buildMap[k] == BuildEntry(db, bundleNames[k])
      invariant forall k :: 0 <= k < i ==> tempMetaFiles[k] == BundleMetaFilePath(bundleNames[k])
    {
      var bundleName := bundleNames[i];
      var newMetaFilePath := BundleMetaFilePath(bundleName);
      tempMetaFiles := tempMetaFiles + [newMetaFilePath];
      var assetPaths := AssetPathsOf(db, bundleName);
      var assetList := [newMetaFilePath];
      for j := 0 to |assetPaths|
        invariant assetList == [newMetaFilePath] + NonScripts(assetPaths[..j], db.scripts)
      {
        assert assetPaths[..j + 1][..j] == assetPaths[..j];
        if assetPaths[j] in db.scripts {
          continue;
        }
        assetList := assetList + [assetPaths[j]];
      }
      assert assetPaths[..|assetPaths|] == assetPaths;
      buildMap := buildMap + [BundleBuild(bundleName, assetList)];
    }
    assert buildMap == BuildMap(db);
    assert tempMetaFiles == TempMetaFiles(db);

    var manifest := pipeline(info, buildMap);

    var removedFolders: seq<string> := [];
    for i := 0 to |tempMetaFiles|
      invariant |removedFolders| == i
      invariant forall k :: 0 <= k < i ==> removedFolders[k] == CleanupFolder(tempMetaFiles[k])
    {
      removedFolders := removedFolders + [CleanupFolder(tempMetaFiles[i])];
    }
    assert removedFolders == CleanupFolders(tempMetaFiles);

    if manifest.None? {
      return false, Ran(meta, buildMap, tempMetaFiles, removedFolders, manifest, []);
    }
    var builtBundles := manifest.value;
    var onBuildCalls: seq<string> := [];
    for k := 0 to |builtBundles|
      invariant onBuildCalls == if info.hasOnBuild then builtBundles[..k] else []
    {
      if info.hasOnBuild {
        onBuildCalls := onBuildCalls + [builtBundles[k]];
      }
    }
    assert builtBundles[..|builtBundles|] == builtBundles;
    return true, Ran(meta, buildMap, tempMetaFiles, removedFolders, manifest, onBuildCalls);
  }

  /** `Build` refuses, before writing the metadata file, exactly when a
      package is out of date or reads as a sentinel; otherwise the metadata
      text is the two package lines. */
  lemma BuildRefusesStalePackages(info: BuildInfo, packages: PackageVersions, db: AssetDatabase,
                                  pipeline: (BuildInfo, seq<BundleBuild>) -> Option<seq<string>>)
    ensures var outcome := BuildResult(info, packages, db, pipeline);
            && (outcome.Rejected? <==>
                  || packages.xrefVersion != packages.xrefLatestVersion
                  || packages.builderVersion != packages.builderLatestVersion
                  || packages.xrefVersion in {"ERROR", "NOT_FOUND"}
                  || packages.builderVersion in {"ERROR", "NOT_FOUND"})
            && (outcome.Rejected? ==> ReturnValue(outcome) == Some(false))
            && (outcome.Ran? ==> outcome.meta == MetaText(packages.xrefVersion, packages.builderVersion))
  {
  }

  /** The shape of the build map: one entry per bundle, in order, each
      starting with that bundle's staged metadata file and continuing with
      exactly its non-script assets in their original order. */
  lemma BuildMapShape(info: BuildInfo, packages: PackageVersions, db: AssetDatabase,
                      pipeline: (BuildInfo, seq<BundleBuild>) -> Option<seq<string>>, i: nat, x: string)
    requires BuildResult(info, packages, db, pipeline).Ran?
    requires i < |db.bundleNames|
    ensures var outcome := BuildResult(info, packages, db, pipeline);
            var entry := outcome.buildMap[i];
            && |outcome.buildMap| == |outcome.tempMetaFiles| == |db.bundleNames|
            && entry.assetBundleName == db.bundleNames[i]
            && entry.assetNames[0] == outcome.tempMetaFiles[i] == BundleMetaFilePath(db.bundleNames[i])
            && entry.assetNames[1..] == NonScripts(AssetPathsOf(db, db.bundleNames[i]), db.scripts)
            && (x in entry.assetNames[1..] <==> x in AssetPathsOf(db, db.bundleNames[i]) && x !in db.scripts)
  {
    NonScriptsMembers(AssetPathsOf(db, db.bundleNames[i]), db.scripts, x);
  }

  /** The callback sees each bundle of the manifest once, in order, and only
      when the pipeline returned a manifest and a callback is set; the build
      succeeds exactly when there is a manifest. */
  lemma OnBuildOncePerBuiltBundle(info: BuildInfo, packages: PackageVersions, db: AssetDatabase,
                                  pipeline: (BuildInfo, seq<BundleBuild>) -> Option<seq<string>>)
    requires BuildResult(info, packages, db, pipeline).Ran?
    ensures var outcome := BuildResult(info, packages, db, pipeline);
            && outcome.manifest == pipeline(info, outcome.buildMap)
            && (ReturnValue(outcome) == Some(true) <==> outcome.manifest.Some?)
            && (outcome.onBuildCalls != [] ==> outcome.manifest.Some? && info.hasOnBuild)
            && (outcome.manifest.Some? && info.hasOnBuild ==> outcome.onBuildCalls == outcome.manifest.value)
  {
  }

  // ---------------------------------------------------------------------------
  // BuildAssetBundles
  // ---------------------------------------------------------------------------

  /** The `unityVersion` entry of the guidelines: missing, not a string, or a string. */
  datatype JsonField = Missing | NotAString | Str(text: string)

  /** The deserialised guidelines: not a JSON object (null after the cast),
      or an object with its `unityVersion` entry. */
  datatype JsonDocument = NotAnObject | Object(unityVersion: JsonField)

  /** The guard chain's decision: go on to `Build`, refuse, or throw. */
  datatype Admission = Proceed | Refuse(reason: Rejection) | Raise(error: Exception)

  /** The version guards of `BuildAssetBundles`, on the outcome of the
      compatibility check: an escaping exception propagates, a different
      major or minor is refused, and a different patch needs the user's
      consent (`continueAnyway`). */
  function VersionGate(check: Result<Compatibility>, continueAnyway: bool): (a: Admission)
    ensures a.Proceed? <==> check.Success? && check.value.majorMinorIsEqual && (check.value.patchIsEqual || continueAnyway)
    ensures check.Failure? ==> a == Raise(check.error)
    ensures check.Success? && !check.value.majorMinorIsEqual ==> a == Refuse(WrongUnityVersion(check.value.minCompatibleVersion))
    ensures check.Success? && check.value.majorMinorIsEqual && !check.value.patchIsEqual && !continueAnyway ==> a == Refuse(PatchDeclined)
  {
    match check
    case Failure(e) => Raise(e)
    case Success(c) =>
      if !c.majorMinorIsEqual then Refuse(WrongUnityVersion(c.minCompatibleVersion))
      else if !c.patchIsEqual && !continueAnyway then Refuse(PatchDeclined)
      else Proceed
  }

  /** The recommended version in the guidelines, when the guards get that far. */
  function RecommendedVersion(info: Option<BuildInfo>, guidelines: string, parseJson: string -> JsonDocument): Option<string> {
    if info.Some? && guidelines != "" && parseJson(guidelines).Object? && parseJson(guidelines).unityVersion.Str?
    then Some(parseJson(guidelines).unityVersion.text)
    else None
  }

  /**
   * The guards of `BuildAssetBundles`, in order: a request must be given,
   * the guidelines must be non-empty and a JSON object whose `unityVersion`
   * entry is a string, and then the version guards apply. A missing entry
   * throws on the dictionary lookup; a non-string entry becomes null and
   * throws in the compatibility check.
   */
  function GateBuild(info: Option<BuildInfo>, guidelines: string, parseJson: string -> JsonDocument,
                     editorVersion: string, continueAnyway: bool): (a: Admission)
    ensures a.Proceed? ==> info.Some? && guidelines != ""
    ensures RecommendedVersion(info, guidelines, parseJson).Some? ==>
              a == VersionGate(CheckUnityVersionCompatibility(RecommendedVersion(info, guidelines, parseJson).value, editorVersion), continueAnyway)
    ensures RecommendedVersion(info, guidelines, parseJson).None? ==> !a.Proceed?
  {
    if info.None? then Refuse(NoBuildInfo)
    else if guidelines == "" then Refuse(NoGuidelines)
    else match parseJson(guidelines)
      case NotAnObject => Refuse(InvalidGuidelines)
      case Object(Missing) => Raise(KeyNotFoundException)
      case Object(NotAString) => Raise(NullReferenceException)
      case Object(Str(recommended)) => VersionGate(CheckUnityVersionCompatibility(recommended, editorVersion), continueAnyway)
  }

  /** The user's answer changes the decision exactly when major and minor
      agree and the patch differs: only then is the question asked. */
  lemma DialogMattersOnlyOnPatchMismatch(info: Option<BuildInfo>, guidelines: string,
                                         parseJson: string -> JsonDocument, editorVersion: string)
    ensures GateBuild(info, guidelines, parseJson, editorVersion, true) != GateBuild(info, guidelines, parseJson, editorVersion, false)
        <==> && RecommendedVersion(info, guidelines, parseJson).Some?
             && var c := CheckUnityVersionCompatibility(RecommendedVersion(info, guidelines, parseJson).value, editorVersion);
                c.Success? && c.value.majorMinorIsEqual && !c.value.patchIsEqual
  {
  }

  /** An editor version without a '.' is refused as the wrong version, with
      an empty minimum compatible version; it never throws. */
  lemma UndottedEditorVersionRefused(info: Option<BuildInfo>, guidelines: string,
                                     parseJson: string -> JsonDocument, editorVersion: string, continueAnyway: bool)
    requires RecommendedVersion(info, guidelines, parseJson).Some?
    requires '.' !in editorVersion
    ensures GateBuild(info, guidelines, parseJson, editorVersion, continueAnyway) == Refuse(WrongUnityVersion(""))
  {
    UndottedKeepsDefaults(RecommendedVersion(info, guidelines, parseJson).value, editorVersion);
  }

  /** End to end on well-formed versions: the same major and minor go ahead
      (asking only when the patch differs); a different major or minor is
      refused with the recommended `major.minor` as the minimum. */
  lemma RenderedVersionsGate(info: Option<BuildInfo>, guidelines: string, parseJson: string -> JsonDocument,
                             rec: Version, recTag: string, cur: Version, curTag: string, continueAnyway: bool)
    requires info.Some? && guidelines != "" && parseJson(guidelines) == Object(Str(Render(rec, recTag)))
    requires InInt32(rec.major) && InInt32(rec.minor) && InInt32(rec.patch) && IsReleaseTag(recTag)
    requires InInt32(cur.major) && InInt32(cur.minor) && InInt32(cur.patch) && IsReleaseTag(curTag)
    ensures var a := GateBuild(info, guidelines, parseJson, Render(cur, curTag), continueAnyway);
            && (rec.major == cur.major && rec.minor == cur.minor && (rec.patch == cur.patch || continueAnyway) ==> a == Proceed)
            && (rec.major == cur.major && rec.minor == cur.minor && rec.patch != cur.patch && !continueAnyway ==> a == Refuse(PatchDeclined))
            && (rec.major != cur.major || rec.minor != cur.minor ==>
                  a == Refuse(WrongUnityVersion(IntToString(rec.major) + "." + IntToString(rec.minor))))
  {
    var check := CheckUnityVersionCompatibility(Render(rec, recTag), Render(cur, curTag));
    var min := IntToString(rec.major) + "." + IntToString(rec.minor);
    assert check == Success(Compatibility(rec.major == cur.major && rec.minor == cur.minor, rec.patch == cur.patch, min)) by {
      CompareRendered(rec, recTag, cur, curTag);
    }
    assert RecommendedVersion(info, guidelines, parseJson) == Some(Render(rec, recTag));
    assert GateBuild(info, guidelines, parseJson, Render(cur, curTag), continueAnyway) == VersionGate(check, continueAnyway);
  }

  /** What `BuildAssetBundles` does: the outcome of the guard chain, or of
      `Build` when the guards let it through. */
  function BuildAssetBundlesResult(info: Option<BuildInfo>, guidelines: string, parseJson: string -> JsonDocument,
                                   editorVersion: string, continueAnyway: bool,
                                   packages: PackageVersions, db: AssetDatabase,
                                   pipeline: (BuildInfo, seq<BundleBuild>) -> Option<seq<string>>): BuildOutcome
  {
    match GateBuild(info, guidelines, parseJson, editorVersion, continueAnyway)
    case Proceed => BuildResult(info.value, packages, db, pipeline)
    case Refuse(reason) => Rejected(reason)
    case Raise(e) => Threw(e)
  }

  /**
   * Runs the guard chain and, when it lets the request through, `Build`.
   * `ok` is the value returned, None when an exception escapes.
   */
  method BuildAssetBundles(info: Option<BuildInfo>, guidelines: string, parseJson: string -> JsonDocument,
                           editorVersion: string, continueAnyway: bool,
                           packages: PackageVersions, db: AssetDatabase,
                           pipeline: (BuildInfo, seq<BundleBuild>) -> Option<seq<string>>)
    returns (ok: Option<bool>, outcome: BuildOutcome)
    ensures outcome == BuildAssetBundlesResult(info, guidelines, parseJson, editorVersion, continueAnyway, packages, db, pipeline)
    ensures ok == ReturnValue(outcome)
  {
    match GateBuild(info, guidelines, parseJson, editorVersion, continueAnyway)
    case Refuse(reason) =>
      return Some(false), Rejected(reason);
    case Raise(e) =>
      return None, Threw(e);
    case Proceed =>
      var built, run := Build(info.value, packages, db, pipeline);
      return Some(built), run;
  }

  /** `BuildAssetBundles` returns false without running the pipeline when
      the request is null, the guidelines are empty or not an object, the
      major or minor differ, or the patch differs and the user declines. It
      throws when the `unityVersion` entry is missing or not a string, and
      when the compatibility check throws. Otherwise it returns what `Build`
      returns. */
  lemma BuildAssetBundlesGuards(info: Option<BuildInfo>, guidelines: string, parseJson: string -> JsonDocument,
                                editorVersion: string, continueAnyway: bool,
                                packages: PackageVersions, db: AssetDatabase,
                                pipeline: (BuildInfo, seq<BundleBuild>) -> Option<seq<string>>)
    ensures var outcome := BuildAssetBundlesResult(info, guidelines, parseJson, editorVersion, continueAnyway, packages, db, pipeline);
            && (info.None? ==> outcome == Rejected(NoBuildInfo))
            && (info.Some? && guidelines == "" ==> outcome == Rejected(NoGuidelines))
            && (info.Some? && guidelines != "" && parseJson(guidelines).NotAnObject? ==> outcome == Rejected(InvalidGuidelines))
            && (info.Some? && guidelines != "" && parseJson(guidelines) == Object(Missing) ==> outcome == Threw(KeyNotFoundException))
            && (info.Some? && guidelines != "" && parseJson(guidelines) == Object(NotAString) ==> outcome == Threw(NullReferenceException))
            && (RecommendedVersion(info, guidelines, parseJson).Some? ==>
                  var c := CheckUnityVersionCompatibility(RecommendedVersion(info, guidelines, parseJson).value, editorVersion);
                  && (c.Failure? ==> outcome == Threw(c.error))
                  && (c.Success? && !c.value.majorMinorIsEqual ==> outcome == Rejected(WrongUnityVersion(c.value.minCompatibleVersion)))
                  && (c.Success? && c.value.majorMinorIsEqual && !c.value.patchIsEqual && !continueAnyway ==> outcome == Rejected(PatchDeclined))
                  && (c.Success? && c.value.majorMinorIsEqual && (c.value.patchIsEqual || continueAnyway) ==>
                        outcome == BuildResult(info.value, packages, db, pipeline)))
  {
  }
}
