/**
  Where the provider puts the files of a package: those of the loader where its archive has
  them, those of any other package in directories that bear the package's name, or among
  the configuration.

  Line numbers refer to `pkg/modproviders/thunderstore/valheim-archive.go`.
 */
module ValheimArchive {
  import opened Wrappers
  import opened ModPaths
  import opened PackageNames

  const PLUGINS := "BepInEx/plugins/"
  const PATCHERS := "BepInEx/patchers/"
  const CONFIG := "BepInEx/config/"
  const CORE := "BepInEx/core/"

  function TrimPrefix(s: string, prefix: string): string { if prefix <= s then s[|prefix|..] else s }

  predicate OmittedMetadata(name: string) {
    Fold(name) in {"manifest.json", "readme.md", "icon.png", "changelog.md", "changelog.txt"}
  }

  /** The last element of a path from its last dot on. */
  function Extension(name: string): string {
    if name == [] || name[|name| - 1] == '/' then []
    else if name[|name| - 1] == '.' then "."
    else
      var front := name[..|name| - 1];
      if Extension(front) == [] then [] else Extension(front) + [name[|name| - 1]]
  }

  predicate LaunchScript(name: string) { Fold(Extension(name)) in {".exe", ".bat", ".cmd", ".ps1", ".sh"} }

  /** Lines 126-150: where a package other than the loader puts the archive entry `name`. */
  function InstallPath(name: string, packageId: string): Option<string> {
    if OmittedMetadata(name) then None else
    var rest := TrimPrefix(name, "BepInEx/");
    if "plugins/" <= rest then Some(PLUGINS + packageId + "/" + TrimPrefix(rest, "plugins/"))
    else if "patchers/" <= rest then Some(PATCHERS + packageId + "/" + TrimPrefix(rest, "patchers/"))
    else if "config/" <= rest then Some(CONFIG + TrimPrefix(rest, "config/"))
    else if "core/" <= Fold(rest) || "doorstop" <= Fold(rest) || Fold(rest) == "winhttp.dll" then None
    else if LaunchScript(rest) then None
    else Some(PLUGINS + packageId + "/" + rest)
  }

  /** Lines 160-178: whether the loader's archive may have a file at `name`. */
  predicate LoaderPath(name: string, windows: bool) {
    || PLUGINS <= name || CONFIG <= name || CORE <= name
    || name == ".doorstop_version"
    || ('/' !in name && ("license" <= Fold(name) || "notice" <= Fold(name) || "copying" <= Fold(name)))
    || (windows && (name == "winhttp.dll" || name == "doorstop_config.ini"))
    || (!windows && name == "doorstop_libs/libdoorstop_x64.so")
  }

  lemma {:induction false} ExtensionIsSuffix(name: string)
    ensures |Extension(name)| <= |name| && name[|name| - |Extension(name)|..] == Extension(name)
  {
    if name != [] && name[|name| - 1] != '/' && name[|name| - 1] != '.' {
      ExtensionIsSuffix(name[..|name| - 1]);
    }
  }

  /** From the last dot on, if it is in the last element. */
  lemma {:induction false} ExtensionFrom(name: string, i: nat)
    requires i < |name| && name[i] == '.' && forall j :: i < j < |name| ==> name[j] != '.' && name[j] != '/'
    ensures Extension(name) == name[i..]
    decreases |name|
  {
    var last := |name| - 1;
    if i < last {
      ExtensionFrom(name[..last], i);
      assert name[i..] == name[..last][i..] + [name[last]];
    }
  }

  ghost predicate EndsIn(name: string, suffix: string) {
    |suffix| <= |name| && Fold(name)[|name| - |suffix|..] == suffix
  }

  lemma FoldedEnd(name: string, at: nat)
    requires at <= |name|
    ensures Fold(name[at..]) == Fold(name)[at..]
  {
  }

  lemma SuffixIsExtension(name: string, suffix: string)
    requires suffix != [] && suffix[0] == '.' && forall j :: 0 < j < |suffix| ==> suffix[j] != '.' && suffix[j] != '/'
    ensures Fold(Extension(name)) == suffix <==> EndsIn(name, suffix)
  {
    ExtensionIsSuffix(name);
    FoldedEnd(name, |name| - |Extension(name)|);
    if EndsIn(name, suffix) {
      var at := |name| - |suffix|;
      FoldedEnd(name, at);
      forall j | at <= j < |name| ensures Lower(name[j]) == suffix[j - at] {
        assert Fold(name)[at..][j - at] == Lower(name[j]);
      }
      ExtensionFrom(name, at);
    }
  }

  /** Scripts that could start something are known by the end of their name, in any spelling. */
  lemma ScriptsExactly(name: string)
    ensures LaunchScript(name) <==>
      EndsIn(name, ".exe") || EndsIn(name, ".bat") || EndsIn(name, ".cmd") || EndsIn(name, ".ps1") || EndsIn(name, ".sh")
  {
    SuffixIsExtension(name, ".exe");
    SuffixIsExtension(name, ".bat");
    SuffixIsExtension(name, ".cmd");
    SuffixIsExtension(name, ".ps1");
    SuffixIsExtension(name, ".sh");
  }

  /** Outside its plugins, patchers and configuration a package may not bring scripts or files of the loader. */
  lemma RefusedExactly(name: string, packageId: string)
    requires !("BepInEx/" <= name) && !("plugins/" <= name) && !("patchers/" <= name) && !("config/" <= name)
    requires Fold(name) !in {"manifest.json", "readme.md", "icon.png", "changelog.md", "changelog.txt"}
    ensures InstallPath(name, packageId) == None <==>
      || "core/" <= Fold(name) || "doorstop" <= Fold(name) || Fold(name) == "winhttp.dll"
      || EndsIn(name, ".exe") || EndsIn(name, ".bat") || EndsIn(name, ".cmd") || EndsIn(name, ".ps1") || EndsIn(name, ".sh")
    ensures InstallPath(name, packageId).Some? ==> InstallPath(name, packageId).value == PLUGINS + packageId + "/" + name
  {
    ScriptsExactly(name);
  }

  /** The file is in one of the package's directories, compared without regard to case. */
  predicate InDirectory(packageId: string, path: string) {
    Fold(PLUGINS + packageId + "/") <= Fold(path) || Fold(PATCHERS + packageId + "/") <= Fold(path)
  }

  lemma FoldPrefix(a: string, b: string)
    ensures Fold(a) <= Fold(a + b)
  {
    FoldConcat(a, b);
  }

  /** A package keeps to its own directories, but for configuration. */
  lemma InstallsInDirectory(name: string, packageId: string)
    ensures var path := InstallPath(name, packageId);
            path.Some? ==> InDirectory(packageId, path.value) || IsConfig(path.value)
  {
    var rest := TrimPrefix(name, "BepInEx/");
    FoldPrefix(PLUGINS + packageId + "/", TrimPrefix(rest, "plugins/"));
    FoldPrefix(PLUGINS + packageId + "/", rest);
    FoldPrefix(PATCHERS + packageId + "/", TrimPrefix(rest, "patchers/"));
    FoldPrefix(CONFIG, TrimPrefix(rest, "config/"));
    assert Fold(CONFIG) == CONFIG_PREFIX;
  }

  /** A directory of a package is not where disabled mods are kept. */
  lemma DirectoryStart(packageId: string, path: string)
    requires InDirectory(packageId, path)
    ensures Fold(path) != [] && Fold(path)[0] == 'b'
  {
    var plugins, patchers := PLUGINS + packageId + "/", PATCHERS + packageId + "/";
    assert plugins[0] == 'B' && patchers[0] == 'B';
    assert Fold(plugins)[0] == 'b' && Fold(patchers)[0] == 'b';
  }

  /** Neither is any place of the loader: those of disabled mods begin with a dot and an x. */
  lemma LoaderNotDisabled(name: string, windows: bool)
    requires LoaderPath(name, windows)
    ensures |name| > 1 && (Fold(name)[0] != '.' || Fold(name)[1] != 'x')
  {
  }
}
