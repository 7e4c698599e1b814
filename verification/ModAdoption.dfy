/**
  Why ownership depends on what the provider puts into the loader's archive: two updates of
  the loader, from an earlier version, that break it. In one the new archive has a file in
  the directory of another mod, in the other it spells one of its own files differently.
 */
module ModAdoption {
  import opened Wrappers
  import opened FileMoves
  import opened ModOwnership
  import opened ModPaths
  import opened ModTransactions
  import opened ValheimArchive
  import PackageNames

  /** Neither configuration nor kept for other reasons. */
  ghost predicate Plain(l: Layout, path: string) { l.local(path) && !l.config(path) && !l.doorstop(path) }

  const VERSION := PackageNames.LOADER_VERSION

  /** An update of the loader to an archive of one file. */
  ghost function Update(l: Layout, w: World, loader: string, path: string, content: Content): Change
    requires loader in w.mods && loader in w.files
  {
    Change(l, 0, w.tree, loader, w.mods[loader].(version := VERSION), Owned(w.files[loader]), [PackFile(path, content)])
  }

  /** A one-file archive that is adopted: nothing is promoted and the file is recorded. */
  lemma AdoptsAll(c: Change)
    requires |c.pack| == 1 && c.Decide(c.pack[0]) == Adopt && c.layout.local(c.pack[0].path)
    ensures c.Acceptable() && c.Records(1) == [FileRecord(c.pack[0].path, c.pack[0].content)]
    ensures c.Retained(1) == {c.pack[0].path} && c.Promotions(1) == {}
  {
    assert c.Records(0) == [] && c.Retained(0) == {} && c.Promotions(0) == {};
  }

  lemma OwnedOne(r: FileRecord)
    ensures Owned([r]) == map[r.path := r]
  {
    assert [r][..0] == [];
  }

  /** Of the old files only `path0` is there, and it is set aside. */
  lemma OldFileGoes(c: Change, path0: string)
    requires c.owned.Keys == {path0} && !c.layout.config(path0) && path0 !in c.Retained(|c.pack|)
    ensures forall s :: c.GoneFrom(s) <==> s == c.Target(path0)
  {
    assert c.Goes(path0);
  }

  /** The loader's earlier version recorded `path0`; now it has `path`, which is there already. */
  ghost predicate Meets(l: Layout, w: World, loader: string, path0: string, path: string, content: Content) {
    && l.Coherent() && NothingStaged(0, w.tree) && Plain(l, path) && !l.config(path0) && path != path0
    && loader in w.mods && loader in w.files
    && w.mods[loader].sourceId == PackageNames.LOADER_ID && w.mods[loader].enabled
    && w.files[loader] == [FileRecord(path0, content)]
    && Live(l.fold(path)) in w.tree && w.tree[Live(l.fold(path))] == content
  }

  ghost function Updated(l: Layout, w: World, loader: string, path0: string, path: string, content: Content): World
    requires loader in w.mods
  {
    World(w.tree - {Live(l.fold(path0))}, w.mods[loader := w.mods[loader].(version := VERSION)],
          w.files[loader := [FileRecord(path, content)]])
  }

  lemma UpdateInstalls(l: Layout, w: World, loader: string, path0: string, path: string, content: Content)
    requires Meets(l, w, loader, path0, path, content)
    ensures var c := Update(l, w, loader, path, content);
            && c.Decide(c.pack[0]) == Adopt
            && Installs(w, c, Updated(l, w, loader, path0, path, content))
  {
    var c := Update(l, w, loader, path, content);
    OwnedOne(FileRecord(path0, content));
    assert c.Decide(c.pack[0]) == Adopt;
    AdoptsAll(c);
    OldFileGoes(c, path0);
  }

  /** The adopted file is one that a mod records already, so ownership is gone. */
  lemma UpdateBreaks(l: Layout, w: World, loader: string, path0: string, path: string, content: Content, id: string)
    requires Meets(l, w, loader, path0, path, content)
    requires Holds(l, w, id, 0) && SpotOf(l, w, id, 0) == Live(l.fold(path))
    ensures var c, after := Update(l, w, loader, path, content), Updated(l, w, loader, path0, path, content);
            Installs(w, c, after) && !CleanAdoption(l, w, c) && !Owns(l, after)
  {
    var c := Update(l, w, loader, path, content);
    UpdateInstalls(l, w, loader, path0, path, content);
    assert c.Target(c.pack[0].path) == Live(l.fold(path));
    UncleanInstallBreaks(l, w, c, Updated(l, w, loader, path0, path, content));
  }

  // ----- a file of another mod

  /** An earlier loader with the file `path0`, and another mod with the file `path`. */
  ghost function TwoMods(
    l: Layout, loader: string, earlier: string, path0: string, other: string, path: string, content: Content): World
  {
    World(map[Live(l.fold(path0)) := content, Live(l.fold(path)) := content],
          map[loader := Mod(PackageNames.LOADER_ID, earlier, true), other := Mod("Some-Mod", "1.0.0", true)],
          map[loader := [FileRecord(path0, content)], other := [FileRecord(path, content)]])
  }

  lemma TwoModsOwn(
    l: Layout, loader: string, earlier: string, path0: string, other: string, path: string, content: Content)
    requires l.Coherent() && Plain(l, path) && l.fold(path) != l.fold(path0) && loader != other
    ensures var w := TwoMods(l, loader, earlier, path0, other, path, content);
            Owns(l, w) && Holds(l, w, other, 0) && SpotOf(l, w, other, 0) == Live(l.fold(path))
  {
    var w := TwoMods(l, loader, earlier, path0, other, path, content);
    forall id, i: nat ensures Holds(l, w, id, i) ==> i == 0 && (id == loader || id == other) {}
    assert l.place(true, other, path) == Live(l.fold(path));
    assert l.place(true, loader, path0) == Live(l.fold(path0));
  }

  lemma SharedAdoption(
    l: Layout, loader: string, earlier: string, path0: string, other: string, path: string, content: Content)
    requires l.Coherent() && Plain(l, path) && Plain(l, path0) && l.fold(path) != l.fold(path0)
    requires loader != other && earlier != VERSION
    ensures var w := TwoMods(l, loader, earlier, path0, other, path, content);
            var c, after := Update(l, w, loader, path, content), Updated(l, w, loader, path0, path, content);
            && Owns(l, w) && Installs(w, c, after) && !CleanAdoption(l, w, c) && !Owns(l, after)
            && after.files[loader] == after.files[other] == [FileRecord(path, content)]
  {
    var w := TwoMods(l, loader, earlier, path0, other, path, content);
    TwoModsOwn(l, loader, earlier, path0, other, path, content);
    UpdateBreaks(l, w, loader, path0, path, content, other);
  }

  // ----- its own file, spelled differently

  ghost function OneMod(l: Layout, loader: string, earlier: string, spelling: string, content: Content): World {
    World(map[Live(l.fold(spelling)) := content],
          map[loader := Mod(PackageNames.LOADER_ID, earlier, true)],
          map[loader := [FileRecord(spelling, content)]])
  }

  lemma RespelledAdoption(l: Layout, loader: string, earlier: string, spelling: string, path: string, content: Content)
    requires l.Coherent() && Plain(l, path) && Plain(l, spelling) && path != spelling && l.fold(path) == l.fold(spelling)
    requires earlier != VERSION
    ensures var w := OneMod(l, loader, earlier, spelling, content);
            var c, after := Update(l, w, loader, path, content), Updated(l, w, loader, spelling, path, content);
            && Owns(l, w) && Installs(w, c, after) && !CleanAdoption(l, w, c) && !Owns(l, after)
            && after.files[loader] == [FileRecord(path, content)] && after.tree == map[]
  {
    var w := OneMod(l, loader, earlier, spelling, content);
    assert Holds(l, w, loader, 0);
    UpdateBreaks(l, w, loader, spelling, path, content, loader);
  }

  const OWN := "BepInEx/core/a.dll"
  const RESPELLED := "BepInEx/core/A.dll"
  const OTHERS := "BepInEx/plugins/Some-Mod/a.dll"

  /**
    The rules for placing files rule out neither: only what the loader's archives contain
    does. The loader may have any of these files; two of them are one place, and the third
    is where another package has one.
   */
  lemma PlacementAllowsBoth()
    ensures LoaderPath(OWN, true) && LoaderPath(RESPELLED, true) && LoaderPath(OTHERS, true)
    ensures InstallPath("plugins/a.dll", "Some-Mod") == Some(OTHERS)
    ensures OWN != RESPELLED && Fold(OWN) == Fold(RESPELLED) && Fold(OWN) != Fold(OTHERS)
  {
    assert |Fold(OWN)| != |Fold(OTHERS)|;
    assert OWN[13] != RESPELLED[13];
    PluginGoes("a.dll", "Some-Mod");
    assert "plugins/" + "a.dll" == "plugins/a.dll" && PLUGINS + "Some-Mod" + "/" + "a.dll" == OTHERS;
  }

  /** A file under `plugins/` goes to the package's directory there. */
  lemma PluginGoes(file: string, packageId: string)
    ensures InstallPath("plugins/" + file, packageId) == Some(PLUGINS + packageId + "/" + file)
  {
    var name := "plugins/" + file;
    assert name[0] == 'p' && Fold(name)[0] == 'p';
    assert TrimPrefix(name, "BepInEx/") == name && TrimPrefix(name, "plugins/") == file;
  }

  lemma PlainFile(path: string, i: nat)
    requires i < |path| && i < |CONFIG_PREFIX| && Lower(path[i]) != CONFIG_PREFIX[i] && Lower(path[0]) != DOORSTOP_CONFIG[0]
    ensures !IsConfig(path) && !IsDoorstop(path)
  {
    assert Fold(path)[i] == Lower(path[i]) && Fold(path)[0] == Lower(path[0]);
  }

  lemma PlainFiles(local: string -> bool)
    requires local(OWN) && local(RESPELLED) && local(OTHERS)
    ensures var l := ValheimLayout(local); Plain(l, OWN) && Plain(l, RESPELLED) && Plain(l, OTHERS)
  {
    PlainFile(OWN, 10);
    PlainFile(RESPELLED, 10);
    PlainFile(OTHERS, 8);
  }
}
