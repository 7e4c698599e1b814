/**
  Ownership of mod files in the program as it is: packages come from a provider that puts
  each of them in directories of its own and that has one fixed archive of the loader. Then
  nothing the program does ever makes two mods share a file, or loses a recorded one.
 */
module ModSupply {
  import opened Wrappers
  import opened ModPaths
  import opened FileMoves
  import opened ModTransactions
  import opened ModOwnership
  import opened ValheimArchive
  import PackageNames

  /** The files of a package, by its id and version. */
  type Archive = (string, string) -> seq<PackFile>

  /**
    What is assumed of the loader's own files, which are pinned: they are where the loader may
    have files, none is in a directory of another package, and a file that several versions
    have is spelled alike in all of them.
   */
  ghost predicate LoaderFiles(paths: set<string>) {
    && (forall p :: p in paths ==> LoaderPath(p, true) || LoaderPath(p, false))
    && (forall p, id :: p in paths && id != PackageNames.LOADER_ID && PackageNames.ValidId(id) ==> !InDirectory(id, p))
    && (forall p, q :: p in paths && q in paths && Fold(p) == Fold(q) ==> p == q)
  }

  ghost predicate FromPackage(paths: set<string>, sourceId: string, path: string) {
    if sourceId == PackageNames.LOADER_ID then path in paths
    else PackageNames.ValidId(sourceId) && exists name :: InstallPath(name, sourceId) == Some(path)
  }

  /** The provider's archives hold what their packages may have, each where it belongs. */
  ghost predicate Provides(paths: set<string>, archive: Archive) {
    forall id, version, k: nat :: k < |archive(id, version)| ==> FromPackage(paths, id, archive(id, version)[k].path)
  }

  /** Ids of installed mods are generated, all of one length and in lower case. */
  predicate IsModId(id: string) { |id| == 36 && Fold(id) == id }

  ghost predicate Supplied(archive: Archive, w: World, e: Event) {
    e.Installing? ==>
      && e.c.pack == archive(e.c.mod.sourceId, e.c.mod.version)
      && (e.c.modId in w.mods || IsModId(e.c.modId))
  }

  /** Every mod records files of its package alone, and the loader is there once at most. */
  ghost predicate WellSupplied(paths: set<string>, w: World) {
    && (forall id :: id in w.mods ==> IsModId(id))
    && (forall id, i: nat :: RecordSupplied(paths, w, id, i))
    && (forall a, b :: IsLoader(w, a) && IsLoader(w, b) ==> a == b)
  }

  ghost predicate IsLoader(w: World, id: string) { id in w.mods && w.mods[id].sourceId == PackageNames.LOADER_ID }

  ghost predicate RecordSupplied(paths: set<string>, w: World, id: string, i: nat) {
    id in w.mods && id in w.files && i < |w.files[id]| ==> FromPackage(paths, w.mods[id].sourceId, w.files[id][i].path)
  }

  // ----- the places of different packages never meet

  lemma DisabledApart(a: string, f: string, b: string, g: string)
    requires IsModId(a) && IsModId(b) && a != b
    ensures Fold(DisabledPath(a, f)) != Fold(DisabledPath(b, g))
  {
    DisabledPrefix(a, f);
    DisabledPrefix(b, g);
  }

  lemma DisabledPrefix(id: string, f: string)
    requires IsModId(id)
    ensures var n := |DISABLED_PREFIX|; |Fold(DisabledPath(id, f))| >= n + 36 && Fold(DisabledPath(id, f))[n..n + 36] == id
    ensures DISABLED_PREFIX <= Fold(DisabledPath(id, f))
  {
    var front := DISABLED_PREFIX + id;
    assert DisabledPath(id, f) == front + ("/" + f);
    FoldConcat(front, "/" + f);
    FoldConcat(DISABLED_PREFIX, id);
    assert Fold(DISABLED_PREFIX) == DISABLED_PREFIX;
    assert Fold(front) == DISABLED_PREFIX + id;
  }

  /** A file of the loader and one of another package, neither of them configuration. */
  lemma PlacesApart(
    paths: set<string>, loader: string, on: bool, f: string, other: string, otherOn: bool, sourceId: string, g: string)
    requires LoaderFiles(paths) && f in paths && !IsConfig(f) && !IsConfig(g)
    requires sourceId != PackageNames.LOADER_ID && FromPackage(paths, sourceId, g)
    requires IsModId(loader) && IsModId(other) && loader != other
    ensures Place(on, loader, f) != Place(otherOn, other, g)
  {
    var name :| InstallPath(name, sourceId) == Some(g);
    InstallsInDirectory(name, sourceId);
    DirectoryStart(sourceId, g);
    LoaderNotDisabled(f, LoaderPath(f, true));
    DisabledPrefix(loader, f);
    DisabledPrefix(other, g);
    DisabledApart(loader, f, other, g);
    assert !InDirectory(sourceId, f);
  }

  // ----- so no adoption is of a recorded file

  lemma SuppliedIsClean(paths: set<string>, archive: Archive, local: string -> bool, w: World, c: Change, after: World)
    requires LoaderFiles(paths) && Provides(paths, archive) && WellSupplied(paths, w)
    requires c.layout == ValheimLayout(local) && Installs(w, c, after) && Supplied(archive, w, Installing(c))
    ensures CleanAdoption(c.layout, w, c)
  {
    forall k, id, i: nat | 0 <= k < |c.pack| && c.Decide(c.pack[k]).Adopt? && Holds(c.layout, w, id, i)
      ensures SpotOf(c.layout, w, id, i) != c.Target(c.pack[k].path)
    {
      AdoptedFile(paths, archive, c, k);
      HolderOf(paths, w, c, after, id);
      AdoptsNothingRecorded(paths, local, w, c, k, id, i);
    }
  }

  /** The holder of a file is the changed mod, as it was, or no loader if the changed mod is one. */
  ghost predicate IsHolder(w: World, c: Change, id: string) {
    && id in w.mods && id in w.files
    && if id == c.modId then c.owned == Owned(w.files[id]) && c.mod == w.mods[id].(version := c.mod.version)
       else c.mod.sourceId == PackageNames.LOADER_ID ==> !IsLoader(w, id)
  }

  lemma HolderOf(paths: set<string>, w: World, c: Change, after: World, id: string)
    requires WellSupplied(paths, w) && Installs(w, c, after) && id in w.mods && id in w.files
    ensures IsHolder(w, c, id)
  {
    assert c.mod.sourceId == PackageNames.LOADER_ID && c.modId in w.mods ==> IsLoader(w, c.modId);
  }

  lemma AdoptsNothingRecorded(paths: set<string>, local: string -> bool, w: World, c: Change, k: nat, id: string, i: nat)
    requires LoaderFiles(paths) && WellSupplied(paths, w) && IsHolder(w, c, id) && IsModId(c.modId)
    requires c.layout == ValheimLayout(local) && k < |c.pack| && Holds(c.layout, w, id, i)
    requires c.mod.sourceId == PackageNames.LOADER_ID && c.pack[k].path in paths
    requires c.pack[k].path !in c.owned && !c.layout.config(c.pack[k].path)
    ensures SpotOf(c.layout, w, id, i) != c.Target(c.pack[k].path)
  {
    var f, g := c.pack[k].path, w.files[id][i].path;
    assert RecordSupplied(paths, w, id, i);
    if id == c.modId {
      NotOneOfItsOwn(paths, c.mod.enabled, id, w.files[id], i, f);
    } else {
      PlacesApart(paths, c.modId, c.mod.enabled, f, id, w.mods[id].enabled, w.mods[id].sourceId, g);
    }
  }

  lemma AdoptedFile(paths: set<string>, archive: Archive, c: Change, k: nat)
    requires Provides(paths, archive) && c.pack == archive(c.mod.sourceId, c.mod.version)
    requires k < |c.pack| && c.Decide(c.pack[k]).Adopt?
    ensures c.mod.sourceId == PackageNames.LOADER_ID && c.pack[k].path in paths
    ensures c.pack[k].path !in c.owned && !c.layout.config(c.pack[k].path)
  {
    assert FromPackage(paths, c.mod.sourceId, archive(c.mod.sourceId, c.mod.version)[k].path);
  }

  /** The archive spells a recorded file as it is recorded. */
  lemma NotOneOfItsOwn(paths: set<string>, on: bool, id: string, records: seq<FileRecord>, i: nat, f: string)
    requires LoaderFiles(paths) && f in paths && f !in Owned(records) && i < |records| && records[i].path in paths
    ensures Place(on, id, f) != Place(on, id, records[i].path)
  {
    IndexOwned(records, i);
    PlaceRespectsCase(on, id, f, records[i].path);
  }

  // ----- and it stays that way

  lemma StaysSupplied(paths: set<string>, archive: Archive, l: Layout, w: World, e: Event, after: World)
    requires Provides(paths, archive) && WellSupplied(paths, w) && Step(l, w, e, after) && Supplied(archive, w, e)
    ensures WellSupplied(paths, after)
  {
    forall id, i: nat ensures RecordSupplied(paths, after, id, i) {
      assert RecordSupplied(paths, w, id, i);
      if e.Installing? && id == e.c.modId && i < |after.files[id]| {
        NewRecordSupplied(paths, archive, e.c, i);
      }
    }
    OneLoaderStill(paths, l, w, e, after);
  }

  /** What an installation records is a file of its package. */
  lemma NewRecordSupplied(paths: set<string>, archive: Archive, c: Change, i: nat)
    requires Provides(paths, archive) && c.pack == archive(c.mod.sourceId, c.mod.version) && i < |c.Records(|c.pack|)|
    ensures FromPackage(paths, c.mod.sourceId, c.Records(|c.pack|)[i].path)
  {
    var k := Origin(c, |c.pack|, i);
    assert c.Record(c.pack[k])[0].path == archive(c.mod.sourceId, c.mod.version)[k].path;
  }

  lemma OneLoaderStill(paths: set<string>, l: Layout, w: World, e: Event, after: World)
    requires WellSupplied(paths, w) && Step(l, w, e, after)
    ensures forall a, b :: IsLoader(after, a) && IsLoader(after, b) ==> a == b
  {
    forall a, b | IsLoader(after, a) && IsLoader(after, b) ensures a == b {
      assert a in w.mods ==> IsLoader(w, a);
      assert b in w.mods ==> IsLoader(w, b);
    }
  }

  ghost predicate RunSupplied(archive: Archive, ws: seq<World>, es: seq<Event>)
    requires |ws| == |es| + 1
  {
    forall k :: 0 <= k < |es| ==> Supplied(archive, ws[k], es[k])
  }

  /**
    Over any run of the program, with whatever failures, every mod has all its files to
    itself at every moment.
   */
  lemma OwnedAtEveryMoment(
    paths: set<string>, archive: Archive, local: string -> bool, ws: seq<World>, es: seq<Event>)
    requires LoaderFiles(paths) && Provides(paths, archive)
    requires IsRun(ValheimLayout(local), ws, es) && RunSupplied(archive, ws, es)
    requires Owns(ValheimLayout(local), ws[0]) && WellSupplied(paths, ws[0])
    ensures forall k :: 0 <= k < |ws| ==> Owns(ValheimLayout(local), ws[k]) && WellSupplied(paths, ws[k])
  {
    OwnedUpTo(paths, archive, local, ws, es, |es|);
  }

  lemma {:induction false} OwnedUpTo(
    paths: set<string>, archive: Archive, local: string -> bool, ws: seq<World>, es: seq<Event>, n: nat)
    requires LoaderFiles(paths) && Provides(paths, archive) && n <= |es|
    requires IsRun(ValheimLayout(local), ws, es) && RunSupplied(archive, ws, es)
    requires Owns(ValheimLayout(local), ws[0]) && WellSupplied(paths, ws[0])
    ensures forall k :: 0 <= k <= n ==> Owns(ValheimLayout(local), ws[k]) && WellSupplied(paths, ws[k])
  {
    if n > 0 {
      OwnedUpTo(paths, archive, local, ws, es, n - 1);
      StepOwned(paths, archive, local, ws[n - 1], es[n - 1], ws[n]);
    }
  }

  lemma StepOwned(paths: set<string>, archive: Archive, local: string -> bool, w: World, e: Event, after: World)
    requires LoaderFiles(paths) && Provides(paths, archive) && WellSupplied(paths, w) && Supplied(archive, w, e)
    requires Owns(ValheimLayout(local), w) && ValheimLayout(local).Coherent() && Step(ValheimLayout(local), w, e, after)
    ensures Owns(ValheimLayout(local), after) && WellSupplied(paths, after)
  {
    if e.Installing? { SuppliedIsClean(paths, archive, local, w, e.c, after); }
    StepKeepsExactly(ValheimLayout(local), w, e, after);
    StaysSupplied(paths, archive, ValheimLayout(local), w, e, after);
  }

  /** A server without mods is where every run may start. */
  lemma NoModsToBeginWith(paths: set<string>, l: Layout, w: World)
    requires w.mods == map[] && w.files == map[]
    ensures Owns(l, w) && WellSupplied(paths, w)
  {
  }
}
