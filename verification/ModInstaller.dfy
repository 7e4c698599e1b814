/**
  Installing what was planned: the packages of a plan one after the other, skipping those
  whose files are all in place already. Every run is a run of the ownership model.

  Line numbers refer to `internal/modmanager/valheim-mods.go`.
 */
module ModInstaller {
  import opened Wrappers
  import opened ModPaths
  import opened FileMoves
  import opened ModTransactions
  import opened ModOwnership
  import ModSupply
  import DependencyPlanner

  ghost function WorldOf(m: ModManager): World
    reads m
  {
    World(m.tree, m.mods, m.files)
  }

  /** The change that a request for a package stands for in `w`. */
  ghost function RequestIn(
    l: Layout, w: World, txn: nat, sourceId: string, version: string, old_: Option<string>, newId: string, pack: seq<PackFile>): Change
    requires old_.Some? ==> old_.value in w.mods && old_.value in w.files
  {
    match old_
    case Some(id) => Change(l, txn, w.tree, id, w.mods[id].(version := version), Owned(w.files[id]), pack)
    case None => Change(l, txn, w.tree, newId, Mod(sourceId, version, true), map[], pack)
  }

  /** A package change is a step of the ownership model, unless putting it back failed. */
  method Install(
    m: ModManager, txn: nat, sourceId: string, version: string, old_: Option<string>, newId: string, pack: seq<PackFile>)
    returns (outcome: Outcome, ghost e: Event)
    requires m.Valid() && NothingStaged(txn, m.tree) && newId !in m.mods
    requires old_.Some? ==> old_.value in m.mods && m.mods[old_.value].sourceId == sourceId
    modifies m`calls, m`tree, m`mods, m`files
    ensures m.Valid() && m.Since(old(m.calls))
    ensures outcome != Failed(false) ==> Step(m.layout, old(WorldOf(m)), e, WorldOf(m))
    ensures outcome.Unread? || outcome == Failed(false) ==> m.CallFailedSince(old(m.calls))
    ensures outcome.Failed? ==>
      || m.CallFailedSince(old(m.calls))
      || !RequestIn(m.layout, old(WorldOf(m)), txn, sourceId, version, old_, newId, pack).Acceptable()
      || (old_.None? && AnotherVersion(old(m.mods), sourceId, version))
    ensures outcome.Done? || outcome.Unread? ==>
      && e.Installing? && e.c.txn == txn && e.c.modId == outcome.modId && (old_.None? ==> outcome.modId == newId)
      && (old_.Some? ==> outcome.modId == old_.value)
      && m.mods == old(m.mods)[outcome.modId := m.mods[outcome.modId]]
      && m.mods[outcome.modId].sourceId == sourceId && m.mods[outcome.modId].version == version
    ensures outcome.Unchanged? ==>
      old_.None? && outcome.modId in m.mods && m.mods[outcome.modId].sourceId == sourceId && m.mods[outcome.modId].version == version
    ensures outcome.Unchanged? || outcome.Failed? ==> e == RolledBack(txn) && m.mods == old(m.mods)
    ensures e.Installing? ==> e.c == RequestIn(m.layout, old(WorldOf(m)), txn, sourceId, version, old_, newId, pack)
  {
    ghost var c := m.Requested(txn, sourceId, version, old_, newId, pack);
    assert c == RequestIn(m.layout, WorldOf(m), txn, sourceId, version, old_, newId, pack);
    outcome := m.ChangePackage(txn, sourceId, version, old_, newId, pack);
    e := if outcome.Done? || outcome.Unread? then Installing(c) else RolledBack(txn);
  }

  /** The same for enabling, disabling and removing. */
  method Operate(m: ModManager, txn: nat, modId: string, op: Operation) returns (outcome: Outcome, ghost e: Event)
    requires m.Valid() && NothingStaged(txn, m.tree) && modId in m.mods
    modifies m`calls, m`tree, m`mods, m`files
    ensures m.Valid() && m.Since(old(m.calls))
    ensures outcome != Failed(false) ==> Step(m.layout, old(WorldOf(m)), e, WorldOf(m))
    ensures outcome.Done? ==> e.Mutating? && e.m.modId == modId && e.m.op == op
  {
    ghost var asked := m.Asked(txn, modId, op);
    outcome := m.Mutate(txn, modId, op);
    e := if outcome.Done? then Mutating(asked) else RolledBack(txn);
  }

  // ----- a whole plan

  predicate IsArchive(path: string) { |path| >= 4 && Fold(path[|path| - 4..]) == ".zip" }

  /** Lines 388-410: the mod was extracted before and every file of it is still there. */
  ghost predicate InPlace(l: Layout, w: World, modId: string)
    requires modId in w.mods && modId in w.files
  {
    && w.files[modId] != []
    && (forall i :: 0 <= i < |w.files[modId]| ==> !EndsInZip(w.files[modId][i].path))
    && (forall i: nat :: Present(l, w, modId, i))
  }

  ghost predicate EndsInZip(path: string) { |path| >= 4 && Fold(path)[|path| - 4..] == ".zip" }

  lemma ArchivesEndInZip(path: string)
    ensures IsArchive(path) <==> EndsInZip(path)
  {
    if |path| >= 4 {
      assert Fold(path[|path| - 4..]) == Fold(path)[|path| - 4..];
    }
  }

  method CheckInPlace(m: ModManager, modId: string) returns (answer: Option<bool>)
    requires m.Valid() && modId in m.mods
    modifies m`calls
    ensures m.Since(old(m.calls))
    ensures answer.Some? ==> answer.value == InPlace(m.layout, WorldOf(m), modId)
    ensures answer.None? ==> m.CallFailedSince(old(m.calls))
  {
    var read := m.Call();
    if !read {
      return None;
    }
    var extracted := IsExtracted(m.files[modId]);
    if !extracted {
      return Some(false);
    }
    var reached := m.Call();
    if !reached {
      return None;
    }
    answer := AllPresent(m, modId);
  }

  /** Lines 388-391. */
  method IsExtracted(records: seq<FileRecord>) returns (extracted: bool)
    ensures extracted <==> records != [] && forall j :: 0 <= j < |records| ==> !EndsInZip(records[j].path)
  {
    extracted := records != [];
    for i := 0 to |records|
      invariant extracted <==> records != [] && forall j :: 0 <= j < i ==> !EndsInZip(records[j].path)
    {
      ArchivesEndInZip(records[i].path);
      extracted := extracted && !IsArchive(records[i].path);
    }
  }

  /** Lines 397-406. */
  method AllPresent(m: ModManager, modId: string) returns (answer: Option<bool>)
    requires m.Valid() && modId in m.mods
    modifies m`calls
    ensures m.Since(old(m.calls))
    ensures answer.Some? ==> (answer.value <==> forall j: nat :: Present(m.layout, WorldOf(m), modId, j))
    ensures answer.None? ==> m.CallFailedSince(old(m.calls))
  {
    var records, extracted := m.files[modId], true;
    ghost var w := WorldOf(m);
    for i := 0 to |records|
      invariant m.Since(old(m.calls)) && WorldOf(m) == w
      invariant extracted <==> forall j: nat :: j < i ==> Present(m.layout, w, modId, j)
    {
      if m.layout.config(records[i].path) {
        assert Present(m.layout, w, modId, i);
        continue;
      }
      var spot := m.layout.place(m.mods[modId].enabled, modId, records[i].path);
      var there := m.Exists(spot);
      if there.None? {
        return None;
      }
      assert Present(m.layout, w, modId, i) <==> there.value;
      extracted := extracted && there.value;
    }
    assert forall j: nat :: j >= |records| ==> Present(m.layout, w, modId, j);
    return Some(extracted);
  }

  ghost predicate HasVersion(mods: map<string, Mod>, pkg: DependencyPlanner.Package) {
    exists id :: id in mods && mods[id].sourceId == pkg.id && mods[id].version == pkg.version
  }

  ghost predicate AllFresh(from: nat, upTo: nat, tree: Tree) {
    forall t: nat :: from <= t < upTo ==> NothingStaged(t, tree)
  }

  lemma StepLeavesOtherStages(l: Layout, w: World, e: Event, after: World, txn: nat, upTo: nat)
    requires l.Coherent() && Step(l, w, e, after) && AllFresh(txn + 1, upTo, w.tree)
    requires (e.Installing? && e.c.txn == txn) || e == RolledBack(txn)
    ensures AllFresh(txn + 1, upTo, after.tree)
  {
    forall t: nat, s: Spot | txn + 1 <= t < upTo && Staged(s, t) ensures s !in after.tree {
      assert NothingStaged(t, w.tree);
      if e.RolledBack? {
        assert Same(w.tree, after.tree, s);
      } else {
        assert s !in e.c.Promotions(|e.c.pack|);
      }
    }
  }

  /** A request for the package that is malformed, or would overwrite files of others, whatever calls do. */
  ghost predicate Refused(
    l: Layout, w: World, pkg: DependencyPlanner.Package, newId: string, txn: nat, pack: seq<PackFile>)
  {
    exists old_: Option<string> :: RefusedFor(l, w, pkg, newId, txn, pack, old_)
  }

  ghost predicate RefusedFor(
    l: Layout, w: World, pkg: DependencyPlanner.Package, newId: string, txn: nat, pack: seq<PackFile>, old_: Option<string>)
  {
    && (old_.Some? ==> old_.value in w.mods && old_.value in w.files && w.mods[old_.value].sourceId == pkg.id)
    && (old_.None? ==> forall id :: id in w.mods ==> w.mods[id].sourceId != pkg.id)
    && !RequestIn(l, w, txn, pkg.id, pkg.version, old_, newId, pack).Acceptable()
  }

  /** If it installs anything, the event brings the files of the package, to a mod it had or to the new one. */
  ghost predicate Brings(mods: map<string, Mod>, e: Event, pkg: DependencyPlanner.Package, newId: string, pack: seq<PackFile>) {
    e.Installing? ==>
      && e.c.pack == pack && e.c.mod.sourceId == pkg.id && e.c.mod.version == pkg.version
      && (e.c.modId in mods || e.c.modId == newId)
  }

  /** A run in which every installation brings the files that the provider has for the package. */
  ghost predicate AllBring(archive: ModSupply.Archive, newIds: seq<string>, ws: seq<World>, es: seq<Event>)
    requires |ws| == |es| + 1
  {
    forall k :: 0 <= k < |es| ==> BringsFiles(archive, newIds, ws[k], es[k])
  }

  ghost predicate BringsFiles(archive: ModSupply.Archive, newIds: seq<string>, w: World, e: Event) {
    e.Installing? ==> e.c.pack == archive(e.c.mod.sourceId, e.c.mod.version) && (e.c.modId in w.mods || e.c.modId in newIds)
  }

  lemma AllBringNext(
    archive: ModSupply.Archive, newIds: seq<string>, ws: seq<World>, es: seq<Event>, e: Event, w: World,
    pkg: DependencyPlanner.Package, k: nat)
    requires |ws| == |es| + 1 && AllBring(archive, newIds, ws, es) && k < |newIds|
    requires Brings(ws[|ws| - 1].mods, e, pkg, newIds[k], archive(pkg.id, pkg.version))
    ensures AllBring(archive, newIds, ws + [w], es + [e])
  {
    var longer, events := ws + [w], es + [e];
    forall j | 0 <= j < |events| ensures BringsFiles(archive, newIds, longer[j], events[j]) {
      assert j < |es| ==> BringsFiles(archive, newIds, ws[j], es[j]);
    }
  }

  lemma RunIsSupplied(archive: ModSupply.Archive, newIds: seq<string>, ws: seq<World>, es: seq<Event>)
    requires |ws| == |es| + 1 && AllBring(archive, newIds, ws, es)
    requires forall i :: 0 <= i < |newIds| ==> ModSupply.IsModId(newIds[i])
    ensures ModSupply.RunSupplied(archive, ws, es)
  {
    forall k | 0 <= k < |es| ensures ModSupply.Supplied(archive, ws[k], es[k]) {
      assert BringsFiles(archive, newIds, ws[k], es[k]);
    }
  }

  /** The package is installed at its version and all its files are in place. */
  ghost predicate KeptInPlace(l: Layout, w: World, pkg: DependencyPlanner.Package) {
    exists id :: id in w.mods && id in w.files && w.mods[id].sourceId == pkg.id && w.mods[id].version == pkg.version && InPlace(l, w, id)
  }

  ghost predicate AnyInstalls(es: seq<Event>, pkg: DependencyPlanner.Package) {
    exists j :: 0 <= j < |es| && es[j].Installing? && es[j].c.mod.sourceId == pkg.id && es[j].c.mod.version == pkg.version
  }

  /** In the run the package was installed, or found in place; the one asked for was installed. */
  ghost predicate SettledIn(l: Layout, ws: seq<World>, es: seq<Event>, pkg: DependencyPlanner.Package, rootId: string) {
    AnyInstalls(es, pkg) || (pkg.id != rootId && exists j :: 0 <= j < |ws| && KeptInPlace(l, ws[j], pkg))
  }

  lemma SettledStays(
    l: Layout, ws: seq<World>, es: seq<Event>, worlds: seq<World>, events: seq<Event>, pkg: DependencyPlanner.Package, rootId: string)
    requires ws <= worlds && es <= events && SettledIn(l, ws, es, pkg, rootId)
    ensures SettledIn(l, worlds, events, pkg, rootId)
  {
    if AnyInstalls(es, pkg) {
      var j :| 0 <= j < |es| && es[j].Installing? && es[j].c.mod.sourceId == pkg.id && es[j].c.mod.version == pkg.version;
      assert events[j] == es[j];
    } else {
      var j :| 0 <= j < |ws| && KeptInPlace(l, ws[j], pkg);
      assert worlds[j] == ws[j];
    }
  }

  ghost predicate AllSettled(
    l: Layout, ws: seq<World>, es: seq<Event>, plan: seq<DependencyPlanner.Package>, rootId: string, upTo: nat)
    requires upTo <= |plan|
  {
    forall k :: 0 <= k < upTo ==> SettledIn(l, ws, es, plan[k], rootId)
  }

  lemma SettledNext(
    l: Layout, ws: seq<World>, es: seq<Event>, worlds: seq<World>, events: seq<Event>,
    plan: seq<DependencyPlanner.Package>, rootId: string, k: nat)
    requires k < |plan| && AllSettled(l, ws, es, plan, rootId, k) && ws <= worlds && es <= events
    requires SettledIn(l, worlds, events, plan[k], rootId)
    ensures AllSettled(l, worlds, events, plan, rootId, k + 1)
  {
    forall j | 0 <= j < k ensures SettledIn(l, worlds, events, plan[j], rootId) {
      SettledStays(l, ws, es, worlds, events, plan[j], rootId);
    }
  }

  datatype Progress = Kept | Changed(modId: string) | Stopped | Lost

  /** Lines 379-421, for one planned package; `installed` is what was read at the start. */
  method InstallPlanned(
    m: ModManager, pkg: DependencyPlanner.Package, installed: map<string, Mod>, rootId: string,
    pack: seq<PackFile>, newId: string, txn: nat)
    returns (progress: Progress, ghost es: seq<Event>)
    requires m.Valid() && newId !in m.mods && NothingStaged(txn, m.tree)
    requires forall id :: id in installed && installed[id].sourceId == pkg.id ==> id in m.mods && m.mods[id] == installed[id]
    requires forall id :: id in m.mods && m.mods[id].sourceId == pkg.id ==> id in installed && installed[id] == m.mods[id]
    modifies m`calls, m`tree, m`mods, m`files
    ensures m.Valid() && m.Since(old(m.calls))
    ensures progress.Lost? ==> m.CallFailedSince(old(m.calls))
    ensures progress.Stopped? ==>
      m.CallFailedSince(old(m.calls)) || Refused(m.layout, old(WorldOf(m)), pkg, newId, txn, pack)
    ensures progress.Kept? || progress.Changed? ==> HasVersion(m.mods, pkg)
    ensures es == [] ==> WorldOf(m) == old(WorldOf(m)) || progress.Lost?
    ensures |es| <= 1
    ensures es != [] ==>
      && Step(m.layout, old(WorldOf(m)), es[0], WorldOf(m))
      && ((es[0].Installing? && es[0].c.txn == txn) || es[0] == RolledBack(txn))
      && Brings(old(m.mods), es[0], pkg, newId, pack)
    ensures progress.Changed? ==>
      && progress.modId in m.mods && m.mods == old(m.mods)[progress.modId := m.mods[progress.modId]]
      && (progress.modId == newId || (progress.modId in installed && installed[progress.modId].sourceId == pkg.id))
      && (progress.modId in old(m.mods) ==> old(m.mods)[progress.modId].sourceId == pkg.id)
      && m.mods[progress.modId].sourceId == pkg.id
    ensures progress.Kept? ==> m.mods == old(m.mods)
    ensures progress.Kept? || progress.Changed? ==> (pkg.id != rootId && KeptInPlace(m.layout, WorldOf(m), pkg)) || AnyInstalls(es, pkg)
  {
    es := [];
    var previous: Option<string> := None;
    if exists id :: id in installed && installed[id].sourceId == pkg.id {
      var id :| id in installed && installed[id].sourceId == pkg.id;
      previous := Some(id);
    }
    if previous.Some? && installed[previous.value].version == pkg.version && pkg.id != rootId {
      var inPlace := CheckInPlace(m, previous.value);
      if inPlace.None? {
        return Stopped, es;
      }
      if inPlace.value {
        return Kept, es;
      }
    }
    progress, es := InstallAnew(m, pkg, previous, pack, newId, txn);
  }

  /** Lines 417-421. */
  method InstallAnew(
    m: ModManager, pkg: DependencyPlanner.Package, previous: Option<string>, pack: seq<PackFile>, newId: string, txn: nat)
    returns (progress: Progress, ghost es: seq<Event>)
    requires m.Valid() && newId !in m.mods && NothingStaged(txn, m.tree)
    requires previous.Some? ==> previous.value in m.mods && m.mods[previous.value].sourceId == pkg.id
    requires previous.None? ==> forall id :: id in m.mods ==> m.mods[id].sourceId != pkg.id
    modifies m`calls, m`tree, m`mods, m`files
    ensures m.Valid() && m.Since(old(m.calls))
    ensures progress.Lost? ==> m.CallFailedSince(old(m.calls))
    ensures progress.Stopped? ==>
      m.CallFailedSince(old(m.calls)) || Refused(m.layout, old(WorldOf(m)), pkg, newId, txn, pack)
    ensures progress.Kept? || progress.Changed? ==> HasVersion(m.mods, pkg)
    ensures if progress.Lost? then es == [] else
      && |es| == 1 && Step(m.layout, old(WorldOf(m)), es[0], WorldOf(m))
      && ((es[0].Installing? && es[0].c.txn == txn) || es[0] == RolledBack(txn))
      && Brings(old(m.mods), es[0], pkg, newId, pack)
    ensures progress.Changed? ==>
      && progress.modId in m.mods && m.mods == old(m.mods)[progress.modId := m.mods[progress.modId]]
      && m.mods[progress.modId].sourceId == pkg.id
      && progress.modId == if previous.Some? then previous.value else newId
    ensures !progress.Kept? && (progress.Changed? ==> AnyInstalls(es, pkg))
  {
    var outcome; ghost var e;
    outcome, e := Install(m, txn, pkg.id, pkg.version, previous, newId, pack);
    es := if outcome == Failed(false) then [] else [e];
    match outcome
    case Done(id) => progress := Changed(id);
    case Unchanged(id) => progress := Kept;
    case Unread(_) => progress := Stopped;
    case Failed(restored) =>
      progress := if restored then Stopped else Lost;
      assert !m.CallFailedSince(old(m.calls)) ==> RefusedFor(m.layout, old(WorldOf(m)), pkg, newId, txn, pack, previous);
  }

  /**
    `changeValheimMod` for a plan already made. `newIds[k]` and `txn + k` stand for the
    identifiers generated while its `k`-th package is handled. Success leaves every
    planned package installed at its planned version; in any case what happened is a run
    of the ownership model, unless putting back a failed package failed too.
   */
  method InstallPlan(
    m: ModManager, plan: seq<DependencyPlanner.Package>, rootId: string,
    archive: ModSupply.Archive, newIds: seq<string>, txn: nat)
    returns (ok: bool, recovered: bool, ghost ws: seq<World>, ghost es: seq<Event>)
    requires m.Valid() && |newIds| == |plan|
    requires forall i, j :: 0 <= i < j < |plan| ==> plan[i].id != plan[j].id && newIds[i] != newIds[j]
    requires forall i :: 0 <= i < |newIds| ==> newIds[i] !in m.mods
    requires AllFresh(txn, txn + |plan|, m.tree)
    modifies m`calls, m`tree, m`mods, m`files
    ensures m.Valid()
    ensures ok ==> recovered && forall k :: 0 <= k < |plan| ==> HasVersion(m.mods, plan[k])
    ensures ok ==> AllSettled(m.layout, ws, es, plan, rootId, |plan|)
    ensures recovered ==> IsRun(m.layout, ws, es) && ws[0] == old(WorldOf(m)) && ws[|ws| - 1] == WorldOf(m)
    ensures recovered && (forall i :: 0 <= i < |newIds| ==> ModSupply.IsModId(newIds[i])) ==> ModSupply.RunSupplied(archive, ws, es)
    ensures !recovered ==> m.CallFailedSince(old(m.calls))
    ensures !ok ==> m.CallFailedSince(old(m.calls)) || RefusedOnTheWay(m.layout, ws, plan, newIds, txn, archive)
  {
    var installed := m.mods;
    ghost var start := WorldOf(m);
    ws, es, ok, recovered := [start], [], true, true;
    for k := 0 to |plan|
      invariant m.Valid() && recovered && ok && m.Since(old(m.calls))
      invariant Underway(m.layout, start, ws, es, WorldOf(m), installed, plan, newIds, txn, k)
      invariant AllBring(archive, newIds, ws, es) && AllSettled(m.layout, ws, es, plan, rootId, k)
    {
      ghost var was, happened := ws, es;
      ok, recovered, ws, es := InstallNext(
        m, plan, installed, rootId, archive, newIds, txn, k, start, ws, es);
      if recovered && forall i :: 0 <= i < |newIds| ==> ModSupply.IsModId(newIds[i]) {
        RunIsSupplied(archive, newIds, ws, es);
      }
      if !ok {
        if !m.CallFailedSince(old(m.calls)) {
          assert RefusedAt(m.layout, ws, plan, newIds, txn, archive, k, |was| - 1);
        }
        return;
      }
      SettledNext(m.layout, was, happened, ws, es, plan, rootId, k);
    }
  }

  /** Some planned package was refused in one of the worlds of the run. */
  ghost predicate RefusedOnTheWay(
    l: Layout, ws: seq<World>, plan: seq<DependencyPlanner.Package>, newIds: seq<string>, txn: nat,
    archive: ModSupply.Archive)
    requires |newIds| == |plan|
  {
    exists k, j :: RefusedAt(l, ws, plan, newIds, txn, archive, k, j)
  }

  ghost predicate RefusedAt(
    l: Layout, ws: seq<World>, plan: seq<DependencyPlanner.Package>, newIds: seq<string>, txn: nat,
    archive: ModSupply.Archive, k: int, j: int)
    requires |newIds| == |plan|
  {
    && 0 <= k < |plan| && 0 <= j < |ws|
    && Refused(l, ws[j], plan[k], newIds[k], txn + k, archive(plan[k].id, plan[k].version))
  }

  /** A run from `start` to `w` that has the first `k` planned packages. */
  ghost predicate Underway(
    l: Layout, start: World, ws: seq<World>, es: seq<Event>, w: World, installed: map<string, Mod>,
    plan: seq<DependencyPlanner.Package>, newIds: seq<string>, txn: nat, k: nat)
    requires k <= |plan|
  {
    && IsRun(l, ws, es) && ws[0] == start && ws[|ws| - 1] == w
    && AllFresh(txn + k, txn + |plan|, w.tree)
    && Unused(newIds, k, w.mods) && Untouched(installed, w.mods, plan, k) && AllHave(w.mods, plan, k)
    && NoStrangers(installed, w.mods, plan, k)
  }

  method InstallNext(
    m: ModManager, plan: seq<DependencyPlanner.Package>, installed: map<string, Mod>, rootId: string,
    archive: ModSupply.Archive, newIds: seq<string>, txn: nat, k: nat, ghost start: World, ghost ws: seq<World>, ghost es: seq<Event>)
    returns (ok: bool, recovered: bool, ghost worlds: seq<World>, ghost events: seq<Event>)
    requires m.Valid() && |newIds| == |plan| && k < |plan|
    requires forall i, j :: 0 <= i < j < |plan| ==> plan[i].id != plan[j].id && newIds[i] != newIds[j]
    requires Underway(m.layout, start, ws, es, WorldOf(m), installed, plan, newIds, txn, k)
    requires AllBring(archive, newIds, ws, es)
    modifies m`calls, m`tree, m`mods, m`files
    ensures m.Valid()
    ensures m.Since(old(m.calls))
    ensures ok ==> recovered && Underway(m.layout, start, worlds, events, WorldOf(m), installed, plan, newIds, txn, k + 1)
    ensures !recovered ==> m.CallFailedSince(old(m.calls))
    ensures !ok ==>
      || m.CallFailedSince(old(m.calls))
      || (ws <= worlds && Refused(m.layout, ws[|ws| - 1], plan[k], newIds[k], txn + k, archive(plan[k].id, plan[k].version)))
    ensures recovered ==> IsRun(m.layout, worlds, events) && worlds[0] == start && worlds[|worlds| - 1] == WorldOf(m)
    ensures recovered ==> AllBring(archive, newIds, worlds, events)
    ensures ok ==> ws <= worlds && es <= events && SettledIn(m.layout, worlds, events, plan[k], rootId)
  {
    ghost var before := WorldOf(m);
    var progress; ghost var step;
    worlds, events := ws, es;
    Beginning(m.layout, start, ws, es, before, installed, plan, newIds, txn, k);
    progress, step := InstallPlanned(
      m, plan[k], installed, rootId, archive(plan[k].id, plan[k].version), newIds[k], txn + k);
    if progress.Lost? {
      return false, false, worlds, events;
    }
    if step != [] {
      RunExtends(m.layout, ws, es, step[0], WorldOf(m));
      AllBringNext(archive, newIds, ws, es, step[0], WorldOf(m), plan[k], k);
      worlds, events := ws + [WorldOf(m)], es + [step[0]];
    }
    if progress.Stopped? {
      return false, true, worlds, events;
    }
    Advancing(m.layout, start, ws, es, before, installed, plan, newIds, txn, k, progress, step, WorldOf(m));
    StepSettled(m.layout, ws, es, step, WorldOf(m), plan[k], rootId);
    return true, true, worlds, events;
  }

  lemma StepSettled(
    l: Layout, ws: seq<World>, es: seq<Event>, step: seq<Event>, w: World, pkg: DependencyPlanner.Package, rootId: string)
    requires ws != [] && |step| <= 1 && (step == [] ==> ws[|ws| - 1] == w)
    requires (pkg.id != rootId && KeptInPlace(l, w, pkg)) || AnyInstalls(step, pkg)
    ensures SettledIn(l, if step == [] then ws else ws + [w], if step == [] then es else es + [step[0]], pkg, rootId)
  {
    var worlds, events := if step == [] then ws else ws + [w], if step == [] then es else es + [step[0]];
    if AnyInstalls(step, pkg) {
      assert events[|events| - 1] == step[0];
    } else {
      assert worlds[|worlds| - 1] == w;
    }
  }

  lemma Beginning(
    l: Layout, start: World, ws: seq<World>, es: seq<Event>, w: World, installed: map<string, Mod>,
    plan: seq<DependencyPlanner.Package>, newIds: seq<string>, txn: nat, k: nat)
    requires k < |plan| == |newIds| && forall i, j :: 0 <= i < j < |plan| ==> plan[i].id != plan[j].id
    requires Underway(l, start, ws, es, w, installed, plan, newIds, txn, k)
    ensures NothingStaged(txn + k, w.tree) && newIds[k] !in w.mods
    ensures forall id :: id in installed && installed[id].sourceId == plan[k].id ==> id in w.mods && w.mods[id] == installed[id]
    ensures forall id :: id in w.mods && w.mods[id].sourceId == plan[k].id ==> id in installed && installed[id] == w.mods[id]
  {
    NotYet(installed, w.mods, plan, k);
  }

  lemma Advancing(
    l: Layout, start: World, ws: seq<World>, es: seq<Event>, before: World, installed: map<string, Mod>,
    plan: seq<DependencyPlanner.Package>, newIds: seq<string>, txn: nat, k: nat, progress: Progress, step: seq<Event>, after: World)
    requires k < |plan| == |newIds|
    requires forall i, j :: 0 <= i < j < |plan| ==> plan[i].id != plan[j].id && newIds[i] != newIds[j]
    requires Underway(l, start, ws, es, before, installed, plan, newIds, txn, k)
    requires progress.Kept? || progress.Changed?
    requires HasVersion(after.mods, plan[k])
    requires progress.Changed? ==>
      && progress.modId in after.mods && after.mods == before.mods[progress.modId := after.mods[progress.modId]]
      && (progress.modId == newIds[k] || (progress.modId in installed && installed[progress.modId].sourceId == plan[k].id))
      && (progress.modId in before.mods ==> before.mods[progress.modId].sourceId == plan[k].id)
      && after.mods[progress.modId].sourceId == plan[k].id
    requires progress.Kept? ==> after.mods == before.mods
    requires if step == [] then after == before else
      && Step(l, before, step[0], after)
      && ((step[0].Installing? && step[0].c.txn == txn + k) || step[0] == RolledBack(txn + k))
    ensures
      var worlds := if step == [] then ws else ws + [after];
      var events := if step == [] then es else es + [step[0]];
      Underway(l, start, worlds, events, after, installed, plan, newIds, txn, k + 1)
  {
    if step != [] {
      StepLeavesOtherStages(l, before, step[0], after, txn + k, txn + |plan|);
      RunExtends(l, ws, es, step[0], after);
    }
    RecordsAdvance(installed, before.mods, after.mods, plan, newIds, k, progress);
  }

  lemma RecordsAdvance(
    installed: map<string, Mod>, before: map<string, Mod>, after: map<string, Mod>,
    plan: seq<DependencyPlanner.Package>, newIds: seq<string>, k: nat, progress: Progress)
    requires k < |plan| == |newIds|
    requires forall i, j :: 0 <= i < j < |plan| ==> plan[i].id != plan[j].id && newIds[i] != newIds[j]
    requires Unused(newIds, k, before) && Untouched(installed, before, plan, k) && AllHave(before, plan, k)
    requires NoStrangers(installed, before, plan, k) && HasVersion(after, plan[k])
    requires progress.Kept? || progress.Changed?
    requires progress.Changed? ==>
      && progress.modId in after && after == before[progress.modId := after[progress.modId]]
      && (progress.modId == newIds[k] || (progress.modId in installed && installed[progress.modId].sourceId == plan[k].id))
      && (progress.modId in before ==> before[progress.modId].sourceId == plan[k].id)
      && after[progress.modId].sourceId == plan[k].id
    requires progress.Kept? ==> after == before
    ensures Unused(newIds, k + 1, after) && Untouched(installed, after, plan, k + 1) && AllHave(after, plan, k + 1)
    ensures NoStrangers(installed, after, plan, k + 1)
  {
    NotYet(installed, before, plan, k);
    StillHave(installed, before, after, plan, k, progress);
    StillUnused(newIds, before, after, k, progress);
    StillNoStrangers(installed, before, after, plan, k, progress);
  }

  ghost predicate Unused(newIds: seq<string>, k: nat, mods: map<string, Mod>) {
    forall i :: k <= i < |newIds| ==> newIds[i] !in mods
  }

  /** Some package among the first `k` planned is `sourceId`. */
  ghost predicate Handled(plan: seq<DependencyPlanner.Package>, k: nat, sourceId: string) {
    exists i :: 0 <= i < k && i < |plan| && plan[i].id == sourceId
  }

  lemma HandledNext(plan: seq<DependencyPlanner.Package>, k: nat)
    requires k < |plan|
    ensures forall sourceId :: Handled(plan, k + 1, sourceId) <==> Handled(plan, k, sourceId) || sourceId == plan[k].id
  {
    assert Handled(plan, k + 1, plan[k].id) by { assert plan[k].id == plan[k].id; }
  }

  /** Mods of packages not yet handled were all there when the records were read. */
  ghost predicate NoStrangers(installed: map<string, Mod>, mods: map<string, Mod>, plan: seq<DependencyPlanner.Package>, k: nat) {
    forall id :: id in mods && !Handled(plan, k, mods[id].sourceId) ==>
      id in installed && installed[id] == mods[id]
  }

  lemma StillNoStrangers(
    installed: map<string, Mod>, before: map<string, Mod>, mods: map<string, Mod>,
    plan: seq<DependencyPlanner.Package>, k: nat, progress: Progress)
    requires k < |plan| && NoStrangers(installed, before, plan, k)
    requires progress.Changed? ==>
      && progress.modId in mods && mods == before[progress.modId := mods[progress.modId]]
      && mods[progress.modId].sourceId == plan[k].id
    requires !progress.Changed? ==> mods == before
    ensures NoStrangers(installed, mods, plan, k + 1)
  {
    HandledNext(plan, k);
  }

  ghost predicate AllHave(mods: map<string, Mod>, plan: seq<DependencyPlanner.Package>, upTo: nat)
    requires upTo <= |plan|
  {
    forall i :: 0 <= i < upTo ==> HasVersion(mods, plan[i])
  }

  lemma StillUnused(newIds: seq<string>, before: map<string, Mod>, mods: map<string, Mod>, k: nat, progress: Progress)
    requires Unused(newIds, k, before) && k < |newIds|
    requires forall i, j :: 0 <= i < j < |newIds| ==> newIds[i] != newIds[j]
    requires progress.Changed? ==>
      && mods.Keys == before.Keys + {progress.modId} && (progress.modId in before || progress.modId == newIds[k])
    requires !progress.Changed? ==> mods == before
    ensures Unused(newIds, k + 1, mods)
  {
  }

  /** Mods of packages not yet handled are as they were read. */
  ghost predicate Untouched(installed: map<string, Mod>, mods: map<string, Mod>, plan: seq<DependencyPlanner.Package>, k: nat) {
    forall id :: id in installed && !Handled(plan, k, installed[id].sourceId) ==>
      id in mods && mods[id] == installed[id]
  }

  lemma RunExtends(l: Layout, ws: seq<World>, es: seq<Event>, e: Event, w: World)
    requires IsRun(l, ws, es) && Step(l, ws[|ws| - 1], e, w)
    ensures IsRun(l, ws + [w], es + [e])
  {
    var longer, events := ws + [w], es + [e];
    forall k | 0 <= k < |events| ensures Step(l, longer[k], events[k], longer[k + 1]) {
      assert k < |es| ==> Step(l, ws[k], es[k], ws[k + 1]);
    }
  }

  lemma NotYet(installed: map<string, Mod>, mods: map<string, Mod>, plan: seq<DependencyPlanner.Package>, k: nat)
    requires k < |plan| && forall i :: 0 <= i < k ==> plan[i].id != plan[k].id
    requires Untouched(installed, mods, plan, k)
    ensures forall id :: id in installed && installed[id].sourceId == plan[k].id ==> id in mods && mods[id] == installed[id]
  {
  }

  lemma StillHave(
    installed: map<string, Mod>, before: map<string, Mod>, mods: map<string, Mod>,
    plan: seq<DependencyPlanner.Package>, k: nat, progress: Progress)
    requires k < |plan| && forall i :: 0 <= i < k ==> plan[i].id != plan[k].id
    requires AllHave(before, plan, k)
    requires progress.Changed? ==>
      && progress.modId in mods && mods == before[progress.modId := mods[progress.modId]]
      && (progress.modId in before ==> before[progress.modId].sourceId == plan[k].id)
    requires !progress.Changed? ==> mods == before
    requires Untouched(installed, before, plan, k)
    requires progress.Stopped? || HasVersion(mods, plan[k])
    ensures Untouched(installed, mods, plan, k + 1)
    ensures progress.Stopped? || AllHave(mods, plan, k + 1)
  {
    HandledNext(plan, k);
    forall i | 0 <= i < k ensures HasVersion(mods, plan[i]) {
      assert HasVersion(before, plan[i]);
      var id :| id in before && before[id].sourceId == plan[i].id && before[id].version == plan[i].version;
      assert id in mods && mods[id] == before[id];
    }
  }
}
