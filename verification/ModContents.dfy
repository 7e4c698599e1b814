/**
  What installing, removing, enabling and disabling a mod do to every single file and record,
  told without the plans by which transactions work.
 */
module ModContents {
  import opened ModPaths
  import opened FileMoves
  import opened ModTransactions
  import opened ModOwnership
  import PackageNames

  // ----- installing

  /** A setting that is there already: configuration, or that of the loader's launcher. */
  ghost predicate KeptSetting(l: Layout, w: World, c: Change, path: string) {
    l.place(c.mod.enabled, c.modId, path) in w.tree && (l.config(path) || l.doorstop(path))
  }

  /** A package is acceptable exactly if its paths are sound and it overwrites no file of anybody else. */
  lemma AcceptableExactly(c: Change)
    ensures c.Acceptable() <==>
      && (forall k :: 0 <= k < |c.pack| ==> c.layout.local(c.pack[k].path) && OverwritesNobody(c, c.pack[k]))
      && (forall j, k :: 0 <= j < k < |c.pack| ==> c.layout.fold(c.pack[j].path) != c.layout.fold(c.pack[k].path))
  {
    forall k | 0 <= k < |c.pack| ensures c.Decide(c.pack[k]) != Foreign <==> OverwritesNobody(c, c.pack[k]) {}
  }

  ghost predicate OverwritesNobody(c: Change, f: PackFile) {
    var s := c.layout.place(c.mod.enabled, c.modId, f.path);
    s in c.before ==>
      || c.layout.config(f.path) || c.layout.doorstop(f.path) || f.path in c.owned
      || (c.mod.sourceId == PackageNames.LOADER_ID && c.before[s] == f.content)
  }

  /** Every file of the package is in place with its content, but for settings that were there. */
  lemma InstalledAsPacked(l: Layout, w: World, c: Change, after: World, k: nat)
    requires c.layout == l && Installs(w, c, after) && Owns(l, w) && CleanAdoption(l, w, c)
    requires k < |c.pack| && !KeptSetting(l, w, c, c.pack[k].path)
    ensures var s := l.place(c.mod.enabled, c.modId, c.pack[k].path); s in after.tree && after.tree[s] == c.pack[k].content
  {
    if c.Decide(c.pack[k]).Replace? {
      assert c.ContentAt(after.tree, k);
    } else {
      assert c.Decide(c.pack[k]).Adopt?;
      RecordedIsPresent(l, w, c, after, k);
      AdoptedIsSame(c, after, k);
    }
  }

  /** An adopted file that is still there has the content it had, which is the package's. */
  lemma AdoptedIsSame(c: Change, after: World, k: nat)
    requires c.layout.Coherent() && c.Acceptable() && c.Installed(after.tree)
    requires k < |c.pack| && c.Decide(c.pack[k]).Adopt? && c.Target(c.pack[k].path) in after.tree
    ensures after.tree[c.Target(c.pack[k].path)] == c.pack[k].content
  {
    var s := c.layout.place(c.mod.enabled, c.modId, c.pack[k].path);
    forall j: nat | j < |c.pack| && c.Decide(c.pack[j]).Replace? ensures c.Target(c.pack[j].path) != s {
      PlacesDiffer(c, j, k);
    }
    assert s !in c.Promotions(|c.pack|);
  }

  /** A setting that was there is as it was exactly if the mod has not recorded it under another spelling. */
  lemma SettingKeptExactly(l: Layout, w: World, c: Change, after: World, k: nat)
    requires c.layout == l && Installs(w, c, after) && k < |c.pack| && KeptSetting(l, w, c, c.pack[k].path)
    ensures Same(w.tree, after.tree, l.place(c.mod.enabled, c.modId, c.pack[k].path)) <==> !Respelled(l, c, c.pack[k].path)
  {
    var path := c.pack[k].path;
    var s := c.Target(path);
    forall j: nat | j < |c.pack| && c.Decide(c.pack[j]).Replace? ensures c.Target(c.pack[j].path) != s {
      if j != k { PlacesDiffer(c, j, k); }
    }
    assert s !in c.Promotions(|c.pack|);
    if Respelled(l, c, path) {
      var name :| name in c.owned && name != path && l.fold(name) == l.fold(path) && !l.config(name);
      assert c.Target(name) == s;
      forall j: nat | j < |c.pack| ensures c.pack[j].path != name {
        if j != k { PlacesDiffer(c, j, k); }
      }
      assert c.Goes(name);
      assert c.GoneFrom(s);
    } else {
      assert !c.GoneFrom(s);
    }
  }

  ghost predicate Respelled(l: Layout, c: Change, path: string) {
    exists name :: name in c.owned && name != path && l.fold(name) == l.fold(path) && !l.config(name)
  }

  /** A kept setting keeps its record, if it had one; every other file is recorded with its content. */
  lemma RecordedExactly(l: Layout, w: World, c: Change, after: World, k: nat)
    requires c.layout == l && Installs(w, c, after) && k < |c.pack|
    ensures var path := c.pack[k].path;
      if !KeptSetting(l, w, c, path) then FileRecord(path, c.pack[k].content) in after.files[c.modId]
      else if c.modId in w.mods && RecordsPath(w.files[c.modId], path)
      then exists i :: 0 <= i < |w.files[c.modId]| && w.files[c.modId][i].path == path && w.files[c.modId][i] in after.files[c.modId]
      else !RecordsPath(after.files[c.modId], path)
  {
    if c.Record(c.pack[k]) != [] {
      var i := RecordOf(c, |c.pack|, k);
      assert c.Record(c.pack[k])[0] == after.files[c.modId][i];
    } else {
      NotRecordedAtAll(c, k);
    }
    if c.modId in w.mods { OwnedExactly(w.files[c.modId], c.pack[k].path); }
  }

  lemma NotRecordedAtAll(c: Change, k: nat)
    requires c.layout.Coherent() && c.Acceptable() && k < |c.pack| && c.Record(c.pack[k]) == []
    ensures !RecordsPath(c.Records(|c.pack|), c.pack[k].path)
  {
    forall i: nat | i < |c.Records(|c.pack|)| ensures c.Records(|c.pack|)[i].path != c.pack[k].path {
      var j := Origin(c, |c.pack|, i);
      assert c.Record(c.pack[j])[0].path == c.pack[j].path;
      if j != k { PlacesDiffer(c, j, k); }
    }
  }

  lemma OwnedExactly(records: seq<FileRecord>, path: string)
    ensures path in Owned(records) <==> RecordsPath(records, path)
    ensures path in Owned(records) ==> exists i :: 0 <= i < |records| && records[i] == Owned(records)[path] && records[i].path == path
  {
    if path in Owned(records) { OwnedIsRecorded(records, path); }
    if RecordsPath(records, path) {
      var i :| 0 <= i < |records| && records[i].path == path;
      IndexOwned(records, i);
    }
  }

  ghost predicate RecordsPath(records: seq<FileRecord>, path: string) {
    exists i :: 0 <= i < |records| && records[i].path == path
  }

  lemma {:induction false} OwnedIsRecorded(records: seq<FileRecord>, path: string)
    requires path in Owned(records)
    ensures exists i :: 0 <= i < |records| && records[i] == Owned(records)[path] && records[i].path == path
  {
    var n := |records| - 1;
    if records[n].path != path {
      OwnedIsRecorded(records[..n], path);
      var i :| 0 <= i < n && records[..n][i] == Owned(records[..n])[path] && records[..n][i].path == path;
      assert records[i] == Owned(records)[path];
    } else {
      assert records[n] == Owned(records)[path];
    }
  }

  /** And nothing else is recorded. */
  lemma NothingElseRecorded(l: Layout, w: World, c: Change, after: World, i: nat)
    requires c.layout == l && Installs(w, c, after) && i < |after.files[c.modId]|
    ensures exists k :: 0 <= k < |c.pack| && c.pack[k].path == after.files[c.modId][i].path
  {
    var k := Origin(c, |c.pack|, i);
    assert c.Record(c.pack[k])[0].path == c.pack[k].path;
  }

  // ----- removing

  ghost predicate HeldAt(l: Layout, w: World, modId: string, s: Spot) {
    exists i: nat :: Holds(l, w, modId, i) && SpotOf(l, w, modId, i) == s
  }

  /** A removed mod's files are gone, and every other file is as it was, all configuration included. */
  lemma RemovalLeavesNothing(l: Layout, w: World, m: Mutation, after: World)
    requires m.layout == l && Mutates(w, m, after) && m.op.Remove?
    ensures forall i: nat :: Holds(l, w, m.modId, i) ==> SpotOf(l, w, m.modId, i) !in after.tree
    ensures forall s :: !Staged(s, m.txn) && !HeldAt(l, w, m.modId, s) ==> Same(w.tree, after.tree, s)
    ensures forall path :: l.config(path) ==> Same(w.tree, after.tree, Live(l.fold(path)))
    ensures m.modId !in after.mods && m.modId !in after.files
  {
    RemovalIsExact(m, after.tree);
    forall i: nat | Holds(l, w, m.modId, i) ensures SpotOf(l, w, m.modId, i) !in after.tree {
      assert RecordedAt(l, m.modId, m.mod.enabled, m.records, SpotOf(l, w, m.modId, i));
    }
    forall s | !Staged(s, m.txn) && !HeldAt(l, w, m.modId, s) ensures Same(w.tree, after.tree, s) {
      RecordedIsHeld(l, w, m, s);
    }
    forall path | l.config(path) ensures Same(w.tree, after.tree, Live(l.fold(path))) {
      assert !HeldAt(l, w, m.modId, Live(l.fold(path)));
    }
  }

  lemma RecordedIsHeld(l: Layout, w: World, m: Mutation, s: Spot)
    requires m.modId in w.mods && m.modId in w.files && m.mod == w.mods[m.modId] && m.records == w.files[m.modId]
    ensures RecordedAt(l, m.modId, m.mod.enabled, m.records, s) ==> HeldAt(l, w, m.modId, s)
  {
    if RecordedAt(l, m.modId, m.mod.enabled, m.records, s) {
      var i :| 0 <= i < |m.records| && !l.config(m.records[i].path) && l.place(m.mod.enabled, m.modId, m.records[i].path) == s;
      assert Holds(l, w, m.modId, i) && SpotOf(l, w, m.modId, i) == s;
    }
  }

  // ----- enabling and disabling

  /** The `i`-th recorded file has gone from its old place to its new one. */
  ghost predicate SwitchedAt(l: Layout, w: World, m: Mutation, after: World, i: nat)
    requires Holds(l, w, m.modId, i) && Holds(l, after, m.modId, i)
  {
    var old_, new_ := SpotOf(l, w, m.modId, i), SpotOf(l, after, m.modId, i);
    old_ in w.tree && old_ !in after.tree && new_ in after.tree && after.tree[new_] == w.tree[old_]
  }

  /** Enabling and disabling move every recorded file with its content, and nothing else. */
  lemma SwitchIsExact(l: Layout, w: World, m: Mutation, after: World)
    requires m.layout == l && Mutates(w, m, after) && !m.op.Remove?
    requires DistinctRecords(l, m.records) && NoneDisguised(l, m.modId, m.records)
    ensures forall i: nat :: Holds(l, w, m.modId, i) <==> Holds(l, after, m.modId, i)
    ensures forall i: nat :: Holds(l, w, m.modId, i) ==> SwitchedAt(l, w, m, after, i)
    ensures forall s :: !HeldAt(l, w, m.modId, s) && !HeldAt(l, after, m.modId, s) ==> Same(w.tree, after.tree, s)
    ensures after.mods.Keys == w.mods.Keys && after.mods[m.modId] == w.mods[m.modId].(enabled := m.op == Enable)
  {
    var n := |m.records|;
    ApartExactly(l, m);
    ApartRelocates(w.tree, m.Moves(n));
    forall i: nat | Holds(l, w, m.modId, i) ensures SwitchedAt(l, w, m, after, i) {
      var k := MoveOf(m, n, i);
    }
    forall s | !HeldAt(l, w, m.modId, s) && !HeldAt(l, after, m.modId, s) ensures Same(w.tree, after.tree, s) {
      forall k | 0 <= k < |m.Moves(n)| ensures m.Moves(n)[k].target != s && m.Moves(n)[k].source != s {
        var i := Mover(m, n, k);
        assert Holds(l, w, m.modId, i) && Holds(l, after, m.modId, i);
      }
    }
  }

  // ----- the concrete places

  /** Which files are settings on a Valheim server, and where the files of a disabled mod are. */
  lemma ValheimPlaces(local: string -> bool, modId: string, path: string)
    ensures var l := ValheimLayout(local);
      && (l.config(path) <==> "bepinex/config/" <= Fold(path))
      && (l.doorstop(path) <==> Fold(path) == "doorstop_config.ini")
      && l.place(true, modId, path) == Live(Fold(path))
      && (!l.config(path) ==> l.place(false, modId, path) == Live(Fold(".xylona-disabled/" + modId + "/" + path)))
  {
    assert DisabledPath(modId, path) == ".xylona-disabled/" + modId + "/" + path;
  }
}
