/**
  Who owns which file, over whole runs of installations, updates, enabling, disabling
  and removals. The steps are the committed changes and the rolled-back ones that the
  transactions are proved to be.
 */
module ModOwnership {
  import opened Wrappers
  import opened ModPaths
  import opened FileMoves
  import opened ModTransactions

  datatype World = World(tree: Tree, mods: map<string, Mod>, files: map<string, seq<FileRecord>>)

  /** What happened between two worlds; a failed run that was put back is `RolledBack`. */
  datatype Event = Installing(c: Change) | Mutating(m: Mutation) | RolledBack(txn: nat)

  ghost predicate Installs(w: World, c: Change, after: World) {
    && c.layout.Coherent() && c.before == w.tree && NothingStaged(c.txn, w.tree)
    && (if c.modId in w.mods
        then c.modId in w.files && c.owned == Owned(w.files[c.modId]) && c.mod == w.mods[c.modId].(version := c.mod.version)
        else c.owned == map[] && c.mod.enabled && NotInstalled(w.mods, c.mod.sourceId))
    && c.Acceptable() && c.Installed(after.tree)
    && after.mods == w.mods[c.modId := c.mod]
    && after.files == w.files[c.modId := c.Records(|c.pack|)]
  }

  ghost predicate Mutates(w: World, m: Mutation, after: World) {
    && m.layout.Coherent() && m.before == w.tree && NothingStaged(m.txn, w.tree)
    && m.modId in w.mods && m.modId in w.files && m.mod == w.mods[m.modId] && m.records == w.files[m.modId]
    && m.Possible()
    && match m.op
       case Remove =>
         && SameOutside(m.txn, After(w.tree, m.Moves(|m.records|)), after.tree)
         && after.mods == w.mods - {m.modId} && after.files == w.files - {m.modId}
       case _ =>
         && m.mod.enabled == m.op.Disable?
         && after.tree == After(w.tree, m.Moves(|m.records|))
         && after.mods == w.mods[m.modId := m.mod.(enabled := m.op.Enable?)] && after.files == w.files
  }

  ghost predicate Step(l: Layout, w: World, e: Event, after: World) {
    match e
    case Installing(c) => c.layout == l && Installs(w, c, after)
    case Mutating(m) => m.layout == l && Mutates(w, m, after)
    case RolledBack(txn) => after.mods == w.mods && after.files == w.files && SameOutside(txn, w.tree, after.tree)
  }

  // ----- ownership

  /** `modId` records a file that is not configuration, as its `i`-th. */
  ghost predicate Holds(l: Layout, w: World, modId: string, i: nat) {
    modId in w.mods && modId in w.files && i < |w.files[modId]| && !l.config(w.files[modId][i].path)
  }

  ghost function SpotOf(l: Layout, w: World, modId: string, i: nat): Spot
    requires Holds(l, w, modId, i)
  {
    l.place(w.mods[modId].enabled, modId, w.files[modId][i].path)
  }

  ghost predicate Present(l: Layout, w: World, modId: string, i: nat) {
    Holds(l, w, modId, i) ==> SpotOf(l, w, modId, i) in w.tree
  }

  ghost predicate Exclusive(l: Layout, w: World, a: string, i: nat, b: string, j: nat) {
    Holds(l, w, a, i) && Holds(l, w, b, j) && (a != b || i != j) ==> SpotOf(l, w, a, i) != SpotOf(l, w, b, j)
  }

  /** Every recorded file is at its place, and no place belongs to two records. */
  ghost predicate Owns(l: Layout, w: World) {
    && w.files.Keys == w.mods.Keys
    && (forall id, i: nat :: Present(l, w, id, i))
    && (forall a, i: nat, b, j: nat :: Exclusive(l, w, a, i, b, j))
  }

  /** No file adopted by the loader is already recorded by some mod. */
  ghost predicate CleanAdoption(l: Layout, w: World, c: Change) {
    forall k, id, i: nat :: 0 <= k < |c.pack| && c.Decide(c.pack[k]).Adopt? && Holds(l, w, id, i) ==>
      SpotOf(l, w, id, i) != c.Target(c.pack[k].path)
  }

  ghost predicate CleanStep(l: Layout, w: World, e: Event) {
    e.Installing? ==> CleanAdoption(l, w, e.c)
  }

  // ----- records and the package they come from

  lemma {:induction false} OwnedIndex(records: seq<FileRecord>, path: string)
    requires path in Owned(records)
    ensures exists i: nat :: i < |records| && records[i].path == path
  {
    var n := |records| - 1;
    if records[n].path != path {
      OwnedIndex(records[..n], path);
      var i: nat :| i < n && records[..n][i].path == path;
      assert records[i].path == path;
    }
  }

  lemma {:induction false} IndexOwned(records: seq<FileRecord>, i: nat)
    requires i < |records|
    ensures records[i].path in Owned(records)
  {
    var n := |records| - 1;
    if i < n {
      IndexOwned(records[..n], i);
    }
  }

  /** The package file that the `i`-th record of a change is about. */
  ghost function Origin(c: Change, upTo: nat, i: nat): (k: nat)
    requires upTo <= |c.pack| && i < |c.Records(upTo)|
    ensures k < upTo && c.Record(c.pack[k]) == [c.Records(upTo)[i]]
  {
    if i < |c.Records(upTo - 1)| then Origin(c, upTo - 1, i) else upTo - 1
  }

  lemma {:induction false} OriginIncreases(c: Change, upTo: nat, i: nat, j: nat)
    requires upTo <= |c.pack| && i < j < |c.Records(upTo)|
    ensures Origin(c, upTo, i) < Origin(c, upTo, j)
  {
    if j < |c.Records(upTo - 1)| {
      OriginIncreases(c, upTo - 1, i, j);
    }
  }

  lemma {:induction false} RecordOf(c: Change, upTo: nat, k: nat) returns (i: nat)
    requires k < upTo <= |c.pack| && c.Record(c.pack[k]) != []
    ensures i < |c.Records(upTo)| && c.Record(c.pack[k]) == [c.Records(upTo)[i]]
  {
    if k == upTo - 1 {
      i := |c.Records(upTo - 1)|;
    } else {
      i := RecordOf(c, upTo - 1, k);
    }
  }

  // ----- installing keeps ownership exactly when adoption is clean

  /** The record of an owned path, and what its exclusiveness says about other records. */
  lemma OwnRecord(l: Layout, w: World, c: Change, after: World, path: string) returns (i: nat)
    requires c.layout == l && Installs(w, c, after) && Owns(l, w)
    requires path in c.owned && !l.config(path)
    ensures Holds(l, w, c.modId, i) && w.files[c.modId][i].path == path
    ensures SpotOf(l, w, c.modId, i) == c.Target(path)
  {
    OwnedIndex(w.files[c.modId], path);
    i :| i < |w.files[c.modId]| && w.files[c.modId][i].path == path;
  }

  /** Where a file of the new package goes, nobody else has one. */
  lemma PackageTakesOwnPlaces(l: Layout, w: World, c: Change, after: World, k: nat, id: string, i: nat)
    requires c.layout == l && Installs(w, c, after) && Owns(l, w) && CleanAdoption(l, w, c)
    requires k < |c.pack| && c.Record(c.pack[k]) != [] && !l.config(c.pack[k].path)
    requires Holds(l, w, id, i) && SpotOf(l, w, id, i) == c.Target(c.pack[k].path)
    ensures id == c.modId && w.files[id][i].path == c.pack[k].path
  {
    var path := c.pack[k].path;
    assert Present(l, w, id, i);
    if path in c.owned {
      var own := OwnRecord(l, w, c, after, path);
      assert Exclusive(l, w, id, i, c.modId, own);
    }
  }

  lemma OwnFileGoes(l: Layout, w: World, c: Change, after: World, name: string) returns (i: nat)
    requires c.layout == l && Installs(w, c, after) && Owns(l, w) && c.Goes(name)
    ensures Holds(l, w, c.modId, i) && w.files[c.modId][i].path == name && SpotOf(l, w, c.modId, i) == c.Target(name)
  {
    i := OwnRecord(l, w, c, after, name);
  }

  /** Different package files have different places, so promotions spare the others. */
  lemma PlacesDiffer(c: Change, j: nat, k: nat)
    requires c.layout.Coherent() && c.Acceptable() && j < |c.pack| && k < |c.pack| && j != k
    ensures c.Target(c.pack[j].path) != c.Target(c.pack[k].path)
  {
    assert c.layout.fold(c.pack[j].path) != c.layout.fold(c.pack[k].path);
  }

  lemma RecordedIsPresent(l: Layout, w: World, c: Change, after: World, k: nat)
    requires c.layout == l && Installs(w, c, after) && Owns(l, w) && CleanAdoption(l, w, c)
    requires k < |c.pack| && c.Record(c.pack[k]) != [] && !l.config(c.pack[k].path)
    ensures c.Target(c.pack[k].path) in after.tree
  {
    var path := c.pack[k].path;
    var s := c.Target(path);
    if c.Decide(c.pack[k]).Replace? {
      assert c.ContentAt(after.tree, k);
    } else {
      assert s !in c.Promotions(|c.pack|) by {
        forall j: nat | j < |c.pack| && c.Decide(c.pack[j]).Replace? ensures c.Target(c.pack[j].path) != s {
          PlacesDiffer(c, j, k);
        }
      }
      forall name | c.Goes(name) ensures c.Target(name) != s {
        var i := OwnFileGoes(l, w, c, after, name);
        if c.Target(name) == s {
          PackageTakesOwnPlaces(l, w, c, after, k, c.modId, i);
        }
      }
      assert !c.GoneFrom(s);
      assert Same(c.before, after.tree, s);
    }
  }

  lemma OthersStayPresent(l: Layout, w: World, c: Change, after: World, id: string, i: nat)
    requires c.layout == l && Installs(w, c, after) && Owns(l, w)
    requires Holds(l, w, id, i) && id != c.modId
    ensures SpotOf(l, w, id, i) in after.tree
  {
    var s := SpotOf(l, w, id, i);
    assert Present(l, w, id, i);
    if s in c.Promotions(|c.pack|) {
      var k: nat :| k < |c.pack| && c.Decide(c.pack[k]).Replace? && c.Target(c.pack[k].path) == s;
      assert c.ContentAt(after.tree, k);
    } else {
      forall name | c.Goes(name) ensures c.Target(name) != s {
        var own := OwnFileGoes(l, w, c, after, name);
        assert Exclusive(l, w, id, i, c.modId, own);
      }
      assert !c.GoneFrom(s);
      assert Same(c.before, after.tree, s);
    }
  }

  /** The package file behind a record of the changed mod. */
  lemma NewRecord(l: Layout, w: World, c: Change, after: World, i: nat) returns (k: nat)
    requires c.layout == l && Installs(w, c, after) && Holds(l, after, c.modId, i)
    ensures k < |c.pack| && k == Origin(c, |c.pack|, i)
    ensures c.Record(c.pack[k]) != [] && !l.config(c.pack[k].path)
    ensures SpotOf(l, after, c.modId, i) == c.Target(c.pack[k].path)
  {
    k := Origin(c, |c.pack|, i);
    assert c.Record(c.pack[k])[0].path == c.pack[k].path;
  }

  lemma InstallExclusive(l: Layout, w: World, c: Change, after: World, a: string, i: nat, b: string, j: nat)
    requires c.layout == l && Installs(w, c, after) && Owns(l, w) && CleanAdoption(l, w, c)
    ensures Exclusive(l, after, a, i, b, j)
  {
    if Holds(l, after, a, i) && Holds(l, after, b, j) && (a != b || i != j) {
      if a == c.modId && b == c.modId {
        var k := NewRecord(l, w, c, after, i);
        var n := NewRecord(l, w, c, after, j);
        if i < j { OriginIncreases(c, |c.pack|, i, j); } else { OriginIncreases(c, |c.pack|, j, i); }
        PlacesDiffer(c, k, n);
      } else if a == c.modId {
        NewAgainstOld(l, w, c, after, i, b, j);
      } else if b == c.modId {
        NewAgainstOld(l, w, c, after, j, a, i);
      } else {
        assert Exclusive(l, w, a, i, b, j);
      }
    }
  }

  lemma NewAgainstOld(l: Layout, w: World, c: Change, after: World, i: nat, b: string, j: nat)
    requires c.layout == l && Installs(w, c, after) && Owns(l, w) && CleanAdoption(l, w, c)
    requires Holds(l, after, c.modId, i) && Holds(l, after, b, j) && b != c.modId
    ensures SpotOf(l, after, c.modId, i) != SpotOf(l, after, b, j)
  {
    var k := NewRecord(l, w, c, after, i);
    assert Holds(l, w, b, j) && SpotOf(l, w, b, j) == SpotOf(l, after, b, j);
    if SpotOf(l, w, b, j) == c.Target(c.pack[k].path) {
      PackageTakesOwnPlaces(l, w, c, after, k, b, j);
    }
  }

  lemma CleanInstallKeeps(l: Layout, w: World, c: Change, after: World)
    requires c.layout == l && Installs(w, c, after) && Owns(l, w) && CleanAdoption(l, w, c)
    ensures Owns(l, after)
  {
    forall id, i: nat ensures Present(l, after, id, i) {
      if Holds(l, after, id, i) {
        if id == c.modId {
          var k := NewRecord(l, w, c, after, i);
          RecordedIsPresent(l, w, c, after, k);
        } else {
          OthersStayPresent(l, w, c, after, id, i);
        }
      }
    }
    forall a, i: nat, b, j: nat ensures Exclusive(l, after, a, i, b, j) {
      InstallExclusive(l, w, c, after, a, i, b, j);
    }
  }

  /** Adopting one's own file under another spelling: the old spelling is set aside with it. */
  lemma {:induction false} RespelledIsGone(l: Layout, w: World, c: Change, after: World, k: nat, i: nat)
    requires c.layout == l && Installs(w, c, after)
    requires k < |c.pack| && c.Decide(c.pack[k]).Adopt? && Holds(l, w, c.modId, i)
    requires SpotOf(l, w, c.modId, i) == c.Target(c.pack[k].path)
    ensures c.Target(c.pack[k].path) !in after.tree
  {
    var s, name := c.Target(c.pack[k].path), w.files[c.modId][i].path;
    IndexOwned(w.files[c.modId], i);
    assert l.fold(name) == l.fold(c.pack[k].path);
    forall j: nat | j < |c.pack| && !c.Decide(c.pack[j]).Replace? ensures c.pack[j].path != name {
      if j != k { PlacesDiffer(c, j, k); }
    }
    assert c.Goes(name);
    forall j: nat | j < |c.pack| && c.Decide(c.pack[j]).Replace? ensures c.Target(c.pack[j].path) != s {
      PlacesDiffer(c, j, k);
    }
    assert c.GoneFrom(s) && s !in c.Promotions(|c.pack|);
  }

  /** An adopted file that some mod records already belongs to two records, or is gone. */
  lemma {:induction false} UncleanInstallBreaks(l: Layout, w: World, c: Change, after: World)
    requires c.layout == l && Installs(w, c, after) && !CleanAdoption(l, w, c)
    ensures !Owns(l, after)
  {
    var k, id, i: nat :| 0 <= k < |c.pack| && c.Decide(c.pack[k]).Adopt? && Holds(l, w, id, i) &&
      SpotOf(l, w, id, i) == c.Target(c.pack[k].path);
    var n := AdoptedRecord(c, after, k);
    if id != c.modId {
      OthersRecords(l, w, c, after, id, i);
      assert !Exclusive(l, after, c.modId, n, id, i);
    } else {
      RespelledIsGone(l, w, c, after, k, i);
      assert !Present(l, after, c.modId, n);
    }
  }

  lemma AdoptedRecord(c: Change, after: World, k: nat) returns (n: nat)
    requires c.modId in after.mods && after.mods[c.modId].enabled == c.mod.enabled
    requires c.modId in after.files && after.files[c.modId] == c.Records(|c.pack|)
    requires k < |c.pack| && c.Decide(c.pack[k]).Adopt?
    ensures Holds(c.layout, after, c.modId, n) && SpotOf(c.layout, after, c.modId, n) == c.Target(c.pack[k].path)
  {
    n := RecordOf(c, |c.pack|, k);
  }

  lemma OthersRecords(l: Layout, w: World, c: Change, after: World, id: string, i: nat)
    requires c.layout == l && Installs(w, c, after) && id != c.modId && Holds(l, w, id, i)
    ensures Holds(l, after, id, i) && SpotOf(l, after, id, i) == SpotOf(l, w, id, i)
  {
  }

  // ----- enabling, disabling and removing always keep ownership

  /** The recorded file that the `k`-th move of an operation is about. */
  ghost function Mover(m: Mutation, upTo: nat, k: nat): (i: nat)
    requires upTo <= |m.records| && k < |m.Moves(upTo)|
    ensures i < upTo && !m.layout.config(m.records[i].path)
    ensures m.Moves(upTo)[k] == Move(m.Destination(m.records[i].path), m.Original(m.records[i].path))
  {
    if k < |m.Moves(upTo - 1)| then Mover(m, upTo - 1, k) else upTo - 1
  }

  lemma {:induction false} MoverIncreases(m: Mutation, upTo: nat, j: nat, k: nat)
    requires upTo <= |m.records| && j < k < |m.Moves(upTo)|
    ensures Mover(m, upTo, j) < Mover(m, upTo, k)
  {
    if k < |m.Moves(upTo - 1)| {
      MoverIncreases(m, upTo - 1, j, k);
    }
  }

  lemma {:induction false} MoveOf(m: Mutation, upTo: nat, i: nat) returns (k: nat)
    requires i < upTo <= |m.records| && !m.layout.config(m.records[i].path) && !m.op.Remove?
    ensures k < |m.Moves(upTo)|
    ensures m.Moves(upTo)[k] == Move(m.Destination(m.records[i].path), m.Original(m.records[i].path))
  {
    if i == upTo - 1 {
      k := |m.Moves(upTo)| - 1;
    } else {
      k := MoveOf(m, upTo - 1, i);
    }
  }

  /** The moves of an operation start from the mod's own, distinct, existing files. */
  lemma MovesAreOwn(l: Layout, w: World, m: Mutation, after: World)
    requires m.layout == l && Mutates(w, m, after) && Owns(l, w)
    ensures FromDistinct(m.Moves(|m.records|)) && ToDistinct(m.Moves(|m.records|))
    ensures forall k :: 0 <= k < |m.Moves(|m.records|)| ==> m.Moves(|m.records|)[k].target in w.tree
  {
    var n := |m.records|;
    forall k | 0 <= k < |m.Moves(n)| ensures m.Moves(n)[k].target in w.tree {
      assert Present(l, w, m.modId, Mover(m, n, k));
    }
    forall i: nat, j: nat ensures DistinctAt(l, m.records, i, j) {
      assert Exclusive(l, w, m.modId, i, m.modId, j);
    }
    DistinctMoves(l, m);
  }

  /** No two recorded files that are moved are the same but for case. */
  ghost predicate DistinctRecords(l: Layout, records: seq<FileRecord>) {
    forall i: nat, j: nat :: DistinctAt(l, records, i, j)
  }

  ghost predicate DistinctAt(l: Layout, records: seq<FileRecord>, i: nat, j: nat) {
    i < j < |records| && !l.config(records[i].path) && !l.config(records[j].path) ==>
      l.fold(records[i].path) != l.fold(records[j].path)
  }

  lemma DistinctMoves(l: Layout, m: Mutation)
    requires m.layout == l && l.Coherent() && DistinctRecords(l, m.records)
    ensures FromDistinct(m.Moves(|m.records|)) && ToDistinct(m.Moves(|m.records|))
  {
    var n := |m.records|;
    forall j, k | 0 <= j < k < |m.Moves(n)|
      ensures m.Moves(n)[j].target != m.Moves(n)[k].target && m.Moves(n)[j].source != m.Moves(n)[k].source
    {
      MoverIncreases(m, n, j, k);
      assert DistinctAt(l, m.records, Mover(m, n, j), Mover(m, n, k));
    }
  }

  /** The files of the other mods are neither moved nor overwritten. */
  lemma OthersUntouched(l: Layout, w: World, m: Mutation, after: World, id: string, i: nat)
    requires m.layout == l && Mutates(w, m, after) && Owns(l, w)
    requires Holds(l, w, id, i) && id != m.modId
    ensures !LeavesFrom(m.Moves(|m.records|), SpotOf(l, w, id, i))
    ensures !ArrivesAt(m.Moves(|m.records|), SpotOf(l, w, id, i))
    ensures SpotOf(l, w, id, i) in after.tree
  {
    var n, s := |m.records|, SpotOf(l, w, id, i);
    assert Present(l, w, id, i);
    forall k | 0 <= k < |m.Moves(n)| ensures m.Moves(n)[k].target != s {
      assert Exclusive(l, w, id, i, m.modId, Mover(m, n, k));
    }
    NeverArrivesAt(w.tree, m.Moves(n), s);
    StaysOccupied(w.tree, m.Moves(n), s);
    assert m.op.Remove? ==> Same(After(w.tree, m.Moves(n)), after.tree, s);
  }

  lemma SwitchedFile(l: Layout, w: World, m: Mutation, after: World, i: nat)
    requires m.layout == l && Mutates(w, m, after) && Owns(l, w) && !m.op.Remove?
    requires Holds(l, after, m.modId, i)
    ensures SpotOf(l, after, m.modId, i) in after.tree
    ensures ArrivesAt(m.Moves(|m.records|), SpotOf(l, after, m.modId, i))
  {
    var k := MoveOf(m, |m.records|, i);
    MovesAreOwn(l, w, m, after);
    AllArrive(w.tree, m.Moves(|m.records|), k);
  }

  lemma MutationExclusive(l: Layout, w: World, m: Mutation, after: World, a: string, i: nat, b: string, j: nat)
    requires m.layout == l && Mutates(w, m, after) && Owns(l, w)
    ensures Exclusive(l, after, a, i, b, j)
  {
    if Holds(l, after, a, i) && Holds(l, after, b, j) && (a != b || i != j) {
      assert Exclusive(l, w, a, i, b, j);
      if a == m.modId && b != m.modId {
        SwitchedFile(l, w, m, after, i);
        OthersUntouched(l, w, m, after, b, j);
      } else if b == m.modId && a != m.modId {
        SwitchedFile(l, w, m, after, j);
        OthersUntouched(l, w, m, after, a, i);
      }
    }
  }

  lemma MutationKeeps(l: Layout, w: World, m: Mutation, after: World)
    requires m.layout == l && Mutates(w, m, after) && Owns(l, w)
    ensures Owns(l, after)
  {
    forall id, i: nat ensures Present(l, after, id, i) {
      if Holds(l, after, id, i) {
        if id == m.modId {
          SwitchedFile(l, w, m, after, i);
        } else {
          OthersUntouched(l, w, m, after, id, i);
        }
      }
    }
    forall a, i: nat, b, j: nat ensures Exclusive(l, after, a, i, b, j) {
      MutationExclusive(l, w, m, after, a, i, b, j);
    }
  }

  lemma RollbackKeeps(l: Layout, w: World, txn: nat, after: World)
    requires l.Coherent() && Step(l, w, RolledBack(txn), after) && Owns(l, w)
    ensures Owns(l, after)
  {
    forall id, i: nat ensures Present(l, after, id, i) {
      if Holds(l, after, id, i) {
        assert Present(l, w, id, i) && Same(w.tree, after.tree, SpotOf(l, w, id, i));
      }
    }
    forall a, i: nat, b, j: nat ensures Exclusive(l, after, a, i, b, j) {
      assert Exclusive(l, w, a, i, b, j);
    }
  }

  // ----- whole runs

  /** `ws[k]` becomes `ws[k + 1]` by `es[k]`. */
  ghost predicate IsRun(l: Layout, ws: seq<World>, es: seq<Event>) {
    && l.Coherent() && |ws| == |es| + 1
    && forall k :: 0 <= k < |es| ==> Step(l, ws[k], es[k], ws[k + 1])
  }

  lemma {:induction false} StepKeepsExactly(l: Layout, w: World, e: Event, after: World)
    requires l.Coherent() && Step(l, w, e, after) && Owns(l, w)
    ensures Owns(l, after) <==> CleanStep(l, w, e)
  {
    match e
    case Installing(c) =>
      if CleanAdoption(l, w, c) { CleanInstallKeeps(l, w, c, after); } else { UncleanInstallBreaks(l, w, c, after); }
    case Mutating(m) => MutationKeeps(l, w, m, after);
    case RolledBack(txn) => RollbackKeeps(l, w, txn, after);
  }

  /**
    Over any run, every mod has all its files to itself at every moment exactly when the
    loader never adopts a file that is recorded already.
   */
  lemma OwnershipOverRuns(l: Layout, ws: seq<World>, es: seq<Event>)
    requires IsRun(l, ws, es) && Owns(l, ws[0])
    ensures (forall k :: 0 <= k < |ws| ==> Owns(l, ws[k])) <==> (forall k :: 0 <= k < |es| ==> CleanStep(l, ws[k], es[k]))
  {
    OwnershipUpTo(l, ws, es, |es|);
  }

  lemma {:induction false} OwnershipUpTo(l: Layout, ws: seq<World>, es: seq<Event>, n: nat)
    requires IsRun(l, ws, es) && Owns(l, ws[0]) && n <= |es|
    ensures (forall k :: 0 <= k <= n ==> Owns(l, ws[k])) <==> (forall k :: 0 <= k < n ==> CleanStep(l, ws[k], es[k]))
  {
    if n > 0 {
      OwnershipUpTo(l, ws, es, n - 1);
      if Owns(l, ws[n - 1]) {
        StepKeepsExactly(l, ws[n - 1], es[n - 1], ws[n]);
      }
    }
  }

  /** Two enabled mods never record the same file. */
  lemma EnabledModsShareNothing(l: Layout, w: World, a: string, i: nat, b: string, j: nat)
    requires l.Coherent() && Owns(l, w) && a != b
    requires Holds(l, w, a, i) && Holds(l, w, b, j) && w.mods[a].enabled && w.mods[b].enabled
    ensures l.fold(w.files[a][i].path) != l.fold(w.files[b][j].path)
  {
    assert Exclusive(l, w, a, i, b, j);
    assert SpotOf(l, w, a, i) == Live(l.fold(w.files[a][i].path));
    assert SpotOf(l, w, b, j) == Live(l.fold(w.files[b][j].path));
  }

  // ----- what one installation does to configuration and to dropped files

  /** No configuration file that exists is ever altered or removed. */
  lemma ConfigurationUntouched(w: World, c: Change, after: World, file: string)
    requires Installs(w, c, after) && c.layout.config(file) && Live(c.layout.fold(file)) in w.tree
    ensures Same(w.tree, after.tree, Live(c.layout.fold(file)))
  {
    var s := Live(c.layout.fold(file));
    assert s !in c.Promotions(|c.pack|) && !c.GoneFrom(s);
  }

  /** A file the mod had and the new package lacks is gone, unless it is configuration. */
  lemma {:induction false} DroppedFileIsGone(l: Layout, w: World, c: Change, after: World, i: nat)
    requires c.layout == l && Installs(w, c, after) && Holds(l, w, c.modId, i)
    requires forall k :: 0 <= k < |c.pack| ==> l.fold(c.pack[k].path) != l.fold(w.files[c.modId][i].path)
    ensures SpotOf(l, w, c.modId, i) !in after.tree
  {
    var name := w.files[c.modId][i].path;
    IndexOwned(w.files[c.modId], i);
    assert c.Goes(name) && c.Target(name) == SpotOf(l, w, c.modId, i);
    assert c.GoneFrom(c.Target(name));
    assert c.Target(name) !in c.Promotions(|c.pack|);
  }

  /** An installed package never has two files that are the same but for case. */
  lemma InstalledRecordsDistinct(l: Layout, w: World, c: Change, after: World)
    requires c.layout == l && Installs(w, c, after)
    ensures DistinctRecords(l, after.files[c.modId])
  {
    var n := |c.pack|;
    forall i: nat, j: nat ensures DistinctAt(l, after.files[c.modId], i, j) {
      if i < j < |c.Records(n)| {
        OriginIncreases(c, n, i, j);
        var a, b := Origin(c, n, i), Origin(c, n, j);
        assert c.Records(n)[i].path == c.pack[a].path && c.Records(n)[j].path == c.pack[b].path;
      }
    }
  }

  /**
    Disabling a mod and enabling it again restores every file and every record, whatever
    else is in the tree and whoever else records its files.
   */
  lemma DisableThenEnable(l: Layout, w: World, off: Mutation, between: World, on: Mutation, after: World)
    requires off.layout == l && on.layout == l && DistinctRecords(l, off.records)
    requires Mutates(w, off, between) && off.op == Disable
    requires Mutates(between, on, after) && on.op == Enable && on.modId == off.modId
    ensures after == w
  {
    var n := |off.records|;
    DistinctMoves(l, off);
    BackMoves(off, on, n);
    ThereAndBack(w.tree, off.Moves(n));
    assert after.mods == w.mods;
  }

  /** Where one recorded file lives while enabled is never where another one lives while disabled. */
  ghost predicate NoneDisguised(l: Layout, modId: string, records: seq<FileRecord>) {
    forall i: nat, j: nat :: NotDisguisedAs(l, modId, records, i, j)
  }

  ghost predicate NotDisguisedAs(l: Layout, modId: string, records: seq<FileRecord>, i: nat, j: nat) {
    i < |records| && j < |records| && !l.config(records[i].path) && !l.config(records[j].path) ==>
      l.place(true, modId, records[i].path) != l.place(false, modId, records[j].path)
  }

  /** The moves of enabling or disabling keep apart exactly if no recorded path is another one's disabled place. */
  lemma ApartExactly(l: Layout, m: Mutation)
    requires m.layout == l && l.Coherent() && DistinctRecords(l, m.records)
    requires (m.op.Enable? && !m.mod.enabled) || (m.op.Disable? && m.mod.enabled)
    ensures Apart(m.Moves(|m.records|)) <==> NoneDisguised(l, m.modId, m.records)
  {
    var n := |m.records|;
    DistinctMoves(l, m);
    if NoneDisguised(l, m.modId, m.records) {
      forall j, k | 0 <= j < |m.Moves(n)| && 0 <= k < |m.Moves(n)| ensures m.Moves(n)[j].target != m.Moves(n)[k].source {
        assert NotDisguisedAs(l, m.modId, m.records, Mover(m, n, j), Mover(m, n, k));
        assert NotDisguisedAs(l, m.modId, m.records, Mover(m, n, k), Mover(m, n, j));
      }
    }
    if Apart(m.Moves(n)) {
      forall i: nat, j: nat ensures NotDisguisedAs(l, m.modId, m.records, i, j) {
        if i < n && j < n && !l.config(m.records[i].path) && !l.config(m.records[j].path) {
          var a := MoveOf(m, n, i);
          var b := MoveOf(m, n, j);
          assert m.Moves(n)[a].target != m.Moves(n)[b].source && m.Moves(n)[b].target != m.Moves(n)[a].source;
        }
      }
    }
  }

  /** The enabling of `modId` as it would be tried in `w`. */
  ghost predicate Enabling(l: Layout, w: World, on: Mutation) {
    && on.layout == l && l.Coherent() && on.before == w.tree && on.op == Enable
    && on.modId in w.mods && on.modId in w.files && on.mod == w.mods[on.modId] && on.records == w.files[on.modId]
    && !on.mod.enabled
  }

  /** A mod that was just disabled can be enabled again exactly if no recorded path is another one's disabled place. */
  lemma EnabledAgainExactly(l: Layout, w: World, off: Mutation, between: World, on: Mutation)
    requires off.layout == l && DistinctRecords(l, off.records)
    requires Mutates(w, off, between) && off.op == Disable
    requires Enabling(l, between, on) && on.modId == off.modId
    ensures on.Possible() <==> NoneDisguised(l, off.modId, off.records)
  {
    var n := |off.records|;
    DistinctMoves(l, off);
    ApartExactly(l, off);
    BackMoves(off, on, n);
    BackExactlyIfApart(w.tree, off.Moves(n));
  }

  ghost predicate OldPlacesFree(l: Layout, w: World, modId: string) {
    forall i: nat :: Holds(l, w, modId, i) ==> l.place(true, modId, w.files[modId][i].path) !in w.tree
  }

  /** And at any later time exactly if nothing has taken the old places. */
  lemma EnabledLaterExactly(l: Layout, w: World, on: Mutation)
    requires Owns(l, w) && Enabling(l, w, on) && NoneDisguised(l, on.modId, on.records)
    ensures on.Possible() <==> OldPlacesFree(l, w, on.modId)
  {
    var n := |on.records|;
    forall i: nat, j: nat ensures DistinctAt(l, on.records, i, j) { assert Exclusive(l, w, on.modId, i, on.modId, j); }
    ApartExactly(l, on);
    LegalExactly(w.tree, on.Moves(n));
    forall k | 0 <= k < |on.Moves(n)| ensures on.Moves(n)[k].target in w.tree {
      assert Present(l, w, on.modId, Mover(on, n, k));
    }
    if on.Possible() {
      forall i: nat | Holds(l, w, on.modId, i) ensures l.place(true, on.modId, on.records[i].path) !in w.tree {
        var k := MoveOf(on, n, i);
      }
    }
    if OldPlacesFree(l, w, on.modId) {
      forall k | 0 <= k < |on.Moves(n)| ensures on.Moves(n)[k].source !in w.tree {
        assert Holds(l, w, on.modId, Mover(on, n, k));
      }
    }
  }

  lemma {:induction false} BackMoves(off: Mutation, on: Mutation, upTo: nat)
    requires off.layout == on.layout && off.modId == on.modId && off.records == on.records && upTo <= |off.records|
    requires off.op == Disable && on.op == Enable && off.mod.enabled && !on.mod.enabled
    ensures on.Moves(upTo) == Reversed(off.Moves(upTo))
  {
    if upTo > 0 {
      BackMoves(off, on, upTo - 1);
    }
  }
}
