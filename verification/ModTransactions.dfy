/**
  Changing the files of one Valheim mod: a new package is staged, the owned files are
  moved aside, the staged ones promoted and the records committed, or everything is put
  back. Every remote call and every database call may fail, at any point of the run.

  Line numbers refer to `internal/modmanager/valheim-mods.go`.
 */
module ModTransactions {
  import opened Wrappers
  import opened ModPaths
  import opened FileMoves
  import PackageNames

  datatype PackFile = PackFile(path: string, content: Content)
  datatype FileRecord = FileRecord(path: string, digest: Content)
  datatype Mod = Mod(sourceId: string, version: string, enabled: bool)

  /** Nothing but the staging directory of `txn` differs. */
  ghost predicate SameOutside(txn: nat, a: Tree, b: Tree) {
    forall s :: !Staged(s, txn) ==> Same(a, b, s)
  }

  ghost predicate NothingStaged(txn: nat, tree: Tree) {
    forall s :: s in tree ==> !Staged(s, txn)
  }

  // ----- what installing a package amounts to

  datatype Decision = KeepTracked(digest: Content) | KeepUntracked | Adopt | Foreign | Replace

  function Owned(records: seq<FileRecord>): map<string, FileRecord> {
    if records == [] then map[] else
    var last := records[|records| - 1];
    Owned(records[..|records| - 1])[last.path := last]
  }

  /** One attempted installation: the mod, its old files, the new package, the tree before. */
  datatype Change = Change(
    layout: Layout, txn: nat, before: Tree, modId: string, mod: Mod,
    owned: map<string, FileRecord>, pack: seq<PackFile>)
  {
    function Target(path: string): Spot { layout.place(mod.enabled, modId, path) }

    function Decide(f: PackFile): Decision {
      var taken := Target(f.path) in before;
      if taken && (layout.config(f.path) || layout.doorstop(f.path)) then
        if f.path in owned then KeepTracked(owned[f.path].digest) else KeepUntracked
      else if taken && f.path !in owned then
        if mod.sourceId == PackageNames.LOADER_ID && before[Target(f.path)] == f.content then Adopt else Foreign
      else Replace
    }

    /** The package is well formed and overwrites nobody's files. */
    ghost predicate Acceptable() { AcceptableUpTo(|pack|) }

    ghost predicate AcceptableUpTo(upTo: nat)
      requires upTo <= |pack|
    {
      && (forall i :: 0 <= i < upTo ==> layout.local(pack[i].path) && Decide(pack[i]) != Foreign)
      && (forall i, j :: 0 <= i < j < upTo ==> layout.fold(pack[i].path) != layout.fold(pack[j].path))
    }

    /** The folded paths met so far. */
    function Seen(upTo: nat): (keys: set<string>)
      requires upTo <= |pack|
      ensures forall i :: 0 <= i < upTo ==> layout.fold(pack[i].path) in keys
      ensures forall key :: key in keys ==> exists i :: 0 <= i < upTo && layout.fold(pack[i].path) == key
    {
      if upTo == 0 then {} else Seen(upTo - 1) + {layout.fold(pack[upTo - 1].path)}
    }

    function Record(f: PackFile): seq<FileRecord> {
      match Decide(f)
      case KeepTracked(digest) => [FileRecord(f.path, digest)]
      case KeepUntracked => []
      case Adopt => [FileRecord(f.path, f.content)]
      case Foreign => []
      case Replace => [FileRecord(f.path, f.content)]
    }

    function Records(upTo: nat): seq<FileRecord>
      requires upTo <= |pack|
    {
      if upTo == 0 then [] else Records(upTo - 1) + Record(pack[upTo - 1])
    }

    /** The paths at which the file already there stays. */
    function Retained(upTo: nat): (paths: set<string>)
      requires upTo <= |pack|
      ensures forall i :: 0 <= i < upTo && !Decide(pack[i]).Replace? ==> pack[i].path in paths
      ensures forall path :: path in paths ==> exists i :: 0 <= i < upTo && !Decide(pack[i]).Replace? && pack[i].path == path
    {
      if upTo == 0 then {}
      else if Decide(pack[upTo - 1]).Replace? then Retained(upTo - 1)
      else Retained(upTo - 1) + {pack[upTo - 1].path}
    }

    /** The places that get new content. */
    function Promotions(upTo: nat): (spots: set<Spot>)
      requires upTo <= |pack|
      ensures forall i :: 0 <= i < upTo && Decide(pack[i]).Replace? ==> Target(pack[i].path) in spots
      ensures forall s :: s in spots ==> exists i :: 0 <= i < upTo && Decide(pack[i]).Replace? && Target(pack[i].path) == s
    {
      if upTo == 0 then {}
      else if Decide(pack[upTo - 1]).Replace? then Promotions(upTo - 1) + {Target(pack[upTo - 1].path)}
      else Promotions(upTo - 1)
    }

    ghost predicate ContentAt(tree: Tree, i: nat)
      requires i < |pack|
    {
      Decide(pack[i]).Replace? ==> Target(pack[i].path) in tree && tree[Target(pack[i].path)] == pack[i].content
    }

    /** An owned file that is not carried over: neither configuration nor retained. */
    ghost predicate Goes(name: string) {
      name in owned && !layout.config(name) && name !in Retained(|pack|)
    }

    ghost predicate GoneFrom(s: Spot) {
      exists name :: Goes(name) && Target(name) == s
    }

    // How many calls the change takes when none of them fails.

    /** Two calls look whether the file is there, three more upload it, one more compares it. */
    function AdmitCalls(f: PackFile): nat {
      match Decide(f)
      case Replace => 5
      case Adopt => 3
      case _ => 2
    }

    function StageCalls(upTo: nat): nat
      requires upTo <= |pack|
    {
      if upTo == 0 then 0 else StageCalls(upTo - 1) + AdmitCalls(pack[upTo - 1])
    }

    function PromoteCalls(upTo: nat): nat
      requires upTo <= |pack|
    {
      if upTo == 0 then 0 else PromoteCalls(upTo - 1) + PromoteOneCalls(upTo - 1)
    }

    function PromoteOneCalls(i: nat): nat
      requires i < |pack|
    {
      if Decide(pack[i]).Replace? then 1 else 0
    }

    ghost function Going(remaining: set<string>): set<string> { set name | name in remaining && Goes(name) }

    /** The places that are still to be cleared. */
    ghost function Waiting(tree: Tree, remaining: set<string>): set<Spot> {
      set name | name in remaining && Goes(name) && Target(name) in tree :: Target(name)
    }

    /** Two calls look whether an owned file is there, two more set it aside. */
    ghost function ClearCalls(tree: Tree, remaining: set<string>): nat {
      2 * |Going(remaining)| + 2 * |Waiting(tree, remaining)|
    }

    ghost function ClearOneCalls(tree: Tree, name: string): nat {
      if !Goes(name) then 0 else if Target(name) in tree then 4 else 2
    }

    /** From the first file staged to the commit. */
    ghost function Calls(update: bool): nat {
      StageCalls(|pack|) + 1 + (ClearCalls(before, owned.Keys) + PromoteCalls(|pack|)) + CommitCalls(update, |Records(|pack|)|)
    }

    /** The tree that the committed change leaves. */
    ghost predicate Installed(after: Tree) {
      && (forall i: nat :: i < |pack| ==> ContentAt(after, i))
      && (forall s :: !Staged(s, txn) && s !in Promotions(|pack|) ==>
          if GoneFrom(s) then s !in after else Same(before, after, s))
    }
  }

  ghost predicate NotInstalled(mods: map<string, Mod>, sourceId: string) {
    forall id :: id in mods ==> mods[id].sourceId != sourceId
  }

  ghost predicate AnotherVersion(mods: map<string, Mod>, sourceId: string, version: string) {
    exists id :: id in mods && mods[id].sourceId == sourceId && mods[id].version != version
  }

  function CommitCalls(update: bool, records: nat): nat { 3 + records + if update then 1 else 0 }

  lemma {:induction false} CallsGrow(c: Change, upTo: nat)
    requires upTo <= |c.pack|
    ensures c.StageCalls(upTo) <= c.StageCalls(|c.pack|) && c.PromoteCalls(upTo) <= c.PromoteCalls(|c.pack|)
    decreases |c.pack| - upTo
  {
    if upTo < |c.pack| {
      CallsGrow(c, upTo + 1);
    }
  }

  lemma GoingOne(c: Change, remaining: set<string>, name: string)
    requires name in remaining
    ensures |c.Going(remaining)| == |c.Going(remaining - {name})| + if c.Goes(name) then 1 else 0
  {
    if c.Goes(name) {
      assert c.Going(remaining) == c.Going(remaining - {name}) + {name};
    } else {
      assert c.Going(remaining) == c.Going(remaining - {name});
    }
  }

  lemma WaitingLess(c: Change, tree: Tree, after: Tree, remaining: set<string>, name: string)
    requires name in remaining && c.Goes(name) && c.Target(name) in tree
    requires forall s: Spot :: s.Live? ==> (s in after <==> s in tree && s != c.Target(name))
    requires c.layout.Coherent()
    ensures |c.Waiting(tree, remaining)| == |c.Waiting(after, remaining - {name})| + 1
  {
    var target := c.Target(name);
    forall s ensures s in c.Waiting(after, remaining - {name}) <==> s in c.Waiting(tree, remaining) - {target} {
      if s in c.Waiting(tree, remaining) - {target} {
        var other :| other in remaining && c.Goes(other) && c.Target(other) in tree && s == c.Target(other);
        assert other in remaining - {name} && c.Target(other) in after;
      }
    }
    assert target in c.Waiting(tree, remaining);
    assert c.Waiting(after, remaining - {name}) == c.Waiting(tree, remaining) - {target};
  }

  lemma WaitingSame(c: Change, tree: Tree, remaining: set<string>, name: string)
    requires !c.Goes(name) || c.Target(name) !in tree
    ensures c.Waiting(tree, remaining) == c.Waiting(tree, remaining - {name})
  {
    forall s ensures s in c.Waiting(tree, remaining) <==> s in c.Waiting(tree, remaining - {name}) {
      if s in c.Waiting(tree, remaining) {
        var other :| other in remaining && c.Goes(other) && c.Target(other) in tree && s == c.Target(other);
        assert other in remaining - {name};
      }
    }
  }

  /** What `name` took is no longer to be done. */
  lemma ClearedOne(c: Change, tree: Tree, after: Tree, remaining: set<string>, name: string)
    requires c.layout.Coherent() && name in remaining
    requires after == AfterClearing(c, tree, name)
    ensures c.ClearCalls(tree, remaining) == c.ClearCalls(after, remaining - {name}) + c.ClearOneCalls(tree, name)
  {
    GoingOne(c, remaining, name);
    if c.Goes(name) && c.Target(name) in tree {
      WaitingLess(c, tree, after, remaining, name);
    } else {
      WaitingSame(c, tree, remaining, name);
    }
  }

  ghost function AfterClearing(c: Change, tree: Tree, name: string): Tree {
    if c.Goes(name) && c.Target(name) in tree
    then Renamed(tree, c.Target(name), Previous(c.txn, c.layout.fold(name))) else tree
  }

  /** Staging does not change what is to be cleared. */
  lemma StagedAlike(c: Change, staged: Tree)
    requires c.layout.Coherent() && StagedUpTo(c, staged, |c.pack|)
    ensures c.ClearCalls(staged, c.owned.Keys) == c.ClearCalls(c.before, c.owned.Keys)
  {
    forall name ensures c.Target(name) in staged <==> c.Target(name) in c.before {
      assert Same(c.before, staged, c.layout.place(c.mod.enabled, c.modId, name));
    }
    assert c.Waiting(staged, c.owned.Keys) == c.Waiting(c.before, c.owned.Keys);
  }

  // ----- one run of a change, step by step

  /** What has been noted about the first `upTo` files, all of them acceptable. */
  ghost predicate Collected(c: Change, upTo: nat, retained: set<string>, records: seq<FileRecord>, seen: set<string>)
    requires upTo <= |c.pack|
  {
    c.AcceptableUpTo(upTo) && retained == c.Retained(upTo) && records == c.Records(upTo) && seen == c.Seen(upTo)
  }

  ghost predicate StagedUpTo(c: Change, tree: Tree, upTo: nat)
    requires upTo <= |c.pack|
  {
    && SameOutside(c.txn, c.before, tree)
    && (forall key :: Previous(c.txn, key) !in tree)
    && (forall i: nat :: i < upTo ==> UploadedAt(c, tree, i))
  }

  /** The moves that set aside the owned files `names`. */
  ghost predicate SetsAside(c: Change, names: seq<string>, moved: seq<Move>) {
    && |moved| == |names|
    && forall i :: 0 <= i < |names| ==>
       && c.Goes(names[i])
       && moved[i] == Move(Previous(c.txn, c.layout.fold(names[i])), c.Target(names[i]))
  }

  /** `tree` is `staged` after setting aside, without anything in the way of anything. */
  ghost predicate Aside(c: Change, staged: Tree, names: seq<string>, moved: seq<Move>, tree: Tree) {
    Legal(staged, moved) && tree == After(staged, moved) && SetsAside(c, names, moved) && Apart(moved)
  }

  /** The owned files that go have left their places, but for those in `remaining`. */
  ghost predicate Cleared(c: Change, tree: Tree, remaining: set<string>) {
    forall name :: c.Goes(name) && name !in remaining ==> c.Target(name) !in tree
  }

  /** `tree` is `mid` with the first `upTo` files promoted, each onto a vacant place. */
  ghost predicate PromotedUpTo(c: Change, mid: Tree, tree: Tree, promoted: seq<Spot>, upTo: nat)
    requires upTo <= |c.pack|
  {
    && (forall s :: s in promoted <==> s in c.Promotions(upTo))
    && (forall s :: s in promoted ==> s !in mid && s.Live?)
    && (forall i: nat :: i < upTo ==> c.ContentAt(tree, i))
    && (forall i: nat :: upTo <= i < |c.pack| ==> UploadedAt(c, tree, i))
    && (forall s :: s !in promoted ==> Leftover(c.txn, mid, tree, s))
  }

  ghost predicate UploadedAt(c: Change, tree: Tree, i: nat)
    requires i < |c.pack|
  {
    c.Decide(c.pack[i]).Replace? ==>
      var s := Next(c.txn, c.layout.fold(c.pack[i].path));
      s in tree && tree[s] == c.pack[i].content
  }

  /** Uploads may have been taken away; nothing else has changed. */
  ghost predicate Leftover(txn: nat, mid: Tree, tree: Tree, s: Spot) {
    if s.Next? && s.txn == txn then s in tree ==> Same(mid, tree, s) else Same(mid, tree, s)
  }

  lemma StagingOne(c: Change, tree: Tree, after: Tree, i: nat)
    requires i < |c.pack| && StagedUpTo(c, tree, i)
    requires c.AcceptableUpTo(i) && c.layout.local(c.pack[i].path) && c.Decide(c.pack[i]) != Foreign
    requires c.layout.fold(c.pack[i].path) !in c.Seen(i)
    requires after ==
      if c.Decide(c.pack[i]).Replace? then tree[Next(c.txn, c.layout.fold(c.pack[i].path)) := c.pack[i].content] else tree
    ensures StagedUpTo(c, after, i + 1) && c.AcceptableUpTo(i + 1)
  {
    forall s | !Staged(s, c.txn) ensures Same(c.before, after, s) {
      assert Same(c.before, tree, s);
    }
    forall j: nat | j < i + 1 ensures UploadedAt(c, after, j) {
      assert j < i ==> UploadedAt(c, tree, j);
    }
  }

  lemma StagingAny(c: Change, tree: Tree, key: string, content: Content)
    requires StagedUpTo(c, tree, 0)
    ensures StagedUpTo(c, tree[Next(c.txn, key) := content], 0)
  {
    forall s | !Staged(s, c.txn) ensures Same(c.before, tree[Next(c.txn, key) := content], s) {
      assert Same(c.before, tree, s);
    }
  }

  /** The next file set aside stands in nobody's way. */
  lemma AsideNext(c: Change, staged: Tree, names: seq<string>, moved: seq<Move>, name: string)
    requires c.layout.Coherent() && StagedUpTo(c, staged, |c.pack|)
    requires Legal(staged, moved) && SetsAside(c, names, moved) && Apart(moved)
    requires c.Goes(name) && c.Target(name) in After(staged, moved)
    ensures var m := Move(Previous(c.txn, c.layout.fold(name)), c.Target(name));
      && m.source !in After(staged, moved)
      && Legal(staged, moved + [m]) && After(staged, moved + [m]) == Renamed(After(staged, moved), m.target, m.source)
      && SetsAside(c, names + [name], moved + [m]) && Apart(moved + [m])
  {
    var m := Move(Previous(c.txn, c.layout.fold(name)), c.Target(name));
    ApartRelocates(staged, moved);
    forall i | 0 <= i < |moved| ensures moved[i].target != m.target && moved[i].source != m.source {
      assert c.layout.place(c.mod.enabled, c.modId, names[i]) == moved[i].target;
    }
    assert !LeavesFrom(moved, m.source) && !ArrivesAt(moved, m.source);
    assert Same(staged, After(staged, moved), m.source);
    Extend(staged, moved, m);
    StillApart(moved, m);
    StillSetsAside(c, names, moved, name);
  }

  lemma StillSetsAside(c: Change, names: seq<string>, moved: seq<Move>, name: string)
    requires SetsAside(c, names, moved) && c.Goes(name)
    ensures SetsAside(c, names + [name], moved + [Move(Previous(c.txn, c.layout.fold(name)), c.Target(name))])
  {
  }

  lemma StillApart(moved: seq<Move>, m: Move)
    requires Apart(moved) && m.source != m.target
    requires forall i :: 0 <= i < |moved| ==> moved[i].target != m.target && moved[i].source != m.source
    requires forall i :: 0 <= i < |moved| ==> moved[i].target != m.source && moved[i].source != m.target
    ensures Apart(moved + [m])
  {
  }

  /** Everything to promote, which is what `retained` lacks, is uploaded, and its place is vacant. */
  ghost predicate ReadyToPromote(c: Change, mid: Tree, retained: set<string>) {
    forall i: nat :: i < |c.pack| ==> PromotableAt(c, mid, retained, i)
  }

  ghost predicate PromotableAt(c: Change, mid: Tree, retained: set<string>, i: nat)
    requires i < |c.pack|
  {
    && c.layout.Coherent() && c.Acceptable()
    && (c.pack[i].path in retained <==> !c.Decide(c.pack[i]).Replace?)
    && UploadedAt(c, mid, i) && (c.Decide(c.pack[i]).Replace? ==> c.Target(c.pack[i].path) !in mid)
  }

  lemma RetainedExactly(c: Change, i: nat)
    requires c.Acceptable() && i < |c.pack|
    ensures c.pack[i].path in c.Retained(|c.pack|) <==> !c.Decide(c.pack[i]).Replace?
  {
  }

  /** Once the owned files are aside, every place to promote to is vacant. */
  lemma AsideMakesRoom(c: Change, staged: Tree, names: seq<string>, moved: seq<Move>)
    requires c.layout.Coherent() && c.Acceptable() && StagedUpTo(c, staged, |c.pack|)
    requires Legal(staged, moved) && SetsAside(c, names, moved) && Apart(moved)
    requires forall name :: c.Goes(name) ==> c.Target(name) !in After(staged, moved)
    ensures ReadyToPromote(c, After(staged, moved), c.Retained(|c.pack|))
  {
    var mid := After(staged, moved);
    ApartRelocates(staged, moved);
    forall i: nat | i < |c.pack| ensures c.pack[i].path in c.Retained(|c.pack|) <==> !c.Decide(c.pack[i]).Replace? {
      RetainedExactly(c, i);
    }
    forall i: nat | i < |c.pack| && c.Decide(c.pack[i]).Replace?
      ensures c.Target(c.pack[i].path) !in mid && UploadedAt(c, mid, i)
    {
      var path := c.pack[i].path;
      var s := c.Target(path);
      assert !ArrivesAt(moved, s);
      if s !in c.before {
        assert Same(c.before, staged, s);
      } else {
        assert c.Goes(path);
      }
      assert UploadedAt(c, staged, i);
      var next := Next(c.txn, c.layout.fold(path));
      assert !ArrivesAt(moved, next) && !LeavesFrom(moved, next);
      assert Same(staged, mid, next);
    }
  }

  lemma PromotingStart(c: Change, mid: Tree, retained: set<string>)
    requires ReadyToPromote(c, mid, retained)
    ensures PromotedUpTo(c, mid, mid, [], 0)
  {
    forall i: nat | i < |c.pack| ensures UploadedAt(c, mid, i) {
      assert PromotableAt(c, mid, retained, i);
    }
  }

  lemma PromotingKept(c: Change, mid: Tree, tree: Tree, promoted: seq<Spot>, i: nat)
    requires i < |c.pack| && !c.Decide(c.pack[i]).Replace? && PromotedUpTo(c, mid, tree, promoted, i)
    ensures PromotedUpTo(c, mid, tree, promoted, i + 1)
  {
    forall j: nat | j < i + 1 ensures c.ContentAt(tree, j) {
      assert j < i ==> c.ContentAt(tree, j);
    }
  }

  lemma PromotingNext(c: Change, mid: Tree, tree: Tree, promoted: seq<Spot>, i: nat)
    requires c.layout.Coherent() && c.Acceptable() && i < |c.pack| && c.Target(c.pack[i].path) !in mid
    requires c.Decide(c.pack[i]).Replace? && PromotedUpTo(c, mid, tree, promoted, i)
    ensures
      var staged, target := Next(c.txn, c.layout.fold(c.pack[i].path)), c.Target(c.pack[i].path);
      && staged in tree && target !in tree
      && PromotedUpTo(c, mid, Renamed(tree, staged, target), promoted + [target], i + 1)
  {
    var staged, target := Next(c.txn, c.layout.fold(c.pack[i].path)), c.Target(c.pack[i].path);
    var after := Renamed(tree, staged, target);
    assert UploadedAt(c, tree, i);
    forall j | 0 <= j < i && c.Decide(c.pack[j]).Replace? ensures c.Target(c.pack[j].path) != target {
      assert c.layout.fold(c.pack[j].path) != c.layout.fold(c.pack[i].path);
    }
    assert target !in promoted;
    assert Leftover(c.txn, mid, tree, target);
    assert forall s :: s in promoted + [target] <==> s in promoted || s == target;
    forall j: nat | j < i + 1 ensures c.ContentAt(after, j) {
      assert j < i ==> c.ContentAt(tree, j);
    }
    StillUploaded(c, mid, tree, promoted, i);
    forall s | s !in promoted + [target] ensures Leftover(c.txn, mid, after, s) {
      assert Leftover(c.txn, mid, tree, s);
    }
  }

  /** Promoting one file leaves the later uploads where they are. */
  lemma StillUploaded(c: Change, mid: Tree, tree: Tree, promoted: seq<Spot>, i: nat)
    requires c.layout.Coherent() && c.Acceptable() && i < |c.pack| && PromotedUpTo(c, mid, tree, promoted, i)
    ensures var after := Renamed(tree, Next(c.txn, c.layout.fold(c.pack[i].path)), c.Target(c.pack[i].path));
            forall j: nat :: i + 1 <= j < |c.pack| ==> UploadedAt(c, after, j)
  {
    var after := Renamed(tree, Next(c.txn, c.layout.fold(c.pack[i].path)), c.Target(c.pack[i].path));
    forall j: nat | i + 1 <= j < |c.pack| ensures UploadedAt(c, after, j) {
      assert UploadedAt(c, tree, j) && c.layout.place(c.mod.enabled, c.modId, c.pack[i].path).Live?;
      assert c.layout.fold(c.pack[j].path) != c.layout.fold(c.pack[i].path);
    }
  }

  /** Staged, set aside and promoted: this is the tree the change was meant to leave. */
  lemma CompletedIsInstalled(
    c: Change, staged: Tree, names: seq<string>, moved: seq<Move>, tree: Tree, promoted: seq<Spot>)
    requires c.layout.Coherent() && c.Acceptable() && StagedUpTo(c, staged, |c.pack|)
    requires Legal(staged, moved) && SetsAside(c, names, moved) && Apart(moved)
    requires forall name :: c.Goes(name) ==> c.Target(name) !in After(staged, moved)
    requires PromotedUpTo(c, After(staged, moved), tree, promoted, |c.pack|)
    ensures c.Installed(tree)
    ensures forall after :: SameOutside(c.txn, tree, after) ==> c.Installed(after)
  {
    var mid := After(staged, moved);
    ApartRelocates(staged, moved);
    forall s | !Staged(s, c.txn) && s !in c.Promotions(|c.pack|)
      ensures if c.GoneFrom(s) then s !in tree else Same(c.before, tree, s)
    {
      assert Leftover(c.txn, mid, tree, s);
      if LeavesFrom(moved, s) {
        var i :| 0 <= i < |moved| && moved[i].target == s;
        assert c.Goes(names[i]) && c.Target(names[i]) == s;
      } else if !c.GoneFrom(s) {
        assert !ArrivesAt(moved, s);
        assert Same(c.before, staged, s) && Same(staged, mid, s);
      }
    }
    forall after | SameOutside(c.txn, tree, after) ensures c.Installed(after) {
      InstalledOutside(c, tree, after);
    }
  }

  lemma InstalledOutside(c: Change, tree: Tree, after: Tree)
    requires c.layout.Coherent() && c.Installed(tree) && SameOutside(c.txn, tree, after)
    ensures c.Installed(after)
  {
    forall i: nat | i < |c.pack| ensures c.ContentAt(after, i) {
      assert c.ContentAt(tree, i);
      assert Same(tree, after, c.layout.place(c.mod.enabled, c.modId, c.pack[i].path));
    }
    forall s | !Staged(s, c.txn) && s !in c.Promotions(|c.pack|)
      ensures if c.GoneFrom(s) then s !in after else Same(c.before, after, s)
    {
      assert Same(tree, after, s);
    }
  }

  // ----- rolling back

  lemma OverlayNone(txn: nat, tree: Tree)
    ensures Overlay(txn, tree, tree, [])
  {
  }

  /** `tree` is `mid` with `promoted` laid over vacant places and some uploads taken away. */
  ghost predicate Overlay(txn: nat, mid: Tree, tree: Tree, promoted: seq<Spot>) {
    && (forall s :: s in promoted ==> s !in mid && s.Live?)
    && (forall s :: s !in promoted ==> Leftover(txn, mid, tree, s))
  }

  /** Every file of the tree before is at its place, or its content is in the staging directory. */
  ghost predicate NothingLost(c: Change, tree: Tree) {
    forall s :: s in c.before ==> Findable(c, tree, s)
  }

  ghost predicate Findable(c: Change, tree: Tree, s: Spot)
    requires s in c.before
  {
    || (s in tree && tree[s] == c.before[s])
    || exists key :: Previous(c.txn, key) in tree && tree[Previous(c.txn, key)] == c.before[s]
  }

  lemma OnlyUploadsMissing(txn: nat, mid: Tree, found: Tree, lower: Tree, promoted: seq<Spot>, missing: set<Spot>)
    requires Overlay(txn, mid, found, promoted) && missing == set s | s in mid && s !in lower
    requires forall s :: s !in promoted ==> Same(found, lower, s)
    requires forall s :: s in promoted ==> s !in lower
    ensures lower == mid - missing
    ensures forall s :: s in missing ==> s.Next? && s.txn == txn
  {
    forall s ensures s in lower ==> s in mid && mid[s] == lower[s] {
      if s !in promoted { assert Leftover(txn, mid, found, s) && Same(found, lower, s); }
    }
    forall s | s in missing ensures s.Next? && s.txn == txn {
      assert Leftover(txn, mid, found, s) && Same(found, lower, s);
    }
  }

  lemma AvoidsUploads(c: Change, names: seq<string>, moved: seq<Move>, missing: set<Spot>)
    requires c.layout.Coherent() && SetsAside(c, names, moved)
    requires forall s :: s in missing ==> s.Next? && s.txn == c.txn
    ensures Avoids(moved, missing)
  {
  }

  lemma CleanedCanBeUndone(
    c: Change, staged: Tree, names: seq<string>, moved: seq<Move>, found: Tree, lower: Tree, promoted: seq<Spot>)
    requires c.layout.Coherent()
    requires Legal(staged, moved) && SetsAside(c, names, moved)
    requires Overlay(c.txn, After(staged, moved), found, promoted)
    requires forall s :: s !in promoted ==> Same(found, lower, s)
    requires forall s :: s in promoted ==> s !in lower
    ensures CanUndo(lower, moved)
    ensures forall s :: !Staged(s, c.txn) ==> Same(staged, Undo(lower, moved), s)
  {
    var mid := After(staged, moved);
    var missing := set s | s in mid && s !in lower;
    OnlyUploadsMissing(c.txn, mid, found, lower, promoted, missing);
    AvoidsUploads(c, names, moved, missing);
    LegalCanBeUndone(staged, moved, missing);
    UndoElsewhere(mid, moved, missing);
    UndoAfter(staged, moved);
  }

  lemma NothingIsLost(
    c: Change, staged: Tree, names: seq<string>, moved: seq<Move>, promoted: seq<Spot>,
    found: Tree, lower: Tree, tree: Tree)
    requires c.layout.Coherent() && NothingStaged(c.txn, c.before) && StagedUpTo(c, staged, 0)
    requires Legal(staged, moved) && SetsAside(c, names, moved) && Apart(moved)
    requires Overlay(c.txn, After(staged, moved), found, promoted)
    requires forall s :: s !in promoted ==> Same(found, lower, s)
    requires forall s :: !LeavesFrom(moved, s) && !ArrivesAt(moved, s) ==> Same(lower, tree, s)
    requires forall i :: 0 <= i < |moved| && moved[i].source in lower ==> Kept(tree, moved[i], lower[moved[i].source])
    ensures NothingLost(c, tree)
  {
    var mid := After(staged, moved);
    ApartRelocates(staged, moved);
    forall s | s in c.before ensures Findable(c, tree, s) {
      assert Same(c.before, staged, s);
      if LeavesFrom(moved, s) {
        var i :| 0 <= i < |moved| && moved[i].target == s;
        var aside := moved[i].source;
        assert Leftover(c.txn, mid, found, aside) && Same(found, lower, aside);
        assert Kept(tree, moved[i], c.before[s]);
      } else {
        assert !ArrivesAt(moved, s);
        assert Same(staged, mid, s);
        assert Leftover(c.txn, mid, found, s) && Same(found, lower, s) && Same(lower, tree, s);
      }
    }
  }

  /** `Unread` is a change that was committed, but whose record could not be read back. */
  datatype Outcome = Done(modId: string) | Unread(modId: string) | Unchanged(modId: string) | Failed(restored: bool)

  // ----- enabling, disabling and removing

  datatype Operation = Enable | Disable | Remove

  /** One attempted operation on an installed mod with its recorded files. */
  datatype Mutation = Mutation(
    layout: Layout, txn: nat, before: Tree, modId: string, mod: Mod, records: seq<FileRecord>, op: Operation)
  {
    function Original(path: string): Spot { layout.place(mod.enabled, modId, path) }

    function Destination(path: string): Spot {
      match op
      case Enable => layout.place(true, modId, path)
      case Disable => layout.place(false, modId, path)
      case Remove => Previous(txn, layout.fold(path))
    }

    /** A missing file is passed over only by a removal; configuration always is. */
    function Moves(upTo: nat): seq<Move>
      requires upTo <= |records|
    {
      if upTo == 0 then [] else
      var earlier, path := Moves(upTo - 1), records[upTo - 1].path;
      if layout.config(path) || (op.Remove? && Original(path) !in After(before, earlier)) then earlier
      else earlier + [Move(Destination(path), Original(path))]
    }

    /** Every file is there and every destination vacant, at the moment it matters. */
    ghost predicate Possible() { Legal(before, Moves(|records|)) }
  }

  /** A file that is missing, or a destination that is taken, makes the operation impossible. */
  lemma Impossible(m: Mutation, i: nat)
    requires i < |m.records| && !m.layout.config(m.records[i].path)
    requires
      var original, destination := m.Original(m.records[i].path), m.Destination(m.records[i].path);
      || (original !in After(m.before, m.Moves(i)) && !m.op.Remove?)
      || (original in After(m.before, m.Moves(i)) && destination in After(m.before, m.Moves(i)))
    ensures !m.Possible()
  {
    var step := Move(m.Destination(m.records[i].path), m.Original(m.records[i].path));
    assert m.Moves(i + 1) == m.Moves(i) + [step];
    assert m.Moves(i + 1)[..|m.Moves(i)|] == m.Moves(i);
    if m.Possible() {
      MovesPrefix(m, i + 1);
    }
  }

  lemma {:induction false} MovesPrefix(m: Mutation, upTo: nat)
    requires upTo <= |m.records| && Legal(m.before, m.Moves(|m.records|))
    ensures Legal(m.before, m.Moves(upTo))
    decreases |m.records| - upTo
  {
    if upTo < |m.records| {
      MovesPrefix(m, upTo + 1);
      var earlier := m.Moves(upTo);
      if m.Moves(upTo + 1) != earlier {
        assert m.Moves(upTo + 1)[..|earlier|] == earlier;
      }
    }
  }

  /** The place is that of a recorded file which is not configuration. */
  ghost predicate RecordedAt(l: Layout, modId: string, enabled: bool, records: seq<FileRecord>, s: Spot) {
    exists i :: 0 <= i < |records| && !l.config(records[i].path) && l.place(enabled, modId, records[i].path) == s
  }

  /** What a removal leaves: none of the recorded files, and everything else as it was. */
  ghost predicate RemovedExactly(
    l: Layout, txn: nat, modId: string, enabled: bool, records: seq<FileRecord>, before: Tree, after: Tree)
  {
    forall s :: !Staged(s, txn) ==>
      if RecordedAt(l, modId, enabled, records, s) then s !in after else Same(before, after, s)
  }

  /** The same for the first `upTo` records, with the removed files in the staging directory. */
  ghost predicate RemovedUpTo(m: Mutation, upTo: nat, tree: Tree)
    requires upTo <= |m.records|
  {
    && RemovedExactly(m.layout, m.txn, m.modId, m.mod.enabled, m.records[..upTo], m.before, tree)
    && (forall path :: Previous(m.txn, m.layout.fold(path)) in tree ==> m.Original(path) !in tree)
  }

  lemma RemovesOne(m: Mutation, upTo: nat, tree: Tree, after: Tree)
    requires m.layout.Coherent() && upTo < |m.records| && !m.layout.config(m.records[upTo].path)
    requires RemovedUpTo(m, upTo, tree)
    requires var path := m.records[upTo].path;
      after == Renamed(tree, m.Original(path), Previous(m.txn, m.layout.fold(path)))
    ensures RemovedUpTo(m, upTo + 1, after)
  {
    var path := m.records[upTo].path;
    var original := m.Original(path);
    assert original == m.layout.place(m.mod.enabled, m.modId, path) && original.Live?;
    RecordedNext(m, upTo);
    forall s | !Staged(s, m.txn)
      ensures if RecordedAt(m.layout, m.modId, m.mod.enabled, m.records[..upTo + 1], s) then s !in after else Same(m.before, after, s)
    {
      assert s == original || Same(tree, after, s);
    }
    forall other | Previous(m.txn, m.layout.fold(other)) in after ensures m.Original(other) !in after {
      assert m.layout.place(m.mod.enabled, m.modId, other).Live?;
    }
  }

  lemma RecordedNext(m: Mutation, upTo: nat)
    requires upTo < |m.records|
    ensures forall s :: RecordedAt(m.layout, m.modId, m.mod.enabled, m.records[..upTo + 1], s) <==>
      || RecordedAt(m.layout, m.modId, m.mod.enabled, m.records[..upTo], s)
      || (!m.layout.config(m.records[upTo].path) && m.Original(m.records[upTo].path) == s)
  {
    var shorter, longer := m.records[..upTo], m.records[..upTo + 1];
    forall s ensures RecordedAt(m.layout, m.modId, m.mod.enabled, longer, s) <==>
      || RecordedAt(m.layout, m.modId, m.mod.enabled, shorter, s)
      || (!m.layout.config(m.records[upTo].path) && m.Original(m.records[upTo].path) == s)
    {
      assert longer[upTo] == m.records[upTo] && forall i :: 0 <= i < upTo ==> longer[i] == shorter[i];
    }
  }

  /** A removal is always possible, and takes away exactly the recorded files. */
  lemma {:induction false} RemovalUpTo(m: Mutation, upTo: nat)
    requires m.layout.Coherent() && m.op.Remove? && NothingStaged(m.txn, m.before) && upTo <= |m.records|
    ensures Legal(m.before, m.Moves(upTo)) && RemovedUpTo(m, upTo, After(m.before, m.Moves(upTo)))
  {
    if upTo > 0 {
      RemovalUpTo(m, upTo - 1);
      if m.layout.config(m.records[upTo - 1].path) {
        assert m.Moves(upTo) == m.Moves(upTo - 1);
        RemovesNone(m, upTo - 1, After(m.before, m.Moves(upTo)));
      } else {
        RemovalNext(m, upTo - 1);
      }
    }
  }

  lemma RemovesNone(m: Mutation, upTo: nat, tree: Tree)
    requires upTo < |m.records| && m.layout.config(m.records[upTo].path) && RemovedUpTo(m, upTo, tree)
    ensures RemovedUpTo(m, upTo + 1, tree)
  {
    RecordedNext(m, upTo);
  }

  lemma RemovalNext(m: Mutation, upTo: nat)
    requires m.layout.Coherent() && m.op.Remove? && upTo < |m.records| && !m.layout.config(m.records[upTo].path)
    requires Legal(m.before, m.Moves(upTo)) && RemovedUpTo(m, upTo, After(m.before, m.Moves(upTo)))
    ensures Legal(m.before, m.Moves(upTo + 1)) && RemovedUpTo(m, upTo + 1, After(m.before, m.Moves(upTo + 1)))
  {
    var path, earlier := m.records[upTo].path, m.Moves(upTo);
    var tree := After(m.before, earlier);
    var step := Move(Previous(m.txn, m.layout.fold(path)), m.Original(path));
    Extend(m.before, earlier, step);
    RemovesOne(m, upTo, tree, Renamed(tree, step.target, step.source));
    assert m.Moves(upTo + 1) == if step.target in tree then earlier + [step] else earlier;
  }

  lemma RemovalIsExact(m: Mutation, after: Tree)
    requires m.layout.Coherent() && m.op.Remove? && NothingStaged(m.txn, m.before)
    ensures m.Possible()
    ensures SameOutside(m.txn, After(m.before, m.Moves(|m.records|)), after) ==>
      RemovedExactly(m.layout, m.txn, m.modId, m.mod.enabled, m.records, m.before, after)
  {
    var n := |m.records|;
    RemovalUpTo(m, n);
    assert m.records[..n] == m.records;
    if SameOutside(m.txn, After(m.before, m.Moves(n)), after) {
      forall s | !Staged(s, m.txn)
        ensures if RecordedAt(m.layout, m.modId, m.mod.enabled, m.records, s) then s !in after else Same(m.before, after, s)
      {
        assert Same(After(m.before, m.Moves(n)), after, s);
      }
    }
  }

  class ModManager {
    const layout: Layout
    /** Whether the `n`-th remote or database call fails, and what a broken upload leaves. */
    const fails: nat -> bool
    const garbage: nat -> Content
    var calls: nat
    var tree: Tree
    var mods: map<string, Mod>
    var files: map<string, seq<FileRecord>>

    constructor (layout: Layout, fails: nat -> bool, garbage: nat -> Content)
      requires layout.Coherent()
      ensures this.layout == layout && this.fails == fails
      ensures Valid() && mods == map[] && files == map[] && tree == map[] && calls == 0
    {
      this.layout, this.fails, this.garbage := layout, fails, garbage;
      calls, tree, mods, files := 0, map[], map[], map[];
    }

    ghost predicate Valid()
      reads this
    {
      layout.Coherent() && files.Keys == mods.Keys
    }

    /** The calls from `start` on, before `end`, all succeed. */
    ghost predicate AllSucceed(start: nat, end: nat) { forall n :: start <= n < end ==> !fails(n) }

    /** How many of the first `n` calls fail. */
    ghost function Failures(n: nat): nat {
      if n == 0 then 0 else Failures(n - 1) + if fails(n - 1) then 1 else 0
    }

    lemma {:induction false} NoFailures(start: nat, end: nat)
      requires start <= end
      ensures Failures(start) <= Failures(end)
      ensures Failures(start) == Failures(end) <==> AllSucceed(start, end)
    {
      if start < end {
        NoFailures(start, end - 1);
      }
    }

    ghost predicate Since(start: nat)
      reads this
    {
      start <= calls && Failures(start) <= Failures(calls)
    }

    ghost predicate CallFailedSince(start: nat)
      reads this
    {
      start <= calls && Failures(start) < Failures(calls)
    }

    lemma SomeCallFailed(start: nat)
      requires start <= calls
      ensures CallFailedSince(start) <==> exists n :: start <= n < calls && fails(n)
    {
      NoFailures(start, calls);
    }

    /** What a step of `count` calls has come to: none of them failed, or it stopped at one that did. */
    ghost predicate Took(ok: bool, start: nat, count: nat, now: nat) {
      if ok then now == start + count && Failures(now) == Failures(start)
      else start < now <= start + count && Failures(now) > Failures(start)
    }

    // ----- remote calls

    method Call() returns (ok: bool)
      modifies this`calls
      ensures calls == old(calls) + 1
      ensures !ok <==> fails(old(calls))
      ensures Took(ok, old(calls), 1, calls)
    {
      ok := !fails(calls);
      calls := calls + 1;
    }

    /** `valheimFileExists`: makes the parent directory, then lists it. */
    method Exists(s: Spot) returns (answer: Option<bool>)
      modifies this`calls
      ensures Since(old(calls))
      ensures Took(answer.Some?, old(calls), 2, calls)
      ensures answer.Some? ==> answer.value == (s in tree)
      ensures answer.None? ==> CallFailedSince(old(calls))
    {
      var ok := Call();
      if ok {
        ok := Call();
      }
      return if ok then Some(s in tree) else None;
    }

    method Rename(from: Spot, to: Spot) returns (ok: bool)
      modifies this`calls, this`tree
      ensures calls == old(calls) + 1
      ensures from in old(tree) ==> Took(ok, old(calls), 1, calls)
      ensures ok ==> from in old(tree)
      ensures ok ==> tree == Renamed(old(tree), from, to)
      ensures !ok ==> tree == old(tree) && (from !in tree || CallFailedSince(old(calls)))
    {
      ok := Call();
      if ok && from in tree {
        tree := Renamed(tree, from, to);
      } else {
        ok := false;
      }
    }

    /** The only way a run moves a file: nothing is ever overwritten by it. */
    method RenameOntoVacant(from: Spot, to: Spot) returns (ok: bool)
      requires from in tree && to !in tree
      modifies this`calls, this`tree
      ensures Took(ok, old(calls), 1, calls)
      ensures tree == if ok then Renamed(old(tree), from, to) else old(tree)
      ensures !ok ==> CallFailedSince(old(calls))
    {
      ok := Rename(from, to);
    }

    method Delete(s: Spot) returns (ok: bool)
      modifies this`calls, this`tree
      ensures Since(old(calls))
      ensures tree == if ok then old(tree) - {s} else old(tree)
      ensures !ok ==> CallFailedSince(old(calls))
    {
      ok := Call();
      if ok {
        tree := tree - {s};
      }
    }

    /** An upload; a broken one may leave anything at its place. */
    method Write(s: Spot, content: Content) returns (ok: bool)
      modifies this`calls, this`tree
      ensures Took(ok, old(calls), 1, calls)
      ensures ok ==> tree == old(tree)[s := content]
      ensures !ok ==> CallFailedSince(old(calls)) && s in tree && tree == old(tree)[s := tree[s]]
    {
      ok := Call();
      tree := tree[s := if ok then content else garbage(calls)];
    }

    /** Best effort: a failure is only logged. */
    method DeleteStaging(txn: nat)
      modifies this`calls, this`tree
      ensures Since(old(calls))
      ensures SameOutside(txn, old(tree), tree)
    {
      var ok := Call();
      if ok {
        tree := map s | s in tree && !Staged(s, txn) :: tree[s];
      }
    }

    // ----- putting everything back

    /** `cleanupRemotePromotedFiles`: last one first, going on after a failure. */
    method Cleanup(promoted: seq<Spot>) returns (ok: bool)
      modifies this`calls, this`tree
      ensures Since(old(calls))
      ensures forall s :: s !in promoted ==> Same(old(tree), tree, s)
      ensures ok ==> forall s :: s in promoted ==> s !in tree
      ensures !ok ==> CallFailedSince(old(calls))
    {
      ok := true;
      var i := |promoted|;
      while i > 0
        invariant 0 <= i <= |promoted| && Since(old(calls))
        invariant forall s :: s !in promoted ==> Same(old(tree), tree, s)
        invariant ok ==> forall j :: i <= j < |promoted| ==> promoted[j] !in tree
        invariant !ok ==> CallFailedSince(old(calls))
      {
        i := i - 1;
        var done := Delete(promoted[i]);
        ok := ok && done;
      }
    }

    /**
      `restoreRemoteMovedFiles`: last one first, going on after a failure. Even then the
      content of every file set aside is still at its place or where it was put.
     */
    method Restore(moved: seq<Move>) returns (ok: bool)
      modifies this`calls, this`tree
      ensures Since(old(calls))
      ensures ok ==> tree == Undo(old(tree), moved)
      ensures !ok && CanUndo(old(tree), moved) ==> CallFailedSince(old(calls))
      ensures forall s :: !LeavesFrom(moved, s) && !ArrivesAt(moved, s) ==> Same(old(tree), tree, s)
      ensures Apart(moved) ==> forall i :: 0 <= i < |moved| && moved[i].source in old(tree) ==>
        Kept(tree, moved[i], old(tree)[moved[i].source])
    {
      ok := true;
      var i := |moved|;
      assert moved[..i] == moved;
      while i > 0
        invariant 0 <= i <= |moved| && Since(old(calls))
        invariant ok ==> Undo(tree, moved[..i]) == Undo(old(tree), moved)
        invariant ok && CanUndo(old(tree), moved) ==> CanUndo(tree, moved[..i])
        invariant !ok && CanUndo(old(tree), moved) ==> CallFailedSince(old(calls))
        invariant PutBackFrom(old(tree), tree, moved, i)
      {
        PutBackOne(old(tree), tree, moved, i - 1);
        i := i - 1;
        assert moved[..i + 1][..i] == moved[..i];
        var done := Call();
        if done {
          done := Rename(moved[i].source, moved[i].target);
        }
        ok := ok && done;
      }
    }

    // ----- installing or updating a package

    /** Lines 196-257: check every file and upload the new ones beside the old. */
    method StageFiles(c: Change) returns (ok: bool, retained: set<string>, records: seq<FileRecord>)
      requires Ready(c) && tree == c.before
      modifies this`calls, this`tree
      ensures StagedUpTo(c, tree, 0)
      ensures ok ==>
        && c.Acceptable() && StagedUpTo(c, tree, |c.pack|)
        && retained == c.Retained(|c.pack|) && records == c.Records(|c.pack|)
      ensures Since(old(calls)) && (ok || c.Acceptable() ==> Took(ok, old(calls), c.StageCalls(|c.pack|), calls))
    {
      retained, records, ok := {}, [], true;
      var seen := {};
      for i := 0 to |c.pack|
        invariant StagedUpTo(c, tree, i) && Collected(c, i, retained, records, seen)
        invariant Took(true, old(calls), c.StageCalls(i), calls)
      {
        ok, retained, records, seen := Stage(c, i, retained, records, seen, old(calls));
        if !ok {
          StoppedWithin(c, old(calls), i, calls);
          return;
        }
      }
      ok := true;
    }

    /** A call failed, or the package is to blame. */
    ghost predicate StagingStopped(c: Change, start: nat, i: nat)
      requires i < |c.pack|
      reads this
    {
      Since(start) && (c.AcceptableUpTo(i + 1) ==> Took(false, start, c.StageCalls(i) + c.AdmitCalls(c.pack[i]), calls))
    }

    /** The same for one file. */
    method Stage(c: Change, i: nat, retained: set<string>, records: seq<FileRecord>, seen: set<string>, ghost start: nat)
      returns (ok: bool, newRetained: set<string>, newRecords: seq<FileRecord>, newSeen: set<string>)
      requires Ready(c) && i < |c.pack| && StagedUpTo(c, tree, i) && Collected(c, i, retained, records, seen)
      requires Took(true, start, c.StageCalls(i), calls)
      modifies this`calls, this`tree
      ensures StagedUpTo(c, tree, 0)
      ensures ok ==> StagedUpTo(c, tree, i + 1) && Collected(c, i + 1, newRetained, newRecords, newSeen)
      ensures if ok then Took(ok, start, c.StageCalls(i + 1), calls) else StagingStopped(c, start, i)
    {
      newRetained, newRecords, newSeen := retained, records, seen;
      var f := c.pack[i];
      if !layout.local(f.path) || layout.fold(f.path) in seen {
        assert !c.AcceptableUpTo(i + 1);
        return false, retained, records, seen;
      }
      ghost var before := tree;
      var kept;
      kept, ok := Admit(c, f);
      if ok {
        StagingOne(c, before, tree, i);
        newSeen, newRecords := seen + {layout.fold(f.path)}, records + c.Record(f);
        newRetained := if kept then retained + {f.path} else retained;
      }
    }

    /** Lines 204-256, for one file: keep what is there, or upload the new content. */
    method Admit(c: Change, f: PackFile) returns (kept: bool, ok: bool)
      requires Ready(c) && StagedUpTo(c, tree, 0)
      modifies this`calls, this`tree
      ensures Since(old(calls))
      ensures ok ==>
        && c.Decide(f) != Foreign && (kept <==> !c.Decide(f).Replace?)
        && tree == if kept then old(tree) else old(tree)[Next(c.txn, layout.fold(f.path)) := f.content]
      ensures !ok ==>
        && StagedUpTo(c, tree, 0)
        && (CallFailedSince(old(calls)) || c.Decide(f) == Foreign)
      ensures c.Decide(f) != Foreign ==> Took(ok, old(calls), c.AdmitCalls(f), calls)
    {
      var target := layout.place(c.mod.enabled, c.modId, f.path);
      assert Same(c.before, tree, target);
      var taken := Exists(target);
      if taken.None? {
        return false, false;
      }
      if taken.value && (layout.config(f.path) || layout.doorstop(f.path)) {
        return true, true;
      }
      if taken.value && f.path !in c.owned {
        if c.mod.sourceId != PackageNames.LOADER_ID {
          return false, false;
        }
        var read := Call();
        return true, read && tree[target] == f.content;
      }
      var readable := Call();
      if !readable {
        return false, false;
      }
      var made := Call();
      if !made {
        return false, false;
      }
      ghost var before := tree;
      ok := Write(Next(c.txn, layout.fold(f.path)), f.content);
      if !ok {
        StagingAny(c, before, layout.fold(f.path), tree[Next(c.txn, layout.fold(f.path))]);
      }
      kept := false;
    }

    ghost predicate Ready(c: Change)
      reads this
    {
      Valid() && c.layout == layout && NothingStaged(c.txn, c.before)
    }

    /** Lines 262-284: set the owned files that go aside, in any order. */
    method MoveAside(c: Change, retained: set<string>) returns (ok: bool, moved: seq<Move>, ghost names: seq<string>)
      requires Ready(c) && StagedUpTo(c, tree, |c.pack|) && retained == c.Retained(|c.pack|)
      modifies this`calls, this`tree
      ensures Since(old(calls))
      ensures Legal(old(tree), moved) && tree == After(old(tree), moved) && SetsAside(c, names, moved) && Apart(moved)
      ensures ok ==> forall name :: c.Goes(name) ==> c.Target(name) !in tree
      ensures !ok ==> CallFailedSince(old(calls))
      ensures Took(ok, old(calls), c.ClearCalls(old(tree), c.owned.Keys), calls)
    {
      moved, names := [], [];
      var remaining := c.owned.Keys;
      while remaining != {}
        invariant Since(old(calls))
        invariant Aside(c, old(tree), names, moved, tree) && Cleared(c, tree, remaining)
        invariant calls + c.ClearCalls(tree, remaining) == old(calls) + c.ClearCalls(old(tree), c.owned.Keys)
        invariant remaining <= c.owned.Keys && Failures(calls) == Failures(old(calls))
        decreases remaining
      {
        var name :| name in remaining;
        ok, moved, names := ClearOne(c, retained, old(tree), names, moved, remaining, name);
        if !ok {
          return;
        }
        remaining := remaining - {name};
      }
      ok := true;
    }

    /** Lines 263-283: what happens to one owned file. */
    method ClearOne(
      c: Change, retained: set<string>, ghost staged: Tree, ghost names: seq<string>, moved: seq<Move>,
      ghost remaining: set<string>, name: string)
      returns (ok: bool, newMoved: seq<Move>, ghost newNames: seq<string>)
      requires Ready(c) && StagedUpTo(c, staged, |c.pack|) && retained == c.Retained(|c.pack|)
      requires name in c.owned && name in remaining
      requires Aside(c, staged, names, moved, tree) && Cleared(c, tree, remaining)
      modifies this`calls, this`tree
      ensures Since(old(calls))
      ensures Aside(c, staged, newNames, newMoved, tree)
      ensures ok ==> Cleared(c, tree, remaining - {name})
      ensures !ok ==> CallFailedSince(old(calls))
      ensures Took(ok, old(calls), c.ClearOneCalls(old(tree), name), calls)
      ensures ok ==>
        c.ClearCalls(old(tree), remaining) == c.ClearCalls(tree, remaining - {name}) + c.ClearOneCalls(old(tree), name)
      ensures c.ClearOneCalls(old(tree), name) <= c.ClearCalls(old(tree), remaining)
    {
      newMoved, newNames := moved, names;
      ClearedOne(c, tree, AfterClearing(c, tree, name), remaining, name);
      if layout.config(name) || name in retained {
        return true, newMoved, newNames;
      }
      var present := Exists(c.Target(name));
      if present.None? {
        return false, newMoved, newNames;
      }
      if !present.value {
        return true, newMoved, newNames;
      }
      ok, newMoved, newNames := SetAside(c, staged, names, moved, name);
    }

    /** Lines 274-283: one file goes to its place in the backup. */
    method SetAside(c: Change, ghost staged: Tree, ghost names: seq<string>, moved: seq<Move>, name: string)
      returns (ok: bool, newMoved: seq<Move>, ghost newNames: seq<string>)
      requires Ready(c) && StagedUpTo(c, staged, |c.pack|) && c.Goes(name) && c.Target(name) in tree
      requires Aside(c, staged, names, moved, tree)
      modifies this`calls, this`tree
      ensures Since(old(calls))
      ensures Aside(c, staged, newNames, newMoved, tree)
      ensures ok ==> tree == Renamed(old(tree), c.Target(name), Previous(c.txn, c.layout.fold(name)))
      ensures !ok ==> tree == old(tree) && CallFailedSince(old(calls))
      ensures Took(ok, old(calls), 2, calls)
    {
      var original, backup := c.Target(name), Previous(c.txn, layout.fold(name));
      newMoved, newNames := moved, names;
      ok := Call();
      if ok {
        AsideNext(c, staged, names, moved, name);
        ok := RenameOntoVacant(original, backup);
        if ok {
          newMoved, newNames := moved + [Move(backup, original)], names + [name];
        }
      }
    }

    /** Lines 285-296: promote what was uploaded. Every target has become vacant. */
    method PromoteAll(c: Change, retained: set<string>) returns (ok: bool, promoted: seq<Spot>, ghost upTo: nat)
      requires c.layout == layout && ReadyToPromote(c, tree, retained)
      modifies this`calls, this`tree
      ensures if ok then upTo == |c.pack| && Promoting(c, old(tree), old(calls), promoted, upTo, tree, calls)
              else PromotingStopped(c, old(tree), old(calls), promoted, upTo, tree, calls)
    {
      promoted, upTo := [], 0;
      PromotingStart(c, tree, retained);
      for i := 0 to |c.pack|
        invariant upTo == i && Promoting(c, old(tree), old(calls), promoted, i, tree, calls)
      {
        ok, promoted := PromoteOne(c, retained, old(tree), promoted, i, old(calls));
        if !ok {
          return;
        }
        upTo := i + 1;
      }
      ok := true;
    }

    /** The first `upTo` files are promoted, without a failing call. */
    ghost predicate Promoting(c: Change, mid: Tree, start: nat, promoted: seq<Spot>, upTo: nat, tree: Tree, calls: nat)
      requires upTo <= |c.pack|
    {
      PromotedUpTo(c, mid, tree, promoted, upTo) && Took(true, start, c.PromoteCalls(upTo), calls)
    }

    /** The same, but the next one could not be promoted. */
    ghost predicate PromotingStopped(
      c: Change, mid: Tree, start: nat, promoted: seq<Spot>, upTo: nat, tree: Tree, calls: nat)
    {
      && upTo < |c.pack| && PromotedUpTo(c, mid, tree, promoted, upTo)
      && Took(false, start, c.PromoteCalls(upTo) + c.PromoteOneCalls(upTo), calls)
    }

    lemma StoppedWithin(c: Change, start: nat, i: nat, calls: nat)
      requires i < |c.pack|
      ensures Took(false, start, c.StageCalls(i) + c.AdmitCalls(c.pack[i]), calls) ==> Took(false, start, c.StageCalls(|c.pack|), calls)
      ensures Took(false, start, c.PromoteCalls(i) + c.PromoteOneCalls(i), calls) ==> Took(false, start, c.PromoteCalls(|c.pack|), calls)
    {
      CallsGrow(c, i + 1);
    }

    /** Lines 286-295: promote one file, unless it is retained. */
    method PromoteOne(c: Change, retained: set<string>, ghost mid: Tree, promoted: seq<Spot>, i: nat, ghost start: nat)
      returns (ok: bool, newPromoted: seq<Spot>)
      requires c.layout == layout && i < |c.pack| && ReadyToPromote(c, mid, retained)
      requires Promoting(c, mid, start, promoted, i, tree, calls)
      modifies this`calls, this`tree
      ensures if ok then Promoting(c, mid, start, newPromoted, i + 1, tree, calls) else PromotingStopped(c, mid, start, newPromoted, i, tree, calls)
    {
      newPromoted := promoted;
      assert PromotableAt(c, mid, retained, i);
      if c.pack[i].path in retained {
        PromotingKept(c, mid, tree, promoted, i);
        return true, newPromoted;
      }
      PromotingNext(c, mid, tree, promoted, i);
      var staged := Next(c.txn, layout.fold(c.pack[i].path));
      var target := c.Target(c.pack[i].path);
      ok := RenameOntoVacant(staged, target);
      if ok {
        newPromoted := promoted + [target];
      }
    }

    /** Lines 297-341: one database transaction for the mod and its new file rows. */
    method Commit(modId: string, mod: Mod, records: seq<FileRecord>) returns (ok: bool)
      requires Valid()
      modifies this`calls, this`mods, this`files
      ensures Valid() && Since(old(calls))
      ensures ok ==> mods == old(mods)[modId := mod] && files == old(files)[modId := records]
      ensures !ok ==> mods == old(mods) && files == old(files) && CallFailedSince(old(calls))
      ensures Took(ok, old(calls), CommitCalls(modId in old(mods), |records|), calls)
    {
      ok := Call();
      if !ok { return; }
      ok := Call();
      if !ok { return; }
      if modId in mods {
        ok := Call();
        if !ok { return; }
      }
      for i := 0 to |records|
        invariant calls == old(calls) + CommitCalls(modId in mods, i) - 1 && Failures(calls) == Failures(old(calls))
        invariant mods == old(mods) && files == old(files)
      {
        ok := Call();
        if !ok { return; }
      }
      ok := Call();
      if ok {
        mods, files := mods[modId := mod], files[modId := records];
      }
    }

    /** Lines 184-195: the deferred rollback, which keeps the staging directory if it fails. */
    method RollBack(c: Change, moved: seq<Move>, promoted: seq<Spot>, ghost names: seq<string>, ghost staged: Tree)
      returns (restored: bool)
      requires Ready(c) && CanRollBack(c, staged, names, moved, tree, promoted)
      modifies this`calls, this`tree
      ensures Since(old(calls))
      ensures restored ==> SameOutside(c.txn, c.before, tree)
      ensures !restored ==> CallFailedSince(old(calls)) && NothingLost(c, tree)
    {
      ghost var found := tree;
      var cleaned := Cleanup(promoted);
      ghost var lower := tree;
      var undone := Restore(moved);
      if cleaned {
        CleanedCanBeUndone(c, staged, names, moved, found, lower, promoted);
      }
      if cleaned && undone {
        DeleteStaging(c.txn);
        forall s | !Staged(s, c.txn) ensures Same(c.before, tree, s) {
          assert Same(c.before, staged, s);
        }
        return true;
      }
      NothingIsLost(c, staged, names, moved, promoted, found, lower, tree);
      return false;
    }

    /** What a rollback needs to know about how far the change got. */
    ghost predicate CanRollBack(c: Change, staged: Tree, names: seq<string>, moved: seq<Move>, tree: Tree, promoted: seq<Spot>) {
      && StagedUpTo(c, staged, 0)
      && Legal(staged, moved) && SetsAside(c, names, moved) && Apart(moved)
      && Overlay(c.txn, After(staged, moved), tree, promoted)
    }

    /** The change is in place, also once its staging directory is gone. */
    ghost predicate StaysInstalled(c: Change, tree: Tree) { forall after :: SameOutside(c.txn, tree, after) ==> c.Installed(after) }

    /** Lines 262-296: the old files go aside and the new ones come in. */
    method Swap(c: Change, retained: set<string>) returns (ok: bool, moved: seq<Move>, promoted: seq<Spot>, ghost names: seq<string>)
      requires Ready(c) && c.Acceptable() && StagedUpTo(c, tree, |c.pack|) && retained == c.Retained(|c.pack|)
      modifies this`calls, this`tree
      ensures CanRollBack(c, old(tree), names, moved, tree, promoted)
      ensures ok ==> StaysInstalled(c, tree)
      ensures Took(ok, old(calls), c.ClearCalls(c.before, c.owned.Keys) + c.PromoteCalls(|c.pack|), calls)
    {
      promoted := [];
      ghost var staged := tree;
      StagedAlike(c, staged);
      ok, moved, names := MoveAside(c, retained);
      OverlayNone(c.txn, tree);
      if ok {
        AsideMakesRoom(c, staged, names, moved);
        ghost var upTo;
        ghost var start := calls;
        ok, promoted, upTo := PromoteAll(c, retained);
        if ok {
          CompletedIsInstalled(c, staged, names, moved, tree, promoted);
        } else {
          StoppedWithin(c, start, upTo, calls);
        }
      }
    }

    /** Lines 196-341: everything up to the commit. */
    method Attempt(c: Change)
      returns (ok: bool, moved: seq<Move>, promoted: seq<Spot>, ghost names: seq<string>, ghost staged: Tree)
      requires Ready(c) && tree == c.before
      modifies this`calls, this`tree, this`mods, this`files
      ensures Valid() && Since(old(calls))
      ensures ok ==>
        && c.Acceptable() && StaysInstalled(c, tree)
        && mods == old(mods)[c.modId := c.mod] && files == old(files)[c.modId := c.Records(|c.pack|)]
      ensures !ok ==> mods == old(mods) && files == old(files) && CanRollBack(c, staged, names, moved, tree, promoted)
      ensures !ok ==> CallFailedSince(old(calls)) || !c.Acceptable()
      ensures AsCounted(c, ok, old(calls), c.modId in old(mods), calls)
    {
      var retained, records;
      moved, promoted, names := [], [], [];
      ok, retained, records := StageFiles(c);
      staged := tree;
      OverlayNone(c.txn, tree);
      if ok {
        ok := Call();
      }
      if ok {
        ok, moved, promoted, names := Swap(c, retained);
      }
      if ok {
        ok := Commit(c.modId, c.mod, records);
      }
    }

    /**
      Lines 184-346: staging, the commit and reading back. Unless it commits, nothing but
      the staging directory has changed, or the caller is told that recovery failed. It
      commits exactly if the package is acceptable and no call before the reading fails.
     */
    method Apply(c: Change) returns (outcome: Outcome)
      requires Ready(c) && tree == c.before
      modifies this`calls, this`tree, this`mods, this`files
      ensures Valid() && Since(old(calls)) && !outcome.Unchanged?
      ensures CameTo(c, outcome, old(mods), old(files))
      ensures outcome.Failed? ==> CallFailedSince(old(calls)) || !c.Acceptable()
      ensures outcome.Unread? || outcome == Failed(false) ==> CallFailedSince(old(calls))
      ensures Decided(c, outcome, true, old(calls), c.modId in old(mods), 0)
    {
      var ok, moved, promoted;
      ghost var names, staged;
      ok, moved, promoted, names, staged := Attempt(c);
      ghost var reached := calls;
      if ok {
        var readBack := Call();
        DeleteStaging(c.txn);
        outcome := if readBack then Done(c.modId) else Unread(c.modId);
      } else {
        var restored := RollBack(c, moved, promoted, names, staged);
        outcome := Failed(restored);
      }
      AttemptDecides(c, outcome, ok, old(calls), c.modId in old(mods), reached);
    }

    /** An acceptable change takes as many calls as counted, or stops at one that fails. */
    ghost predicate AsCounted(c: Change, ok: bool, start: nat, update: bool, now: nat) {
      forall count: nat :: AsCountedAt(c, ok, start, update, now, count)
    }

    ghost predicate AsCountedAt(c: Change, ok: bool, start: nat, update: bool, now: nat, count: nat) {
      count == c.Calls(update) && (ok || c.Acceptable()) ==> Took(ok, start, count, now)
    }

    /**
      The change is made exactly if it is acceptable and no call up to the commit fails; it
      is then reported as made exactly if the next call, which reads the new record, does
      not fail either. There are `earlier` calls before the files are looked at.
     */
    ghost predicate Decided(c: Change, outcome: Outcome, free: bool, start: nat, update: bool, earlier: nat) {
      forall reading: nat :: DecidedAt(c, outcome, free, start, update, earlier, reading)
    }

    ghost predicate DecidedAt(
      c: Change, outcome: Outcome, free: bool, start: nat, update: bool, earlier: nat, reading: nat)
    {
      reading == start + earlier + c.Calls(update) ==>
        && (outcome.Done? <==> free && c.Acceptable() && AllSucceed(start, reading) && !fails(reading))
        && (outcome.Unread? <==> free && c.Acceptable() && AllSucceed(start, reading) && fails(reading))
    }

    lemma AttemptDecides(c: Change, outcome: Outcome, ok: bool, start: nat, update: bool, reached: nat)
      requires AsCounted(c, ok, start, update, reached) && (ok ==> c.Acceptable())
      requires if ok then outcome == if fails(reached) then Unread(c.modId) else Done(c.modId) else outcome.Failed?
      ensures Decided(c, outcome, true, start, update, 0)
    {
      var reading := start + c.Calls(update);
      assert AsCountedAt(c, ok, start, update, reached, c.Calls(update));
      NoFailures(start, reading);
      if !ok && c.Acceptable() {
        NoFailures(reached, reading);
      }
    }

    /** What is decided from the first file on is decided from the beginning. */
    lemma DecidedEarlier(c: Change, outcome: Outcome, start: nat, mid: nat, update: bool, earlier: nat)
      requires Decided(c, outcome, true, mid, update, 0) && Took(true, start, earlier, mid)
      ensures Decided(c, outcome, true, start, update, earlier)
    {
      var reading := mid + c.Calls(update);
      assert DecidedAt(c, outcome, true, mid, update, 0, reading);
      NoFailures(start, mid);
    }

    lemma DecidedAtOnce(c: Change, outcome: Outcome, free: bool, start: nat, now: nat, update: bool, earlier: nat)
      requires !outcome.Done? && !outcome.Unread? && (free ==> Took(false, start, earlier, now))
      ensures Decided(c, outcome, free, start, update, earlier)
    {
      if free {
        NoFailures(start, now);
      }
    }

    /** What each outcome of a change means, for records as they were before. */
    ghost predicate CameTo(
      c: Change, outcome: Outcome, mods0: map<string, Mod>, files0: map<string, seq<FileRecord>>)
      reads this
    {
      match outcome
      case Done(id) => Made(c, id, mods0, files0)
      case Unread(id) => Made(c, id, mods0, files0)
      case Unchanged(_) => tree == c.before && mods == mods0 && files == files0
      case Failed(restored) =>
        && mods == mods0 && files == files0
        && if restored then SameOutside(c.txn, c.before, tree) else NothingLost(c, tree)
    }

    /** The change is made: the tree holds the package, and the records say so. */
    ghost predicate Made(c: Change, id: string, mods0: map<string, Mod>, files0: map<string, seq<FileRecord>>)
      reads this
    {
      && id == c.modId && c.Acceptable() && c.Installed(tree)
      && mods == mods0[id := c.mod] && files == files0[id := c.Records(|c.pack|)]
    }

    /** The change that a request stands for in the present state. */
    function Requested(txn: nat, sourceId: string, version: string, old_: Option<string>, newId: string, pack: seq<PackFile>): Change
      requires old_.Some? ==> old_.value in mods && old_.value in files
      reads this
    {
      match old_
      case Some(id) => Change(layout, txn, tree, id, mods[id].(version := version), Owned(files[id]), pack)
      case None => Change(layout, txn, tree, newId, Mod(sourceId, version, true), map[], pack)
    }

    /**
      `changeValheimPackage`. `newId` and `txn` stand for generated identifiers, and
      `pack` for the downloaded archive. Whatever fails before the commit, the records
      stay and every place outside the staging directory gets its content back, unless
      putting it back fails as well; then no content is lost. The last call but the clean-up
      reads the new record: if it alone fails, the change is made all the same and the
      caller gets an error.
     */
    method ChangePackage(
      txn: nat, sourceId: string, version: string, old_: Option<string>, newId: string, pack: seq<PackFile>)
      returns (outcome: Outcome)
      requires Valid() && NothingStaged(txn, tree) && newId !in mods
      requires old_.Some? ==> old_.value in mods && mods[old_.value].sourceId == sourceId
      modifies this`calls, this`tree, this`mods, this`files
      ensures Valid() && Since(old(calls))
      ensures CameTo(old(Requested(txn, sourceId, version, old_, newId, pack)), outcome, old(mods), old(files))
      ensures outcome.Done? || outcome.Unread? ==> old_.Some? || NotInstalled(old(mods), sourceId)
      ensures outcome.Unchanged? ==>
        old_.None? && outcome.modId in mods && mods[outcome.modId].sourceId == sourceId && mods[outcome.modId].version == version
      ensures outcome.Unread? || outcome == Failed(false) ==> CallFailedSince(old(calls))
      ensures outcome.Failed? ==>
        || CallFailedSince(old(calls))
        || !old(Requested(txn, sourceId, version, old_, newId, pack)).Acceptable()
        || (old_.None? && AnotherVersion(mods, sourceId, version))
      ensures Decided(old(Requested(txn, sourceId, version, old_, newId, pack)), outcome,
                      old_.Some? || NotInstalled(old(mods), sourceId), old(calls), old_.Some?, 6)
    {
      var c := Requested(txn, sourceId, version, old_, newId, pack);
      var refusal := Open(sourceId, version, old_);
      ghost var reached := calls;
      if refusal.Some? {
        DecidedAtOnce(c, refusal.value, old_.Some? || NotInstalled(mods, sourceId), old(calls), reached, old_.Some?, 6);
        return refusal.value;
      }
      outcome := Apply(c);
      DecidedEarlier(c, outcome, old(calls), reached, old_.Some?, 6);
    }

    /** Lines 128-179: everything before the first remote file is looked at. */
    method Open(sourceId: string, version: string, old_: Option<string>) returns (refusal: Option<Outcome>)
      requires Valid()
      modifies this`calls
      ensures Since(old(calls))
      ensures refusal.None? ==> Took(true, old(calls), 6, calls) && (old_.None? ==> NotInstalled(mods, sourceId))
      ensures refusal.Some? ==>
        match refusal.value
        case Unchanged(id) => old_.None? && id in mods && mods[id].sourceId == sourceId && mods[id].version == version
        case Failed(restored) => restored &&
          (Took(false, old(calls), 6, calls) || (old_.None? && AnotherVersion(mods, sourceId, version)))
        case _ => false
    {
      var ok := Call();
      if !ok {
        return Some(Failed(true));
      }
      if old_.None? && exists id :: id in mods && mods[id].sourceId == sourceId {
        var id :| id in mods && mods[id].sourceId == sourceId;
        return Some(if mods[id].version == version then Unchanged(id) else Failed(true));
      }
      ok := Prepare();
      return if ok then None else Some(Failed(true));
    }

    /** Lines 149-179: client, download directory, archive, details and file rows. */
    method Prepare() returns (ok: bool)
      modifies this`calls
      ensures Took(ok, old(calls), 5, calls)
    {
      var done := 0;
      ok := true;
      while ok && done < 5
        invariant 0 <= done <= 5 && Took(ok, old(calls), done, calls)
        decreases 5 - done, ok
      {
        ok := Call();
        done := done + 1;
      }
    }

    // ----- enabling, disabling, removing

    function Asked(txn: nat, modId: string, op: Operation): Mutation
      requires modId in mods && modId in files
      reads this
    {
      Mutation(layout, txn, tree, modId, mods[modId], files[modId], op)
    }

    predicate LoaderInUse(modId: string)
      requires modId in mods
      reads this
    {
      mods[modId].sourceId == PackageNames.LOADER_ID && exists other :: other in mods && other != modId
    }

    /** The mod is the loader, and it is not the only one. */
    ghost predicate OthersNeed(mods: map<string, Mod>, modId: string)
      requires modId in mods
    {
      mods[modId].sourceId == "denikson-BepInExPack_Valheim" && mods.Keys != {modId}
    }

    /**
      `mutateValheimMod`. Success moves exactly the recorded files that are not
      configuration; a failure that could be undone leaves every place as it was.
     */
    method Mutate(txn: nat, modId: string, op: Operation) returns (outcome: Outcome)
      requires Valid() && NothingStaged(txn, tree) && modId in mods
      modifies this`calls, this`tree, this`mods, this`files
      ensures Valid() && Since(old(calls))
      ensures
        var m := old(Asked(txn, modId, op));
        match outcome
        case Done(id) =>
          && id == modId && m.Possible()
          && (op.Enable? ==> !m.mod.enabled) && (op.Disable? ==> m.mod.enabled)
          && (op.Remove? ==> !old(LoaderInUse(modId)) && SameOutside(txn, After(old(tree), m.Moves(|m.records|)), tree))
          && (!op.Remove? ==> tree == After(old(tree), m.Moves(|m.records|)))
          && (op.Disable? ==> !old(LoaderInUse(modId)))
          && (op.Remove? ==> mods == old(mods) - {modId} && files == old(files) - {modId})
          && (!op.Remove? ==> mods == old(mods)[modId := m.mod.(enabled := op.Enable?)] && files == old(files))
        case Unread(_) => false
        case Unchanged(id) =>
          && tree == old(tree) && mods == old(mods) && files == old(files)
          && ((op.Enable? && m.mod.enabled) || (op.Disable? && !m.mod.enabled))
        case Failed(restored) =>
          && mods == old(mods) && files == old(files)
          && (restored ==> if op.Remove? then SameOutside(txn, old(tree), tree) else tree == old(tree))
          && (!restored ==> CallFailedSince(old(calls)))
          && (CallFailedSince(old(calls)) || !m.Possible() || (!op.Enable? && old(LoaderInUse(modId))))
      ensures outcome.Done? && op.Remove? ==>
        RemovedExactly(layout, txn, modId, old(mods)[modId].enabled, old(files)[modId], old(tree), tree)
      ensures outcome.Failed? ==>
        || CallFailedSince(old(calls)) || (!op.Enable? && OthersNeed(old(mods), modId))
        || (!op.Remove? && !old(Asked(txn, modId, op)).Possible())
      ensures outcome.Done? && !op.Enable? ==> !OthersNeed(old(mods), modId)
    {
      var ok := Call();
      if !ok {
        return Failed(true);
      }
      if (op.Enable? && mods[modId].enabled) || (op.Disable? && !mods[modId].enabled) {
        return Unchanged(modId);
      }
      if !op.Enable? && LoaderInUse(modId) {
        return Failed(true);
      }
      var m := Asked(txn, modId, op);
      if op.Remove? {
        RemovalIsExact(m, m.before);
      }
      var moved;
      ok, moved := MoveFiles(m);
      if ok {
        ok := CommitMutation(modId, op);
      }
      if ok {
        if op.Remove? && |moved| > 0 {
          DeleteStaging(txn);
        }
        if op.Remove? {
          RemovalIsExact(m, tree);
        }
        return Done(modId);
      }
      var restored := MoveBack(m, moved);
      return Failed(restored);
    }

    /** Lines 453-465: the deferred rollback. */
    method MoveBack(m: Mutation, moved: seq<Move>) returns (restored: bool)
      requires Legal(m.before, moved) && tree == After(m.before, moved)
      modifies this`calls, this`tree
      ensures Since(old(calls))
      ensures restored ==> if m.op.Remove? then SameOutside(m.txn, m.before, tree) else tree == m.before
      ensures !restored ==> CallFailedSince(old(calls))
    {
      LegalCanBeUndone(m.before, moved, {});
      UndoAfter(m.before, moved);
      assert tree - {} == tree;
      restored := Restore(moved);
      if restored && m.op.Remove? && |moved| > 0 {
        DeleteStaging(m.txn);
      }
    }

    /** Lines 466-500. */
    method MoveFiles(m: Mutation) returns (ok: bool, moved: seq<Move>)
      requires tree == m.before && layout == m.layout
      modifies this`calls, this`tree
      ensures Since(old(calls))
      ensures Legal(m.before, moved) && tree == After(m.before, moved)
      ensures ok ==> moved == m.Moves(|m.records|)
      ensures !ok ==> CallFailedSince(old(calls)) || !m.Possible()
    {
      moved := [];
      for i := 0 to |m.records|
        invariant Since(old(calls))
        invariant moved == m.Moves(i) && Legal(m.before, moved) && tree == After(m.before, moved)
      {
        var path := m.records[i].path;
        if layout.config(path) {
          continue;
        }
        var original, destination := m.Original(path), m.Destination(path);
        Extend(m.before, moved, Move(destination, original));
        var present := Exists(original);
        if present.None? {
          return false, moved;
        }
        if !present.value && m.op.Remove? {
          continue;
        }
        if !present.value {
          Impossible(m, i);
          return false, moved;
        }
        var conflict := Exists(destination);
        if conflict.None? {
          return false, moved;
        }
        if conflict.value {
          Impossible(m, i);
          return false, moved;
        }
        ok := RenameOntoVacant(original, destination);
        if !ok {
          return;
        }
        moved := moved + [Move(destination, original)];
      }
      ok := true;
    }

    /** Lines 501-528. */
    method CommitMutation(modId: string, op: Operation) returns (ok: bool)
      requires Valid() && modId in mods
      modifies this`calls, this`mods, this`files
      ensures Valid() && Since(old(calls))
      ensures ok && op.Remove? ==> mods == old(mods) - {modId} && files == old(files) - {modId}
      ensures ok && !op.Remove? ==>
        mods == old(mods)[modId := old(mods)[modId].(enabled := op.Enable?)] && files == old(files)
      ensures !ok ==> mods == old(mods) && files == old(files) && CallFailedSince(old(calls))
    {
      ok := Call();
      if !ok { return; }
      ok := Call();
      if !ok { return; }
      ok := Call();
      if !ok { return; }
      if op.Remove? {
        mods, files := mods - {modId}, files - {modId};
      } else {
        mods := mods[modId := mods[modId].(enabled := op.Enable?)];
      }
    }
  }

  lemma OneFileCalls(c: Change)
    requires c.layout.Coherent() && c.before == map[] && c.owned == map[] && |c.pack| == 1 && c.layout.local(c.pack[0].path)
    ensures c.Acceptable() && c.Calls(false) == 11
    ensures c.Records(1) == [FileRecord(c.pack[0].path, c.pack[0].content)] && c.Decide(c.pack[0]).Replace?
  {
    assert c.StageCalls(0) == 0 && c.PromoteCalls(0) == 0 && c.Records(0) == [];
    assert c.Going({}) == {} && c.Waiting(map[], {}) == {};
  }

  /**
    Nothing but the reading after the commit fails: the caller gets an error, and the new
    mod is installed and recorded.
   */
  method InstalledInSpiteOfError(l: Layout, path: string, content: Content) returns (m: ModManager, outcome: Outcome)
    requires l.Coherent() && l.local(path)
    ensures fresh(m) && m.layout == l && (forall n :: m.fails(n) <==> n == 17)
    ensures outcome == Unread("mod")
    ensures m.mods == map["mod" := Mod("Some-Mod", "1.0.0", true)] && m.files == map["mod" := [FileRecord(path, content)]]
    ensures Live(l.fold(path)) in m.tree && m.tree[Live(l.fold(path))] == content
  {
    m := new ModManager(l, n => n == 17, _ => content);
    ghost var c := Change(l, 0, map[], "mod", Mod("Some-Mod", "1.0.0", true), map[], [PackFile(path, content)]);
    outcome := m.ChangePackage(0, "Some-Mod", "1.0.0", None, "mod", [PackFile(path, content)]);
    OneFileCalls(c);
    OnlyReadingFails(m, c, outcome);
    assert c.ContentAt(m.tree, 0) && m.layout.place(true, "mod", path) == Live(l.fold(path));
  }

  lemma OnlyReadingFails(m: ModManager, c: Change, outcome: Outcome)
    requires c.Calls(false) == 11 && c.Acceptable() && (forall n :: m.fails(n) <==> n == 17)
    requires m.Decided(c, outcome, true, 0, false, 6)
    ensures outcome.Unread?
  {
    assert m.DecidedAt(c, outcome, true, 0, false, 6, 17);
  }
}
