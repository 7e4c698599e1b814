/**
  Renaming files in a tree and putting them back. A move records where a file belongs
  (`target`) and where it has been put (`source`), as the rollback lists do.
 */
module FileMoves {
  import opened ModPaths

  /** File contents; a recorded digest is taken to determine the content. */
  type Content = string

  type Tree = map<Spot, Content>

  datatype Move = Move(source: Spot, target: Spot)

  ghost predicate Same(a: Tree, b: Tree, s: Spot) {
    (s in a <==> s in b) && (s in a ==> a[s] == b[s])
  }

  /** Renaming replaces whatever is at the destination; a missing file cannot be renamed. */
  function Renamed(t: Tree, from: Spot, to: Spot): Tree {
    if from in t then (t - {from})[to := t[from]] else t
  }

  /** The tree after carrying out `moves` in order. */
  function After(t: Tree, moves: seq<Move>): Tree {
    if moves == [] then t else
    var last := moves[|moves| - 1];
    Renamed(After(t, moves[..|moves| - 1]), last.target, last.source)
  }

  /** Every step found its file and a vacant destination. */
  ghost predicate Legal(t: Tree, moves: seq<Move>) {
    moves == [] ||
    var front, last := moves[..|moves| - 1], moves[|moves| - 1];
    && Legal(t, front)
    && last.target in After(t, front)
    && last.source !in After(t, front)
  }

  /** The tree after putting `moves` back, last one first. */
  function Undo(t: Tree, moves: seq<Move>): Tree
    decreases |moves|
  {
    if moves == [] then t else
    var last := moves[|moves| - 1];
    Undo(Renamed(t, last.source, last.target), moves[..|moves| - 1])
  }

  lemma {:induction false} UndoAfter(t: Tree, moves: seq<Move>)
    requires Legal(t, moves)
    ensures Undo(After(t, moves), moves) == t
  {
    if moves != [] {
      var front, last := moves[..|moves| - 1], moves[|moves| - 1];
      var before := After(t, front);
      assert Renamed(Renamed(before, last.target, last.source), last.source, last.target) == before;
      UndoAfter(t, front);
    }
  }

  /** Putting back never looks for a file that is not there. */
  ghost predicate CanUndo(t: Tree, moves: seq<Move>)
    decreases |moves|
  {
    moves == [] ||
    var last := moves[|moves| - 1];
    last.source in t && CanUndo(Renamed(t, last.source, last.target), moves[..|moves| - 1])
  }

  lemma Extend(t: Tree, moves: seq<Move>, m: Move)
    ensures After(t, moves + [m]) == Renamed(After(t, moves), m.target, m.source)
    ensures Legal(t, moves) && m.target in After(t, moves) && m.source !in After(t, moves) ==> Legal(t, moves + [m])
  {
    assert (moves + [m])[..|moves|] == moves;
  }

  ghost predicate Avoids(moves: seq<Move>, spots: set<Spot>) {
    forall i :: 0 <= i < |moves| ==> moves[i].source !in spots && moves[i].target !in spots
  }

  /** Putting files back does not depend on files elsewhere. */
  lemma {:induction false} UndoElsewhere(t: Tree, moves: seq<Move>, spots: set<Spot>)
    requires Avoids(moves, spots)
    ensures Undo(t - spots, moves) == Undo(t, moves) - spots
    decreases |moves|
  {
    if moves != [] {
      var front, last := moves[..|moves| - 1], moves[|moves| - 1];
      assert Renamed(t - spots, last.source, last.target) == Renamed(t, last.source, last.target) - spots;
      UndoElsewhere(Renamed(t, last.source, last.target), front, spots);
    }
  }

  lemma {:induction false} LegalCanBeUndone(t: Tree, moves: seq<Move>, spots: set<Spot>)
    requires Legal(t, moves) && Avoids(moves, spots)
    ensures CanUndo(After(t, moves) - spots, moves)
  {
    if moves != [] {
      var front, last := moves[..|moves| - 1], moves[|moves| - 1];
      var before := After(t, front);
      LegalCanBeUndone(t, front, spots);
      assert Renamed(After(t, moves) - spots, last.source, last.target) == before - spots;
    }
  }

  /** The content put aside by `m` is at one end of the move or at the other. */
  ghost predicate Kept(t: Tree, m: Move, content: Content) {
    (m.source in t && t[m.source] == content) || (m.target in t && t[m.target] == content)
  }

  // ----- moves that do not get in each other's way

  ghost predicate FromDistinct(moves: seq<Move>) {
    forall i, j :: 0 <= i < j < |moves| ==> moves[i].target != moves[j].target
  }

  ghost predicate ToDistinct(moves: seq<Move>) {
    forall i, j :: 0 <= i < j < |moves| ==> moves[i].source != moves[j].source
  }

  ghost predicate Apart(moves: seq<Move>) {
    && FromDistinct(moves) && ToDistinct(moves)
    && forall i, j :: 0 <= i < |moves| && 0 <= j < |moves| ==> moves[i].target != moves[j].source
  }

  ghost predicate LeavesFrom(moves: seq<Move>, s: Spot) {
    exists i :: 0 <= i < |moves| && moves[i].target == s
  }

  ghost predicate ArrivesAt(moves: seq<Move>, s: Spot) {
    exists i :: 0 <= i < |moves| && moves[i].source == s
  }

  /** What moves that are apart do, place by place. */
  ghost predicate Relocates(t: Tree, after: Tree, moves: seq<Move>) {
    && (forall i :: 0 <= i < |moves| ==>
        && moves[i].target in t && moves[i].target !in after
        && moves[i].source !in t && moves[i].source in after
        && after[moves[i].source] == t[moves[i].target])
    && (forall s :: !LeavesFrom(moves, s) && !ArrivesAt(moves, s) ==> Same(t, after, s))
  }

  lemma {:induction false} ApartRelocates(t: Tree, moves: seq<Move>)
    requires Legal(t, moves) && Apart(moves)
    ensures Relocates(t, After(t, moves), moves)
  {
    if moves != [] {
      var front, last := moves[..|moves| - 1], moves[|moves| - 1];
      ApartRelocates(t, front);
      var mid, after := After(t, front), After(t, moves);
      assert moves[|moves| - 1] == last;
      assert !LeavesFrom(front, last.target) && !ArrivesAt(front, last.target);
      assert !LeavesFrom(front, last.source) && !ArrivesAt(front, last.source);
      forall s | !LeavesFrom(moves, s) && !ArrivesAt(moves, s) ensures Same(t, after, s) {
        assert !LeavesFrom(front, s) && !ArrivesAt(front, s) by {
          assert forall i :: 0 <= i < |front| ==> front[i] == moves[i];
        }
        assert Same(t, mid, s);
      }
    }
  }

  ghost predicate KeptFrom(start: Tree, t: Tree, m: Move) {
    m.source in start ==> Kept(t, m, start[m.source])
  }

  /** The moves from `i` on have been put back or have been tried in vain. */
  ghost predicate PutBackFrom(start: Tree, t: Tree, moves: seq<Move>, i: nat) {
    && (forall s :: !LeavesFrom(moves, s) && !ArrivesAt(moves, s) ==> Same(start, t, s))
    && (Apart(moves) ==>
        && (forall j :: 0 <= j < i && j < |moves| ==> Same(start, t, moves[j].source))
        && (forall j :: i <= j < |moves| ==> KeptFrom(start, t, moves[j])))
  }

  lemma PutBackOne(start: Tree, t: Tree, moves: seq<Move>, i: nat)
    requires i < |moves| && PutBackFrom(start, t, moves, i + 1)
    ensures PutBackFrom(start, t, moves, i)
    ensures PutBackFrom(start, Renamed(t, moves[i].source, moves[i].target), moves, i)
  {
    var after := Renamed(t, moves[i].source, moves[i].target);
    forall s | !LeavesFrom(moves, s) && !ArrivesAt(moves, s) ensures Same(start, after, s) {
      assert Same(start, t, s);
    }
    if Apart(moves) {
      assert Same(start, t, moves[i].source);
      forall j | 0 <= j < i ensures Same(start, after, moves[j].source) {
        assert Same(start, t, moves[j].source);
      }
      forall j | i < j < |moves| ensures KeptFrom(start, after, moves[j]) {
        assert KeptFrom(start, t, moves[j]);
      }
    }
  }

  /** A file stays where it is while no move takes it from there. */
  lemma {:induction false} StaysOccupied(t: Tree, moves: seq<Move>, s: Spot)
    requires s in t && !LeavesFrom(moves, s)
    ensures s in After(t, moves)
  {
    if moves != [] {
      var front := moves[..|moves| - 1];
      assert moves[|moves| - 1].target != s;
      assert !LeavesFrom(front, s) by {
        assert forall i :: 0 <= i < |front| ==> front[i] == moves[i];
      }
      StaysOccupied(t, front, s);
    }
  }

  lemma {:induction false} LegalPrefix(t: Tree, moves: seq<Move>, k: nat)
    requires Legal(t, moves) && k < |moves|
    ensures Legal(t, moves[..k]) && moves[k].target in After(t, moves[..k]) && moves[k].source !in After(t, moves[..k])
  {
    if k < |moves| - 1 {
      LegalPrefix(t, moves[..|moves| - 1], k);
      assert moves[..|moves| - 1][..k] == moves[..k];
    }
  }

  function Back(m: Move): Move { Move(m.target, m.source) }

  /** The same files moved back, in the same order as they went. */
  function Reversed(moves: seq<Move>): (back: seq<Move>)
    ensures |back| == |moves| && forall i :: 0 <= i < |moves| ==> back[i] == Back(moves[i])
  {
    seq(|moves|, i requires 0 <= i < |moves| => Back(moves[i]))
  }

  /** If files that all existed went away and came back, none stood in another's way. */
  lemma ThereAndBackApart(t: Tree, moves: seq<Move>)
    requires Legal(t, moves) && FromDistinct(moves) && ToDistinct(moves)
    requires forall i :: 0 <= i < |moves| ==> moves[i].target in t
    requires Legal(After(t, moves), Reversed(moves))
    ensures Apart(moves)
  {
    forall i, j | 0 <= i < |moves| && 0 <= j < |moves| ensures moves[i].target != moves[j].source {
      if j <= i {
        NotYetVacant(t, moves, i, j);
      } else {
        NotVacantAgain(t, moves, i, j);
      }
    }
  }

  /** No file goes where one still is that leaves later. */
  lemma NotYetVacant(t: Tree, moves: seq<Move>, i: nat, j: nat)
    requires Legal(t, moves) && FromDistinct(moves) && j <= i < |moves| && moves[i].target in t
    ensures moves[i].target != moves[j].source
  {
    LegalPrefix(t, moves, j);
    assert !LeavesFrom(moves[..j], moves[i].target);
    StaysOccupied(t, moves[..j], moves[i].target);
  }

  /** Nor where one left earlier, as that one could not come back. */
  lemma NotVacantAgain(t: Tree, moves: seq<Move>, i: nat, j: nat)
    requires Legal(t, moves) && FromDistinct(moves) && ToDistinct(moves) && i < j < |moves|
    requires Legal(After(t, moves), Reversed(moves))
    ensures moves[i].target != moves[j].source
  {
    var s, back := moves[i].target, Reversed(moves);
    if s == moves[j].source {
      ArrivedStays(t, moves, j);
      LegalPrefix(After(t, moves), back, i);
      StillThere(After(t, moves), moves, i, j);
    }
  }

  lemma StillThere(away: Tree, moves: seq<Move>, i: nat, j: nat)
    requires ToDistinct(moves) && i < j < |moves| && moves[j].source in away
    ensures moves[j].source in After(away, Reversed(moves)[..i])
  {
    var front := Reversed(moves)[..i];
    assert forall k :: 0 <= k < i ==> front[k].target == moves[k].source;
    StaysOccupied(away, front, moves[j].source);
  }

  lemma ArrivedStays(t: Tree, moves: seq<Move>, j: nat)
    requires Legal(t, moves) && FromDistinct(moves) && j < |moves|
    requires exists i :: 0 <= i < j && moves[i].target == moves[j].source
    ensures moves[j].source in After(t, moves)
  {
    var s := moves[j].source;
    LegalPrefix(t, moves, j);
    var now := After(t, moves[..j + 1]);
    assert moves[..j + 1][..j] == moves[..j];
    assert s in now;
    AfterSplit(t, moves, j + 1);
    assert !LeavesFrom(moves[j + 1..], s);
    StaysOccupied(now, moves[j + 1..], s);
  }

  /** Files that all existed and went to different places are all there in the end. */
  lemma AllArrive(t: Tree, moves: seq<Move>, k: nat)
    requires Legal(t, moves) && FromDistinct(moves) && ToDistinct(moves) && k < |moves|
    requires forall i :: 0 <= i < |moves| ==> moves[i].target in t
    ensures moves[k].source in After(t, moves)
  {
    var s := moves[k].source;
    LegalPrefix(t, moves, k);
    forall i | k <= i < |moves| ensures moves[i].target != s {
      assert !LeavesFrom(moves[..k], moves[i].target);
      StaysOccupied(t, moves[..k], moves[i].target);
    }
    var now := After(t, moves[..k + 1]);
    assert moves[..k + 1][..k] == moves[..k];
    AfterSplit(t, moves, k + 1);
    assert !LeavesFrom(moves[k + 1..], s);
    StaysOccupied(now, moves[k + 1..], s);
  }

  /** Nothing arrives at a place that was taken all along. */
  lemma NeverArrivesAt(t: Tree, moves: seq<Move>, s: Spot)
    requires Legal(t, moves) && s in t && !LeavesFrom(moves, s)
    ensures !ArrivesAt(moves, s)
  {
    forall k | 0 <= k < |moves| ensures moves[k].source != s {
      LegalPrefix(t, moves, k);
      assert !LeavesFrom(moves[..k], s);
      StaysOccupied(t, moves[..k], s);
    }
  }

  lemma {:induction false} AfterSplit(t: Tree, moves: seq<Move>, k: nat)
    requires k <= |moves|
    ensures After(t, moves) == After(After(t, moves[..k]), moves[k..])
  {
    if k == |moves| {
      assert moves[..k] == moves;
    } else {
      var front := moves[..|moves| - 1];
      AfterSplit(t, front, k);
      assert front[..k] == moves[..k] && front[k..] == moves[k..][..|moves| - k - 1];
    }
  }

  /** Files that went away and came back, in the same order, leave the tree as it was. */
  lemma ThereAndBack(t: Tree, moves: seq<Move>)
    requires Legal(t, moves) && FromDistinct(moves) && ToDistinct(moves)
    requires Legal(After(t, moves), Reversed(moves))
    ensures After(After(t, moves), Reversed(moves)) == t
  {
    forall i: nat | i < |moves| ensures moves[i].target in t { AllWereThere(t, moves, i); }
    ThereAndBackApart(t, moves);
    var away, back := After(t, moves), Reversed(moves);
    ApartRelocates(t, moves);
    ApartRelocates(away, back);
    var home := After(away, back);
    forall s ensures Same(t, home, s) {
      if LeavesFrom(moves, s) {
        var i :| 0 <= i < |moves| && moves[i].target == s;
        assert back[i].source == s;
      } else if ArrivesAt(moves, s) {
        var i :| 0 <= i < |moves| && moves[i].source == s;
        assert back[i].target == s;
      } else {
        assert !LeavesFrom(back, s) && !ArrivesAt(back, s);
        assert Same(t, away, s) && Same(away, home, s);
      }
    }
    SameEverywhere(t, home);
  }

  lemma {:induction false} StaysVacant(t: Tree, moves: seq<Move>, s: Spot)
    requires s !in t && !ArrivesAt(moves, s)
    ensures s !in After(t, moves)
  {
    if moves != [] {
      var front := moves[..|moves| - 1];
      assert moves[|moves| - 1].source != s;
      assert !ArrivesAt(front, s) by {
        assert forall i :: 0 <= i < |front| ==> front[i] == moves[i];
      }
      StaysVacant(t, front, s);
    }
  }

  /** Files that went away and came back were all there to begin with: none was a file moved before. */
  lemma AllWereThere(t: Tree, moves: seq<Move>, j: nat)
    requires Legal(t, moves) && FromDistinct(moves) && ToDistinct(moves)
    requires Legal(After(t, moves), Reversed(moves)) && j < |moves|
    ensures moves[j].target in t
  {
    var s := moves[j].target;
    LegalPrefix(t, moves, j);
    if s !in t {
      if !ArrivesAt(moves[..j], s) {
        StaysVacant(t, moves[..j], s);
      } else {
        var i: nat :| i < j && moves[..j][i].source == s;
        assert moves[i].source == s;
        GoneAfter(t, moves, i, j);
        StillGone(After(t, moves), moves, i, j);
        LegalPrefix(After(t, moves), Reversed(moves), i);
      }
    }
  }

  lemma StillGone(away: Tree, moves: seq<Move>, i: nat, j: nat)
    requires FromDistinct(moves) && i < j < |moves| && moves[j].target !in away
    ensures moves[j].target !in After(away, Reversed(moves)[..i])
  {
    var front := Reversed(moves)[..i];
    assert forall k :: 0 <= k < i ==> front[k].source == moves[k].target;
    StaysVacant(away, front, moves[j].target);
  }

  /** A place left behind stays vacant if what had arrived there is what left. */
  lemma GoneAfter(t: Tree, moves: seq<Move>, i: nat, j: nat)
    requires Legal(t, moves) && ToDistinct(moves) && i < j < |moves| && moves[i].source == moves[j].target
    ensures moves[j].target !in After(t, moves)
  {
    var s, now := moves[j].target, After(t, moves[..j + 1]);
    LegalPrefix(t, moves, j);
    assert moves[..j + 1][..j] == moves[..j];
    assert s !in now;
    AfterSplit(t, moves, j + 1);
    NoSecondArrival(moves, i, j + 1);
    StaysVacant(now, moves[j + 1..], s);
  }

  lemma NoSecondArrival(moves: seq<Move>, i: nat, from: nat)
    requires ToDistinct(moves) && i < from <= |moves|
    ensures !ArrivesAt(moves[from..], moves[i].source)
  {
    assert forall k :: 0 <= k < |moves| - from ==> moves[from..][k] == moves[from + k];
  }

  /** Moves that do not meet are possible exactly if every file is there and every destination vacant at the start. */
  lemma {:induction false} LegalExactly(t: Tree, moves: seq<Move>)
    requires Apart(moves)
    ensures Legal(t, moves) <==> forall i :: 0 <= i < |moves| ==> moves[i].target in t && moves[i].source !in t
  {
    if moves != [] {
      var front, last := moves[..|moves| - 1], moves[|moves| - 1];
      LegalExactly(t, front);
      ApartFromLast(moves);
      UnaffectedPlace(t, front, last.target);
      UnaffectedPlace(t, front, last.source);
    }
  }

  lemma ApartFromLast(moves: seq<Move>)
    requires Apart(moves) && moves != []
    ensures var front, last := moves[..|moves| - 1], moves[|moves| - 1];
      && Apart(front)
      && !LeavesFrom(front, last.target) && !ArrivesAt(front, last.target)
      && !LeavesFrom(front, last.source) && !ArrivesAt(front, last.source)
  {
  }

  lemma UnaffectedPlace(t: Tree, moves: seq<Move>, s: Spot)
    requires !LeavesFrom(moves, s) && !ArrivesAt(moves, s)
    ensures s in After(t, moves) <==> s in t
  {
    if s in t { StaysOccupied(t, moves, s); } else { StaysVacant(t, moves, s); }
  }

  /** What went away can come back, in the same order, exactly if no file went where another one came from. */
  lemma BackExactlyIfApart(t: Tree, moves: seq<Move>)
    requires Legal(t, moves) && FromDistinct(moves) && ToDistinct(moves)
    ensures Legal(After(t, moves), Reversed(moves)) <==> Apart(moves)
  {
    var away, back := After(t, moves), Reversed(moves);
    if Apart(moves) {
      ApartRelocates(t, moves);
      LegalExactly(away, back);
    } else if Legal(away, back) {
      forall i: nat | i < |moves| ensures moves[i].target in t { AllWereThere(t, moves, i); }
      ThereAndBackApart(t, moves);
    }
  }

  lemma SameEverywhere(a: Tree, b: Tree)
    requires forall s :: Same(a, b, s)
    ensures a == b
  {
    forall s ensures s in a <==> s in b { assert Same(a, b, s); }
    forall s | s in a ensures a[s] == b[s] { assert Same(a, b, s); }
  }
}
