/**
  What synchronising the shipped definitions does to a row, told by the row's own fields: the
  content's hash, the recorded base and the mark.
 */
module OfficialRows {
  import opened OfficialSync
  import opened Wrappers

  /** The row is the shipped definition in everything, up to contents with the same hash. */
  ghost predicate IsShipped(hash: Hash, row: Row, d: Definition) {
    && row.official && hash(row.content) == Some(d.hash)
    && row.base == d.hash && row.source == d.source && row.version == 1 && !row.diverged
  }

  /** The hash that the content of an official row has if nobody edited it. */
  function Expected(row: Row, d: Definition): string { if row.base == "" then d.hash else row.base }

  /** What is done about a definition depends on these fields and nothing else. */
  lemma JudgedExactly(hash: Hash, games: Games, d: Definition)
    ensures Judge(hash, games, d) == Insert <==> d.id !in games
    ensures d.id in games ==>
      var row, v := games[d.id], Judge(hash, games, d);
      && (v == Skip <==> !row.official)
      && (v == Unreadable <==> row.official && hash(row.content) == None)
      && (v == Diverge <==> row.official && hash(row.content).Some? && hash(row.content).value != Expected(row, d))
      && (v == Current <==> IsShipped(hash, row, d))
      && (v == Update <==>
          row.official && hash(row.content) == Some(Expected(row, d)) && !IsShipped(hash, row, d))
  {
  }

  /** A new row, or one that follows, is the definition to the letter; any other changes its mark at most. */
  lemma WrittenExactly(hash: Hash, games: Games, d: Definition)
    ensures var after := SyncOne(hash, games, d);
      && (forall id :: id != d.id ==> (id in after <==> id in games) && (id in games ==> after[id] == games[id]))
      && d.id in after
      && match Judge(hash, games, d)
         case Insert => after[d.id] == Row(d.content, true, d.hash, d.source, 1, false)
         case Update => after[d.id] == Row(d.content, true, d.hash, d.source, 1, false)
         case Diverge => after[d.id] == games[d.id].(diverged := true)
         case _ => after[d.id] == games[d.id]
  {
  }

  /** A definition is handled exactly if its row can be read and no call that it needs fails. */
  lemma HandledExactly(hash: Hash, games: Games, d: Definition, stop: Stop)
    ensures Handled(hash, games, d, stop) <==>
      && (d.id in games && games[d.id].official ==> hash(games[d.id].content).Some?)
      && stop != Before
      && (stop == After ==> d.id in games && (!games[d.id].official || IsShipped(hash, games[d.id], d)))
  {
  }

  /** When a definition takes effect, its row is the shipped one afterwards exactly if it was missing or not edited. */
  lemma ShippedExactly(hash: Hash, games: Games, bundle: seq<Definition>, stops: nat -> Stop, k: nat)
    requires Distinct(bundle) && AllSound(hash, bundle) && k < |bundle| && TakesEffect(hash, games, bundle, stops, k)
    ensures var d, after := bundle[k], ProgramSync(hash, games, bundle, stops);
            && d.id in after
            && (IsShipped(hash, after[d.id], d) <==>
                || d.id !in games
                || (games[d.id].official && hash(games[d.id].content) == Some(Expected(games[d.id], d))))
  {
    var m := Effective(hash, games, bundle, stops);
    EffectiveExactly(hash, games, bundle, stops, k);
    assert bundle[..m][k] == bundle[k] && Sound(hash, bundle[k]);
    SyncedRow(hash, games, bundle[..m], k);
    JudgedExactly(hash, games, bundle[k]);
    WrittenExactly(hash, games, bundle[k]);
  }

  // ----- rows without a recorded base

  /** The content is none of those shipped under the id. */
  ghost predicate NotShippedAs(hash: Hash, content: string, bundle: seq<Definition>, id: string) {
    forall k :: 0 <= k < |bundle| && bundle[k].id == id ==> hash(content) != Some(bundle[k].hash)
  }

  /** An official row from before bases were recorded keeps its content, unless it is what is shipped. */
  lemma {:induction false} BaselessEditKept(hash: Hash, games: Games, bundle: seq<Definition>, id: string)
    requires id in games && games[id].official && games[id].base == ""
    requires NotShippedAs(hash, games[id].content, bundle, id)
    ensures id in SyncAll(hash, games, bundle) && OnlyMarked(games[id], SyncAll(hash, games, bundle)[id])
  {
    if bundle != [] {
      var n := |bundle| - 1;
      assert NotShippedAs(hash, games[id].content, bundle[..n], id);
      BaselessEditKept(hash, games, bundle[..n], id);
      var before := SyncAll(hash, games, bundle[..n]);
      JudgedExactly(hash, before, bundle[n]);
      WrittenExactly(hash, before, bundle[n]);
    }
  }

  /** So it is over any run of synchronisations, until the row is saved, reset or removed. */
  lemma {:induction false} BaselessEditSurvives(hash: Hash, games: Games, events: seq<Event>, id: string)
    requires id in games && games[id].official && games[id].base == ""
    requires forall k :: 0 <= k < |events| ==> !Touches(events[k], id)
    requires forall k :: 0 <= k < |events| && events[k].Synced? ==> NotShippedAs(hash, games[id].content, events[k].bundle, id)
    ensures id in Run(hash, games, events) && OnlyMarked(games[id], Run(hash, games, events)[id])
  {
    if events != [] {
      var last := |events| - 1;
      BaselessEditSurvives(hash, games, events[..last], id);
      var before, e := Run(hash, games, events[..last]), events[last];
      if e.Synced? {
        var reached := e.bundle[..Effective(hash, before, e.bundle, e.stops)];
        assert NotShippedAs(hash, before[id].content, reached, id);
        BaselessEditKept(hash, before, reached, id);
      }
    }
  }

  // ----- saving and resetting

  /** A saved official row keeps its origin and is marked, any other one has no origin; a reset row is the definition. */
  lemma SavedAndReset(hash: Hash, games: Games, id: string, content: string, bundle: seq<Definition>, k: nat)
    requires Distinct(bundle) && k < |bundle| && bundle[k].id == id
    ensures Step(hash, games, Saved(id, content)) == games[id :=
      if id in games && games[id].official then games[id].(content := content, diverged := true)
      else Row(content, false, "", "", 0, false)]
    ensures id in games && games[id].official ==>
      Step(hash, games, Reset(id, bundle, Never)) ==
      games[id := Row(bundle[k].content, true, bundle[k].hash, bundle[k].source, 1, false)]
  {
    var d := FirstFor(bundle, id).value;
    var j :| 0 <= j < |bundle| && bundle[j] == d;
    assert j == k;
  }

  // ----- what is counted

  predicate IsAt(hash: Hash, games: Games, bundle: seq<Definition>, v: Verdict, k: nat) {
    k < |bundle| && Judge(hash, games, bundle[k]) == v
  }

  /** Those of the first `n` definitions that meet with `v`. */
  function Those(hash: Hash, games: Games, bundle: seq<Definition>, v: Verdict, n: nat): set<nat> {
    set k: nat | k < n && IsAt(hash, games, bundle, v, k)
  }

  lemma OneMore(hash: Hash, games: Games, bundle: seq<Definition>, v: Verdict, n: nat)
    ensures |Those(hash, games, bundle, v, n + 1)| ==
            |Those(hash, games, bundle, v, n)| + if IsAt(hash, games, bundle, v, n) then 1 else 0
  {
    var more, fewer := Those(hash, games, bundle, v, n + 1), Those(hash, games, bundle, v, n);
    var at := IsAt(hash, games, bundle, v, n);
    forall k: nat ensures k in more <==> k in fewer || (k == n && at) {}
    if at {
      assert more == fewer + {n} && n !in fewer;
    } else {
      assert more == fewer;
    }
  }

  /** Each definition handled is counted once, by what became of its row. */
  lemma {:induction false} CountedExactly(hash: Hash, games: Games, bundle: seq<Definition>, n: nat)
    requires Distinct(bundle) && n <= |bundle|
    ensures Tally(hash, games, bundle[..n]) == SyncResult(
      |Those(hash, games, bundle, Insert, n)|, |Those(hash, games, bundle, Update, n)|,
      |Those(hash, games, bundle, Diverge, n)|, |Those(hash, games, bundle, Skip, n)|)
  {
    if n > 0 {
      CountedExactly(hash, games, bundle, n - 1);
      assert bundle[..n][..n - 1] == bundle[..n - 1];
      VerdictOnTheWay(hash, games, bundle, n - 1);
      OneMore(hash, games, bundle, Insert, n - 1);
      OneMore(hash, games, bundle, Update, n - 1);
      OneMore(hash, games, bundle, Diverge, n - 1);
      OneMore(hash, games, bundle, Skip, n - 1);
    } else {
      assert forall v :: Those(hash, games, bundle, v, 0) == {};
    }
  }
}
