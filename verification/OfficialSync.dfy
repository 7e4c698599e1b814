/**
  Official game definitions shipped with the program are synchronised into the game table at
  every start. A row that a user has edited is left alone and only marked as diverged; all
  others follow the shipped definitions.

  The content hash is any function on contents; it has no answer for contents that cannot be
  read as a definition.
 */
module OfficialSync {
  import opened Wrappers

  type Hash = string -> Option<string>

  const SCHEMA_VERSION := 1

  /** `base` is the hash of the shipped definition the row was last set to, or empty. */
  datatype Row = Row(content: string, official: bool, base: string, source: string, version: int, diverged: bool)

  datatype Definition = Definition(id: string, content: string, hash: string, source: string)

  type Games = map<string, Row>

  ghost predicate Sound(hash: Hash, d: Definition) { hash(d.content) == Some(d.hash) && d.hash != [] }

  ghost predicate AllSound(hash: Hash, bundle: seq<Definition>) {
    forall k :: 0 <= k < |bundle| ==> Sound(hash, bundle[k])
  }

  ghost predicate Distinct(bundle: seq<Definition>) {
    forall j, k :: 0 <= j < k < |bundle| ==> bundle[j].id != bundle[k].id
  }

  function Stamped(d: Definition): Row { Row(d.content, true, d.hash, d.source, SCHEMA_VERSION, false) }

  // ----- one definition

  datatype Verdict = Insert | Skip | Unreadable | Diverge | Current | Update

  /** An official row is clean if its content is the recorded base, or the definition where none is recorded. */
  predicate Clean(hash: Hash, row: Row, d: Definition) {
    hash(row.content) == Some(if row.base == [] then d.hash else row.base)
  }

  predicate UpToDate(hash: Hash, row: Row, d: Definition) {
    && row.base == d.hash && row.source == d.source && row.version == SCHEMA_VERSION && !row.diverged
    && hash(row.content) == Some(d.hash)
  }

  function Judge(hash: Hash, games: Games, d: Definition): Verdict {
    if d.id !in games then Insert else
    var row := games[d.id];
    if !row.official then Skip
    else if hash(row.content).None? then Unreadable
    else if !Clean(hash, row, d) then Diverge
    else if UpToDate(hash, row, d) then Current
    else Update
  }

  function SyncOne(hash: Hash, games: Games, d: Definition): Games {
    match Judge(hash, games, d)
    case Insert => games[d.id := Stamped(d)]
    case Update => games[d.id := Stamped(d)]
    case Diverge => games[d.id := games[d.id].(diverged := true)]
    case _ => games
  }

  function SyncAll(hash: Hash, games: Games, bundle: seq<Definition>): Games {
    if bundle == [] then games else
    SyncOne(hash, SyncAll(hash, games, bundle[..|bundle| - 1]), bundle[|bundle| - 1])
  }

  datatype SyncResult = SyncResult(inserted: nat, updated: nat, diverged: nat, skipped: nat)

  function Tallied(r: SyncResult, v: Verdict): SyncResult {
    match v
    case Insert => r.(inserted := r.inserted + 1)
    case Update => r.(updated := r.updated + 1)
    case Diverge => r.(diverged := r.diverged + 1)
    case Skip => r.(skipped := r.skipped + 1)
    case _ => r
  }

  function Tally(hash: Hash, games: Games, bundle: seq<Definition>): SyncResult {
    if bundle == [] then SyncResult(0, 0, 0, 0) else
    var rest := bundle[..|bundle| - 1];
    Tallied(Tally(hash, games, rest), Judge(hash, SyncAll(hash, games, rest), bundle[|bundle| - 1]))
  }

  // ----- how far the program gets

  /** How handling a definition is cut short by an error, if it is: before or after its row is written. */
  datatype Stop = Never | Before | After

  predicate Writes(v: Verdict) { v == Insert || v == Update || v == Diverge }

  /** The definition is handled without an error, so that the next one is reached. */
  predicate Handled(hash: Hash, games: Games, d: Definition, stop: Stop) {
    var verdict := Judge(hash, games, d);
    verdict != Unreadable && (stop == Never || (stop == After && !Writes(verdict)))
  }

  predicate HandledAt(hash: Hash, games: Games, bundle: seq<Definition>, stops: nat -> Stop, k: nat)
    requires k < |bundle|
  {
    Handled(hash, SyncAll(hash, games, bundle[..k]), bundle[k], stops(k))
  }

  function ReachedFrom(hash: Hash, games: Games, bundle: seq<Definition>, stops: nat -> Stop, from: nat): (n: nat)
    requires from <= |bundle|
    ensures from <= n <= |bundle|
    ensures forall k :: from <= k < n ==> HandledAt(hash, games, bundle, stops, k)
    ensures n < |bundle| ==> !HandledAt(hash, games, bundle, stops, n)
    decreases |bundle| - from
  {
    if from == |bundle| || !HandledAt(hash, games, bundle, stops, from) then from
    else ReachedFrom(hash, games, bundle, stops, from + 1)
  }

  /** How many definitions are handled: the program returns at the first error. */
  function Reached(hash: Hash, games: Games, bundle: seq<Definition>, stops: nat -> Stop): (n: nat)
    ensures n <= |bundle|
    ensures forall k :: 0 <= k < n ==> HandledAt(hash, games, bundle, stops, k)
    ensures n < |bundle| ==> !HandledAt(hash, games, bundle, stops, n)
  {
    ReachedFrom(hash, games, bundle, stops, 0)
  }

  /** How many definitions have taken effect: an error can come after the row is written. */
  function Effective(hash: Hash, games: Games, bundle: seq<Definition>, stops: nat -> Stop): (m: nat)
    ensures Reached(hash, games, bundle, stops) <= m <= |bundle|
  {
    var n := Reached(hash, games, bundle, stops);
    if n < |bundle| && stops(n) == After && Writes(Judge(hash, SyncAll(hash, games, bundle[..n]), bundle[n])) then n + 1 else n
  }

  /** The table after a synchronisation that stops as the program does. */
  function ProgramSync(hash: Hash, games: Games, bundle: seq<Definition>, stops: nat -> Stop): Games {
    SyncAll(hash, games, bundle[..Effective(hash, games, bundle, stops)])
  }

  // ----- what a synchronisation leaves alone

  /** A user's row: one that is not official, or whose content is neither the recorded base nor, without one, the definition. */
  predicate UsersOwn(hash: Hash, row: Row, d: Definition) { !row.official || !Clean(hash, row, d) }

  /** The same content, with the same origin, but perhaps marked. */
  ghost predicate OnlyMarked(row: Row, after: Row) {
    && after == row.(diverged := after.diverged)
    && (row.diverged ==> after.diverged)
    && (!row.official ==> after == row)
  }

  /** Whatever a user made of a row stays, over definitions of any kind. */
  lemma {:induction false} UsersOwnIsKept(hash: Hash, games: Games, bundle: seq<Definition>, id: string)
    requires id in games
    requires forall k :: 0 <= k < |bundle| && bundle[k].id == id ==> UsersOwn(hash, games[id], bundle[k])
    ensures id in SyncAll(hash, games, bundle) && OnlyMarked(games[id], SyncAll(hash, games, bundle)[id])
  {
    if bundle != [] {
      var last := |bundle| - 1;
      UsersOwnIsKept(hash, games, bundle[..last], id);
      assert bundle[last].id == id ==> UsersOwn(hash, games[id], bundle[last]);
    }
  }

  lemma {:induction false} OthersUntouched(hash: Hash, games: Games, bundle: seq<Definition>, id: string)
    requires forall k :: 0 <= k < |bundle| ==> bundle[k].id != id
    ensures id in SyncAll(hash, games, bundle) <==> id in games
    ensures id in games ==> SyncAll(hash, games, bundle)[id] == games[id]
  {
    if bundle != [] {
      OthersUntouched(hash, games, bundle[..|bundle| - 1], id);
    }
  }

  // ----- what follows the shipped definitions

  /** The row is the definition, up to contents with the same hash. */
  predicate Follows(hash: Hash, row: Row, d: Definition) { row.official && UpToDate(hash, row, d) }

  lemma {:induction false} SyncAllConcat(hash: Hash, games: Games, a: seq<Definition>, b: seq<Definition>)
    ensures SyncAll(hash, games, a + b) == SyncAll(hash, SyncAll(hash, games, a), b)
  {
    if b == [] {
      assert a + b == a;
    } else {
      SyncAllConcat(hash, games, a, b[..|b| - 1]);
      assert (a + b)[..|a + b| - 1] == a + b[..|b| - 1];
    }
  }

  /** With distinct ids each definition meets the row as it was. */
  lemma SyncedRow(hash: Hash, games: Games, bundle: seq<Definition>, k: nat)
    requires Distinct(bundle) && k < |bundle|
    ensures var d, after := bundle[k], SyncAll(hash, games, bundle);
            && (d.id in after <==> d.id in SyncOne(hash, games, d))
            && (d.id in after ==> after[d.id] == SyncOne(hash, games, d)[d.id])
  {
    var d := bundle[k];
    var before, rest := bundle[..k], bundle[k + 1..];
    var met := SyncAll(hash, games, before);
    assert bundle == before + [d] + rest;
    SyncAllConcat(hash, games, before, [d]);
    SyncAllConcat(hash, games, before + [d], rest);
    assert SyncAll(hash, met, [d]) == SyncOne(hash, met, d) by {
      assert [d][..0] == [];
    }
    OthersUntouched(hash, games, before, d.id);
    OthersUntouched(hash, SyncOne(hash, met, d), rest, d.id);
  }

  /** After a synchronisation a row is the shipped definition exactly if it was missing, or official and clean. */
  lemma FollowsExactlyIfClean(hash: Hash, games: Games, bundle: seq<Definition>, k: nat)
    requires Distinct(bundle) && AllSound(hash, bundle) && k < |bundle|
    ensures var d, after := bundle[k], SyncAll(hash, games, bundle);
            && d.id in after
            && (Follows(hash, after[d.id], d) <==> (d.id !in games || (games[d.id].official && Clean(hash, games[d.id], d))))
  {
    SyncedRow(hash, games, bundle, k);
    assert Sound(hash, bundle[k]);
  }

  lemma SecondVerdict(hash: Hash, games: Games, bundle: seq<Definition>, k: nat)
    requires Distinct(bundle) && AllSound(hash, bundle) && k < |bundle|
    ensures var after := SyncAll(hash, games, bundle);
            && SyncOne(hash, after, bundle[k]) == after
            && Judge(hash, after, bundle[k]) !in {Insert, Update}
  {
    SyncedRow(hash, games, bundle, k);
    FollowsExactlyIfClean(hash, games, bundle, k);
    assert Sound(hash, bundle[k]);
  }

  lemma {:induction false} SecondSyncUpTo(hash: Hash, games: Games, bundle: seq<Definition>, m: nat, n: nat)
    requires Distinct(bundle) && AllSound(hash, bundle) && n <= m <= |bundle|
    ensures var after := SyncAll(hash, games, bundle[..m]);
            && SyncAll(hash, after, bundle[..n]) == after
            && Tally(hash, after, bundle[..n]).inserted == 0 && Tally(hash, after, bundle[..n]).updated == 0
  {
    if n > 0 {
      SecondSyncUpTo(hash, games, bundle, m, n - 1);
      SecondVerdict(hash, games, bundle[..m], n - 1);
      assert bundle[..n][..n - 1] == bundle[..n - 1];
    }
  }

  /**
    Synchronising again with the same definitions inserts and updates nothing, and leaves the
    table as it is, as far as it gets no further than what the first one did.
   */
  lemma SecondSyncChangesNothing(hash: Hash, games: Games, bundle: seq<Definition>, stops: nat -> Stop, again: nat -> Stop)
    requires Distinct(bundle) && AllSound(hash, bundle)
    requires Effective(hash, ProgramSync(hash, games, bundle, stops), bundle, again) <= Effective(hash, games, bundle, stops)
    ensures var after := ProgramSync(hash, games, bundle, stops);
            && ProgramSync(hash, after, bundle, again) == after
            && var handled := bundle[..Reached(hash, after, bundle, again)];
               Tally(hash, after, handled).inserted == 0 && Tally(hash, after, handled).updated == 0
  {
    var after := ProgramSync(hash, games, bundle, stops);
    var m := Effective(hash, games, bundle, stops);
    SecondSyncUpTo(hash, games, bundle, m, Effective(hash, after, bundle, again));
    SecondSyncUpTo(hash, games, bundle, m, Reached(hash, after, bundle, again));
  }

  predicate NoneFails(bundle: seq<Definition>, stops: nat -> Stop) {
    forall k :: 0 <= k < |bundle| ==> stops(k) == Never
  }

  lemma HandledAgain(hash: Hash, games: Games, bundle: seq<Definition>, stops: nat -> Stop, n: nat, k: nat)
    requires Distinct(bundle) && AllSound(hash, bundle) && k < n <= |bundle| && stops(k) == Never
    requires HandledAt(hash, games, bundle, stops, k)
    ensures HandledAt(hash, SyncAll(hash, games, bundle[..n]), bundle, stops, k)
  {
    var after := SyncAll(hash, games, bundle[..n]);
    VerdictOnTheWay(hash, games, bundle, k);
    VerdictOnTheWay(hash, after, bundle, k);
    SyncedRow(hash, games, bundle[..n], k);
    StaysReadable(hash, games, bundle[k]);
  }

  lemma StillUnreadable(hash: Hash, games: Games, bundle: seq<Definition>, stops: nat -> Stop, n: nat)
    requires Distinct(bundle) && n < |bundle| && stops(n) == Never
    requires !HandledAt(hash, games, bundle, stops, n)
    ensures !HandledAt(hash, SyncAll(hash, games, bundle[..n]), bundle, stops, n)
  {
    VerdictOnTheWay(hash, games, bundle, n);
    VerdictOnTheWay(hash, SyncAll(hash, games, bundle[..n]), bundle, n);
    OthersUntouched(hash, games, bundle[..n], bundle[n].id);
  }

  /** Without failing calls it gets exactly as far, even where the first one stopped at an unreadable row. */
  lemma SecondSyncGetsAsFar(hash: Hash, games: Games, bundle: seq<Definition>, stops: nat -> Stop)
    requires Distinct(bundle) && AllSound(hash, bundle) && NoneFails(bundle, stops)
    ensures Effective(hash, ProgramSync(hash, games, bundle, stops), bundle, stops) == Effective(hash, games, bundle, stops)
  {
    var n := Reached(hash, games, bundle, stops);
    var after := SyncAll(hash, games, bundle[..n]);
    forall k: nat | k < n ensures HandledAt(hash, after, bundle, stops, k) {
      HandledAgain(hash, games, bundle, stops, n, k);
    }
    if n < |bundle| {
      StillUnreadable(hash, games, bundle, stops, n);
    }
    assert Reached(hash, after, bundle, stops) == n;
  }

  lemma StaysReadable(hash: Hash, games: Games, d: Definition)
    requires Sound(hash, d) && Judge(hash, games, d) != Unreadable
    ensures Judge(hash, SyncOne(hash, games, d), d) != Unreadable
  {}

  /** With distinct ids the verdict on the way is that on the table as it was. */
  lemma VerdictOnTheWay(hash: Hash, games: Games, bundle: seq<Definition>, k: nat)
    requires Distinct(bundle) && k < |bundle|
    ensures Judge(hash, SyncAll(hash, games, bundle[..k]), bundle[k]) == Judge(hash, games, bundle[k])
    ensures forall stops: nat -> Stop :: HandledAt(hash, games, bundle, stops, k) <==> Handled(hash, games, bundle[k], stops(k))
  {
    OthersUntouched(hash, games, bundle[..k], bundle[k].id);
  }

  /** The program gets past definition `k` exactly if every one up to it is handled, judged by the table as it was. */
  lemma ReachedPast(hash: Hash, games: Games, bundle: seq<Definition>, stops: nat -> Stop, k: nat)
    requires Distinct(bundle) && k < |bundle|
    ensures k < Reached(hash, games, bundle, stops) <==> forall j: nat :: j <= k ==> Handled(hash, games, bundle[j], stops(j))
  {
    var n := Reached(hash, games, bundle, stops);
    forall j: nat | j <= k
      ensures HandledAt(hash, games, bundle, stops, j) <==> Handled(hash, games, bundle[j], stops(j))
    {
      VerdictOnTheWay(hash, games, bundle, j);
    }
    if n <= k {
      assert !Handled(hash, games, bundle[n], stops(n));
    }
  }

  /** The row of definition `k` is written: all before it are handled, and no error comes before the write. */
  predicate TakesEffect(hash: Hash, games: Games, bundle: seq<Definition>, stops: nat -> Stop, k: nat)
    requires k < |bundle|
  {
    && (forall j :: 0 <= j < k ==> Handled(hash, games, bundle[j], stops(j)))
    && (Handled(hash, games, bundle[k], stops(k)) || (stops(k) == After && Writes(Judge(hash, games, bundle[k]))))
  }

  lemma EffectiveExactly(hash: Hash, games: Games, bundle: seq<Definition>, stops: nat -> Stop, k: nat)
    requires Distinct(bundle) && k < |bundle|
    ensures k < Effective(hash, games, bundle, stops) <==> TakesEffect(hash, games, bundle, stops, k)
  {
    var n := Reached(hash, games, bundle, stops);
    ReachedPast(hash, games, bundle, stops, k);
    VerdictOnTheWay(hash, games, bundle, k);
    if k > 0 { ReachedPast(hash, games, bundle, stops, k - 1); }
    if n == k {
      assert k > 0 ==> forall j: nat :: j <= k - 1 ==> Handled(hash, games, bundle[j], stops(j));
    }
  }

  /**
    After a synchronisation as the program does it, row `k` is the shipped definition exactly
    if it was already, or if it was missing or clean and neither it nor a definition before
    it met an error or an unreadable row.
   */
  lemma ProgramFollowsExactly(hash: Hash, games: Games, bundle: seq<Definition>, stops: nat -> Stop, k: nat)
    requires Distinct(bundle) && AllSound(hash, bundle) && k < |bundle|
    ensures var d, after := bundle[k], ProgramSync(hash, games, bundle, stops);
            (d.id in after && Follows(hash, after[d.id], d)) <==>
              || (d.id in games && Follows(hash, games[d.id], d))
              || (&& TakesEffect(hash, games, bundle, stops, k)
                  && (d.id !in games || (games[d.id].official && Clean(hash, games[d.id], d))))
  {
    var d, m := bundle[k], Effective(hash, games, bundle, stops);
    EffectiveExactly(hash, games, bundle, stops, k);
    if k < m {
      FollowsExactlyIfClean(hash, games, bundle[..m], k);
    } else {
      OthersUntouched(hash, games, bundle[..m], d.id);
    }
  }

  /** One row that cannot be read keeps every later definition from being synchronised. */
  lemma UnreadableRowStopsSync()
    ensures var hash: Hash := content => if content == "{" then None else Some(content);
            var a, b := Definition("a", "A", "A", "a.json"), Definition("b", "B", "B", "b.json");
            var games := map["a" := Row("{", true, "A", "a.json", SCHEMA_VERSION, true)];
            var never := (k: nat) => Never;
            && AllSound(hash, [a, b]) && Distinct([a, b])
            && ProgramSync(hash, games, [a, b], never) == games
            && "b" in SyncAll(hash, games, [a, b])
  {
    var hash: Hash := content => if content == "{" then None else Some(content);
    var a, b := Definition("a", "A", "A", "a.json"), Definition("b", "B", "B", "b.json");
    var games := map["a" := Row("{", true, "A", "a.json", SCHEMA_VERSION, true)];
    var never := (k: nat) => Never;
    var bundle := [a, b];
    assert bundle[..1] == [a] && bundle[..0] == [] && [a][..0] == [];
    assert SyncAll(hash, games, [a]) == SyncOne(hash, SyncAll(hash, games, []), a) == games;
    assert SyncAll(hash, games, bundle) == SyncOne(hash, games, b);
    assert Judge(hash, SyncAll(hash, games, []), a) == Unreadable;
    assert !HandledAt(hash, games, bundle, never, 0);
  }

  /** Definitions that share an id never settle: each synchronisation updates the row again. */
  lemma SharedIdNeverSettles(hash: Hash, a: Definition, b: Definition)
    requires Sound(hash, a) && Sound(hash, b) && a.id == b.id && a.hash != b.hash
    ensures var after := SyncAll(hash, map[], [a, b]); Tally(hash, after, [a, b]).updated == 2
  {
    assert [a, b][..1] == [a] && [a][..0] == [];
    var first := SyncAll(hash, map[], [a]);
    assert first == SyncOne(hash, SyncAll(hash, map[], []), a) == map[a.id := Stamped(a)];
    assert Judge(hash, first, b) == Update;
    assert SyncAll(hash, map[], [a, b]) == SyncOne(hash, first, b);
    var after := SyncAll(hash, map[], [a, b]);
    assert after[b.id] == Stamped(b);
    assert SyncAll(hash, after, []) == after;
    assert Tally(hash, after, [a]) == SyncResult(0, 1, 0, 0);
    assert SyncAll(hash, after, [a])[a.id] == Stamped(a);
  }

  // ----- runs

  /** Everything that changes the table. */
  datatype Event =
    | Synced(bundle: seq<Definition>, stops: nat -> Stop)
    | Reset(id: string, bundle: seq<Definition>, stop: Stop)
    | Saved(id: string, content: string)
    | Removed(id: string)

  function FirstFor(bundle: seq<Definition>, id: string): (d: Option<Definition>)
    ensures d.Some? ==> d.value in bundle && d.value.id == id
    ensures d.None? <==> forall k :: 0 <= k < |bundle| ==> bundle[k].id != id
  {
    if bundle == [] then None
    else if bundle[0].id == id then Some(bundle[0])
    else
      var d := FirstFor(bundle[1..], id);
      assert d.None? ==> forall k :: 1 <= k < |bundle| ==> bundle[k].id == bundle[1..][k - 1].id;
      d
  }

  /** A reset needs an official row and a definition for it. */
  predicate CanReset(games: Games, id: string, bundle: seq<Definition>) {
    id in games && games[id].official && FirstFor(bundle, id).Some?
  }

  /** A saved edit of an official row keeps its origin and marks it; any other row has no origin. */
  function Edited(games: Games, id: string, content: string): Row {
    if id in games && games[id].official then games[id].(content := content, diverged := true)
    else Row(content, false, [], [], 0, false)
  }

  function Step(hash: Hash, games: Games, e: Event): Games {
    match e
    case Synced(bundle, stops) => ProgramSync(hash, games, bundle, stops)
    case Reset(id, bundle, stop) =>
      if CanReset(games, id, bundle) && stop != Before then games[id := Stamped(FirstFor(bundle, id).value)] else games
    case Saved(id, content) => games[id := Edited(games, id, content)]
    case Removed(id) => games - {id}
  }

  function Run(hash: Hash, games: Games, events: seq<Event>): Games {
    if events == [] then games else
    Step(hash, Run(hash, games, events[..|events| - 1]), events[|events| - 1])
  }

  predicate Touches(e: Event, id: string) { (e.Saved? || e.Reset? || e.Removed?) && e.id == id }

  predicate Edits(e: Event, id: string) { (e.Saved? || e.Removed?) && e.id == id }

  ghost predicate SoundEvent(hash: Hash, e: Event) { e.Synced? || e.Reset? ==> AllSound(hash, e.bundle) }

  /** Recorded and different from the record. */
  predicate Changed(hash: Hash, row: Row) { row.official && row.base != [] && hash(row.content) != Some(row.base) }

  /** Recorded and as recorded. */
  predicate Unedited(hash: Hash, row: Row) { row.official && row.base != [] && hash(row.content) == Some(row.base) }

  /** An edit survives every synchronisation, with whatever definitions, until the row is saved, reset or removed. */
  lemma {:induction false} EditsSurvive(hash: Hash, games: Games, events: seq<Event>, id: string)
    requires id in games && (Changed(hash, games[id]) || !games[id].official)
    requires forall k :: 0 <= k < |events| ==> !Touches(events[k], id)
    ensures id in Run(hash, games, events) && OnlyMarked(games[id], Run(hash, games, events)[id])
  {
    if events != [] {
      var last := |events| - 1;
      EditsSurvive(hash, games, events[..last], id);
      if events[last].Synced? {
        var before, e := Run(hash, games, events[..last]), events[last];
        UsersOwnIsKept(hash, before, e.bundle[..Effective(hash, before, e.bundle, e.stops)], id);
      }
    }
  }

  lemma {:induction false} SyncKeepsUnedited(hash: Hash, games: Games, bundle: seq<Definition>, id: string)
    requires AllSound(hash, bundle)
    requires id in games ==> Unedited(hash, games[id])
    ensures var after := SyncAll(hash, games, bundle); id in after ==> Unedited(hash, after[id])
  {
    if bundle != [] {
      var last := |bundle| - 1;
      SyncKeepsUnedited(hash, games, bundle[..last], id);
      assert Sound(hash, bundle[last]);
    }
  }

  /** A row that nobody saves or removes is unedited at every point of a run. */
  lemma {:induction false} UneditedStays(hash: Hash, games: Games, events: seq<Event>, id: string)
    requires id in games ==> Unedited(hash, games[id])
    requires forall k :: 0 <= k < |events| ==> SoundEvent(hash, events[k]) && !Edits(events[k], id)
    ensures var after := Run(hash, games, events); id in after ==> Unedited(hash, after[id])
  {
    if events != [] {
      var last := |events| - 1;
      UneditedStays(hash, games, events[..last], id);
      var before, e := Run(hash, games, events[..last]), events[last];
      assert SoundEvent(hash, e) && !Edits(e, id);
      match e
      case Synced(bundle, stops) => SyncKeepsUnedited(hash, before, bundle[..Effective(hash, before, bundle, stops)], id);
      case Reset(_, bundle, _) =>
        if CanReset(before, id, bundle) {
          var d := FirstFor(bundle, id).value;
          var k :| 0 <= k < |bundle| && bundle[k] == d;
          assert Sound(hash, bundle[k]);
        }
      case _ =>
    }
  }

  /**
    And so, after any run, the next synchronisation makes it what was shipped, exactly if no
    definition up to its own meets an error or an unreadable row, or it was that already.
   */
  lemma UneditedFollows(hash: Hash, games: Games, events: seq<Event>, bundle: seq<Definition>, stops: nat -> Stop, k: nat)
    requires AllSound(hash, bundle) && Distinct(bundle) && k < |bundle|
    requires bundle[k].id in games ==> Unedited(hash, games[bundle[k].id])
    requires forall j :: 0 <= j < |events| ==> SoundEvent(hash, events[j]) && !Edits(events[j], bundle[k].id)
    ensures var d, before := bundle[k], Run(hash, games, events);
            var after := Run(hash, games, events + [Synced(bundle, stops)]);
            (d.id in after && Follows(hash, after[d.id], d)) <==>
              (d.id in before && Follows(hash, before[d.id], d)) || TakesEffect(hash, before, bundle, stops, k)
  {
    UneditedStays(hash, games, events, bundle[k].id);
    var all := events + [Synced(bundle, stops)];
    assert all[..|all| - 1] == events;
    ProgramFollowsExactly(hash, Run(hash, games, events), bundle, stops, k);
  }

  /**
    A saved official row rejoins at the next synchronisation exactly if what was saved is its
    base again, and the synchronisation gets to it.
   */
  lemma RejoinsExactlyAtBase(hash: Hash, games: Games, content: string, bundle: seq<Definition>, stops: nat -> Stop, k: nat)
    requires AllSound(hash, bundle) && Distinct(bundle) && k < |bundle|
    requires bundle[k].id in games && games[bundle[k].id].official && games[bundle[k].id].base != []
    ensures var d := bundle[k];
            var saved := Step(hash, games, Saved(d.id, content));
            var after := Run(hash, games, [Saved(d.id, content), Synced(bundle, stops)]);
            (d.id in after && Follows(hash, after[d.id], d)) <==>
              hash(content) == Some(games[d.id].base) && TakesEffect(hash, saved, bundle, stops, k)
  {
    var d := bundle[k];
    var save, sync := Saved(d.id, content), Synced(bundle, stops);
    assert [save, sync][..1] == [save] && [save][..0] == [];
    assert Run(hash, games, [save]) == Step(hash, games, save);
    ProgramFollowsExactly(hash, Run(hash, games, [save]), bundle, stops, k);
  }

  /** A reset makes any official row with a definition follow it, and it stays so however the next synchronisation fares. */
  lemma {:induction false} ResetRejoins(hash: Hash, games: Games, bundle: seq<Definition>, stops: nat -> Stop, k: nat)
    requires AllSound(hash, bundle) && Distinct(bundle) && k < |bundle|
    requires bundle[k].id in games && games[bundle[k].id].official
    ensures var d := bundle[k];
            var reset := Step(hash, games, Reset(d.id, bundle, Never));
            && d.id in reset && Follows(hash, reset[d.id], d)
            && var after := ProgramSync(hash, reset, bundle, stops);
               d.id in after && Follows(hash, after[d.id], d)
  {
    var d := bundle[k];
    assert FirstFor(bundle, d.id) == Some(d);
    assert Sound(hash, bundle[k]);
    ProgramFollowsExactly(hash, Step(hash, games, Reset(d.id, bundle, Never)), bundle, stops, k);
  }

  /** A row that is not marked is as recorded: the mark never hides an edit. */
  ghost predicate MarksEdits(hash: Hash, games: Games) {
    forall id :: id in games && games[id].official && games[id].base != [] && !games[id].diverged ==> Unedited(hash, games[id])
  }

  lemma {:induction false} SyncMarksEdits(hash: Hash, games: Games, bundle: seq<Definition>)
    requires AllSound(hash, bundle) && MarksEdits(hash, games)
    ensures MarksEdits(hash, SyncAll(hash, games, bundle))
  {
    if bundle != [] {
      SyncMarksEdits(hash, games, bundle[..|bundle| - 1]);
      assert Sound(hash, bundle[|bundle| - 1]);
    }
  }

  lemma {:induction false} EveryRunMarksEdits(hash: Hash, games: Games, events: seq<Event>)
    requires MarksEdits(hash, games)
    requires forall k :: 0 <= k < |events| ==> SoundEvent(hash, events[k])
    ensures MarksEdits(hash, Run(hash, games, events))
  {
    if events != [] {
      var last := |events| - 1;
      EveryRunMarksEdits(hash, games, events[..last]);
      var before, e := Run(hash, games, events[..last]), events[last];
      assert SoundEvent(hash, e);
      match e
      case Synced(bundle, stops) => SyncMarksEdits(hash, before, bundle[..Effective(hash, before, bundle, stops)]);
      case Reset(id, bundle, _) =>
        if CanReset(before, id, bundle) {
          var d := FirstFor(bundle, id).value;
          var k :| 0 <= k < |bundle| && bundle[k] == d;
          assert Sound(hash, bundle[k]);
        }
      case _ =>
    }
  }

  /** The mark changes no verdict, and marking again changes nothing. */
  lemma MarkedOnce(hash: Hash, games: Games, d: Definition)
    requires Judge(hash, games, d) == Diverge
    ensures var marked := SyncOne(hash, games, d);
            && Judge(hash, marked, d) == Diverge && SyncOne(hash, marked, d) == marked
            && OnlyMarked(games[d.id], marked[d.id]) && marked[d.id].diverged
            && forall id :: id != d.id ==> (id in marked <==> id in games) && (id in games ==> marked[id] == games[id])
  {}

  // ----- the table

  class GameTable {
    var games: Games

    /**
      `stops(k)` tells what happens to definition `k`. The synchronisation succeeds exactly if
      none of them meets an error or an unreadable row, and otherwise has taken effect up to
      the first that does.
     */
    method SyncOfficialDefinitions(hash: Hash, bundle: seq<Definition>, stops: nat -> Stop)
      returns (result: SyncResult, ok: bool)
      modifies this
      ensures games == ProgramSync(hash, old(games), bundle, stops)
      ensures ok <==> Reached(hash, old(games), bundle, stops) == |bundle|
      ensures ok <==> forall k :: 0 <= k < |bundle| ==> HandledAt(hash, old(games), bundle, stops, k)
      ensures ok ==> games == SyncAll(hash, old(games), bundle)
      ensures result == Tally(hash, old(games), bundle[..Reached(hash, old(games), bundle, stops)])
    {
      result := SyncResult(0, 0, 0, 0);
      assert bundle[..0] == [];
      for i := 0 to |bundle|
        invariant games == SyncAll(hash, old(games), bundle[..i])
        invariant result == Tally(hash, old(games), bundle[..i])
        invariant forall k :: 0 <= k < i ==> HandledAt(hash, old(games), bundle, stops, k)
      {
        assert bundle[..i + 1][..i] == bundle[..i];
        result, ok := SyncDefinition(hash, bundle[i], stops(i), result);
        assert ok <==> HandledAt(hash, old(games), bundle, stops, i);
        if !ok {
          assert Reached(hash, old(games), bundle, stops) == i;
          return;
        }
      }
      assert bundle[..|bundle|] == bundle;
      ok := true;
    }

    /** One definition: lines 287-347. */
    method SyncDefinition(hash: Hash, d: Definition, stop: Stop, before: SyncResult) returns (result: SyncResult, ok: bool)
      modifies this
      ensures ok <==> Handled(hash, old(games), d, stop)
      ensures games == if ok || (stop == After && Writes(Judge(hash, old(games), d))) then SyncOne(hash, old(games), d) else old(games)
      ensures result == if ok then Tallied(before, Judge(hash, old(games), d)) else before
    {
      result, ok := before, false;
      if stop == Before {
        return;
      }
      if d.id !in games {
        games := games[d.id := Stamped(d)];
        if stop == After {
          return;
        }
        return before.(inserted := before.inserted + 1), true;
      }
      var existing := games[d.id];
      if !existing.official {
        return before.(skipped := before.skipped + 1), true;
      }
      var currentHash := hash(existing.content);
      if currentHash.None? {
        return;
      }
      var cleanOfficialRow := currentHash.value == (if existing.base == [] then d.hash else existing.base);
      if !cleanOfficialRow {
        MarkOfficialDiverged(d.id);
        if stop == After {
          return;
        }
        return before.(diverged := before.diverged + 1), true;
      }
      var metadataCurrent := existing.base == d.hash && existing.source == d.source
                             && existing.version == SCHEMA_VERSION && !existing.diverged;
      if metadataCurrent && currentHash.value == d.hash {
        return before, true;
      }
      games := games[d.id := Stamped(d)];
      if stop == After {
        return;
      }
      return before.(updated := before.updated + 1), true;
    }

    method MarkOfficialDiverged(id: string)
      requires id in games
      modifies this
      ensures games.Keys == old(games).Keys && games[id].diverged && OnlyOriginKept(old(games)[id], games[id])
      ensures forall other :: other in games && other != id ==> games[other] == old(games)[other]
    {
      games := games[id := games[id].(diverged := true)];
    }

    /** `stop` is how a failing database call cuts the reset short. */
    method ResetGameToOfficialDefinition(hash: Hash, id: string, bundle: seq<Definition>, stop: Stop) returns (ok: bool)
      modifies this
      ensures games == Step(hash, old(games), Reset(id, bundle, stop))
      ensures ok <==> CanReset(old(games), id, bundle) && stop == Never
    {
      if stop == Before || id !in games || !games[id].official {
        return false;
      }
      var definition: Option<Definition> := None;
      var i := 0;
      while i < |bundle| && definition.None?
        invariant 0 <= i <= |bundle|
        invariant FirstFor(bundle, id) == if definition.Some? then definition else FirstFor(bundle[i..], id)
      {
        if bundle[i].id == id {
          definition := Some(bundle[i]);
        }
        assert bundle[i..][1..] == bundle[i + 1..];
        i := i + 1;
      }
      if definition.None? {
        return false;
      }
      games := games[id := Stamped(definition.value)];
      ok := stop == Never;
    }
  }

  /** Content, origin and record are those of the row before. */
  predicate OnlyOriginKept(row: Row, after: Row) { after == row.(diverged := after.diverged) }
}
