/**
  The Valheim dependency planner. Phase one walks the references of freshly fetched
  packages and keeps one version per package; phase two orders the packages that the
  final versions still reach. Both phases update maps shared by a recursive closure,
  which here are the fields of `Resolver`.

  Line numbers refer to `internal/modmanager/valheim-dependencies.go`.
 */
module DependencyPlanner {
  import opened Wrappers
  import opened PackageNames

  const MAX_PACKAGES := 128
  const MAX_REQUESTS := 512

  datatype Package = Package(id: string, version: string, dependencies: seq<string>)

  datatype InstalledMod = InstalledMod(enabled: bool, version: string, pinned: bool)

  datatype PlanError =
    | InvalidPackageId
    | NoVersions
    | InvalidVersion
    | UnsupportedLoaderVersion
    | Cancelled
    | MalformedReference(text: string)
    | InvalidReference(reference: Reference)
    | Disabled(reference: Reference)
    | PinnedBelow(reference: Reference)
    | TooOld(reference: Reference)
    | TooLarge
    | Unavailable(id: string, version: string)
    | BadMetadata(id: string, version: string)
    | Cycle(id: string)
    | FinalCycle

  /**
    What one run of the planner is given. The `n`-th metadata request may be answered
    differently from an earlier one with the same arguments, and cancellation may be
    seen at any of the points where it is polled.
   */
  datatype Problem = Problem(
    sourceId: string,
    versionId: string,
    installed: map<string, InstalledMod>,
    notation: Notation,
    fetch: (nat, string, string) -> Option<Package>,
    cancelled: nat -> bool)
  {
    ghost predicate WellPosed() {
      && notation.Coherent()
      && notation.ValidVersion(versionId)
      && (sourceId == LOADER_ID ==> versionId == LOADER_VERSION)
    }
  }

  // ----- which version is asked for

  datatype Choice = Chosen(version: string) | Rejected(error: PlanError)

  /** The version to fetch for a reference: requested, installed, minimum or supported. */
  function Choose(p: Problem, ref: Reference): Choice {
    var best :=
      if ref.id == p.sourceId then Chosen(p.versionId)
      else if ref.id in p.installed then ChooseInstalled(p, ref, p.installed[ref.id])
      else Chosen(ref.minimum);
    if best.Rejected? then best else
    var selected := if ref.id == LOADER_ID then LOADER_VERSION else best.version;
    if p.notation.compare(selected, ref.minimum) < 0 then Rejected(TooOld(ref)) else Chosen(selected)
  }

  function ChooseInstalled(p: Problem, ref: Reference, mod: InstalledMod): Choice {
    if !mod.enabled then Rejected(Disabled(ref))
    else if mod.pinned && p.notation.compare(mod.version, ref.minimum) < 0 then Rejected(PinnedBelow(ref))
    else if p.notation.ValidVersion(mod.version) && p.notation.compare(mod.version, ref.minimum) > 0
    then Chosen(mod.version)
    else Chosen(ref.minimum)
  }

  /** What the user is promised about the version of `id` in a plan. */
  ghost predicate KeepsPromises(p: Problem, id: string, version: string) {
    && (id == p.sourceId ==> version == p.versionId)
    && (id == LOADER_ID ==> version == LOADER_VERSION)
    && (id != p.sourceId && id in p.installed ==>
        var mod := p.installed[id];
        && mod.enabled
        && (id != LOADER_ID && p.notation.ValidVersion(mod.version) ==>
            && p.notation.AtLeast(version, mod.version)
            && (mod.pinned ==> version == mod.version)))
  }

  /** The versions that a package may get other than a minimum asked for. */
  ghost predicate Preferred(p: Problem, id: string, version: string) {
    || (id == p.sourceId && version == p.versionId)
    || (id == LOADER_ID && version == LOADER_VERSION)
    || (id in p.installed && version == p.installed[id].version)
  }

  /** No version could serve the reference under the promises made to the user. */
  ghost predicate Unsatisfiable(p: Problem, ref: Reference, e: PlanError) {
    && (e == Disabled(ref) || e == PinnedBelow(ref) || e == TooOld(ref))
    && (e.Disabled? ==> ref.id != p.sourceId && ref.id in p.installed && !p.installed[ref.id].enabled)
    && (e.PinnedBelow? ==>
        && ref.id != p.sourceId && ref.id in p.installed && p.installed[ref.id].pinned
        && !p.notation.AtLeast(p.installed[ref.id].version, ref.minimum))
    && (e.TooOld? ==>
        || (ref.id == p.sourceId && !p.notation.AtLeast(p.versionId, ref.minimum))
        || (ref.id == LOADER_ID && !p.notation.AtLeast(LOADER_VERSION, ref.minimum)))
  }

  lemma ChooseKeepsPromises(p: Problem, ref: Reference)
    requires p.WellPosed() && p.notation.ValidVersion(ref.minimum)
    ensures
      match Choose(p, ref)
      case Chosen(v) =>
        && p.notation.AtLeast(v, ref.minimum)
        && KeepsPromises(p, ref.id, v)
        && (v == ref.minimum || Preferred(p, ref.id, v))
      case Rejected(e) => Unsatisfiable(p, ref, e)
  {
  }

  // ----- why a run may be refused

  ghost predicate Depends(n: Notation, pkg: Package, ref: Reference) {
    exists text :: text in pkg.dependencies && n.cut(text) == Some(ref)
  }

  ghost predicate DependsOnId(n: Notation, pkg: Package, id: string) {
    exists ref :: Depends(n, pkg, ref) && ref.id == id
  }

  ghost predicate IsRootRequest(p: Problem, ref: Reference) {
    ref == Reference(LOADER_ID, LOADER_VERSION) || ref == Reference(p.sourceId, p.versionId)
  }

  /** The run itself or some fetched package asks for `ref`. */
  ghost predicate Demanded(p: Problem, log: set<Package>, ref: Reference) {
    IsRootRequest(p, ref) || exists pkg :: pkg in log && Depends(p.notation, pkg, ref)
  }

  ghost predicate Sourced(p: Problem, log: set<Package>, id: string, version: string) {
    Preferred(p, id, version) || Demanded(p, log, Reference(id, version))
  }

  /** Each package of the chain depends on the next one. */
  ghost predicate Chain(n: Notation, chain: seq<Package>) {
    forall i :: 0 <= i < |chain| - 1 ==> DependsOnId(n, chain[i], chain[i + 1].id)
  }

  ghost predicate HasId(trail: seq<Package>, id: string) {
    exists i :: 0 <= i < |trail| && trail[i].id == id
  }

  lemma TrailExtends(n: Notation, trail: seq<Package>, ref: Reference, pkg: Package)
    requires Chain(n, trail) && pkg.id == ref.id
    requires trail != [] ==> Depends(n, trail[|trail| - 1], ref)
    ensures Chain(n, trail + [pkg])
    ensures forall id :: HasId(trail, id) ==> HasId(trail + [pkg], id)
    ensures HasId(trail + [pkg], pkg.id)
  {
    var longer := trail + [pkg];
    forall id | HasId(trail, id) ensures HasId(longer, id) {
      var i :| 0 <= i < |trail| && trail[i].id == id;
      assert longer[i].id == id;
    }
    assert longer[|trail|].id == pkg.id;
  }

  /** Fetched packages that depend on each other in a circle through `id`. */
  ghost predicate FetchedCircle(n: Notation, log: set<Package>, id: string, chain: seq<Package>) {
    && chain != [] && Chain(n, chain) && (forall pkg :: pkg in chain ==> pkg in log)
    && chain[0].id == id && DependsOnId(n, chain[|chain| - 1], id)
  }

  datatype Usage = Usage(polls: nat, requests: nat, held: nat)

  predicate Matches(pkg: Package, id: string, version: string) {
    pkg.id == id && pkg.version == version && |pkg.dependencies| <= MAX_PACKAGES
  }

  /** Another package than was asked for, or one that declares more dependencies than any plan can hold. */
  ghost predicate Unfit(pkg: Package, id: string, version: string) {
    pkg.id != id || pkg.version != version || |pkg.dependencies| > 128
  }

  /** The reason given for refusing in phase one is a true one. */
  ghost predicate Justified(p: Problem, log: set<Package>, used: Usage, e: PlanError) {
    match e
    case Cancelled => exists n: nat :: n < used.polls && p.cancelled(n)
    case MalformedReference(text) => p.notation.cut(text) == None && exists pkg :: pkg in log && text in pkg.dependencies
    case InvalidReference(ref) =>
      Demanded(p, log, ref) && (!p.notation.validId(ref.id) || !p.notation.ValidVersion(ref.minimum))
    case Disabled(ref) => Demanded(p, log, ref) && Unsatisfiable(p, ref, e)
    case PinnedBelow(ref) => Demanded(p, log, ref) && Unsatisfiable(p, ref, e)
    case TooOld(ref) => Demanded(p, log, ref) && Unsatisfiable(p, ref, e)
    case TooLarge => used.held == 128 || used.requests == 512
    case Unavailable(id, v) =>
      Sourced(p, log, id, v) && exists n: nat :: n < used.requests && p.fetch(n, id, v) == None
    case BadMetadata(id, v) =>
      Sourced(p, log, id, v) &&
      exists n: nat :: n < used.requests && p.fetch(n, id, v).Some? && Unfit(p.fetch(n, id, v).value, id, v)
    case Cycle(id) => exists chain :: FetchedCircle(p.notation, log, id, chain)
    case _ => false
  }

  // ----- the chosen versions

  type Resolution = map<string, Package>

  /** What the dependency `text` asks for is chosen, at its minimum or above. */
  ghost predicate Satisfies(n: Notation, chosen: Resolution, text: string) {
    var ref := n.cut(text);
    && ref.Some?
    && ref.value.id in chosen
    && n.AtLeast(chosen[ref.value.id].version, ref.value.minimum)
  }

  ghost predicate ServedAt(n: Notation, chosen: Resolution, id: string) {
    id in chosen ==> forall text :: text in chosen[id].dependencies ==> Satisfies(n, chosen, text)
  }

  ghost predicate Closed(n: Notation, chosen: Resolution) {
    forall id :: ServedAt(n, chosen, id)
  }

  ghost predicate Accepted(p: Problem, log: set<Package>, id: string, pkg: Package) {
    && pkg.id == id && p.notation.validId(id) && p.notation.ValidVersion(pkg.version)
    && pkg in log
    && KeepsPromises(p, id, pkg.version)
    && Sourced(p, log, id, pkg.version)
  }

  ghost predicate AcceptedAt(p: Problem, log: set<Package>, chosen: Resolution, id: string) {
    id in chosen ==> Accepted(p, log, id, chosen[id])
  }

  ghost predicate AllAccepted(p: Problem, log: set<Package>, chosen: Resolution) {
    forall id :: AcceptedAt(p, log, chosen, id)
  }

  ghost predicate NotOlder(n: Notation, before: Resolution, after: Resolution, id: string) {
    id in before ==> id in after && n.AtLeast(after[id].version, before[id].version)
  }

  ghost predicate Untouched(before: Resolution, after: Resolution, id: string) {
    (id in before <==> id in after) && (id in before ==> after[id] == before[id])
  }

  /** Nothing is lost or downgraded, and packages still being visited are left alone. */
  ghost predicate Grows(n: Notation, before: Resolution, after: Resolution, visiting: set<string>) {
    && (forall id :: NotOlder(n, before, after, id))
    && (forall id :: id in visiting ==> Untouched(before, after, id))
  }

  ghost predicate WasFetched(p: Problem, requests: nat, pkg: Package) {
    |pkg.dependencies| <= 128 && exists n: nat :: n < requests && p.fetch(n, pkg.id, pkg.version) == Some(pkg)
  }

  lemma LogGrows(p: Problem, log: set<Package>, later: set<Package>, chosen: Resolution)
    requires AllAccepted(p, log, chosen) && log <= later
    ensures AllAccepted(p, later, chosen)
  {
    forall id ensures AcceptedAt(p, later, chosen, id) {
      assert AcceptedAt(p, log, chosen, id);
    }
  }

  lemma GrowsReflexive(p: Problem, log: set<Package>, chosen: Resolution, visiting: set<string>)
    requires AllAccepted(p, log, chosen)
    ensures Grows(p.notation, chosen, chosen, visiting)
  {
    forall id ensures NotOlder(p.notation, chosen, chosen, id) {
      assert AcceptedAt(p, log, chosen, id);
    }
  }

  lemma GrowsTransitive(n: Notation, a: Resolution, b: Resolution, c: Resolution, visiting: set<string>)
    requires Grows(n, a, b, visiting) && Grows(n, b, c, visiting)
    ensures Grows(n, a, c, visiting)
  {
    forall id ensures NotOlder(n, a, c, id) {
      assert NotOlder(n, a, b, id) && NotOlder(n, b, c, id);
    }
    forall id | id in visiting ensures Untouched(a, c, id) {
      assert Untouched(a, b, id) && Untouched(b, c, id);
    }
  }

  lemma SatisfiesLater(n: Notation, before: Resolution, after: Resolution, visiting: set<string>, text: string)
    requires Grows(n, before, after, visiting) && Satisfies(n, before, text)
    ensures Satisfies(n, after, text)
  {
    assert NotOlder(n, before, after, n.cut(text).value.id);
  }

  ghost predicate AllSatisfied(n: Notation, chosen: Resolution, texts: seq<string>, upTo: nat)
    requires upTo <= |texts|
  {
    forall j :: 0 <= j < upTo ==> Satisfies(n, chosen, texts[j])
  }

  lemma AllSatisfiedNext(n: Notation, before: Resolution, after: Resolution, visiting: set<string>, texts: seq<string>, k: nat)
    requires k < |texts| && Grows(n, before, after, visiting)
    requires AllSatisfied(n, before, texts, k) && Satisfies(n, after, texts[k])
    ensures AllSatisfied(n, after, texts, k + 1)
  {
    forall j | 0 <= j < k ensures Satisfies(n, after, texts[j]) {
      SatisfiesLater(n, before, after, visiting, texts[j]);
    }
  }

  /** Keeping a package whose dependencies are served: nothing else loses its own. */
  lemma Keeping(p: Problem, log: set<Package>, chosen: Resolution, pkg: Package, visiting: set<string>)
    requires AllAccepted(p, log, chosen) && Closed(p.notation, chosen)
    requires forall text :: text in pkg.dependencies ==> Satisfies(p.notation, chosen, text)
    requires Accepted(p, log, pkg.id, pkg) && pkg.id !in visiting
    requires pkg.id in chosen ==> p.notation.AtLeast(pkg.version, chosen[pkg.id].version)
    ensures AllAccepted(p, log, chosen[pkg.id := pkg])
    ensures Closed(p.notation, chosen[pkg.id := pkg])
    ensures Grows(p.notation, chosen, chosen[pkg.id := pkg], visiting)
  {
    var after := chosen[pkg.id := pkg];
    forall id
      ensures AcceptedAt(p, log, after, id) && NotOlder(p.notation, chosen, after, id)
    {
      assert AcceptedAt(p, log, chosen, id);
    }
    forall id ensures ServedAt(p.notation, after, id) {
      assert ServedAt(p.notation, chosen, id);
      forall text | id in after && text in after[id].dependencies
        ensures Satisfies(p.notation, after, text)
      {
        SatisfiesLater(p.notation, chosen, after, visiting, text);
      }
    }
  }

  lemma Finishing(p: Problem, log: set<Package>, before: Resolution, chosen: Resolution, pkg: Package, outer: set<string>)
    requires AllAccepted(p, log, chosen) && Closed(p.notation, chosen)
    requires forall text :: text in pkg.dependencies ==> Satisfies(p.notation, chosen, text)
    requires Accepted(p, log, pkg.id, pkg) && pkg.id !in outer
    requires pkg.id in before ==> p.notation.AtLeast(pkg.version, before[pkg.id].version)
    requires Grows(p.notation, before, chosen, outer + {pkg.id})
    ensures AllAccepted(p, log, chosen[pkg.id := pkg])
    ensures Closed(p.notation, chosen[pkg.id := pkg])
    ensures Grows(p.notation, before, chosen[pkg.id := pkg], outer)
  {
    assert Untouched(before, chosen, pkg.id);
    Keeping(p, log, chosen, pkg, outer);
    GrowsTransitive(p.notation, before, chosen, chosen[pkg.id := pkg], outer);
  }

  lemma CircleFound(n: Notation, log: set<Package>, trail: seq<Package>, ref: Reference)
    requires Chain(n, trail) && (forall pkg :: pkg in trail ==> pkg in log)
    requires trail != [] && Depends(n, trail[|trail| - 1], ref)
    requires HasId(trail, ref.id)
    ensures exists chain :: FetchedCircle(n, log, ref.id, chain)
  {
    var i :| 0 <= i < |trail| && trail[i].id == ref.id;
    assert FetchedCircle(n, log, ref.id, trail[i..]);
  }

  // ----- the order of the plan

  ghost predicate Edge(n: Notation, chosen: Resolution, from: string, to: string) {
    from in chosen && DependsOnId(n, chosen[from], to)
  }

  ghost predicate IsPath(n: Notation, chosen: Resolution, path: seq<string>) {
    && path != []
    && forall i :: 0 <= i < |path| - 1 ==> Edge(n, chosen, path[i], path[i + 1])
  }

  lemma PathExtends(n: Notation, chosen: Resolution, path: seq<string>, to: string)
    requires IsPath(n, chosen, path) && Edge(n, chosen, path[|path| - 1], to)
    ensures IsPath(n, chosen, path + [to])
  {
  }

  predicate IsRoot(p: Problem, id: string) { id == LOADER_ID || id == p.sourceId }

  /** A dependency path from the loader or the root to `id`. */
  ghost predicate Reaches(p: Problem, chosen: Resolution, path: seq<string>, id: string) {
    IsPath(p.notation, chosen, path) && IsRoot(p, path[0]) && path[|path| - 1] == id
  }

  ghost predicate Reachable(p: Problem, chosen: Resolution, id: string) {
    exists path :: Reaches(p, chosen, path, id)
  }

  /** A path from the loader or the root that meets some package twice. */
  ghost predicate Loops(p: Problem, chosen: Resolution, path: seq<string>) {
    && IsPath(p.notation, chosen, path) && IsRoot(p, path[0])
    && exists i, j :: 0 <= i < j < |path| && path[i] == path[j]
  }

  ghost predicate Acyclic(p: Problem, chosen: Resolution) {
    forall path :: !Loops(p, chosen, path)
  }

  ghost predicate Before(plan: seq<Package>, k: nat, text: string, n: Notation)
    requires k <= |plan|
  {
    var ref := n.cut(text);
    ref.Some? && exists j :: 0 <= j < k && plan[j].id == ref.value.id && n.AtLeast(plan[j].version, ref.value.minimum)
  }

  /** Distinct packages, each after everything it depends on, at the minimum or above. */
  ghost predicate Sound(n: Notation, plan: seq<Package>) {
    && (forall i, j :: 0 <= i < j < |plan| ==> plan[i].id != plan[j].id)
    && (forall k, text :: 0 <= k < |plan| && text in plan[k].dependencies ==> Before(plan, k, text, n))
  }

  ghost predicate Holds(plan: seq<Package>, id: string) {
    exists k :: 0 <= k < |plan| && plan[k].id == id
  }

  ghost function Position(plan: seq<Package>, id: string): (k: nat)
    requires Holds(plan, id)
    ensures k < |plan| && plan[k].id == id
  {
    var k :| 0 <= k < |plan| && plan[k].id == id;
    k
  }

  ghost predicate FromChosen(chosen: Resolution, plan: seq<Package>) {
    forall k :: 0 <= k < |plan| ==> plan[k].id in chosen && plan[k] == chosen[plan[k].id]
  }

  /** Placing a package after all it depends on keeps the plan sound. */
  lemma Placing(n: Notation, chosen: Resolution, plan: seq<Package>, pkg: Package)
    requires Sound(n, plan) && FromChosen(chosen, plan)
    requires pkg.id in chosen && chosen[pkg.id] == pkg && !Holds(plan, pkg.id)
    requires ServedAt(n, chosen, pkg.id)
    requires forall text :: text in pkg.dependencies ==> HoldsReference(n, plan, text)
    ensures Sound(n, plan + [pkg]) && FromChosen(chosen, plan + [pkg])
    ensures forall id :: Holds(plan + [pkg], id) <==> Holds(plan, id) || id == pkg.id
  {
    var longer := plan + [pkg];
    forall k, text | 0 <= k < |longer| && text in longer[k].dependencies
      ensures Before(longer, k, text, n)
    {
      if k < |plan| {
        assert Before(plan, k, text, n);
        var ref := n.cut(text).value;
        var j :| 0 <= j < k && plan[j].id == ref.id && n.AtLeast(plan[j].version, ref.minimum);
        assert longer[j] == plan[j];
      } else {
        var ref := n.cut(text).value;
        var j := Position(plan, ref.id);
        assert Satisfies(n, chosen, text);
        assert longer[j] == plan[j];
      }
    }
    forall id ensures Holds(longer, id) <==> Holds(plan, id) || id == pkg.id {
      if Holds(plan, id) { assert longer[Position(plan, id)].id == id; }
      if id == pkg.id { assert longer[|plan|].id == id; }
      if Holds(longer, id) && id != pkg.id { assert plan[Position(longer, id)].id == id; }
    }
  }

  ghost predicate HoldsReference(n: Notation, plan: seq<Package>, text: string) {
    n.cut(text).Some? && Holds(plan, n.cut(text).value.id)
  }

  lemma EdgeGoesBack(n: Notation, chosen: Resolution, plan: seq<Package>, from: string, to: string)
    requires Sound(n, plan) && FromChosen(chosen, plan)
    requires Holds(plan, from) && Edge(n, chosen, from, to)
    ensures Holds(plan, to) && Position(plan, to) < Position(plan, from)
  {
    var k := Position(plan, from);
    var ref :| Depends(n, chosen[from], ref) && ref.id == to;
    var text :| text in chosen[from].dependencies && n.cut(text) == Some(ref);
    assert Before(plan, k, text, n);
  }

  /** Along a path inside the plan every later package stands strictly earlier. */
  lemma {:induction false} PathGoesBack(n: Notation, chosen: Resolution, plan: seq<Package>, path: seq<string>, i: nat, j: nat)
    requires Sound(n, plan) && FromChosen(chosen, plan) && IsPath(n, chosen, path)
    requires i <= j < |path| && Holds(plan, path[i])
    ensures Holds(plan, path[j])
    ensures i < j ==> Position(plan, path[j]) < Position(plan, path[i])
    decreases j
  {
    if i < j {
      PathGoesBack(n, chosen, plan, path, i, j - 1);
      EdgeGoesBack(n, chosen, plan, path[j - 1], path[j]);
    }
  }

  lemma {:induction false} DistinctIdsFit(n: Notation, chosen: Resolution, plan: seq<Package>)
    requires Sound(n, plan) && FromChosen(chosen, plan)
    ensures |plan| <= |chosen|
  {
    var ids := set k | 0 <= k < |plan| :: plan[k].id;
    DistinctCount(plan, ids);
    SubsetSize(ids, chosen.Keys);
  }

  lemma {:induction false} DistinctCount(plan: seq<Package>, ids: set<string>)
    requires forall i, j :: 0 <= i < j < |plan| ==> plan[i].id != plan[j].id
    requires ids == set k | 0 <= k < |plan| :: plan[k].id
    ensures |ids| == |plan|
  {
    if plan == [] {
    } else {
      var last := |plan| - 1;
      var fewer := set k | 0 <= k < last :: plan[..last][k].id;
      DistinctCount(plan[..last], fewer);
      assert ids == fewer + {plan[last].id};
    }
  }

  lemma {:induction false} SubsetSize(a: set<string>, b: set<string>)
    requires a <= b
    ensures |a| <= |b|
  {
    assert b == a + (b - a);
  }

  /** A sound plan holding both roots leaves no circle and no reachable package out. */
  lemma SoundPlanIsComplete(p: Problem, chosen: Resolution, plan: seq<Package>)
    requires Sound(p.notation, plan) && FromChosen(chosen, plan)
    requires Holds(plan, LOADER_ID) && Holds(plan, p.sourceId)
    ensures Acyclic(p, chosen)
    ensures forall id :: Reachable(p, chosen, id) ==> Holds(plan, id)
  {
    forall path ensures !Loops(p, chosen, path) {
      if Loops(p, chosen, path) {
        var i, j :| 0 <= i < j < |path| && path[i] == path[j];
        PathGoesBack(p.notation, chosen, plan, path, 0, i);
        PathGoesBack(p.notation, chosen, plan, path, i, j);
      }
    }
    forall id | Reachable(p, chosen, id) ensures Holds(plan, id) {
      var path :| Reaches(p, chosen, path, id);
      PathGoesBack(p.notation, chosen, plan, path, 0, |path| - 1);
    }
  }

  datatype Verdict = Refuse(error: PlanError) | Served | Fetch(version: string)
  datatype Answer = Missing(error: PlanError) | Fetched(package: Package)

  class Resolver {
    const p: Problem
    var resolved: Resolution
    var visiting: set<string>
    var requests: nat
    var polls: nat
    var visited: set<string>
    var ordered: seq<Package>
    ghost var log: set<Package>

    constructor (p: Problem)
      requires p.WellPosed()
      ensures this.p == p && Valid()
      ensures resolved == map[] && visiting == {} && visited == {} && ordered == [] && requests == 0
    {
      this.p := p;
      resolved, visiting, requests, polls, log := map[], {}, 0, 0, {};
      visited, ordered := {}, [];
    }

    ghost predicate Settled()
      reads this
    {
      && p.WellPosed()
      && (forall pkg :: pkg in log ==> WasFetched(p, requests, pkg))
      && AllAccepted(p, log, resolved)
      && Closed(p.notation, resolved)
    }

    ghost predicate Valid()
      reads this
    {
      && Settled()
      && |resolved| + |visiting| <= MAX_PACKAGES
      && requests <= MAX_REQUESTS
    }

    ghost function Used(): Usage
      reads this
    {
      Usage(polls, requests, |resolved| + |visiting|)
    }

    /** The packages being visited, outermost first, and the reference now followed. */
    ghost predicate Following(trail: seq<Package>, ref: Reference)
      reads this
    {
      && Chain(p.notation, trail)
      && (forall pkg :: pkg in trail ==> pkg in log)
      && (forall id :: id in visiting ==> HasId(trail, id))
      && (if trail == [] then IsRootRequest(p, ref) else Depends(p.notation, trail[|trail| - 1], ref))
    }

    /** Lines 59-92: what the reference calls for, without fetching anything. */
    method Examine(ref: Reference, ghost trail: seq<Package>) returns (verdict: Verdict)
      requires Valid() && Following(trail, ref)
      modifies this`polls
      ensures Valid() && polls == old(polls) + 1
      ensures verdict.Refuse? ==> Justified(p, log, Used(), verdict.error)
      ensures verdict.Served? ==>
        ref.id in resolved && p.notation.AtLeast(resolved[ref.id].version, ref.minimum)
      ensures verdict.Fetch? ==>
        && ref.id !in visiting
        && p.notation.validId(ref.id)
        && p.notation.AtLeast(verdict.version, ref.minimum)
        && KeepsPromises(p, ref.id, verdict.version)
        && Sourced(p, log, ref.id, verdict.version)
        && (ref.id in resolved ==> p.notation.AtLeast(verdict.version, resolved[ref.id].version))
    {
      polls := polls + 1;
      if p.cancelled(polls - 1) {
        return Refuse(Cancelled);
      }
      if !p.notation.validId(ref.id) || !p.notation.ValidVersion(ref.minimum) {
        return Refuse(InvalidReference(ref));
      }
      if ref.id in visiting {
        CircleFound(p.notation, log, trail, ref);
        return Refuse(Cycle(ref.id));
      }
      ChooseKeepsPromises(p, ref);
      var choice := Choose(p, ref);
      if choice.Rejected? {
        return Refuse(choice.error);
      }
      assert AcceptedAt(p, log, resolved, ref.id);
      if ref.id in resolved && p.notation.compare(resolved[ref.id].version, choice.version) >= 0 {
        return Served;
      }
      return Fetch(choice.version);
    }

    /** Lines 93-104: fetch one exact version and start visiting it. */
    method Request(id: string, version: string) returns (answer: Answer)
      requires Valid() && id !in visiting && Sourced(p, log, id, version)
      modifies this`visiting, this`requests, this`log
      ensures Valid() && old(log) <= log && requests >= old(requests)
      ensures answer.Missing? ==> Justified(p, log, Used(), answer.error)
      ensures answer.Fetched? ==>
        && Matches(answer.package, id, version) && answer.package in log
        && requests == old(requests) + 1 && visiting == old(visiting) + {id}
    {
      if |resolved| + |visiting| >= MAX_PACKAGES || requests >= MAX_REQUESTS {
        return Missing(TooLarge);
      }
      requests := requests + 1;
      var response := p.fetch(requests - 1, id, version);
      if response.None? {
        return Missing(Unavailable(id, version));
      }
      if !Matches(response.value, id, version) {
        return Missing(BadMetadata(id, version));
      }
      LogGrows(p, log, log + {response.value}, resolved);
      log := log + {response.value};
      visiting := visiting + {id};
      return Fetched(response.value);
    }

    /**
      Lines 58-118. A success leaves the reference served and everything else at least
      as new as before; a failure names a true reason. Requests are what bounds the
      recursion, so it ends for every provider.
     */
    method Resolve(ref: Reference, ghost trail: seq<Package>) returns (err: Option<PlanError>)
      requires Valid() && Following(trail, ref)
      modifies this`resolved, this`visiting, this`requests, this`polls, this`log
      ensures Valid()
      ensures old(log) <= log && requests >= old(requests) && polls > old(polls)
      ensures err.None? ==>
        && visiting == old(visiting)
        && ref.id in resolved && p.notation.AtLeast(resolved[ref.id].version, ref.minimum)
        && Grows(p.notation, old(resolved), resolved, visiting)
      ensures err.Some? ==> Justified(p, log, Used(), err.value)
      decreases MAX_REQUESTS - requests, 1
    {
      var verdict := Examine(ref, trail);
      match verdict
      case Refuse(e) => return Some(e);
      case Served =>
        GrowsReflexive(p, log, resolved, visiting);
        return None;
      case Fetch(selected) =>
        err := Visit(ref, selected, trail);
    }

    /** Lines 93-117: fetch the chosen version, resolve what it depends on, and keep it. */
    method Visit(ref: Reference, selected: string, ghost trail: seq<Package>) returns (err: Option<PlanError>)
      requires Valid() && Following(trail, ref)
      requires ref.id !in visiting && p.notation.validId(ref.id) && p.notation.AtLeast(selected, ref.minimum)
      requires KeepsPromises(p, ref.id, selected) && Sourced(p, log, ref.id, selected)
      requires ref.id in resolved ==> p.notation.AtLeast(selected, resolved[ref.id].version)
      modifies this`resolved, this`visiting, this`requests, this`polls, this`log
      ensures Valid()
      ensures old(log) <= log && requests >= old(requests) && polls >= old(polls)
      ensures err.None? ==>
        && visiting == old(visiting)
        && ref.id in resolved && p.notation.AtLeast(resolved[ref.id].version, ref.minimum)
        && Grows(p.notation, old(resolved), resolved, visiting)
      ensures err.Some? ==> Justified(p, log, Used(), err.value)
      decreases MAX_REQUESTS - requests, 0
    {
      var answer := Request(ref.id, selected);
      if answer.Missing? {
        return Some(answer.error);
      }
      var pkg := answer.package;
      TrailExtends(p.notation, trail, ref, pkg);
      err := ResolveDependencies(pkg, trail + [pkg]);
      if err.None? {
        Keep(pkg, old(resolved), old(visiting));
      }
    }

    /** Lines 115-116: the visit of `pkg` ends, and it is what is kept for its id. */
    method Keep(pkg: Package, ghost before: Resolution, ghost outer: set<string>)
      requires Valid() && Accepted(p, log, pkg.id, pkg) && pkg.id !in outer && visiting == outer + {pkg.id}
      requires forall text :: text in pkg.dependencies ==> Satisfies(p.notation, resolved, text)
      requires pkg.id in before ==> p.notation.AtLeast(pkg.version, before[pkg.id].version)
      requires Grows(p.notation, before, resolved, visiting)
      modifies this`resolved, this`visiting
      ensures Valid() && visiting == outer && resolved == old(resolved)[pkg.id := pkg]
      ensures Grows(p.notation, before, resolved, visiting)
    {
      Finishing(p, log, before, resolved, pkg, outer);
      visiting := visiting - {pkg.id};
      resolved := resolved[pkg.id := pkg];
    }

    /** Lines 105-114. */
    method ResolveDependencies(pkg: Package, ghost trail: seq<Package>) returns (err: Option<PlanError>)
      requires Valid() && trail != [] && trail[|trail| - 1] == pkg && pkg in log
      requires Chain(p.notation, trail) && (forall q :: q in trail ==> q in log)
      requires forall id :: id in visiting ==> HasId(trail, id)
      modifies this`resolved, this`visiting, this`requests, this`polls, this`log
      ensures Valid()
      ensures old(log) <= log && requests >= old(requests) && polls >= old(polls)
      ensures err.None? ==>
        && visiting == old(visiting)
        && Grows(p.notation, old(resolved), resolved, visiting)
        && (forall text :: text in pkg.dependencies ==> Satisfies(p.notation, resolved, text))
      ensures err.Some? ==> Justified(p, log, Used(), err.value)
      decreases MAX_REQUESTS - requests, 2
    {
      GrowsReflexive(p, log, resolved, visiting);
      for k := 0 to |pkg.dependencies|
        invariant Valid() && visiting == old(visiting) && old(log) <= log
        invariant requests >= old(requests) && polls >= old(polls)
        invariant Grows(p.notation, old(resolved), resolved, visiting)
        invariant AllSatisfied(p.notation, resolved, pkg.dependencies, k)
      {
        ghost var before := resolved;
        var dependency := p.notation.cut(pkg.dependencies[k]);
        if dependency.None? {
          return Some(MalformedReference(pkg.dependencies[k]));
        }
        assert Depends(p.notation, pkg, dependency.value);
        err := Resolve(dependency.value, trail);
        if err.Some? {
          return;
        }
        GrowsTransitive(p.notation, old(resolved), before, resolved, visiting);
        AllSatisfiedNext(p.notation, before, resolved, visiting, pkg.dependencies, k);
      }
      return None;
    }

    /** What phase two keeps between calls: a plan so far, all of it reachable. */
    ghost predicate Ordering()
      reads this
    {
      && Settled()
      && Sound(p.notation, ordered) && FromChosen(resolved, ordered)
      && (forall id :: id in visited <==> Holds(ordered, id))
      && (forall id :: id in visited ==> Reachable(p, resolved, id))
    }

    /** `stack` runs from a root through the packages being visited. */
    ghost predicate OnStack(stack: seq<string>, id: string)
      reads this
    {
      && (forall x :: x in visiting <==> x in stack)
      && IsPath(p.notation, resolved, stack + [id]) && IsRoot(p, (stack + [id])[0])
    }

    /**
      Lines 132-152. Succeeds with `id` placed, or exhibits a path that meets a package
      twice. The resolved packages not yet visited are what bounds the recursion.
     */
    method AppendPackage(id: string, ghost stack: seq<string>) returns (ok: bool, ghost circle: seq<string>)
      requires Ordering() && id in resolved && visiting <= resolved.Keys && OnStack(stack, id)
      requires visiting !! visited
      modifies this`visiting, this`visited, this`ordered
      ensures ok ==>
        && Ordering() && visiting == old(visiting) && visiting !! visited
        && id in visited && old(visited) <= visited
      ensures !ok ==> Loops(p, resolved, circle)
      decreases resolved.Keys - visiting - visited, 0
    {
      circle := stack + [id];
      if id in visiting {
        ghost var i :| 0 <= i < |stack| && stack[i] == id;
        assert circle[i] == circle[|stack|];
        return false, circle;
      }
      if id in visited {
        return true, circle;
      }
      var pkg := resolved[id];
      assert id in resolved.Keys - visiting - visited;
      visiting := visiting + {id};
      assert id !in resolved.Keys - visiting - visited;
      ok, circle := AppendDependencies(pkg, stack + [id]);
      if ok {
        assert AcceptedAt(p, log, resolved, id) && ServedAt(p.notation, resolved, id);
        Placing(p.notation, resolved, ordered, pkg);
        assert Reaches(p, resolved, stack + [id], id);
        visiting := visiting - {id};
        visited := visited + {id};
        ordered := ordered + [pkg];
      }
    }

    /** Lines 127-158: the plan, or a proof that the final versions run in a circle. */
    method Order() returns (ok: bool)
      requires Valid() && visiting == {} && visited == {} && ordered == []
      requires LOADER_ID in resolved && p.sourceId in resolved
      modifies this`visiting, this`visited, this`ordered
      ensures ok <==> Acyclic(p, resolved)
      ensures ok ==>
        && Sound(p.notation, ordered) && FromChosen(resolved, ordered)
        && (forall id :: Holds(ordered, id) <==> Reachable(p, resolved, id))
        && |ordered| <= MAX_PACKAGES
    {
      ghost var circle;
      ok, circle := AppendPackage(LOADER_ID, []);
      if ok {
        ok, circle := AppendPackage(p.sourceId, []);
      }
      if ok {
        SoundPlanIsComplete(p, resolved, ordered);
        DistinctIdsFit(p.notation, resolved, ordered);
      }
    }

    /** Lines 141-147. */
    method AppendDependencies(pkg: Package, ghost stack: seq<string>) returns (ok: bool, ghost circle: seq<string>)
      requires Ordering() && visiting <= resolved.Keys && visiting !! visited
      requires stack != [] && IsPath(p.notation, resolved, stack) && IsRoot(p, stack[0])
      requires forall x :: x in visiting <==> x in stack
      requires stack[|stack| - 1] in resolved && resolved[stack[|stack| - 1]] == pkg
      modifies this`visiting, this`visited, this`ordered
      ensures ok ==>
        && Ordering() && visiting == old(visiting) && visiting !! visited && old(visited) <= visited
        && (forall text :: text in pkg.dependencies ==> HoldsReference(p.notation, ordered, text))
      ensures !ok ==> Loops(p, resolved, circle)
      decreases resolved.Keys - visiting - visited, 1
    {
      circle := [];
      for k := 0 to |pkg.dependencies|
        invariant Ordering() && visiting == old(visiting) && visiting !! visited && old(visited) <= visited
        invariant forall j :: 0 <= j < k ==> HoldsReference(p.notation, ordered, pkg.dependencies[j])
      {
        var dependency := p.notation.cut(pkg.dependencies[k]);
        ghost var top := stack[|stack| - 1];
        assert ServedAt(p.notation, resolved, top);
        assert Satisfies(p.notation, resolved, pkg.dependencies[k]);
        assert Depends(p.notation, pkg, dependency.value);
        assert Edge(p.notation, resolved, top, dependency.value.id);
        PathExtends(p.notation, resolved, stack, dependency.value.id);
        ok, circle := AppendPackage(dependency.value.id, stack);
        if !ok {
          return;
        }
      }
      ok := true;
    }
  }

  // ----- the whole planner

  datatype InstalledRecord = InstalledRecord(fromThunderstore: bool, id: string, mod: InstalledMod)

  /** The installed mod per package; of two records of one package the later one counts. */
  function Existing(records: seq<InstalledRecord>): map<string, InstalledMod> {
    if records == [] then map[] else
    var last := records[|records| - 1];
    var earlier := Existing(records[..|records| - 1]);
    if last.fromThunderstore then earlier[last.id := last.mod] else earlier
  }

  /** Record `i` is the last one of the package that is from Thunderstore. */
  ghost predicate LastRecordOf(records: seq<InstalledRecord>, id: string, i: nat) {
    && i < |records| && records[i].fromThunderstore && records[i].id == id
    && forall j :: i < j < |records| ==> !(records[j].fromThunderstore && records[j].id == id)
  }

  lemma {:induction false} ExistingIsLast(records: seq<InstalledRecord>, id: string)
    ensures id in Existing(records) <==> exists i: nat :: LastRecordOf(records, id, i)
    ensures forall i: nat :: LastRecordOf(records, id, i) ==> Existing(records)[id] == records[i].mod
  {
    if records != [] {
      var n := |records| - 1;
      ExistingIsLast(records[..n], id);
      if records[n].fromThunderstore && records[n].id == id {
        assert LastRecordOf(records, id, n);
      } else {
        assert forall i: nat :: LastRecordOf(records, id, i) <==> LastRecordOf(records[..n], id, i);
      }
    }
  }

  method CollectExisting(records: seq<InstalledRecord>) returns (existing: map<string, InstalledMod>)
    ensures existing == Existing(records)
  {
    existing := map[];
    for i := 0 to |records|
      invariant existing == Existing(records[..i])
    {
      assert records[..i + 1][..i] == records[..i];
      if records[i].fromThunderstore {
        existing := existing[records[i].id := records[i].mod];
      }
    }
    assert records[..|records|] == records;
  }

  datatype Outcome = Planned(plan: seq<Package>) | Refused(error: PlanError)

  /** What a run leaves behind: its problem, the fetched packages and the versions kept. */
  datatype Run = Run(problem: Problem, log: set<Package>, used: Usage, settled: bool, chosen: Resolution)

  /** The version a request stands for; `latest` is the provider's list, if it gave one. */
  function RequestedVersion(sourceId: string, versionId: string, latest: Option<seq<string>>): Option<string> {
    if versionId != "" then Some(versionId)
    else if sourceId == LOADER_ID then Some(LOADER_VERSION)
    else if latest.Some? && latest.value != [] then Some(latest.value[0])
    else None
  }

  /** What is asked for: the version named, else the supported loader, else the first one listed. */
  ghost predicate AskedFor(sourceId: string, versionId: string, latest: Option<seq<string>>, version: string) {
    && (versionId != "" ==> version == versionId)
    && (versionId == "" && sourceId == LOADER_ID ==> version == "5.4.2351")
    && (versionId == "" && sourceId != LOADER_ID ==> latest.Some? && latest.value != [] && version == latest.value[0])
  }

  ghost predicate HoldsRequested(plan: seq<Package>, sourceId: string, versionId: string, latest: Option<seq<string>>) {
    exists k :: 0 <= k < |plan| && plan[k].id == sourceId && AskedFor(sourceId, versionId, latest, plan[k].version)
  }

  datatype Entry = Barred(error: PlanError) | Open(version: string)

  /** Lines 26-47: requests that are refused before anything is resolved. */
  function Door(notation: Notation, sourceId: string, versionId: string, latest: Option<seq<string>>): Entry {
    var requested := RequestedVersion(sourceId, versionId, latest);
    if !notation.validId(sourceId) then Barred(InvalidPackageId)
    else if requested == None then Barred(NoVersions)
    else if !notation.ValidVersion(requested.value) then Barred(InvalidVersion)
    else if sourceId == LOADER_ID && requested.value != LOADER_VERSION then Barred(UnsupportedLoaderVersion)
    else Open(requested.value)
  }

  ghost predicate PlanKeepsPromises(run: Run, plan: seq<Package>) {
    forall k :: 0 <= k < |plan| ==>
      && KeepsPromises(run.problem, plan[k].id, plan[k].version)
      && Sourced(run.problem, run.log, plan[k].id, plan[k].version)
      && WasFetched(run.problem, run.used.requests, plan[k])
  }

  /** A plan holds exactly what the final versions reach, in dependency order. */
  ghost predicate GoodPlan(run: Run, plan: seq<Package>) {
    && |plan| <= MAX_PACKAGES
    && Sound(run.problem.notation, plan)
    && PlanKeepsPromises(run, plan)
    && FromChosen(run.chosen, plan)
    && (forall id :: Holds(plan, id) <==> Reachable(run.problem, run.chosen, id))
  }

  /** Something in the plan needs package `k`, and stands after it. */
  ghost predicate Needed(p: Problem, plan: seq<Package>, k: nat)
    requires k < |plan|
  {
    IsRoot(p, plan[k].id) || exists j :: k < j < |plan| && DependsOnId(p.notation, plan[j], plan[k].id)
  }

  /**
    What a plan is, whatever was tried on the way: loader and root are there, every package
    was fetched as it stands, keeps all promises, comes after what it depends on, and is
    needed by something.
   */
  ghost predicate IsPlanFor(p: Problem, plan: seq<Package>) {
    && |plan| <= 128
    && Sound(p.notation, plan)
    && Holds(plan, LOADER_ID) && Holds(plan, p.sourceId)
    && forall k :: 0 <= k < |plan| ==>
       && KeepsPromises(p, plan[k].id, plan[k].version)
       && WasFetched(p, MAX_REQUESTS, plan[k])
       && Needed(p, plan, k)
  }

  lemma ReachedIsNeeded(run: Run, plan: seq<Package>, k: nat)
    requires GoodPlan(run, plan) && k < |plan|
    ensures Needed(run.problem, plan, k)
  {
    var p, id := run.problem, plan[k].id;
    assert Holds(plan, id);
    var path :| Reaches(p, run.chosen, path, id);
    if |path| > 1 {
      var from := path[|path| - 2];
      var front := path[..|path| - 1];
      assert Reaches(p, run.chosen, front, from);
      assert Edge(p.notation, run.chosen, from, id);
      EdgeGoesBack(p.notation, run.chosen, plan, from, id);
      var j := Position(plan, from);
      assert Position(plan, id) == k;
      assert plan[j] == run.chosen[from];
    }
  }

  lemma GoodPlanIsPlanFor(run: Run, plan: seq<Package>)
    requires GoodRun(run) && run.settled && GoodPlan(run, plan)
    ensures IsPlanFor(run.problem, plan)
  {
    assert Reaches(run.problem, run.chosen, [LOADER_ID], LOADER_ID);
    assert Reaches(run.problem, run.chosen, [run.problem.sourceId], run.problem.sourceId);
    forall k: nat | k < |plan| ensures Needed(run.problem, plan, k) && WasFetched(run.problem, MAX_REQUESTS, plan[k]) {
      ReachedIsNeeded(run, plan, k);
    }
  }

  /** A run stays within its limits; once settled, the kept versions serve each other. */
  ghost predicate GoodRun(run: Run) {
    && run.used.requests <= 512 && run.used.held <= 128
    && (run.settled ==>
        && Closed(run.problem.notation, run.chosen)
        && LOADER_ID in run.chosen && run.problem.sourceId in run.chosen)
  }

  /**
    Lines 54-158. Phase one either settles or is refused for a true reason, and then
    the plan exists exactly when the kept versions are free of circles.
   */
  method Solve(problem: Problem) returns (outcome: Outcome, ghost run: Run)
    requires problem.WellPosed()
    ensures run.problem == problem && GoodRun(run)
    ensures run.settled ==> outcome == Refused(FinalCycle) || outcome.Planned?
    ensures run.settled ==> (outcome.Planned? <==> Acyclic(problem, run.chosen))
    ensures !run.settled ==> outcome.Refused? && Justified(problem, run.log, run.used, outcome.error)
    ensures outcome.Planned? ==> GoodPlan(run, outcome.plan)
    ensures outcome.Planned? ==> IsPlanFor(problem, outcome.plan)
  {
    var r := new Resolver(problem);
    var err := r.Resolve(Reference(LOADER_ID, LOADER_VERSION), []);
    if err.None? {
      err := ResolveRoot(r);
    }
    run := Run(problem, r.log, r.Used(), false, r.resolved);
    if err.Some? {
      return Refused(err.value), run;
    }
    run := run.(settled := true);
    var ok := r.Order();
    if !ok {
      return Refused(FinalCycle), run;
    }
    outcome := Planned(r.ordered);
    forall k | 0 <= k < |r.ordered|
      ensures AcceptedAt(problem, r.log, r.resolved, r.ordered[k].id)
    {
    }
    GoodPlanIsPlanFor(run, r.ordered);
  }

  method ResolveRoot(r: Resolver) returns (err: Option<PlanError>)
    requires r.Valid() && r.visiting == {} && LOADER_ID in r.resolved
    modifies r`resolved, r`visiting, r`requests, r`polls, r`log
    ensures r.Valid()
    ensures err.None? ==> r.visiting == {} && LOADER_ID in r.resolved && r.p.sourceId in r.resolved
    ensures err.Some? ==> Justified(r.p, r.log, r.Used(), err.value)
  {
    ghost var before := r.resolved;
    err := r.Resolve(Reference(r.p.sourceId, r.p.versionId), []);
    assert err.None? ==> NotOlder(r.p.notation, before, r.resolved, LOADER_ID);
  }

  /**
    `resolveValheimPackages`: which requests are turned away at the door, and for which
    problem the others are solved.
   */
  method PlanPackages(
    notation: Notation, sourceId: string, versionId: string, latest: Option<seq<string>>,
    records: seq<InstalledRecord>, fetch: (nat, string, string) -> Option<Package>, cancelled: nat -> bool)
    returns (outcome: Outcome, ghost run: Run)
    requires notation.Coherent()
    ensures outcome.Planned? ==> HoldsRequested(outcome.plan, sourceId, versionId, latest)
    ensures outcome == Refused(InvalidPackageId) <==> !notation.validId(sourceId)
    ensures outcome == Refused(NoVersions) <==>
      && notation.validId(sourceId) && versionId == "" && sourceId != LOADER_ID
      && (latest.None? || latest.value == [])
    ensures outcome == Refused(InvalidVersion) <==>
      && notation.validId(sourceId)
      && exists version :: AskedFor(sourceId, versionId, latest, version) && !notation.ValidVersion(version)
    ensures outcome == Refused(UnsupportedLoaderVersion) <==>
      && notation.validId(sourceId) && sourceId == LOADER_ID
      && versionId != "" && versionId != LOADER_VERSION && notation.ValidVersion(versionId)
    ensures var door := Door(notation, sourceId, versionId, latest);
      match door
      case Barred(e) => outcome == Refused(e)
      case Open(version) => outcome.Planned? ==>
        IsPlanFor(Problem(sourceId, version, Existing(records), notation, fetch, cancelled), outcome.plan)
    ensures var door := Door(notation, sourceId, versionId, latest);
      door.Open? ==>
        && run.problem == Problem(sourceId, door.version, Existing(records), notation, fetch, cancelled)
        && GoodRun(run)
        && (outcome.Planned? ==> run.settled && GoodPlan(run, outcome.plan))
        && (outcome.Refused? && outcome.error != FinalCycle ==>
            !run.settled && Justified(run.problem, run.log, run.used, outcome.error))
        && (outcome == Refused(FinalCycle) ==> run.settled && !Acyclic(run.problem, run.chosen))
  {
    var idle := Problem(sourceId, versionId, map[], notation, fetch, cancelled);
    run := Run(idle, {}, Usage(0, 0, 0), false, map[]);
    if !notation.validId(sourceId) {
      return Refused(InvalidPackageId), run;
    }
    var requested := RequestedVersion(sourceId, versionId, latest);
    if requested == None {
      return Refused(NoVersions), run;
    }
    if !notation.ValidVersion(requested.value) {
      return Refused(InvalidVersion), run;
    }
    if sourceId == LOADER_ID && requested.value != LOADER_VERSION {
      return Refused(UnsupportedLoaderVersion), run;
    }
    var existing := CollectExisting(records);
    outcome, run := Solve(Problem(sourceId, requested.value, existing, notation, fetch, cancelled));
  }
}
