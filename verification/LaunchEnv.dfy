/**
  Launch environments: a server's variables are merged over its game's defaults, names
  compared without regard to case, and then joined with the server's secrets.
 */
module LaunchEnv {
  import opened Wrappers

  const MAX_NAME_BYTES := 128
  const MAX_VALUE_BYTES := 4096
  const MAX_VARIABLES := 64
  const MAX_MERGED_VARIABLES := 128
  const MAX_MERGED_ENV_BYTES := 16384

  datatype Variable = Variable(name: string, value: string)

  /** How names compare, and which names and values are accepted. */
  datatype Rules = Rules(upper: string -> string, name: string -> bool, value: string -> bool) {
    function Key(v: Variable): string { upper(v.name) }

    predicate Fine(v: Variable) { name(v.name) && value(v.value) }
  }

  // ----- the lists

  function Keys(r: Rules, list: seq<Variable>): (keys: seq<string>)
    ensures |keys| == |list| && forall i :: 0 <= i < |list| ==> keys[i] == r.Key(list[i])
  {
    seq(|list|, i requires 0 <= i < |list| => r.Key(list[i]))
  }

  ghost predicate NoRepeats(keys: seq<string>) { forall i, j :: 0 <= i < j < |keys| ==> keys[i] != keys[j] }

  ghost predicate Valid(r: Rules, list: seq<Variable>) {
    && |list| <= 64
    && (forall v :: v in list ==> r.Fine(v))
    && NoRepeats(Keys(r, list))
  }

  /** A linear search, the last entry counting. */
  function LastWith(r: Rules, list: seq<Variable>, key: string): Option<Variable> {
    if list == [] then None
    else if r.Key(list[|list| - 1]) == key then Some(list[|list| - 1])
    else LastWith(r, list[..|list| - 1], key)
  }

  lemma {:induction false} LastWithIs(r: Rules, list: seq<Variable>, key: string)
    ensures LastWith(r, list, key).None? <==> key !in Keys(r, list)
    ensures LastWith(r, list, key).Some? ==> LastWith(r, list, key).value in list && r.Key(LastWith(r, list, key).value) == key
  {
    if list != [] {
      var last := |list| - 1;
      LastWithIs(r, list[..last], key);
      assert Keys(r, list) == Keys(r, list[..last]) + [r.Key(list[last])];
    }
  }

  /** Without repeats, the entry found is the only one. */
  lemma {:induction false} LastWithAt(r: Rules, list: seq<Variable>, i: nat)
    requires i < |list| && NoRepeats(Keys(r, list))
    ensures LastWith(r, list, r.Key(list[i])) == Some(list[i])
  {
    var last := |list| - 1;
    if i < last {
      assert Keys(r, list)[i] != Keys(r, list)[last];
      assert Keys(r, list[..last]) == Keys(r, list)[..last];
      LastWithAt(r, list[..last], i);
    }
  }

  /** Order of names and what each name finds make the whole list. */
  lemma Determined(r: Rules, a: seq<Variable>, b: seq<Variable>)
    requires Keys(r, a) == Keys(r, b) && NoRepeats(Keys(r, a))
    requires forall key :: key in Keys(r, a) ==> LastWith(r, a, key) == LastWith(r, b, key)
    ensures a == b
  {
    forall i | 0 <= i < |a| ensures a[i] == b[i] {
      LastWithAt(r, a, i);
      LastWithAt(r, b, i);
      assert Keys(r, a)[i] in Keys(r, a) && Keys(r, b)[i] == r.Key(b[i]);
    }
  }

  // ----- merging

  function IndexOf(keys: seq<string>, key: string): (i: nat)
    ensures i <= |keys| && (i < |keys| ==> keys[i] == key) && (i == |keys| <==> key !in keys)
  {
    if keys == [] || keys[0] == key then 0 else 1 + IndexOf(keys[1..], key)
  }

  /** Sets one variable: where its name is, or at the end. */
  function Put(r: Rules, list: seq<Variable>, v: Variable): seq<Variable> {
    var i := IndexOf(Keys(r, list), r.Key(v));
    if i < |list| then list[i := v] else list + [v]
  }

  function Merge(r: Rules, defaults: seq<Variable>, server: seq<Variable>): seq<Variable> {
    if server == [] then defaults else
    Put(r, Merge(r, defaults, server[..|server| - 1]), server[|server| - 1])
  }

  /** The keys that are not known yet, in order. */
  function New(keys: seq<string>, known: seq<string>): seq<string> {
    if keys == [] then [] else
    var earlier, key := New(keys[..|keys| - 1], known), keys[|keys| - 1];
    if key in known then earlier else earlier + [key]
  }

  lemma {:induction false} NewHas(keys: seq<string>, known: seq<string>, key: string)
    ensures key in New(keys, known) <==> key in keys && key !in known
  {
    if keys != [] {
      NewHas(keys[..|keys| - 1], known, key);
      assert key in keys <==> key in keys[..|keys| - 1] || key == keys[|keys| - 1];
    }
  }

  lemma PutKeys(r: Rules, list: seq<Variable>, v: Variable)
    ensures Keys(r, Put(r, list, v)) == Keys(r, list) + if r.Key(v) in Keys(r, list) then [] else [r.Key(v)]
  {}

  /** The defaults keep their positions; the server's other variables follow in their order. */
  lemma {:induction false} MergeKeys(r: Rules, a: seq<Variable>, b: seq<Variable>)
    requires NoRepeats(Keys(r, b))
    ensures Keys(r, Merge(r, a, b)) == Keys(r, a) + New(Keys(r, b), Keys(r, a))
  {
    if b == [] {
      assert Keys(r, b) == [];
    } else {
      var last := |b| - 1;
      assert Keys(r, b)[..last] == Keys(r, b[..last]);
      MergeKeys(r, a, b[..last]);
      PutKeys(r, Merge(r, a, b[..last]), b[last]);
      NewHas(Keys(r, b[..last]), Keys(r, a), r.Key(b[last]));
      assert forall i :: 0 <= i < last ==> Keys(r, b)[i] != Keys(r, b)[last];
    }
  }

  lemma {:induction false} MergeHasNoRepeats(r: Rules, a: seq<Variable>, b: seq<Variable>)
    requires NoRepeats(Keys(r, a)) && NoRepeats(Keys(r, b))
    ensures NoRepeats(Keys(r, Merge(r, a, b)))
  {
    MergeKeys(r, a, b);
    NewHasNoRepeats(Keys(r, b), Keys(r, a));
    forall key ensures key in New(Keys(r, b), Keys(r, a)) ==> key !in Keys(r, a) {
      NewHas(Keys(r, b), Keys(r, a), key);
    }
    var all := Keys(r, a) + New(Keys(r, b), Keys(r, a));
    assert forall i :: |a| <= i < |all| ==> all[i] in New(Keys(r, b), Keys(r, a));
    assert forall i :: 0 <= i < |a| ==> all[i] in Keys(r, a);
  }

  lemma {:induction false} NewHasNoRepeats(keys: seq<string>, known: seq<string>)
    requires NoRepeats(keys)
    ensures NoRepeats(New(keys, known))
  {
    if keys != [] {
      var last := |keys| - 1;
      NewHasNoRepeats(keys[..last], known);
      NewHas(keys[..last], known, keys[last]);
      assert forall i :: 0 <= i < last ==> keys[..last][i] != keys[last];
    }
  }

  lemma PutFinds(r: Rules, list: seq<Variable>, v: Variable, key: string)
    requires NoRepeats(Keys(r, list))
    ensures LastWith(r, Put(r, list, v), key) == if key == r.Key(v) then Some(v) else LastWith(r, list, key)
  {
    var put := Put(r, list, v);
    PutKeys(r, list, v);
    assert NoRepeats(Keys(r, put));
    var i := IndexOf(Keys(r, put), key);
    LastWithIs(r, put, key);
    LastWithIs(r, list, key);
    if i < |put| {
      LastWithAt(r, put, i);
      if i < |list| {
        LastWithAt(r, list, i);
      }
    }
  }

  /** The merged list finds what a search through defaults and then server variables finds last. */
  lemma {:induction false} MergeIsLastWins(r: Rules, a: seq<Variable>, b: seq<Variable>, key: string)
    requires NoRepeats(Keys(r, a)) && NoRepeats(Keys(r, b))
    ensures LastWith(r, Merge(r, a, b), key) == LastWith(r, a + b, key)
  {
    if b == [] {
      assert a + b == a;
    } else {
      var last := |b| - 1;
      assert Keys(r, b[..last]) == Keys(r, b)[..last];
      MergeIsLastWins(r, a, b[..last], key);
      MergeHasNoRepeats(r, a, b[..last]);
      PutFinds(r, Merge(r, a, b[..last]), b[last], key);
      assert (a + b)[..|a + b| - 1] == a + b[..last];
    }
  }

  lemma {:induction false} LastOfConcat(r: Rules, a: seq<Variable>, b: seq<Variable>, key: string)
    ensures LastWith(r, a + b, key) == if LastWith(r, b, key).Some? then LastWith(r, b, key) else LastWith(r, a, key)
  {
    if b == [] {
      assert a + b == a;
    } else {
      assert (a + b)[..|a + b| - 1] == a + b[..|b| - 1];
      LastOfConcat(r, a, b[..|b| - 1], key);
    }
  }

  // ----- the algebra of merging

  lemma {:induction false} NewOfConcat(x: seq<string>, y: seq<string>, known: seq<string>)
    ensures New(x + y, known) == New(x, known) + New(y, known)
  {
    if y == [] {
      assert x + y == x;
    } else {
      assert (x + y)[..|x + y| - 1] == x + y[..|y| - 1];
      NewOfConcat(x, y[..|y| - 1], known);
    }
  }

  lemma {:induction false} NewTwice(keys: seq<string>, a: seq<string>, b: seq<string>)
    ensures New(New(keys, b), a) == New(keys, a + New(b, a))
  {
    if keys != [] {
      var earlier, key := keys[..|keys| - 1], keys[|keys| - 1];
      NewTwice(earlier, a, b);
      NewHas(b, a, key);
      if key !in b {
        var n := New(earlier, b);
        assert (n + [key])[..|n|] == n;
      }
    }
  }

  lemma AssociativeKeys(r: Rules, a: seq<Variable>, b: seq<Variable>, c: seq<Variable>)
    requires NoRepeats(Keys(r, a)) && NoRepeats(Keys(r, b)) && NoRepeats(Keys(r, c))
    ensures Keys(r, Merge(r, Merge(r, a, b), c)) == Keys(r, Merge(r, a, Merge(r, b, c)))
  {
    var ab, bc := Merge(r, a, b), Merge(r, b, c);
    MergeHasNoRepeats(r, b, c);
    MergeKeys(r, a, b);
    MergeKeys(r, b, c);
    MergeKeys(r, ab, c);
    MergeKeys(r, a, bc);
    NewAssociates(Keys(r, a), Keys(r, b), Keys(r, c));
  }

  lemma NewAssociates(x: seq<string>, y: seq<string>, z: seq<string>)
    ensures (x + New(y, x)) + New(z, x + New(y, x)) == x + New(y + New(z, y), x)
  {
    NewOfConcat(y, New(z, y), x);
    NewTwice(z, x, y);
    var ny, nz := New(y, x), New(New(z, y), x);
    assert (x + ny) + nz == x + (ny + nz);
  }

  /** In three lists, the last one that has a name counts. */
  function LastOfThree(r: Rules, a: seq<Variable>, b: seq<Variable>, c: seq<Variable>, key: string): Option<Variable> {
    if LastWith(r, c, key).Some? then LastWith(r, c, key)
    else if LastWith(r, b, key).Some? then LastWith(r, b, key)
    else LastWith(r, a, key)
  }

  lemma LeftFinds(r: Rules, a: seq<Variable>, b: seq<Variable>, c: seq<Variable>, key: string)
    requires NoRepeats(Keys(r, a)) && NoRepeats(Keys(r, b)) && NoRepeats(Keys(r, c))
    ensures LastWith(r, Merge(r, Merge(r, a, b), c), key) == LastOfThree(r, a, b, c, key)
  {
    MergeHasNoRepeats(r, a, b);
    MergeIsLastWins(r, a, b, key);
    MergeIsLastWins(r, Merge(r, a, b), c, key);
    LastOfConcat(r, a, b, key);
    LastOfConcat(r, Merge(r, a, b), c, key);
  }

  lemma RightFinds(r: Rules, a: seq<Variable>, b: seq<Variable>, c: seq<Variable>, key: string)
    requires NoRepeats(Keys(r, a)) && NoRepeats(Keys(r, b)) && NoRepeats(Keys(r, c))
    ensures LastWith(r, Merge(r, a, Merge(r, b, c)), key) == LastOfThree(r, a, b, c, key)
  {
    MergeHasNoRepeats(r, b, c);
    MergeIsLastWins(r, b, c, key);
    MergeIsLastWins(r, a, Merge(r, b, c), key);
    LastOfConcat(r, b, c, key);
    LastOfConcat(r, a, Merge(r, b, c), key);
  }

  /** Merging is associative, including the order and the spelling of the names. */
  lemma {:induction false} MergeAssociative(r: Rules, a: seq<Variable>, b: seq<Variable>, c: seq<Variable>)
    requires NoRepeats(Keys(r, a)) && NoRepeats(Keys(r, b)) && NoRepeats(Keys(r, c))
    ensures Merge(r, Merge(r, a, b), c) == Merge(r, a, Merge(r, b, c))
  {
    var left, right := Merge(r, Merge(r, a, b), c), Merge(r, a, Merge(r, b, c));
    MergeHasNoRepeats(r, a, b);
    MergeHasNoRepeats(r, Merge(r, a, b), c);
    AssociativeKeys(r, a, b, c);
    forall key ensures LastWith(r, left, key) == LastWith(r, right, key) {
      LeftFinds(r, a, b, c, key);
      RightFinds(r, a, b, c, key);
    }
    Determined(r, left, right);
  }

  lemma {:induction false} NoneNew(keys: seq<string>, known: seq<string>)
    requires forall key :: key in keys ==> key in known
    ensures New(keys, known) == []
  {
    if keys != [] {
      NoneNew(keys[..|keys| - 1], known);
    }
  }

  lemma {:induction false} AllNew(keys: seq<string>)
    ensures New(keys, []) == keys
  {
    if keys != [] {
      AllNew(keys[..|keys| - 1]);
    }
  }

  /** Merging over nothing gives the list itself. */
  lemma {:induction false} MergeOverNothing(r: Rules, a: seq<Variable>)
    requires NoRepeats(Keys(r, a))
    ensures Merge(r, [], a) == a
  {
    var merged := Merge(r, [], a);
    KeysOverNothing(r, a);
    forall key ensures LastWith(r, merged, key) == LastWith(r, a, key) {
      FindsOverNothing(r, a, key);
    }
    Determined(r, merged, a);
  }

  lemma KeysOverNothing(r: Rules, a: seq<Variable>)
    requires NoRepeats(Keys(r, a))
    ensures Keys(r, Merge(r, [], a)) == Keys(r, a)
  {
    var none: seq<Variable> := [];
    MergeKeys(r, none, a);
    assert Keys(r, none) == [];
    AllNew(Keys(r, a));
    assert [] + Keys(r, a) == Keys(r, a);
  }

  lemma FindsOverNothing(r: Rules, a: seq<Variable>, key: string)
    requires NoRepeats(Keys(r, a))
    ensures LastWith(r, Merge(r, [], a), key) == LastWith(r, a, key)
  {
    MergeIsLastWins(r, [], a, key);
    LastOfConcat(r, [], a, key);
  }

  /** Merging a list over itself gives the list itself. */
  lemma {:induction false} MergeIdempotent(r: Rules, a: seq<Variable>)
    requires NoRepeats(Keys(r, a))
    ensures Merge(r, a, a) == a
  {
    MergeKeys(r, a, a);
    NoneNew(Keys(r, a), Keys(r, a));
    forall key ensures LastWith(r, Merge(r, a, a), key) == LastWith(r, a, key) {
      MergeIsLastWins(r, a, a, key);
      LastOfConcat(r, a, a, key);
    }
    Determined(r, Merge(r, a, a), a);
  }

  /** What merging yields can be merged again exactly if it is not too long. */
  lemma MergeIsValid(r: Rules, a: seq<Variable>, b: seq<Variable>)
    requires Valid(r, a) && Valid(r, b)
    ensures Valid(r, Merge(r, a, b)) <==> |Merge(r, a, b)| <= MAX_VARIABLES
    ensures |Merge(r, a, b)| <= MAX_MERGED_VARIABLES
  {
    MergeHasNoRepeats(r, a, b);
    MergeFrom(r, a, b);
  }

  lemma {:induction false} MergeFrom(r: Rules, a: seq<Variable>, b: seq<Variable>)
    ensures forall v :: v in Merge(r, a, b) ==> v in a || v in b
    ensures |Merge(r, a, b)| <= |a| + |b|
  {
    if b != [] {
      MergeFrom(r, a, b[..|b| - 1]);
    }
  }

  // ----- validation

  datatype Issue =
    | TooMany
    | BadName(name: string)
    | BadValue(name: string)
    | Duplicates(name: string, previous: string)
    | Conflicts(name: string, normal: string)
    | TooLarge

  /** The first entry before `i` with the same key. */
  ghost predicate Repeats(r: Rules, list: seq<Variable>, i: nat)
    requires i < |list|
  {
    Keys(r, list)[i] in Keys(r, list)[..i]
  }

  lemma RepeatsSomewhere(r: Rules, list: seq<Variable>)
    ensures NoRepeats(Keys(r, list)) <==> forall i :: 0 <= i < |list| ==> !Repeats(r, list, i)
  {
    var keys := Keys(r, list);
    if !NoRepeats(keys) {
      var i, j :| 0 <= i < j < |keys| && keys[i] == keys[j];
      assert keys[..j][i] == keys[j];
      assert Repeats(r, list, j);
    }
  }

  /** What entry `i` gives rise to. */
  function Entry(r: Rules, list: seq<Variable>, i: nat): seq<Issue>
    requires i < |list|
  {
    var v := list[i];
    (if r.name(v.name) then [] else [BadName(v.name)])
    + (if r.value(v.value) then [] else [BadValue(v.name)])
    + var at := IndexOf(Keys(r, list)[..i], r.Key(v));
      if at < i then [Duplicates(v.name, list[at].name)] else []
  }

  function Entries(r: Rules, list: seq<Variable>, n: nat): seq<Issue>
    requires n <= |list|
  {
    if n == 0 then [] else Entries(r, list, n - 1) + Entry(r, list, n - 1)
  }

  /** Every problem of a list, each repeated name with the first entry that has it. */
  function Issues(r: Rules, list: seq<Variable>): seq<Issue> {
    (if |list| > MAX_VARIABLES then [TooMany] else []) + Entries(r, list, |list|)
  }

  lemma {:induction false} NoEntries(r: Rules, list: seq<Variable>, n: nat)
    requires n <= |list|
    ensures Entries(r, list, n) == [] <==> forall i :: 0 <= i < n ==> r.Fine(list[i]) && !Repeats(r, list, i)
  {
    if n > 0 {
      NoEntries(r, list, n - 1);
      assert r.Key(list[n - 1]) == Keys(r, list)[n - 1];
    }
  }

  /** What is reported of the first `n` entries: every bad name and value, and every repeated name. */
  ghost predicate Reported(r: Rules, list: seq<Variable>, n: nat, issue: Issue)
    requires n <= |list|
  {
    exists i :: 0 <= i < n && ReportedAt(r, list, i, issue)
  }

  ghost predicate ReportedAt(r: Rules, list: seq<Variable>, i: nat, issue: Issue)
    requires i < |list|
  {
    match issue
    case BadName(name) => list[i].name == name && !r.name(name)
    case BadValue(name) => list[i].name == name && !r.value(list[i].value)
    case Duplicates(name, previous) => exists j :: 0 <= j < i && RepeatsFirst(r, list, i, j, name, previous)
    case _ => false
  }

  /** Entry `i` repeats entry `j`, the first one with its name, whatever the spelling. */
  ghost predicate RepeatsFirst(r: Rules, list: seq<Variable>, i: nat, j: nat, name: string, previous: string)
    requires j < i < |list|
  {
    && list[i].name == name && list[j].name == previous && r.upper(name) == r.upper(previous)
    && forall k :: 0 <= k < j ==> r.upper(list[k].name) != r.upper(name)
  }

  lemma {:induction false} IndexIsFirst(keys: seq<string>, key: string)
    ensures forall k :: 0 <= k < IndexOf(keys, key) && k < |keys| ==> keys[k] != key
    ensures IndexOf(keys, key) < |keys| ==> keys[IndexOf(keys, key)] == key
  {
    if keys != [] && keys[0] != key {
      IndexIsFirst(keys[1..], key);
      assert forall k :: 1 <= k < |keys| ==> keys[k] == keys[1..][k - 1];
    }
  }

  lemma EntryReports(r: Rules, list: seq<Variable>, i: nat, issue: Issue)
    requires i < |list|
    ensures issue in Entry(r, list, i) <==> ReportedAt(r, list, i, issue)
  {
    var v := list[i];
    var at := IndexOf(Keys(r, list)[..i], r.Key(v));
    IndexIsFirst(Keys(r, list)[..i], r.Key(v));
    if issue.Duplicates? {
      if at < i && issue == Duplicates(v.name, list[at].name) {
        assert RepeatsFirst(r, list, i, at, v.name, list[at].name);
      }
      if exists j :: 0 <= j < i && RepeatsFirst(r, list, i, j, issue.name, issue.previous) {
        var j :| 0 <= j < i && RepeatsFirst(r, list, i, j, issue.name, issue.previous);
        assert Keys(r, list)[..i][j] == r.Key(v);
        assert at == j;
      }
    }
  }

  lemma EntriesNext(r: Rules, list: seq<Variable>, n: nat, issue: Issue)
    requires n < |list|
    ensures issue in Entries(r, list, n + 1) <==> issue in Entries(r, list, n) || issue in Entry(r, list, n)
  {
    var earlier, entry := Entries(r, list, n), Entry(r, list, n);
    assert Entries(r, list, n + 1) == earlier + entry;
  }

  /** The entries tell of an issue exactly if it is to be reported. */
  ghost predicate Tells(r: Rules, list: seq<Variable>, n: nat, issue: Issue)
    requires n <= |list|
  {
    issue in Entries(r, list, n) <==> Reported(r, list, n, issue)
  }

  lemma TellsNext(r: Rules, list: seq<Variable>, n: nat, issue: Issue)
    requires n < |list| && Tells(r, list, n, issue)
    ensures Tells(r, list, n + 1, issue)
  {
    EntriesNext(r, list, n, issue);
    EntryReports(r, list, n, issue);
    ReportedNext(r, list, n, issue);
  }

  lemma {:induction false} EntriesReport(r: Rules, list: seq<Variable>, n: nat, issue: Issue)
    requires n <= |list|
    ensures Tells(r, list, n, issue)
  {
    if n > 0 {
      EntriesReport(r, list, n - 1, issue);
      TellsNext(r, list, n - 1, issue);
    }
  }

  lemma ReportedNext(r: Rules, list: seq<Variable>, n: nat, issue: Issue)
    requires n < |list|
    ensures Reported(r, list, n + 1, issue) <==> Reported(r, list, n, issue) || ReportedAt(r, list, n, issue)
  {
  }

  lemma ReportedExactly(r: Rules, list: seq<Variable>, issue: Issue)
    ensures issue in Issues(r, list) <==> (if issue.TooMany? then |list| > 64 else Reported(r, list, |list|, issue))
  {
    EntriesReport(r, list, |list|, issue);
  }

  /** A list has no problems exactly if it is valid. */
  lemma NoIssues(r: Rules, list: seq<Variable>)
    ensures Issues(r, list) == [] <==> Valid(r, list)
  {
    NoEntries(r, list, |list|);
    RepeatsSomewhere(r, list);
  }

  lemma Associate(a: seq<Issue>, b: seq<Issue>, c: seq<Issue>)
    ensures (a + b) + c == a + (b + c)
  {}

  method ValidateVariables(r: Rules, variables: seq<Variable>) returns (issues: seq<Issue>)
    ensures issues == Issues(r, variables)
  {
    issues := if |variables| > MAX_VARIABLES then [TooMany] else [];
    ghost var start := issues;
    var seen: map<string, string> := map[];
    for i := 0 to |variables|
      invariant issues == start + Entries(r, variables, i)
      invariant Seen(r, variables, i, seen)
    {
      var found;
      found, seen := ValidateEntry(r, variables, i, seen);
      issues := issues + found;
      Associate(start, Entries(r, variables, i), found);
    }
  }

  /** The keys before `i`, each with the name that had it first. */
  ghost predicate Seen(r: Rules, list: seq<Variable>, i: nat, seen: map<string, string>)
    requires i <= |list|
  {
    forall key :: (key in seen <==> key in Keys(r, list)[..i]) && (key in seen ==> SeenFirst(r, list, i, seen, key))
  }

  ghost predicate SeenFirst(r: Rules, list: seq<Variable>, i: nat, seen: map<string, string>, key: string)
    requires i <= |list| && key in seen
  {
    var at := IndexOf(Keys(r, list)[..i], key);
    at < i && seen[key] == list[at].name
  }

  method ValidateEntry(r: Rules, variables: seq<Variable>, i: nat, seen: map<string, string>)
    returns (found: seq<Issue>, nowSeen: map<string, string>)
    requires i < |variables| && Seen(r, variables, i, seen)
    ensures found == Entry(r, variables, i) && Seen(r, variables, i + 1, nowSeen)
  {
    var v := variables[i];
    found, nowSeen := [], seen;
    if !r.name(v.name) {
      found := found + [BadName(v.name)];
    }
    if !r.value(v.value) {
      found := found + [BadValue(v.name)];
    }
    var key := r.upper(v.name);
    SeenNext(r, variables, i, seen);
    if key in seen {
      found := found + [Duplicates(v.name, seen[key])];
    } else {
      nowSeen := seen[key := v.name];
    }
  }

  lemma SeenNext(r: Rules, list: seq<Variable>, i: nat, seen: map<string, string>)
    requires i < |list| && Seen(r, list, i, seen)
    ensures var key, at := r.Key(list[i]), IndexOf(Keys(r, list)[..i], r.Key(list[i]));
            && (key in seen <==> at < i) && (key in seen ==> seen[key] == list[at].name)
            && Seen(r, list, i + 1, if key in seen then seen else seen[key := list[i].name])
  {
    var key := r.Key(list[i]);
    var nowSeen := if key in seen then seen else seen[key := list[i].name];
    FirstStays(Keys(r, list), i);
    assert key in seen ==> SeenFirst(r, list, i, seen, key);
    forall k | k in nowSeen ensures SeenFirst(r, list, i + 1, nowSeen, k) {
      assert k != key ==> SeenFirst(r, list, i, seen, k);
    }
  }

  /** One more key does not change where the earlier ones are first. */
  lemma FirstStays(keys: seq<string>, i: nat)
    requires i < |keys|
    ensures forall key :: key in keys[..i] ==> IndexOf(keys[..i + 1], key) == IndexOf(keys[..i], key)
    ensures keys[i] !in keys[..i] ==> IndexOf(keys[..i + 1], keys[i]) == i
    ensures forall key :: key in keys[..i + 1] <==> key in keys[..i] || key == keys[i]
  {
    assert keys[..i + 1] == keys[..i] + [keys[i]];
    forall key ensures key in keys[..i] ==> IndexOf(keys[..i + 1], key) == IndexOf(keys[..i], key) {
      IndexOfFront(keys[..i], keys[i], key);
    }
    IndexOfFront(keys[..i], keys[i], keys[i]);
  }

  lemma {:induction false} IndexOfFront(front: seq<string>, last: string, key: string)
    ensures IndexOf(front + [last], key) == if key in front then IndexOf(front, key) else if key == last then |front| else |front| + 1
  {
    if front != [] {
      assert (front + [last])[1..] == front[1..] + [last];
      IndexOfFront(front[1..], last, key);
    }
  }

  // ----- the merge

  method MergeNormal(r: Rules, defaults: seq<Variable>, server: seq<Variable>)
    returns (merged: seq<Variable>, issues: seq<Issue>)
    ensures issues == Issues(r, defaults) + Issues(r, server)
    ensures issues == [] <==> Valid(r, defaults) && Valid(r, server)
    ensures merged == if issues == [] then Merge(r, defaults, server) else []
  {
    var defaultIssues := ValidateVariables(r, defaults);
    var serverIssues := ValidateVariables(r, server);
    NoIssues(r, defaults);
    NoIssues(r, server);
    issues := defaultIssues + serverIssues;
    if |issues| > 0 {
      return [], issues;
    }
    merged := MergeIndexed(r, defaults, server);
  }

  /** The loops of the merge, with positions looked up in a map. */
  method MergeIndexed(r: Rules, defaults: seq<Variable>, server: seq<Variable>) returns (merged: seq<Variable>)
    requires NoRepeats(Keys(r, defaults)) && NoRepeats(Keys(r, server))
    ensures merged == Merge(r, defaults, server)
  {
    merged := [];
    var indexByName: map<string, nat> := map[];
    for i := 0 to |defaults|
      invariant merged == defaults[..i] && Indexed(r, merged, indexByName)
    {
      IndexedPut(r, merged, indexByName, defaults[i]);
      NewKey(r, defaults, i);
      indexByName := indexByName[r.upper(defaults[i].name) := |merged|];
      merged := merged + [defaults[i]];
    }
    for i := 0 to |server|
      invariant merged == Merge(r, defaults, server[..i]) && Indexed(r, merged, indexByName)
    {
      var key := r.upper(server[i].name);
      assert server[..i + 1][..i] == server[..i];
      IndexedPut(r, merged, indexByName, server[i]);
      if key in indexByName {
        merged := merged[indexByName[key] := server[i]];
      } else {
        indexByName := indexByName[key := |merged|];
        merged := merged + [server[i]];
      }
    }
    assert server[..|server|] == server;
  }

  /** The map has exactly the keys of the list, each with its position. */
  ghost predicate Indexed(r: Rules, list: seq<Variable>, index: map<string, nat>) {
    && NoRepeats(Keys(r, list))
    && (forall key :: key in index <==> key in Keys(r, list))
    && forall key :: key in index ==> index[key] == IndexOf(Keys(r, list), key)
  }

  lemma IndexedPut(r: Rules, list: seq<Variable>, index: map<string, nat>, v: Variable)
    requires Indexed(r, list, index)
    ensures var key := r.Key(v);
            if key in index then
              index[key] < |list| && list[index[key] := v] == Put(r, list, v) && Indexed(r, Put(r, list, v), index)
            else
              list + [v] == Put(r, list, v) && Indexed(r, Put(r, list, v), index[key := |list|])
  {
    var key := r.Key(v);
    PutKeys(r, list, v);
    if key !in index {
      forall k ensures IndexOf(Keys(r, list) + [key], k)
                    == if k in Keys(r, list) then IndexOf(Keys(r, list), k) else if k == key then |list| else |list| + 1
      {
        IndexOfFront(Keys(r, list), key, k);
      }
    }
  }

  lemma NewKey(r: Rules, list: seq<Variable>, i: nat)
    requires i < |list| && NoRepeats(Keys(r, list))
    ensures Keys(r, list[..i]) == Keys(r, list)[..i] && r.Key(list[i]) !in Keys(r, list[..i])
  {
    assert forall j :: 0 <= j < i ==> Keys(r, list)[j] != Keys(r, list)[i];
  }

  // ----- secrets

  /** Names of which no two are the same but for case. */
  ghost predicate Apart(r: Rules, names: set<string>) {
    forall a, b :: a in names && b in names && r.upper(a) == r.upper(b) ==> a == b
  }

  ghost predicate FineSecret(r: Rules, secrets: map<string, string>, normal: seq<Variable>, name: string)
    requires name in secrets
  {
    r.name(name) && r.value(secrets[name]) && r.upper(name) !in Keys(r, normal)
  }

  ghost predicate ValidSecrets(r: Rules, secrets: map<string, string>, normal: seq<Variable>) {
    && |secrets| <= 64
    && Apart(r, secrets.Keys)
    && forall name :: name in secrets ==> FineSecret(r, secrets, normal, name)
  }

  /** A name that is fine and neither repeats one before it nor is a normal variable's. */
  ghost predicate FineState(r: Rules, states: seq<string>, normal: seq<Variable>, i: nat)
    requires i < |states|
  {
    && r.name(states[i]) && r.upper(states[i]) !in Keys(r, normal)
    && forall j :: 0 <= j < i ==> r.upper(states[j]) != r.upper(states[i])
  }

  ghost predicate FineStates(r: Rules, states: seq<string>, normal: seq<Variable>, n: nat)
    requires n <= |states|
  {
    forall i :: 0 <= i < n ==> FineState(r, states, normal, i)
  }

  method ValidateSecretStates(r: Rules, states: seq<string>, normal: seq<Variable>) returns (issues: seq<Issue>)
    ensures issues == [] <==> |states| <= MAX_VARIABLES && FineStates(r, states, normal, |states|)
  {
    issues := if |states| > MAX_VARIABLES then [TooMany] else [];
    var normalNames: map<string, string> := map[];
    for i := 0 to |normal|
      invariant forall key :: key in normalNames <==> key in Keys(r, normal)[..i]
    {
      assert Keys(r, normal)[..i + 1] == Keys(r, normal)[..i] + [r.Key(normal[i])];
      normalNames := normalNames[r.upper(normal[i].name) := normal[i].name];
    }
    assert Keys(r, normal)[..|normal|] == Keys(r, normal);
    var seen: map<string, string> := map[];
    for i := 0 to |states|
      invariant issues == [] <==> |states| <= MAX_VARIABLES && FineStates(r, states, normal, i)
      invariant forall j :: 0 <= j < i ==> r.upper(states[j]) in seen
      invariant forall key :: key in seen ==> exists j :: 0 <= j < i && r.upper(states[j]) == key
    {
      var key := r.upper(states[i]);
      assert FineStates(r, states, normal, i + 1) <==> FineStates(r, states, normal, i) && FineState(r, states, normal, i);
      if !r.name(states[i]) {
        issues := issues + [BadName(states[i])];
      }
      if key in seen {
        issues := issues + [Duplicates(states[i], seen[key])];
      } else {
        seen := seen[key := states[i]];
        if key in normalNames {
          issues := issues + [Conflicts(states[i], normalNames[key])];
        }
      }
    }
  }

  // ----- the final map

  function EntrySize(name: string, value: string): nat { |name| + 1 + |value| + 1 }

  ghost function Size(env: map<string, string>): nat
    decreases |env|
  {
    if env == map[] then 0 else
    var name :| name in env;
    EntrySize(name, env[name]) + Size(env - {name})
  }

  /** One variable takes its name, its value and two bytes more. */
  lemma SizeOfOne(name: string, value: string)
    ensures Size(map[name := value]) == |name| + |value| + 2
  {
    SizeWithout(map[name := value], name);
    assert map[name := value] - {name} == map[];
  }

  /** The size does not depend on the order of counting. */
  lemma {:induction false} SizeWithout(env: map<string, string>, name: string)
    requires name in env
    ensures Size(env) == EntrySize(name, env[name]) + Size(env - {name})
    decreases |env|
  {
    var first :| first in env && Size(env) == EntrySize(first, env[first]) + Size(env - {first});
    if first != name {
      SizeWithout(env - {first}, name);
      SizeWithout(env - {name}, first);
      assert env - {first} - {name} == env - {name} - {first};
    }
  }

  ghost predicate FineEntries(r: Rules, env: map<string, string>, names: set<string>)
    requires names <= env.Keys
  {
    Apart(r, names) && forall name :: name in names ==> r.name(name) && r.value(env[name])
  }

  ghost predicate ValidMap(r: Rules, env: map<string, string>) {
    && |env| <= 128
    && FineEntries(r, env, env.Keys)
    && Size(env) <= 16384
  }

  /** The upper-case names of `names`, each with one that has it. */
  ghost predicate SeenOf(r: Rules, names: set<string>, seen: map<string, string>) {
    && (forall name :: name in names ==> r.upper(name) in seen)
    && forall key :: key in seen ==> seen[key] in names && r.upper(seen[key]) == key
  }

  method ValidateMapEntry(r: Rules, ghost env: map<string, string>, rest: map<string, string>, ghost names: set<string>,
                          name: string, seen: map<string, string>)
    returns (found: seq<Issue>, nowSeen: map<string, string>)
    requires names <= env.Keys && name in env && name !in names && SeenOf(r, names, seen)
    requires name in rest && rest[name] == env[name]
    ensures SeenOf(r, names + {name}, nowSeen)
    ensures FineEntries(r, env, names + {name}) <==> FineEntries(r, env, names) && found == []
  {
    found, nowSeen := [], seen;
    if !r.name(name) {
      found := found + [BadName(name)];
    }
    if !r.value(rest[name]) {
      found := found + [BadValue(name)];
    }
    var key := r.upper(name);
    assert r.upper(name) == key;
    if key in seen {
      found := found + [Duplicates(name, seen[key])];
    } else {
      nowSeen := seen[key := name];
    }
  }

  /** The check when the entries in `rest` are still to come. */
  ghost predicate Checking(r: Rules, env: map<string, string>, rest: map<string, string>, seen: map<string, string>,
                           issues: seq<Issue>, size: nat) {
    && rest == env - (env.Keys - rest.Keys)
    && SeenOf(r, env.Keys - rest.Keys, seen)
    && (issues == [] <==> |env| <= MAX_MERGED_VARIABLES && FineEntries(r, env, env.Keys - rest.Keys))
    && size + Size(rest) == Size(env)
  }

  method ValidateMapNext(r: Rules, ghost env: map<string, string>, rest: map<string, string>, seen: map<string, string>,
                         issues: seq<Issue>, size: nat)
    returns (nowRest: map<string, string>, nowSeen: map<string, string>, nowIssues: seq<Issue>, nowSize: nat)
    requires rest != map[] && Checking(r, env, rest, seen, issues, size)
    ensures Checking(r, env, nowRest, nowSeen, nowIssues, nowSize) && |nowRest| < |rest|
  {
    var name :| name in rest;
    var found;
    found, nowSeen := ValidateMapEntry(r, env, rest, env.Keys - rest.Keys, name, seen);
    nowRest, nowIssues, nowSize := rest - {name}, issues + found, size + |name| + 1 + |rest[name]| + 1;
    SizeWithout(rest, name);
    assert env.Keys - nowRest.Keys == env.Keys - rest.Keys + {name};
    assert rest.Keys == nowRest.Keys + {name};
  }

  lemma CheckingStarts(r: Rules, env: map<string, string>, issues: seq<Issue>)
    requires issues == [] <==> |env| <= MAX_MERGED_VARIABLES
    ensures Checking(r, env, env, map[], issues, 0)
  {
    assert env.Keys - env.Keys == {};
  }

  lemma CheckingEnds(r: Rules, env: map<string, string>, seen: map<string, string>, issues: seq<Issue>, size: nat)
    requires Checking(r, env, map[], seen, issues, size)
    ensures ValidMap(r, env) <==> issues == [] && size <= MAX_MERGED_ENV_BYTES
  {
    var none: map<string, string> := map[];
    assert env.Keys - none.Keys == env.Keys;
  }

  /** A loop over the map in any order. */
  method ValidateMap(r: Rules, env: map<string, string>) returns (issues: seq<Issue>)
    ensures issues == [] <==> ValidMap(r, env)
  {
    issues := if |env| > MAX_MERGED_VARIABLES then [TooMany] else [];
    var rest, seen: map<string, string>, size: nat := env, map[], 0;
    CheckingStarts(r, env, issues);
    while rest != map[]
      invariant Checking(r, env, rest, seen, issues, size)
      decreases |rest|
    {
      rest, seen, issues, size := ValidateMapNext(r, env, rest, seen, issues, size);
    }
    CheckingEnds(r, env, seen, issues, size);
    if size > MAX_MERGED_ENV_BYTES {
      issues := issues + [TooLarge];
    }
  }

  function NormalMap(list: seq<Variable>): map<string, string> {
    if list == [] then map[] else
    NormalMap(list[..|list| - 1])[list[|list| - 1].name := list[|list| - 1].value]
  }

  function ListSize(list: seq<Variable>): nat {
    if list == [] then 0 else
    ListSize(list[..|list| - 1]) + EntrySize(list[|list| - 1].name, list[|list| - 1].value)
  }

  ghost predicate NotAmong(r: Rules, secrets: map<string, string>, list: seq<Variable>) {
    forall name :: name in secrets ==> r.upper(name) !in Keys(r, list)
  }

  lemma {:induction false} NormalMapHas(r: Rules, list: seq<Variable>)
    requires NoRepeats(Keys(r, list))
    ensures forall v :: v in list ==> v.name in NormalMap(list) && NormalMap(list)[v.name] == v.value
    ensures forall name :: name in NormalMap(list) ==> Variable(name, NormalMap(list)[name]) in list
  {
    if list != [] {
      var last := |list| - 1;
      NewKey(r, list, last);
      NormalMapHas(r, list[..last]);
      forall v | v in list[..last] ensures v.name != list[last].name {
        assert r.Key(v) in Keys(r, list[..last]);
      }
    }
  }

  lemma SizeWith(env: map<string, string>, name: string, value: string)
    requires name !in env
    ensures Size(env[name := value]) == Size(env) + EntrySize(name, value) && |env[name := value]| == |env| + 1
  {
    var more := env[name := value];
    SizeWithout(more, name);
    assert more - {name} == env;
    assert more.Keys == env.Keys + {name};
  }

  lemma KeyIn(r: Rules, list: seq<Variable>, v: Variable)
    requires v in list
    ensures r.Key(v) in Keys(r, list)
  {
    var i :| 0 <= i < |list| && list[i] == v;
    assert Keys(r, list)[i] == r.Key(v);
  }

  /** No entry is lost where no two names are the same but for case, and so the sizes add up. */
  lemma {:induction false} NothingLost(r: Rules, list: seq<Variable>, secrets: map<string, string>)
    requires NoRepeats(Keys(r, list)) && NotAmong(r, secrets, list)
    ensures |NormalMap(list) + secrets| == |list| + |secrets|
    ensures Size(NormalMap(list) + secrets) == ListSize(list) + Size(secrets)
  {
    if list == [] {
      assert NormalMap(list) + secrets == secrets;
    } else {
      var front, v := list[..|list| - 1], list[|list| - 1];
      LastIsNew(r, list, secrets);
      NothingLost(r, front, secrets);
      SizeWith(NormalMap(front) + secrets, v.name, v.value);
      MapOfLast(list, secrets);
    }
  }

  lemma MapOfLast(list: seq<Variable>, secrets: map<string, string>)
    requires list != [] && list[|list| - 1].name !in secrets
    ensures NormalMap(list) + secrets
         == (NormalMap(list[..|list| - 1]) + secrets)[list[|list| - 1].name := list[|list| - 1].value]
  {}

  lemma LastIsNew(r: Rules, list: seq<Variable>, secrets: map<string, string>)
    requires list != [] && NoRepeats(Keys(r, list)) && NotAmong(r, secrets, list)
    ensures var front, name := list[..|list| - 1], list[|list| - 1].name;
            && NoRepeats(Keys(r, front)) && NotAmong(r, secrets, front)
            && name !in NormalMap(front) && name !in secrets
  {
    var v, front := list[|list| - 1], list[..|list| - 1];
    NewKey(r, list, |list| - 1);
    NormalMapHas(r, front);
    if v.name in NormalMap(front) {
      KeyIn(r, front, Variable(v.name, NormalMap(front)[v.name]));
    }
    KeyIn(r, list, v);
    assert forall key :: key in Keys(r, front) ==> key in Keys(r, list);
  }

  /** After the earlier checks, the last one can only find the size at fault. */
  lemma {:induction false} OnlySizeIsLeft(r: Rules, normal: seq<Variable>, secrets: map<string, string>)
    requires Valid(r, normal) && ValidSecrets(r, secrets, normal)
    ensures var env := NormalMap(normal) + secrets;
            && |env| == |normal| + |secrets|
            && (ValidMap(r, env) <==> ListSize(normal) + Size(secrets) <= MAX_MERGED_ENV_BYTES)
  {
    var env := NormalMap(normal) + secrets;
    assert NotAmong(r, secrets, normal) by {
      assert forall name :: name in secrets ==> FineSecret(r, secrets, normal, name);
    }
    NothingLost(r, normal, secrets);
    forall a, b | a in env && b in env && r.upper(a) == r.upper(b) ensures a == b {
      NamesApart(r, normal, secrets, a, b);
    }
    forall name | name in env ensures r.name(name) && r.value(env[name]) {
      FineInBoth(r, normal, secrets, name);
    }
  }

  lemma FineInBoth(r: Rules, normal: seq<Variable>, secrets: map<string, string>, name: string)
    requires Valid(r, normal) && ValidSecrets(r, secrets, normal) && name in NormalMap(normal) + secrets
    ensures r.name(name) && r.value((NormalMap(normal) + secrets)[name])
  {
    NormalMapHas(r, normal);
    if name in secrets {
      assert FineSecret(r, secrets, normal, name);
    } else {
      assert r.Fine(Variable(name, NormalMap(normal)[name]));
    }
  }

  lemma SameNormalName(r: Rules, normal: seq<Variable>, a: string, b: string)
    requires NoRepeats(Keys(r, normal)) && a in NormalMap(normal) && b in NormalMap(normal) && r.upper(a) == r.upper(b)
    ensures a == b
  {
    NormalMapHas(r, normal);
    var i :| 0 <= i < |normal| && normal[i] == Variable(a, NormalMap(normal)[a]);
    var j :| 0 <= j < |normal| && normal[j] == Variable(b, NormalMap(normal)[b]);
    assert Keys(r, normal)[i] == Keys(r, normal)[j];
  }

  lemma NamesApart(r: Rules, normal: seq<Variable>, secrets: map<string, string>, a: string, b: string)
    requires NoRepeats(Keys(r, normal)) && NotAmong(r, secrets, normal) && Apart(r, secrets.Keys)
    requires a in NormalMap(normal) + secrets && b in NormalMap(normal) + secrets && r.upper(a) == r.upper(b)
    ensures a == b
  {
    NormalMapHas(r, normal);
    if a !in secrets {
      KeyIn(r, normal, Variable(a, NormalMap(normal)[a]));
      SameNormalName(r, normal, a, b);
    } else if b !in secrets {
      KeyIn(r, normal, Variable(b, NormalMap(normal)[b]));
    }
  }

  /** The names of the secrets, in any order, each once. */
  method StatesOf(secrets: map<string, string>) returns (states: seq<string>)
    ensures forall name :: name in states <==> name in secrets
    ensures NoRepeats(states) && |states| == |secrets|
  {
    states := [];
    var rest := secrets.Keys;
    while rest != {}
      invariant rest <= secrets.Keys
      invariant forall name :: name in states <==> name in secrets.Keys - rest
      invariant NoRepeats(states) && |states| + |rest| == |secrets|
      decreases |rest|
    {
      var name :| name in rest;
      assert name !in states && forall i :: 0 <= i < |states| ==> states[i] in states;
      rest := rest - {name};
      states := states + [name];
    }
  }

  ghost predicate Launchable(r: Rules, normal: seq<Variable>, secrets: map<string, string>) {
    && Valid(r, normal) && ValidSecrets(r, secrets, normal)
    && ListSize(normal) + Size(secrets) <= 16384
  }

  method BuildLaunchEnv(r: Rules, normal: seq<Variable>, secrets: map<string, string>)
    returns (env: map<string, string>, issues: seq<Issue>)
    ensures issues == [] <==> Launchable(r, normal, secrets)
    ensures issues != [] ==> env == map[]
    ensures issues == [] ==> env == NormalMap(normal) + secrets && |env| == |normal| + |secrets|
    ensures issues == [] ==> Size(env) <= MAX_MERGED_ENV_BYTES
  {
    env := map[];
    var states := StatesOf(secrets);
    var normalIssues := ValidateVariables(r, normal);
    NoIssues(r, normal);
    var stateIssues := ValidateSecretStates(r, states, normal);
    var valueIssues := ValidateSecretValues(r, states, secrets);
    StatesAreSecrets(r, states, secrets, normal);
    issues := normalIssues + stateIssues + valueIssues;
    if |issues| > 0 {
      return;
    }
    OnlySizeIsLeft(r, normal, secrets);
    var built := CopyNormal(normal);
    built := built + secrets;
    issues := ValidateMap(r, built);
    if |issues| > 0 {
      return;
    }
    env := built;
  }

  method ValidateSecretValues(r: Rules, states: seq<string>, secrets: map<string, string>) returns (issues: seq<Issue>)
    requires forall name :: name in states <==> name in secrets
    ensures issues == [] <==> forall name :: name in secrets ==> r.value(secrets[name])
  {
    issues := [];
    for i := 0 to |states|
      invariant issues == [] <==> forall j :: 0 <= j < i ==> r.value(secrets[states[j]])
    {
      if !r.value(secrets[states[i]]) {
        issues := issues + [BadValue(states[i])];
      }
    }
    assert forall j :: 0 <= j < |states| ==> states[j] in secrets;
  }

  method CopyNormal(normal: seq<Variable>) returns (env: map<string, string>)
    ensures env == NormalMap(normal)
  {
    env := map[];
    for i := 0 to |normal|
      invariant env == NormalMap(normal[..i])
    {
      assert normal[..i + 1][..i] == normal[..i];
      env := env[normal[i].name := normal[i].value];
    }
    assert normal[..|normal|] == normal;
  }

  lemma StatesAreSecrets(r: Rules, states: seq<string>, secrets: map<string, string>, normal: seq<Variable>)
    requires (forall name :: name in states <==> name in secrets) && NoRepeats(states) && |states| == |secrets|
    ensures ValidSecrets(r, secrets, normal) <==>
            && |states| <= MAX_VARIABLES && FineStates(r, states, normal, |states|)
            && (forall name :: name in secrets ==> r.value(secrets[name]))
  {
    if FineStates(r, states, normal, |states|) {
      forall a, b | a in secrets && b in secrets && r.upper(a) == r.upper(b) ensures a == b {
        var i :| 0 <= i < |states| && states[i] == a;
        var j :| 0 <= j < |states| && states[j] == b;
        assert FineState(r, states, normal, i) && FineState(r, states, normal, j);
      }
      forall name | name in secrets ensures r.name(name) && r.upper(name) !in Keys(r, normal) {
        var i :| 0 <= i < |states| && states[i] == name;
        assert FineState(r, states, normal, i);
      }
    }
    if ValidSecrets(r, secrets, normal) {
      forall i | 0 <= i < |states| ensures FineState(r, states, normal, i) {
        assert states[i] in states && FineSecret(r, secrets, normal, states[i]);
        assert forall j :: 0 <= j < i ==> states[j] in states && states[j] != states[i];
      }
    }
  }

  // ----- the program's own rules

  function UpperChar(c: char): char { if 'a' <= c <= 'z' then c - 'a' + 'A' else c }

  function Upper(s: string): string { seq(|s|, i requires 0 <= i < |s| => UpperChar(s[i])) }

  predicate NameStart(c: char) { 'A' <= c <= 'Z' || 'a' <= c <= 'z' || c == '_' }

  const DENIED_NAMES := {
    "PATH", "COMSPEC", "SYSTEMROOT", "WINDIR", "PATHEXT", "JAVA_TOOL_OPTIONS", "_JAVA_OPTIONS", "JDK_JAVA_OPTIONS",
    "NODE_OPTIONS", "PYTHONPATH", "MONO_PATH", "DOTNET_STARTUP_HOOKS", "DOTNET_ADDITIONAL_DEPS", "BASH_ENV", "ENV",
    "GCONV_PATH", "PERL5OPT", "PERL5LIB", "RUBYOPT", "PYTHONSTARTUP", "PYTHONHOME"
  }

  predicate IsDenied(name: string) {
    Upper(name) in DENIED_NAMES || "LD_" <= Upper(name) || "DYLD_" <= Upper(name)
  }

  predicate NameFine(name: string) {
    && 0 < |name| <= MAX_NAME_BYTES
    && NameStart(name[0]) && (forall i :: 0 < i < |name| ==> NameStart(name[i]) || '0' <= name[i] <= '9')
    && !IsDenied(name)
  }

  predicate ValueFine(value: string) { |value| <= MAX_VALUE_BYTES && 0 as char !in value }

  const PROGRAM_RULES := Rules(Upper, NameFine, ValueFine)

  /** The program's rules for names and values. */
  lemma RulesExactly(name: string, value: string)
    ensures PROGRAM_RULES.name(name) <==>
      && 0 < |name| <= 128 && !('0' <= name[0] <= '9') && (forall c :: c in name ==> IsNameChar(c)) && !Dangerous(name)
    ensures PROGRAM_RULES.value(value) <==> |value| <= 4096 && 0 as char !in value
  {
    if 0 < |name| && (forall i :: 0 <= i < |name| ==> IsNameChar(name[i])) {
      forall c | c in name ensures IsNameChar(c) {
        var i :| 0 <= i < |name| && name[i] == c;
      }
    }
  }

  predicate IsNameChar(c: char) { 'A' <= c <= 'Z' || 'a' <= c <= 'z' || '0' <= c <= '9' || c == '_' }

  /** A variable that changes how programs are found or started, in any spelling. */
  ghost predicate Dangerous(name: string) {
    var upper := Upper(name);
    || "LD_" <= upper || "DYLD_" <= upper
    || upper in {"PATH", "PATHEXT", "COMSPEC", "SYSTEMROOT", "WINDIR", "ENV", "BASH_ENV", "GCONV_PATH"}
    || upper in {"JAVA_TOOL_OPTIONS", "_JAVA_OPTIONS", "JDK_JAVA_OPTIONS", "NODE_OPTIONS", "MONO_PATH"}
    || upper in {"DOTNET_STARTUP_HOOKS", "DOTNET_ADDITIONAL_DEPS", "RUBYOPT", "PERL5OPT", "PERL5LIB"}
    || upper in {"PYTHONPATH", "PYTHONSTARTUP", "PYTHONHOME"}
  }

  /** None of these ever reaches a process. */
  lemma DangerousNeverLaunched(normal: seq<Variable>, secrets: map<string, string>, name: string)
    requires Launchable(PROGRAM_RULES, normal, secrets) && Dangerous(name)
    ensures name !in NormalMap(normal) + secrets
  {
    if name in NormalMap(normal) + secrets {
      FineInBoth(PROGRAM_RULES, normal, secrets, name);
    }
  }

  lemma UpperOfLetters()
    ensures Upper("ld_Preload") == "LD_PRELOAD"
  {
  }

  /** With the program's rules, nothing that is launched gets a denied variable, in whatever spelling. */
  lemma DeniedInNoSpelling(normal: seq<Variable>, secrets: map<string, string>, denied: string, name: string)
    requires Valid(PROGRAM_RULES, normal) && ValidSecrets(PROGRAM_RULES, secrets, normal)
    requires IsDenied(denied) && Upper(name) == Upper(denied)
    ensures name !in NormalMap(normal) + secrets
  {
    if name in NormalMap(normal) + secrets {
      FineInBoth(PROGRAM_RULES, normal, secrets, name);
    }
  }
}
