/**
  Whether a server whose environment could be saved can be started. Saving checks the game's
  and the server's variables each for themselves, and the names of the secrets; starting
  checks what they are together.
 */
module LaunchStart {
  import opened LaunchEnv
  import opened Wrappers

  /** What is checked when an environment is saved; the values of secrets were checked when they were stored. */
  ghost predicate Saved(
    r: Rules, defaults: seq<Variable>, server: seq<Variable>, secrets: map<string, string>, states: seq<string>)
  {
    && Valid(r, defaults) && Valid(r, server)
    && (forall name :: name in states <==> name in secrets) && NoRepeats(states) && |states| == |secrets|
    && |states| <= MAX_VARIABLES && FineStates(r, states, Merge(r, defaults, server), |states|)
    && (forall name :: name in secrets ==> r.value(secrets[name]))
  }

  /** How many variables the merge has. */
  function MergedCount(r: Rules, defaults: seq<Variable>, server: seq<Variable>): nat {
    |defaults| + |New(Keys(r, server), Keys(r, defaults))|
  }

  /**
    A saved environment can be started exactly if the game's variables and those that the
    server adds are not too many together, and everything fits.
   */
  lemma SavedCanStart(
    r: Rules, defaults: seq<Variable>, server: seq<Variable>, secrets: map<string, string>, states: seq<string>)
    requires Saved(r, defaults, server, secrets, states)
    ensures var merged := Merge(r, defaults, server);
            && |merged| == MergedCount(r, defaults, server)
            && (Launchable(r, merged, secrets) <==>
                |merged| <= MAX_VARIABLES && ListSize(merged) + Size(secrets) <= MAX_MERGED_ENV_BYTES)
  {
    var merged := Merge(r, defaults, server);
    MergeIsValid(r, defaults, server);
    MergeKeys(r, defaults, server);
    StatesAreSecrets(r, states, secrets, merged);
  }

  // ----- an environment that can be saved and not started

  /** `from + 1` times the letter V, and so on. */
  function Numbered(from: nat, count: nat): (list: seq<Variable>)
    ensures |list| == count && forall i :: 0 <= i < count ==> list[i] == Variable(Vs(from + i + 1), "")
  {
    seq(count, i requires 0 <= i < count => Variable(Vs(from + i + 1), ""))
  }

  function Vs(n: nat): (s: string)
    ensures |s| == n && forall i :: 0 <= i < n ==> s[i] == 'V'
  {
    seq(n, _ => 'V')
  }

  lemma VsFine(n: nat)
    requires 0 < n <= MAX_NAME_BYTES
    ensures NameFine(Vs(n)) && Upper(Vs(n)) == Vs(n)
  {
    var name := Vs(n);
    assert Upper(name) == name && name[0] == 'V';
  }

  lemma NumberedKeys(from: nat, count: nat)
    requires from + count <= MAX_NAME_BYTES && count <= MAX_VARIABLES
    ensures Valid(PROGRAM_RULES, Numbered(from, count))
    ensures forall key :: key in Keys(PROGRAM_RULES, Numbered(from, count)) ==> from < |key| <= from + count
  {
    var list := Numbered(from, count);
    var keys := Keys(PROGRAM_RULES, list);
    forall i | 0 <= i < count ensures PROGRAM_RULES.Fine(list[i]) && keys[i] == Vs(from + i + 1) {
      VsFine(from + i + 1);
    }
    assert forall i, j :: 0 <= i < j < count ==> |keys[i]| != |keys[j]|;
  }

  lemma NoSecrets(defaults: seq<Variable>, server: seq<Variable>)
    requires Valid(PROGRAM_RULES, defaults) && Valid(PROGRAM_RULES, server)
    ensures Saved(PROGRAM_RULES, defaults, server, map[], [])
  {
  }

  lemma NoneShared(from: nat, count: nat)
    requires from + count <= MAX_NAME_BYTES && count <= MAX_VARIABLES && from <= MAX_VARIABLES
    ensures MergedCount(PROGRAM_RULES, Numbered(0, from), Numbered(from, count)) == from + count
  {
    NumberedKeys(0, from);
    NumberedKeys(from, count);
    AllStrange(Keys(PROGRAM_RULES, Numbered(from, count)), Keys(PROGRAM_RULES, Numbered(0, from)));
  }

  /** A game with 64 variables and a server with 64 others: both are accepted, and the server never starts. */
  lemma SavedButNotStarted()
    ensures var defaults, server := Numbered(0, 64), Numbered(64, 64);
            var merged := Merge(PROGRAM_RULES, defaults, server);
            && Saved(PROGRAM_RULES, defaults, server, map[], [])
            && |merged| == 128 && !Launchable(PROGRAM_RULES, merged, map[])
  {
    NumberedKeys(0, 64);
    NumberedKeys(64, 64);
    NoSecrets(Numbered(0, 64), Numbered(64, 64));
    NoneShared(64, 64);
    SavedCanStart(PROGRAM_RULES, Numbered(0, 64), Numbered(64, 64), map[], []);
  }

  lemma {:induction false} AllStrange(keys: seq<string>, known: seq<string>)
    requires forall key :: key in keys ==> key !in known
    ensures |New(keys, known)| == |keys|
  {
    if keys != [] {
      AllStrange(keys[..|keys| - 1], known);
    }
  }
}
