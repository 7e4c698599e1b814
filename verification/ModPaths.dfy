/**
  Where the files of a Valheim mod live. Paths are compared without regard to case, so
  every place on the server is named by a folded path; a transaction's own staging
  directory has a fresh name and is therefore kept apart from every other place.
 */
module ModPaths {
  const CONFIG_PREFIX := "bepinex/config/"
  const DISABLED_PREFIX := ".xylona-disabled/"
  const DOORSTOP_CONFIG := "doorstop_config.ini"

  function Lower(c: char): char {
    if 'A' <= c <= 'Z' then (c as int + 32) as char else c
  }

  function Fold(path: string): string {
    seq(|path|, i requires 0 <= i < |path| => Lower(path[i]))
  }

  predicate IsConfig(path: string) { CONFIG_PREFIX <= Fold(path) }

  predicate IsDoorstop(path: string) { Fold(path) == DOORSTOP_CONFIG }

  function DisabledPath(modId: string, file: string): string {
    DISABLED_PREFIX + modId + "/" + file
  }

  /** A place in the server directory, or in the staging directory of a transaction. */
  datatype Spot =
    | Live(key: string)
    | Next(txn: nat, key: string)
    | Previous(txn: nat, key: string)

  predicate Staged(s: Spot, txn: nat) { !s.Live? && s.txn == txn }

  /** `valheimModPath`: disabled mods keep all but their configuration out of the way. */
  function Place(enabled: bool, modId: string, file: string): Spot {
    Live(Fold(if !enabled && !IsConfig(file) then DisabledPath(modId, file) else file))
  }

  // ----- the layout as a transaction sees it

  /** How paths are compared and classified, and where a mod's file lives. */
  datatype Layout = Layout(
    local: string -> bool,
    fold: string -> string,
    config: string -> bool,
    doorstop: string -> bool,
    place: (bool, string, string) -> Spot)
  {
    /** All that transactions rely on. */
    ghost predicate Coherent() {
      && (forall e, id, f :: place(e, id, f).Live?)
      && (forall e, id, f, g :: place(e, id, f) == place(e, id, g) <==> fold(f) == fold(g))
      && (forall id, f :: place(true, id, f) == Live(fold(f)))
      && (forall e, id, f :: config(f) ==> place(e, id, f) == Live(fold(f)))
      && (forall e, id, f, g :: config(f) && !config(g) ==> place(e, id, g) != Live(fold(f)))
    }
  }

  function ValheimLayout(local: string -> bool): Layout {
    Layout(local, Fold, IsConfig, IsDoorstop, Place)
  }

  lemma FoldConcat(a: string, b: string)
    ensures Fold(a + b) == Fold(a) + Fold(b)
  {
    var s := a + b;
    assert forall i :: 0 <= i < |s| ==> s[i] == if i < |a| then a[i] else b[i - |a|];
  }

  lemma ConfigStart(path: string)
    ensures IsConfig(path) ==> path != [] && Lower(path[0]) == 'b'
  {
    if IsConfig(path) {
      assert Fold(path)[..|CONFIG_PREFIX|] == CONFIG_PREFIX;
      assert Fold(path)[0] == CONFIG_PREFIX[0];
    }
  }

  lemma DisabledKey(modId: string, file: string)
    ensures Fold(DisabledPath(modId, file)) == Fold(DISABLED_PREFIX + modId + "/") + Fold(file)
    ensures Fold(DisabledPath(modId, file))[0] == '.'
    ensures !IsConfig(DisabledPath(modId, file))
  {
    var prefix := DISABLED_PREFIX + modId + "/";
    assert DisabledPath(modId, file) == prefix + file;
    FoldConcat(prefix, file);
    assert DisabledPath(modId, file)[0] == DISABLED_PREFIX[0];
    ConfigStart(DisabledPath(modId, file));
  }

  lemma CancelPrefix(prefix: string, a: string, b: string)
    requires prefix + a == prefix + b
    ensures a == b
  {
    assert a == (prefix + a)[|prefix|..];
    assert b == (prefix + b)[|prefix|..];
  }

  lemma PlaceKey(enabled: bool, modId: string, file: string) returns (key: string)
    ensures Place(enabled, modId, file) == Live(key)
    ensures !enabled && !IsConfig(file) ==> key == Fold(DISABLED_PREFIX + modId + "/") + Fold(file) && key[0] == '.'
    ensures enabled || IsConfig(file) ==> key == Fold(file)
    ensures IsConfig(file) ==> key != [] && key[0] == 'b'
    ensures IsConfig(file) <==> CONFIG_PREFIX <= key
  {
    DisabledKey(modId, file);
    ConfigStart(file);
    key := Place(enabled, modId, file).key;
  }

  lemma PlaceRespectsCase(enabled: bool, modId: string, f: string, g: string)
    ensures Place(enabled, modId, f) == Place(enabled, modId, g) <==> Fold(f) == Fold(g)
  {
    var k := PlaceKey(enabled, modId, f);
    var l := PlaceKey(enabled, modId, g);
    if k == l && !enabled && !IsConfig(f) && !IsConfig(g) {
      CancelPrefix(Fold(DISABLED_PREFIX + modId + "/"), Fold(f), Fold(g));
    }
  }

  lemma PlaceAvoidsConfig(enabled: bool, modId: string, f: string, g: string)
    requires IsConfig(f) && !IsConfig(g)
    ensures Place(enabled, modId, g) != Live(Fold(f))
  {
    var k := PlaceKey(enabled, modId, g);
  }

  lemma {:induction false} ValheimLayoutCoherent(local: string -> bool)
    ensures ValheimLayout(local).Coherent()
  {
    var l := ValheimLayout(local);
    forall e, id, f, g ensures l.place(e, id, f) == l.place(e, id, g) <==> l.fold(f) == l.fold(g) {
      PlaceRespectsCase(e, id, f, g);
    }
    forall e, id, f, g | l.config(f) && !l.config(g) ensures l.place(e, id, g) != Live(l.fold(f)) {
      PlaceAvoidsConfig(e, id, f, g);
    }
  }
}
