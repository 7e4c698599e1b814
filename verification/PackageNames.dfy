/**
  Package identifiers, versions and dependency references of the Valheim mod planner.

  A version is three decimal numbers without leading zeros; everything the planner
  compares is ordered by those three numbers, most significant first (Semantic
  Versioning 2.0.0, sections 2 and 11). A reference is the text `id-version`, cut at
  its last dash.
 */
module PackageNames {
  import opened Text
  import opened Wrappers

  const LOADER_ID := "denikson-BepInExPack_Valheim"
  const LOADER_VERSION := "5.4.2351"

  datatype Version = Version(major: nat, minor: nat, patch: nat)

  predicate Below(a: Version, b: Version) {
    || a.major < b.major
    || (a.major == b.major && a.minor < b.minor)
    || (a.major == b.major && a.minor == b.minor && a.patch < b.patch)
  }

  // ----- text cutting

  /** Position of the last `c` in `s`, or -1. */
  function LastIndex(s: string, c: char): (i: int)
    ensures -1 <= i < |s| && forall k :: i < k < |s| ==> s[k] != c
    ensures i >= 0 ==> s[i] == c
  {
    if s == [] then -1
    else if s[|s| - 1] == c then |s| - 1
    else LastIndex(s[..|s| - 1], c)
  }

  datatype Reference = Reference(id: string, minimum: string)

  function CutReference(text: string): Option<Reference> {
    var dash := LastIndex(text, '-');
    if dash < 0 then None else Some(Reference(text[..dash], text[dash + 1..]))
  }

  // ----- identifiers

  predicate IsNameChar(c: char) {
    'a' <= c <= 'z' || 'A' <= c <= 'Z' || '0' <= c <= '9' || c == '_'
  }

  predicate ValidId(id: string) {
    var dash := Find(id, '-');
    && 0 < dash < |id| - 1
    && (forall i :: 0 <= i < |id| && i != dash ==> IsNameChar(id[i]))
  }

  ghost predicate IsPart(part: string) { part != [] && forall c :: c in part ==> IsNameChar(c) }

  /** An identifier is two names joined by a dash. */
  lemma ValidIdExactly(id: string)
    ensures ValidId(id) <==> exists namespace, name :: IsPart(namespace) && IsPart(name) && id == namespace + ['-'] + name
  {
    var dash := Find(id, '-');
    if ValidId(id) {
      var namespace, name := id[..dash], id[dash + 1..];
      assert id == namespace + ['-'] + name;
      assert forall i :: 0 <= i < |namespace| ==> namespace[i] == id[i];
      assert forall i :: 0 <= i < |name| ==> name[i] == id[dash + 1 + i];
      assert IsPart(namespace) && IsPart(name);
    }
    if exists namespace, name :: IsPart(namespace) && IsPart(name) && id == namespace + ['-'] + name {
      var namespace, name :| IsPart(namespace) && IsPart(name) && id == namespace + ['-'] + name;
      assert '-' !in namespace;
      FindAt(namespace, name, '-');
      forall i | 0 <= i < |id| && i != dash ensures IsNameChar(id[i]) {
        assert id[i] == if i < dash then namespace[i] else name[i - dash - 1];
      }
    }
  }

  // ----- versions

  predicate IsDigit(c: char) { '0' <= c <= '9' }

  /** A decimal number as it must be written: digits only, no leading zero. */
  predicate Canonical(s: string) {
    && s != []
    && (forall c :: c in s ==> IsDigit(c))
    && (|s| > 1 ==> s[0] != '0')
  }

  function Value(s: string): nat
    requires forall c :: c in s ==> IsDigit(c)
  {
    if s == [] then 0
    else
      assert IsDigit(s[|s| - 1]);
      10 * Value(s[..|s| - 1]) + (s[|s| - 1] as int - '0' as int)
  }

  function ParseVersion(s: string): Option<Version> {
    var dot1 := Find(s, '.');
    if dot1 == |s| then None else
    var rest := s[dot1 + 1..];
    var dot2 := Find(rest, '.');
    if dot2 == |rest| then None else
    var major, minor, patch := s[..dot1], rest[..dot2], rest[dot2 + 1..];
    if Canonical(major) && Canonical(minor) && Canonical(patch)
    then Some(Version(Value(major), Value(minor), Value(patch)))
    else None
  }

  // ----- the notation as the planner sees it

  /** How texts are read, and how the semver package compares them. */
  datatype Notation = Notation(
    validId: string -> bool,
    parse: string -> Option<Version>,
    cut: string -> Option<Reference>,
    compare: (string, string) -> int)
  {
    predicate ValidVersion(s: string) { parse(s).Some? }

    /** `a` is at least `b`; both are valid version texts. */
    predicate AtLeast(a: string, b: string) {
      parse(a).Some? && parse(b).Some? && !Below(parse(a).value, parse(b).value)
    }

    /**
      All that the planner relies on. The comparison is the numeric order on valid
      versions; on every other text it may answer anything.
     */
    ghost predicate Coherent() {
      && parse(LOADER_VERSION).Some?
      && (forall a, b :: parse(a).Some? && parse(a) == parse(b) ==> a == b)
      && (forall a, b :: parse(a).Some? && parse(b).Some? ==>
          && (compare(a, b) < 0 <==> Below(parse(a).value, parse(b).value))
          && (compare(a, b) > 0 <==> Below(parse(b).value, parse(a).value)))
    }
  }

  ghost predicate ComparesVersions(compare: (string, string) -> int) {
    forall a, b :: ParseVersion(a).Some? && ParseVersion(b).Some? ==>
      && (compare(a, b) < 0 <==> Below(ParseVersion(a).value, ParseVersion(b).value))
      && (compare(a, b) > 0 <==> Below(ParseVersion(b).value, ParseVersion(a).value))
  }

  function ValheimNotation(compare: (string, string) -> int): Notation {
    Notation(ValidId, ParseVersion, CutReference, compare)
  }

  lemma {:induction false} ValheimNotationCoherent(compare: (string, string) -> int)
    requires ComparesVersions(compare)
    ensures ValheimNotation(compare).Coherent()
  {
    LoaderVersionValid();
    forall a, b | ParseVersion(a).Some? && ParseVersion(a) == ParseVersion(b)
      ensures a == b
    {
      VersionInjective(a, b);
    }
  }

  // ----- numbers determine their text

  lemma {:induction false} LongerIsLarger(s: string)
    requires Canonical(s) && |s| > 1
    ensures Value(s) >= 10
  {
    var front := s[..|s| - 1];
    assert forall c :: c in front ==> c in s;
    assert s[|s| - 1] in s;
    if |s| == 2 {
      assert front == [s[0]] && s[0] in s;
      assert front[..0] == [];
      assert Value(front) >= 1;
    } else {
      LongerIsLarger(front);
    }
  }

  /** Two canonical numerals with the same value are the same text. */
  lemma {:induction false} ValueInjective(s: string, t: string)
    requires Canonical(s) && Canonical(t) && Value(s) == Value(t)
    ensures s == t
  {
    assert s[|s| - 1] in s && t[|t| - 1] in t;
    if |s| == 1 && |t| == 1 {
      assert s[..0] == [] && t[..0] == [];
    } else if |s| == 1 {
      assert s[..0] == [];
      LongerIsLarger(t);
    } else if |t| == 1 {
      assert t[..0] == [];
      LongerIsLarger(s);
    } else {
      var s', t' := s[..|s| - 1], t[..|t| - 1];
      assert forall c :: c in s' ==> c in s;
      assert forall c :: c in t' ==> c in t;
      ValueInjective(s', t');
      assert s == s' + [s[|s| - 1]] && t == t' + [t[|t| - 1]];
    }
  }

  lemma RejoinAtFirst(s: string, c: char)
    ensures var i := Find(s, c); i < |s| ==> s == s[..i] + [c] + s[i + 1..]
  {
  }

  /** The three numerals of a valid version. */
  ghost predicate HasNumerals(s: string, major: string, minor: string, patch: string) {
    && s == major + ['.'] + (minor + ['.'] + patch)
    && Canonical(major) && Canonical(minor) && Canonical(patch)
    && ParseVersion(s) == Some(Version(Value(major), Value(minor), Value(patch)))
  }

  lemma Numerals(s: string) returns (major: string, minor: string, patch: string)
    requires ParseVersion(s).Some?
    ensures HasNumerals(s, major, minor, patch)
  {
    RejoinAtFirst(s, '.');
    var i := Find(s, '.');
    var rest := s[i + 1..];
    RejoinAtFirst(rest, '.');
    var j := Find(rest, '.');
    major, minor, patch := s[..i], rest[..j], rest[j + 1..];
  }

  /** A version text is determined by its three numbers, so equal rank means equal text. */
  lemma VersionInjective(a: string, b: string)
    requires ParseVersion(a).Some? && ParseVersion(a) == ParseVersion(b)
    ensures a == b
  {
    var a1, a2, a3 := Numerals(a);
    var b1, b2, b3 := Numerals(b);
    ValueInjective(a1, b1);
    ValueInjective(a2, b2);
    ValueInjective(a3, b3);
  }

  lemma ValidVersionHasNoDash(version: string)
    requires ParseVersion(version).Some?
    ensures '-' !in version
  {
    var major, minor, patch := Numerals(version);
    assert forall c :: c in version ==> c == '.' || IsDigit(c);
  }

  lemma LastIndexOfJoin(front: string, back: string, c: char)
    requires c !in back
    ensures LastIndex(front + [c] + back, c) == |front|
  {
    var s := front + [c] + back;
    assert s[|front|] == c;
    assert forall k :: 0 <= k <= |front| ==> c in s[k..];
    assert forall k :: |front| < k < |s| ==> s[k] in back;
  }

  /** Writing a reference and cutting it gives it back, whatever the identifier contains. */
  lemma ReferenceRoundTrip(id: string, version: string)
    requires ParseVersion(version).Some?
    ensures CutReference(id + "-" + version) == Some(Reference(id, version))
  {
    ValidVersionHasNoDash(version);
    LastIndexOfJoin(id, version, '-');
    var text := id + "-" + version;
    assert text[..|id|] == id && text[|id| + 1..] == version;
  }

  /** Any three canonical numerals joined by dots are a version with those numbers. */
  lemma {:induction false} JoinedIsVersion(major: string, minor: string, patch: string)
    requires Canonical(major) && Canonical(minor) && Canonical(patch)
    ensures ParseVersion(major + ['.'] + (minor + ['.'] + patch))
         == Some(Version(Value(major), Value(minor), Value(patch)))
  {
    var rest := minor + ['.'] + patch;
    var s := major + ['.'] + rest;
    FindAt(major, rest, '.');
    FindAt(minor, patch, '.');
    assert s[..|major|] == major && s[|major| + 1..] == rest;
    assert rest[..|minor|] == minor && rest[|minor| + 1..] == patch;
  }

  /** And nothing else is a version. */
  lemma VersionIsJoined(s: string)
    requires ParseVersion(s).Some?
    ensures exists major, minor, patch :: HasNumerals(s, major, minor, patch)
  {
    var major, minor, patch := Numerals(s);
  }

  lemma LoaderVersionValid()
    ensures ParseVersion(LOADER_VERSION).Some?
  {
    JoinedIsVersion("5", "4", "2351");
    assert LOADER_VERSION == "5" + ['.'] + ("4" + ['.'] + "2351");
  }
}
