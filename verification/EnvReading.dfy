/**
  How single lines of a `.env` file are read: white space around names and values does not
  matter, an `export` in front is allowed, comments and lines without an equals sign assign
  nothing.
 */
module EnvReading {
  import opened EnvLines
  import opened Text
  import opened Wrappers

  predicate AllSpace(s: string) { forall c :: c in s ==> IsSpace(c) }

  lemma {:induction false} LeftPart(s: string) returns (spaces: string)
    ensures s == spaces + TrimLeft(s) && AllSpace(spaces)
    ensures TrimLeft(s) == [] || !IsSpace(TrimLeft(s)[0])
  {
    if s != [] && IsSpace(s[0]) {
      spaces := LeftPart(s[1..]);
      spaces := [s[0]] + spaces;
    } else {
      spaces := [];
    }
  }

  lemma {:induction false} RightPart(s: string) returns (spaces: string)
    ensures s == TrimRight(s) + spaces && AllSpace(spaces)
    ensures TrimRight(s) == [] || !IsSpace(TrimRight(s)[|TrimRight(s)| - 1])
  {
    if s != [] && IsSpace(s[|s| - 1]) {
      spaces := RightPart(s[..|s| - 1]);
      spaces := spaces + [s[|s| - 1]];
    } else {
      spaces := [];
    }
  }

  /** Trimming takes away white space at the ends and nothing else, and leaves none there. */
  lemma TrimExactly(s: string) returns (left: string, right: string)
    ensures s == left + Trim(s) + right && AllSpace(left) && AllSpace(right)
    ensures Trim(s) != [] ==> !IsSpace(Trim(s)[0]) && !IsSpace(Trim(s)[|Trim(s)| - 1])
  {
    left := LeftPart(s);
    right := RightPart(TrimLeft(s));
    RightTrimmed(TrimLeft(s));
  }

  lemma {:induction false} TrimLeftSpaces(spaces: string, s: string)
    requires AllSpace(spaces)
    ensures TrimLeft(spaces + s) == TrimLeft(s)
  {
    if spaces != [] {
      assert spaces[0] in spaces && (spaces + s)[1..] == spaces[1..] + s;
      TrimLeftSpaces(spaces[1..], s);
    } else {
      assert spaces + s == s;
    }
  }

  lemma {:induction false} SpacesVanish(spaces: string)
    requires AllSpace(spaces)
    ensures TrimRight(spaces) == []
  {
    if spaces != [] {
      assert spaces[|spaces| - 1] in spaces;
      SpacesVanish(spaces[..|spaces| - 1]);
    }
  }

  /** Text with white space around it is trimmed to what it is trimmed to without. */
  lemma TrimAround(left: string, s: string, right: string)
    requires AllSpace(left) && AllSpace(right) && s != [] && !IsSpace(s[0]) && !IsSpace(s[|s| - 1])
    ensures Trim(left + s + right) == s
  {
    assert left + s + right == left + (s + right);
    TrimLeftSpaces(left, s + right);
    SpacesVanish(right);
    TrimRightAfter(s, right);
  }

  /** Reading a trimmed text with an equals sign. */
  lemma ReadsText(line: string, key: string, between: string, rest: string)
    requires ProperKey(key) && AllSpace(between)
    requires WithoutEnding(line) == line
    requires var text := key + between + ['='] + rest;
      if EXPORT <= Trim(line) then Trim(Trim(line)[|EXPORT|..]) == text else Trim(line) == text
    ensures ReadLine(line) == Some(Assignment(key, Trim(rest)))
  {
    var text := key + between + ['='] + rest;
    NoEquals(key, between);
    FindAt(key + between, rest, '=');
    assert text[..|key + between|] == key + between && text[|key + between| + 1..] == rest;
    assert key[0] in key && key[|key| - 1] in key && text[0] == key[0];
    TrimAround([], key, between);
    assert [] + key + between == key + between;
  }

  lemma NoEquals(key: string, between: string)
    requires ProperKey(key) && AllSpace(between)
    ensures '=' !in key + between
  {
  }

  /** What follows a name that is not `export` is not taken for an exported assignment. */
  lemma NotExportedSpaced(key: string, between: string, rest: string)
    requires ProperKey(key) && AllSpace(between) && key != "export"
    ensures !(EXPORT <= key + between + ['='] + rest)
  {
    var text := key + between + ['='] + rest;
    if |key| > 6 {
      assert text[6] == key[6] && key[6] in key;
    } else if |key| == 6 {
      assert text[..6] == key && EXPORT[..6] == "export";
    } else {
      assert text[|key|] == if between == [] then '=' else between[0];
      assert EXPORT[|key|] != '=' && !IsSpace(EXPORT[|key|]);
    }
  }

  /** White space may stand before the name, between it and the equals sign, and around the value. */
  lemma SpacedReads(before: string, key: string, between: string, value: string)
    requires ProperKey(key) && key != "export" && AllSpace(before) && AllSpace(between) && ProperValue(value)
    ensures ReadLine(before + key + between + ['='] + value) == Some(Assignment(key, Trim(value)))
  {
    var line, front := before + key + between + ['='] + value, key + between + ['='];
    assert line[|line| - 1] == if value == [] then '=' else value[|value| - 1];
    assert WithoutEnding(line) == line;
    assert line == before + (front + value);
    assert key[0] in key && (front + value)[0] == key[0];
    TrimLeftSpaces(before, front + value);
    TrimRightAfter(front, value);
    assert TrimRight(front) == front;
    NotExportedSpaced(key, between, TrimRight(value));
    ReadsText(line, key, between, TrimRight(value));
    TrimAfterRight(value);
  }

  lemma TrimExported(key: string, value: string)
    requires ProperKey(key)
    ensures Trim(EXPORT + (key + ['='] + value)) == EXPORT + (key + ['='] + TrimRight(value))
  {
    var assignment := key + ['='] + value;
    TrimRightAfter(key + ['='], value);
    assert TrimRight(key + ['=']) == key + ['='];
    TrimRightAfter(EXPORT, assignment);
    assert (EXPORT + assignment)[0] == 'e';
  }

  /** An assignment may be exported. */
  lemma ExportedReads(key: string, value: string)
    requires ProperKey(key) && ProperValue(value)
    ensures ReadLine(EXPORT + (key + ['='] + value)) == Some(Assignment(key, Trim(value)))
  {
    var line, rest := EXPORT + (key + ['='] + value), TrimRight(value);
    assert line[|line| - 1] == if value == [] then '=' else value[|value| - 1];
    assert WithoutEnding(line) == line;
    TrimExported(key, value);
    assert Trim(line)[|EXPORT|..] == key + ['='] + rest;
    TrimmedText(key, rest);
    TrimRightTwice(value);
    assert key + [] + ['='] + rest == key + ['='] + rest;
    ReadsText(line, key, [], rest);
    TrimAfterRight(value);
  }

  lemma TrimInside(s: string)
    ensures forall c :: c in Trim(s) ==> c in s
  {
    LeftTrimmed(s);
    RightTrimmed(TrimLeft(s));
  }

  /** A line without an equals sign assigns nothing. */
  lemma NothingAssigned(line: string)
    requires '=' !in line
    ensures ReadLine(line) == None
  {
    var inner := WithoutEnding(line);
    TrimInside(inner);
    var text := Trim(inner);
    if EXPORT <= text {
      TrimInside(text[|EXPORT|..]);
      assert forall c :: c in Trim(text[|EXPORT|..]) ==> c in text;
      FindNone(Trim(text[|EXPORT|..]), '=');
    } else {
      FindNone(text, '=');
    }
  }

  /** Nor does a comment. */
  lemma CommentAssignsNothing(comment: string)
    ensures ReadLine("#" + comment) == None
  {
    var line := "#" + comment;
    var inner := WithoutEnding(line);
    assert line[0] == '#' && inner[0] == '#';
    assert inner == ['#'] + inner[1..];
    TrimRightAfter(['#'], inner[1..]);
    assert TrimRight(['#']) == ['#'];
    assert Trim(inner)[0] == '#';
  }
}
