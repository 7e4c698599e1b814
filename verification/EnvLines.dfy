/**
  The lines of a `.env` file: splitting and joining text at line breaks, and what one
  `KEY=VALUE` line (with an optional `export`) assigns.
 */
module EnvLines {
  import opened Text
  import opened Wrappers

  // ----- lines

  /** The text cut at its line breaks. */
  function Split(s: string): (lines: seq<string>)
    ensures lines != []
  {
    if s == [] then [[]] else
    var rest := Split(s[1..]);
    if s[0] == '\n' then [[]] + rest else [[s[0]] + rest[0]] + rest[1..]
  }

  function Join(lines: seq<string>): string {
    if lines == [] then [] else if |lines| == 1 then lines[0] else lines[0] + ['\n'] + Join(lines[1..])
  }

  predicate IsLine(line: string) { '\n' !in line }

  predicate AreLines(lines: seq<string>) { lines != [] && forall line :: line in lines ==> IsLine(line) }

  lemma {:induction false} SplitIsLines(s: string)
    ensures AreLines(Split(s))
  {
    if s != [] {
      SplitIsLines(s[1..]);
      assert IsLine(Split(s[1..])[0]);
    }
  }

  lemma JoinCons(first: string, rest: seq<string>)
    requires rest != []
    ensures Join([first] + rest) == first + ['\n'] + Join(rest)
  {
    assert ([first] + rest)[1..] == rest;
  }

  /** A character before the first line. */
  lemma JoinPrefix(c: char, lines: seq<string>)
    requires lines != []
    ensures Join([[c] + lines[0]] + lines[1..]) == [c] + Join(lines)
  {
    if |lines| > 1 {
      JoinCons([c] + lines[0], lines[1..]);
      PrefixFirst(c, lines[0], Join(lines[1..]));
    }
  }

  lemma PrefixFirst(c: char, line: string, rest: string)
    ensures ([c] + line) + ['\n'] + rest == [c] + (line + ['\n'] + rest)
  {}

  lemma {:induction false} JoinSplit(s: string)
    ensures Join(Split(s)) == s
  {
    if s != [] {
      JoinSplit(s[1..]);
      if s[0] == '\n' {
        JoinCons([], Split(s[1..]));
      } else {
        JoinPrefix(s[0], Split(s[1..]));
      }
    }
  }

  lemma {:induction false} SplitLine(line: string)
    requires IsLine(line)
    ensures Split(line) == [line]
  {
    if line != [] {
      assert forall c :: c in line[1..] ==> c in line;
      SplitLine(line[1..]);
      assert [line[0]] + line[1..] == line;
    }
  }

  lemma {:induction false} SplitFirst(line: string, rest: string)
    requires IsLine(line)
    ensures Split(line + ['\n'] + rest) == [line] + Split(rest)
  {
    var s := line + ['\n'] + rest;
    if line == [] {
      assert s[1..] == rest;
    } else {
      assert forall c :: c in line[1..] ==> c in line;
      SplitFirst(line[1..], rest);
      assert s[1..] == line[1..] + ['\n'] + rest && s[0] == line[0] && line[0] in line;
      assert [line[0]] + line[1..] == line;
    }
  }

  lemma {:induction false} SplitJoin(lines: seq<string>)
    requires AreLines(lines)
    ensures Split(Join(lines)) == lines
  {
    assert IsLine(lines[0]);
    if |lines| == 1 {
      SplitLine(lines[0]);
    } else {
      SplitJoin(lines[1..]);
      SplitFirst(lines[0], Join(lines[1..]));
    }
  }

  lemma {:induction false} JoinConcat(a: seq<string>, b: seq<string>)
    requires a != [] && b != []
    ensures Join(a + b) == Join(a) + ['\n'] + Join(b)
  {
    if |a| == 1 {
      assert (a + b)[1..] == b;
    } else {
      JoinConcat(a[1..], b);
      assert (a + b)[0] == a[0] && (a + b)[1..] == a[1..] + b;
      var first, x, y := a[0] + ['\n'], Join(a[1..]), ['\n'] + Join(b);
      assert Join(a[1..]) + ['\n'] + Join(b) == x + y;
      assert first + (x + y) == first + x + y;
    }
  }

  // ----- one line

  predicate IsSpace(c: char) { c == ' ' || c == '\t' || c == '\n' || c == '\r' || c == 11 as char || c == 12 as char }

  function TrimLeft(s: string): string { if s != [] && IsSpace(s[0]) then TrimLeft(s[1..]) else s }

  function TrimRight(s: string): string {
    if s != [] && IsSpace(s[|s| - 1]) then TrimRight(s[..|s| - 1]) else s
  }

  function Trim(s: string): string { TrimRight(TrimLeft(s)) }

  predicate Blank(s: string) { Trim(s) == [] }

  const EXPORT := "export "

  datatype Assignment = Assignment(name: string, value: string)

  /** The line ending that `Split` leaves: a carriage return or nothing. */
  function Ending(line: string): string {
    if line != [] && line[|line| - 1] == '\r' then ['\r'] else []
  }

  function WithoutEnding(line: string): string { line[..|line| - |Ending(line)|] }

  /** What a line assigns; a comment assigns nothing. */
  function ReadLine(line: string): Option<Assignment> {
    var text := Trim(WithoutEnding(line));
    var assignment := if EXPORT <= text then Trim(text[|EXPORT|..]) else text;
    var i := Find(assignment, '=');
    if i == |assignment| || assignment[0] == '#' then None
    else Some(Assignment(Trim(assignment[..i]), Trim(assignment[i + 1..])))
  }

  function WriteLine(key: string, value: string, ending: string): string { key + ['='] + value + ending }

  /** Names that can be written and read back. */
  predicate ProperKey(key: string) {
    key != [] && '=' !in key && key[0] != '#' && forall c :: c in key ==> !IsSpace(c)
  }

  predicate ProperValue(value: string) { '\n' !in value && '\r' !in value }

  lemma {:induction false} TrimRightAfter(front: string, back: string)
    ensures TrimRight(front + back) == if TrimRight(back) == [] then TrimRight(front) else front + TrimRight(back)
    decreases |back|
  {
    var s := front + back;
    if back == [] {
      assert s == front;
    } else if IsSpace(back[|back| - 1]) {
      assert s[..|s| - 1] == front + back[..|back| - 1];
      TrimRightAfter(front, back[..|back| - 1]);
    }
  }

  lemma {:induction false} TrimRightTwice(s: string)
    ensures TrimRight(TrimRight(s)) == TrimRight(s)
    decreases |s|
  {
    if s != [] && IsSpace(s[|s| - 1]) {
      TrimRightTwice(s[..|s| - 1]);
    }
  }

  /** Trimming the right end first makes no difference. */
  lemma {:induction false} TrimAfterRight(s: string)
    ensures Trim(TrimRight(s)) == Trim(s)
  {
    if s != [] {
      assert s == [s[0]] + s[1..];
      TrimRightAfter([s[0]], s[1..]);
      if IsSpace(s[0]) {
        assert [s[0]][..0] == [];
        TrimAfterRight(s[1..]);
        var right := TrimRight(s[1..]);
        if right != [] {
          assert ([s[0]] + right)[1..] == right;
        }
      } else {
        TrimRightTwice(s);
      }
    }
  }

  lemma {:induction false} LeftTrimmed(s: string)
    ensures TrimLeft(s) == [] || !IsSpace(TrimLeft(s)[0])
    ensures forall c :: c in TrimLeft(s) ==> c in s
  {
    if s != [] && IsSpace(s[0]) {
      LeftTrimmed(s[1..]);
    }
  }

  lemma {:induction false} RightTrimmed(s: string)
    ensures TrimRight(s) <= s
    decreases |s|
  {
    if s != [] && IsSpace(s[|s| - 1]) {
      RightTrimmed(s[..|s| - 1]);
    }
  }

  lemma TrimTwice(s: string)
    ensures Trim(Trim(s)) == Trim(s)
  {
    var left := TrimLeft(s);
    LeftTrimmed(s);
    RightTrimmed(left);
    TrimRightTwice(left);
  }

  /** Text without white space at its ends is left alone. */
  lemma TrimNothing(s: string)
    requires s != [] ==> !IsSpace(s[0]) && !IsSpace(s[|s| - 1])
    ensures Trim(s) == s
  {}

  lemma TrimmedText(key: string, value: string)
    requires ProperKey(key)
    ensures Trim(key + ['='] + value) == key + ['='] + TrimRight(value)
  {
    var front := key + ['='];
    assert (front + value)[0] == key[0] && key[0] in key;
    TrimRightAfter(front, value);
  }

  lemma NotExported(key: string, value: string)
    requires ProperKey(key)
    ensures !(EXPORT <= key + ['='] + value)
  {
    var text := key + ['='] + value;
    if |key| <= 6 {
      assert text[|key|] == '=' && EXPORT[|key|] != '=';
    } else {
      assert text[6] == key[6] && key[6] in key && EXPORT[6] == ' ';
    }
  }

  /** What is written is read back. */
  lemma ReadWritten(key: string, value: string, ending: string)
    requires ProperKey(key) && ProperValue(value) && (ending == [] || ending == ['\r'])
    ensures ReadLine(WriteLine(key, value, ending)) == Some(Assignment(key, Trim(value)))
    ensures '\n' !in WriteLine(key, value, ending)
  {
    var line := WriteLine(key, value, ending);
    var front := key + ['='];
    assert WithoutEnding(line) == front + value by {
      var full := front + value;
      assert line == full + ending;
      assert full[|full| - 1] == if value == [] then '=' else value[|value| - 1];
    }
    var text := front + TrimRight(value);
    TrimmedText(key, value);
    NotExported(key, TrimRight(value));
    FindAt(key, TrimRight(value), '=');
    assert text[..|key|] == key && text[|key| + 1..] == TrimRight(value) && text[0] == key[0];
    TrimNothing(key);
    TrimAfterRight(value);
  }

  lemma CommentsHaveOtherNames(assignment: string, at: nat, key: string)
    requires ProperKey(key) && at <= |assignment|
    ensures at > 0 && assignment[0] == '#' ==> Trim(assignment[..at]) != key
  {
    if at > 0 && assignment[0] == '#' {
      var name := assignment[..at];
      assert name == ['#'] + name[1..];
      TrimRightAfter(['#'], name[1..]);
    }
  }

  /** One line of the rewriting loop: an assignment of `key` is replaced, its line ending kept. */
  method ReplaceInLine(line: string, key: string, value: string) returns (r: string)
    requires ProperKey(key)
    ensures var a := ReadLine(line);
            r == if a.Some? && a.value.name == key then WriteLine(key, value, Ending(line)) else line
  {
    var lineEnding, lineWithoutEnding := [], line;
    if line != [] && line[|line| - 1] == '\r' {
      lineEnding, lineWithoutEnding := ['\r'], line[..|line| - 1];
    }
    assert lineWithoutEnding == WithoutEnding(line);
    var assignment := Trim(lineWithoutEnding);
    if EXPORT <= assignment {
      assignment := Trim(assignment[|EXPORT|..]);
    }
    var at := Find(assignment, '=');
    CommentsHaveOtherNames(assignment, at, key);
    r := line;
    if at < |assignment| && Trim(assignment[..at]) == key {
      r := key + ['='] + value + lineEnding;
    }
  }
}
