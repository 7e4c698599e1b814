/**
  First-run secrets in a `.env` file: missing ones are generated, and the file is
  rewritten so that a reader of its lines, for whom the last assignment counts, finds them
  and everything else as before.
 */
module EnvFile {
  import opened EnvLines
  import opened Wrappers

  /** How a line is read and written; `value` is what a written value is read as. */
  datatype Notation = Notation(read: string -> Option<Assignment>, write: (string, string, string) -> string,
                               value: string -> string) {
    predicate Blank(s: string) { value(s) == [] }

    ghost predicate WritesBack(key: string, text: string) { forall line :: ReadsAs(key, text, line) }

    ghost predicate ReadsAs(key: string, text: string, line: string) {
      && read(write(key, text, line)) == Some(Assignment(key, value(text)))
      && IsLine(write(key, text, line))
    }

    ghost predicate Coherent() { read([]).None? && forall s :: value(value(s)) == value(s) }
  }

  ghost predicate Writable(n: Notation, fill: map<string, string>) {
    n.Coherent() && forall key :: key in fill ==> n.WritesBack(key, fill[key]) && !n.Blank(fill[key])
  }

  // ----- the dictionary

  /** What a reader of the lines sees: the last assignment of a name counts. */
  function Dict(n: Notation, lines: seq<string>): map<string, string> {
    if lines == [] then map[] else
    var earlier := Dict(n, lines[..|lines| - 1]);
    match n.read(lines[|lines| - 1])
    case None => earlier
    case Some(a) => earlier[a.name := a.value]
  }

  function Read(n: Notation, content: string): map<string, string> { Dict(n, Split(content)) }

  lemma {:induction false} DictConcat(n: Notation, a: seq<string>, b: seq<string>)
    ensures Dict(n, a + b) == Dict(n, a) + Dict(n, b)
  {
    var lines := a + b;
    if b == [] {
      assert lines == a;
    } else {
      DictConcat(n, a, b[..|b| - 1]);
      assert lines[..|lines| - 1] == a + b[..|b| - 1] && lines[|lines| - 1] == b[|b| - 1];
    }
  }

  // ----- rewriting lines

  function RepairedLine(n: Notation, line: string, fill: map<string, string>): string {
    match n.read(line)
    case None => line
    case Some(a) => if a.name in fill then n.write(a.name, fill[a.name], line) else line
  }

  /** All assignments of the names in `fill` replaced in one pass; every other line as it was. */
  function Repaired(n: Notation, lines: seq<string>, fill: map<string, string>): (r: seq<string>)
    ensures |r| == |lines| && forall j :: 0 <= j < |r| ==> r[j] == RepairedLine(n, lines[j], fill)
  {
    seq(|lines|, j requires 0 <= j < |lines| => RepairedLine(n, lines[j], fill))
  }

  lemma RepairedLineReads(n: Notation, line: string, fill: map<string, string>)
    requires Writable(n, fill)
    ensures
      n.read(RepairedLine(n, line, fill)) ==
      match n.read(line)
      case None => None
      case Some(a) => Some(if a.name in fill then Assignment(a.name, n.value(fill[a.name])) else a)
    ensures IsLine(line) ==> IsLine(RepairedLine(n, line, fill))
    ensures RepairedLine(n, line, fill) == [] <==> line == []
  {
    match n.read(line)
    case None =>
    case Some(a) =>
      if a.name in fill {
        assert n.ReadsAs(a.name, fill[a.name], line);
      }
  }

  /** One more name, in a pass of its own, is one more name in the same pass. */
  lemma RepairMore(n: Notation, line: string, fill: map<string, string>, key: string, value: string)
    requires Writable(n, fill) && key !in fill
    ensures RepairedLine(n, RepairedLine(n, line, fill), map[key := value]) == RepairedLine(n, line, fill[key := value])
  {
    RepairedLineReads(n, line, fill);
  }

  /** The dictionary with the names in `fill` replaced where it has them. */
  function Refilled(n: Notation, d: map<string, string>, fill: map<string, string>): map<string, string> {
    map key | key in d :: if key in fill then n.value(fill[key]) else d[key]
  }

  lemma {:induction false} DictRepaired(n: Notation, lines: seq<string>, fill: map<string, string>)
    requires Writable(n, fill)
    ensures Dict(n, Repaired(n, lines, fill)) == Refilled(n, Dict(n, lines), fill)
  {
    if lines != [] {
      var last := |lines| - 1;
      DictRepaired(n, lines[..last], fill);
      assert Repaired(n, lines, fill)[..last] == Repaired(n, lines[..last], fill);
      RepairedLineReads(n, lines[last], fill);
    }
  }

  // ----- adding what is missing

  /** The generated values whose name the file has with a blank value. */
  function BlankIn(n: Notation, existing: map<string, string>, generated: map<string, string>, keys: seq<string>)
    : map<string, string>
  {
    map key | key in keys && key in generated && key in existing && n.Blank(existing[key]) :: generated[key]
  }

  function Missing(n: Notation, existing: map<string, string>, generated: map<string, string>, keys: seq<string>): (r: seq<string>)
    requires forall key :: key in keys ==> key in generated
  {
    if keys == [] then [] else
    var last := keys[|keys| - 1];
    var r := Missing(n, existing, generated, keys[..|keys| - 1]);
    if last in existing then r else r + [n.write(last, generated[last], [])]
  }

  function MissingEntries(n: Notation, existing: map<string, string>, generated: map<string, string>, keys: seq<string>)
    : map<string, string>
  {
    map key | key in keys && key in generated && key !in existing :: n.value(generated[key])
  }

  lemma {:induction false} DictMissing(n: Notation, existing: map<string, string>, generated: map<string, string>, keys: seq<string>)
    requires Writable(n, generated) && forall key :: key in keys ==> key in generated
    ensures Dict(n, Missing(n, existing, generated, keys)) == MissingEntries(n, existing, generated, keys)
    ensures forall line :: line in Missing(n, existing, generated, keys) ==> IsLine(line)
  {
    if keys != [] {
      var last := keys[|keys| - 1];
      DictMissing(n, existing, generated, keys[..|keys| - 1]);
      assert n.ReadsAs(last, generated[last], []);
      assert forall key :: key in keys <==> key in keys[..|keys| - 1] || key == last;
      if last !in existing {
        var r := Missing(n, existing, generated, keys[..|keys| - 1]);
        assert (r + [n.write(last, generated[last], [])])[..|r|] == r;
      }
    }
  }

  /** Text with lines added at its end, beginning a new line for them where needed. */
  function Added(text: string, lines: seq<string>): string {
    if lines == [] then text else
    text + (if text != [] && text[|text| - 1] != '\n' then ['\n'] else []) + Join(lines) + ['\n']
  }

  /** The lines without the empty one after a final line break. */
  function Kept(lines: seq<string>): seq<string>
    requires lines != []
  {
    if lines[|lines| - 1] == [] then lines[..|lines| - 1] else lines
  }

  lemma EndsInBreak(lines: seq<string>)
    requires AreLines(lines)
    ensures var text := Join(lines);
            lines[|lines| - 1] == [] <==> text == [] || text[|text| - 1] == '\n'
  {
    var last := lines[|lines| - 1];
    if |lines| > 1 {
      JoinConcat(lines[..|lines| - 1], [last]);
      assert lines == lines[..|lines| - 1] + [last];
    } else {
      assert lines == [last];
    }
    assert last in lines;
    assert IsLine(last);
    assert last != [] ==> last[|last| - 1] in last;
  }

  lemma JoinClosed(lines: seq<string>)
    requires lines != []
    ensures Join(lines + [[]]) == Join(lines) + ['\n']
  {
    JoinConcat(lines, [[]]);
  }

  lemma JoinAdded(before: seq<string>, lines: seq<string>)
    requires AreLines(before) && lines != []
    ensures Added(Join(before), lines) == Join(Kept(before) + (lines + [[]]))
  {
    var kept, text, tail := Kept(before), Join(before), Join(lines) + ['\n'];
    EndsInBreak(before);
    JoinClosed(lines);
    if kept == [] {
      assert before == [[]] && text == [];
      assert Added(text, lines) == tail;
      assert kept + (lines + [[]]) == lines + [[]];
    } else {
      JoinConcat(kept, lines + [[]]);
      if kept != before {
        assert before == kept + [[]];
        JoinClosed(kept);
        assert Added(text, lines) == text + tail;
      } else {
        assert Added(text, lines) == text + ['\n'] + tail;
      }
    }
  }

  lemma SplitAdded(before: seq<string>, lines: seq<string>)
    requires AreLines(before) && AreLines(lines)
    ensures Split(Added(Join(before), lines)) == Kept(before) + (lines + [[]])
  {
    JoinAdded(before, lines);
    var all := Kept(before) + (lines + [[]]);
    assert forall line :: line in all ==> line in before || line in lines || line == [];
    SplitJoin(all);
  }

  lemma DictKept(n: Notation, lines: seq<string>)
    requires lines != [] && n.Coherent()
    ensures Dict(n, Kept(lines)) == Dict(n, lines)
  {}

  // ----- the rewritten file

  ghost predicate Listed(keys: seq<string>, generated: map<string, string>) {
    && (forall key :: key in keys <==> key in generated)
    && forall i, j :: 0 <= i < j < |keys| ==> keys[i] != keys[j]
  }

  function Fixed(n: Notation, content: string, generated: map<string, string>, keys: seq<string>): seq<string> {
    Repaired(n, Split(content), BlankIn(n, Read(n, content), generated, keys))
  }

  function Updated(n: Notation, content: string, generated: map<string, string>, keys: seq<string>): string
    requires forall key :: key in keys ==> key in generated
  {
    Added(Join(Fixed(n, content, generated, keys)), Missing(n, Read(n, content), generated, keys))
  }

  predicate Replaces(n: Notation, existing: map<string, string>, generated: map<string, string>, name: string) {
    name in generated && (name !in existing || n.Blank(existing[name]))
  }

  /** The dictionary with every generated name that it misses or has blank. */
  function Completed(n: Notation, d: map<string, string>, generated: map<string, string>): map<string, string> {
    map key | key in d.Keys + generated.Keys ::
      if Replaces(n, d, generated, key) then n.value(generated[key]) else d[key]
  }

  lemma FixedLines(n: Notation, content: string, generated: map<string, string>, keys: seq<string>)
    requires Writable(n, generated)
    ensures var fixed := Fixed(n, content, generated, keys);
            && |fixed| == |Split(content)|
            && AreLines(fixed)
            && (fixed[|fixed| - 1] == [] <==> Split(content)[|fixed| - 1] == [])
  {
    var lines := Split(content);
    var fill := BlankIn(n, Read(n, content), generated, keys);
    SplitIsLines(content);
    forall j | 0 <= j < |lines| ensures IsLine(RepairedLine(n, lines[j], fill))
    {
      assert lines[j] in lines;
      RepairedLineReads(n, lines[j], fill);
    }
    RepairedLineReads(n, lines[|lines| - 1], fill);
  }

  /** The lines of the new file: those there were, repaired in place, and then the added ones. */
  lemma UpdatedLines(n: Notation, content: string, generated: map<string, string>, keys: seq<string>)
    requires Writable(n, generated) && Listed(keys, generated)
    ensures var missing := Missing(n, Read(n, content), generated, keys);
            var fixed := Fixed(n, content, generated, keys);
            Split(Updated(n, content, generated, keys)) == if missing == [] then fixed else Kept(fixed) + (missing + [[]])
  {
    FixedLines(n, content, generated, keys);
    DictMissing(n, Read(n, content), generated, keys);
    var fixed := Fixed(n, content, generated, keys);
    var missing := Missing(n, Read(n, content), generated, keys);
    if missing == [] {
      SplitJoin(fixed);
    } else {
      SplitAdded(fixed, missing);
    }
  }

  /** Every line that does not assign a generated name is kept, byte for byte, where it was. */
  lemma OtherLinesKept(n: Notation, content: string, generated: map<string, string>, keys: seq<string>, j: nat)
    requires Writable(n, generated) && Listed(keys, generated)
    requires j < |Kept(Split(content))|
    requires n.read(Split(content)[j]).Some? ==> !Replaces(n, Read(n, content), generated, n.read(Split(content)[j]).value.name)
    ensures var after := Split(Updated(n, content, generated, keys));
            j < |after| && after[j] == Split(content)[j]
  {
    UpdatedLines(n, content, generated, keys);
    FixedLines(n, content, generated, keys);
  }

  /** The new file reads as the old one with the generated names set where they were missing or blank. */
  lemma UpdatedReads(n: Notation, content: string, generated: map<string, string>, keys: seq<string>)
    requires Writable(n, generated) && Listed(keys, generated)
    ensures Read(n, Updated(n, content, generated, keys)) == Completed(n, Read(n, content), generated)
  {
    var existing := Read(n, content);
    var fill := BlankIn(n, existing, generated, keys);
    var fixed := Fixed(n, content, generated, keys);
    var missing := Missing(n, existing, generated, keys);
    UpdatedLines(n, content, generated, keys);
    DictRepaired(n, Split(content), fill);
    DictMissing(n, existing, generated, keys);
    if missing == [] {
      assert MissingEntries(n, existing, generated, keys) == map[];
    } else {
      DictKept(n, fixed);
      DictKept(n, missing + [[]]);
      DictConcat(n, Kept(fixed), missing + [[]]);
      assert Kept(missing + [[]]) == missing;
    }
    CompletedBy(n, existing, generated, keys);
  }

  lemma CompletedBy(n: Notation, d: map<string, string>, generated: map<string, string>, keys: seq<string>)
    requires Listed(keys, generated)
    ensures Refilled(n, d, BlankIn(n, d, generated, keys)) + MissingEntries(n, d, generated, keys) == Completed(n, d, generated)
  {}

  ghost predicate Settled(n: Notation, content: string, generated: map<string, string>) {
    forall key :: key in generated ==> key in Read(n, content) && !n.Blank(Read(n, content)[key])
  }

  /** The file stays as it is exactly when it has every generated name with a value. */
  lemma UnchangedWhenSettled(n: Notation, content: string, generated: map<string, string>, keys: seq<string>)
    requires Writable(n, generated) && Listed(keys, generated)
    ensures Updated(n, content, generated, keys) == content <==> Settled(n, content, generated)
  {
    var existing := Read(n, content);
    if Settled(n, content, generated) {
      assert BlankIn(n, existing, generated, keys) == map[];
      assert Fixed(n, content, generated, keys) == Split(content);
      NothingMissing(n, existing, generated, keys);
      JoinSplit(content);
    } else {
      var key :| key in generated && !(key in existing && !n.Blank(existing[key]));
      UpdatedReads(n, content, generated, keys);
      assert key in Completed(n, existing, generated);
      assert n.value(n.value(generated[key])) == n.value(generated[key]);
    }
  }

  lemma {:induction false} NothingMissing(
    n: Notation, existing: map<string, string>, generated: map<string, string>, keys: seq<string>)
    requires forall key :: key in keys ==> key in generated && key in existing
    ensures Missing(n, existing, generated, keys) == []
  {
    if keys != [] {
      NothingMissing(n, existing, generated, keys[..|keys| - 1]);
    }
  }

  /** A second run for the same names changes nothing, whatever it generates. */
  lemma SecondRunChangesNothing(n: Notation, content: string, generated: map<string, string>, keys: seq<string>,
                                again: map<string, string>, keysAgain: seq<string>)
    requires Writable(n, generated) && Listed(keys, generated)
    requires Writable(n, again) && Listed(keysAgain, again) && again.Keys <= generated.Keys
    ensures var after := Updated(n, content, generated, keys); Updated(n, after, again, keysAgain) == after
  {
    var after := Updated(n, content, generated, keys);
    UpdatedReads(n, content, generated, keys);
    forall key | key in again ensures key in Read(n, after) && !n.Blank(Read(n, after)[key]) {
      assert key in generated;
      assert n.value(n.value(generated[key])) == n.value(generated[key]);
    }
    UnchangedWhenSettled(n, after, again, keysAgain);
  }

  /** Names go one by one: a pass for each is one pass for all so far. */
  lemma RepairedNext(n: Notation, content: string, generated: map<string, string>, keys: seq<string>, i: nat)
    requires Writable(n, generated) && Listed(keys, generated) && i < |keys|
    requires keys[i] in Read(n, content) && n.Blank(Read(n, content)[keys[i]])
    ensures var before := Join(Fixed(n, content, generated, keys[..i]));
            Repaired(n, Split(before), map[keys[i] := generated[keys[i]]]) == Fixed(n, content, generated, keys[..i + 1])
  {
    var fill := BlankIn(n, Read(n, content), generated, keys[..i]);
    FixedLines(n, content, generated, keys[..i]);
    SplitJoin(Fixed(n, content, generated, keys[..i]));
    BlankNext(n, Read(n, content), generated, keys, i);
    RepairedTwice(n, Split(content), fill, keys[i], generated[keys[i]]);
  }

  lemma BlankNext(n: Notation, existing: map<string, string>, generated: map<string, string>, keys: seq<string>, i: nat)
    requires Listed(keys, generated) && i < |keys| && keys[i] in existing && n.Blank(existing[keys[i]])
    ensures keys[i] !in BlankIn(n, existing, generated, keys[..i])
    ensures BlankIn(n, existing, generated, keys[..i + 1])
         == BlankIn(n, existing, generated, keys[..i])[keys[i] := generated[keys[i]]]
  {
    assert forall key :: key in keys[..i + 1] <==> key in keys[..i] || key == keys[i];
  }

  lemma RepairedTwice(n: Notation, lines: seq<string>, fill: map<string, string>, key: string, value: string)
    requires Writable(n, fill) && key !in fill
    ensures Repaired(n, Repaired(n, lines, fill), map[key := value]) == Repaired(n, lines, fill[key := value])
  {
    forall j | 0 <= j < |lines|
      ensures RepairedLine(n, RepairedLine(n, lines[j], fill), map[key := value]) == RepairedLine(n, lines[j], fill[key := value])
    {
      RepairMore(n, lines[j], fill, key, value);
    }
  }

  lemma FixedSame(n: Notation, content: string, generated: map<string, string>, keys: seq<string>, i: nat)
    requires Listed(keys, generated) && i < |keys|
    requires keys[i] in Read(n, content) ==> !n.Blank(Read(n, content)[keys[i]])
    ensures Fixed(n, content, generated, keys[..i]) == Fixed(n, content, generated, keys[..i + 1])
  {
    assert forall key :: key in keys[..i + 1] <==> key in keys[..i] || key == keys[i];
    assert BlankIn(n, Read(n, content), generated, keys[..i]) == BlankIn(n, Read(n, content), generated, keys[..i + 1]);
  }

  lemma MissingNext(n: Notation, existing: map<string, string>, generated: map<string, string>, keys: seq<string>, i: nat)
    requires Listed(keys, generated) && i < |keys|
    ensures Missing(n, existing, generated, keys[..i + 1])
         == Missing(n, existing, generated, keys[..i])
            + if keys[i] in existing then [] else [n.write(keys[i], generated[keys[i]], [])]
  {
    assert keys[..i + 1][..i] == keys[..i];
  }

  lemma FixedNone(n: Notation, content: string, generated: map<string, string>)
    ensures Join(Fixed(n, content, generated, [])) == content
  {
    assert Fixed(n, content, generated, []) == Split(content);
    JoinSplit(content);
  }
}
