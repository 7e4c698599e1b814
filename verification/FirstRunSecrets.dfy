/**
  The controller's first run: keys that are not configured are generated and stored in the
  `.env` file, except that an encryption key is never generated beside an existing database.
 */
module FirstRunSecrets {
  import opened EnvFile
  import opened EnvLines
  import opened Text
  import opened Wrappers

  const ENV := Notation(ReadLine, (key, value, line) => WriteLine(key, value, Ending(line)), Trim)

  const COOKIE_BLOCK := "COOKIE_BLOCK_KEY_BASE64"
  const COOKIE_HASH := "COOKIE_HASH_KEY_BASE64"
  const ENCRYPTION := "ENCRYPTION_KEY_BASE64"
  const HOST := "HOST"

  lemma EnvCoherent()
    ensures ENV.Coherent()
  {
    forall s ensures ENV.value(ENV.value(s)) == ENV.value(s) {
      TrimTwice(s);
    }
    FindNone([], '=');
  }

  lemma EnvWritesBack(key: string, value: string)
    requires ProperKey(key) && ProperValue(value)
    ensures ENV.WritesBack(key, value)
  {
    forall line ensures ENV.ReadsAs(key, value, line) {
      ReadWritten(key, value, Ending(line));
    }
  }

  lemma CookieBlockIsProper()
    ensures ProperKey(COOKIE_BLOCK)
  {}

  lemma CookieHashIsProper()
    ensures ProperKey(COOKIE_HASH)
  {}

  lemma EncryptionIsProper()
    ensures ProperKey(ENCRYPTION)
  {}

  lemma HostIsProper()
    ensures ProperKey(HOST)
  {}

  method RepairLine(line: string, key: string, value: string) returns (r: string)
    requires ProperKey(key)
    ensures r == RepairedLine(ENV, line, map[key := value])
  {
    r := ReplaceInLine(line, key, value);
  }

  /** Replaces every assignment of `key`, keeping line endings and all other lines. */
  method ReplaceEnvAssignment(content: string, key: string, value: string) returns (r: string)
    requires ProperKey(key)
    ensures r == Join(Repaired(ENV, Split(content), map[key := value]))
  {
    var lines := Split(content);
    ghost var original := lines;
    var i := 0;
    while i < |lines|
      invariant 0 <= i <= |lines| == |original|
      invariant forall j :: 0 <= j < i ==> lines[j] == RepairedLine(ENV, original[j], map[key := value])
      invariant forall j :: i <= j < |lines| ==> lines[j] == original[j]
    {
      var line := RepairLine(lines[i], key, value);
      lines := lines[i := line];
      i := i + 1;
    }
    assert lines == Repaired(ENV, original, map[key := value]);
    r := Join(lines);
  }

  /** A line for a name that the file does not have. */
  method NewLine(key: string, value: string) returns (line: string)
    ensures line == ENV.write(key, value, [])
  {
    line := key + ['='] + value;
    assert line == line + [];
  }

  method IsBlank(value: string) returns (blank: bool)
    ensures blank == ENV.Blank(value)
  {
    blank := Blank(value);
  }

  /** The text and the new lines after the first `i` names. */
  ghost predicate Progress(content: string, generated: map<string, string>, keys: seq<string>, i: nat,
                           updated: string, lines: seq<string>)
    requires i <= |keys|
  {
    && (forall key :: key in keys[..i] ==> key in generated)
    && updated == Join(Fixed(ENV, content, generated, keys[..i]))
    && lines == Missing(ENV, Read(ENV, content), generated, keys[..i])
  }

  method FillBlank(ghost content: string, generated: map<string, string>, keys: seq<string>, i: nat,
                   updated: string, ghost lines: seq<string>) returns (r: string)
    requires Writable(ENV, generated) && Listed(keys, generated) && i < |keys| && ProperKey(keys[i])
    requires Progress(content, generated, keys, i, updated, lines)
    requires keys[i] in Read(ENV, content) && ENV.Blank(Read(ENV, content)[keys[i]])
    ensures Progress(content, generated, keys, i + 1, r, lines)
  {
    r := ReplaceEnvAssignment(updated, keys[i], generated[keys[i]]);
    RepairedNext(ENV, content, generated, keys, i);
    MissingNext(ENV, Read(ENV, content), generated, keys, i);
  }

  method AddLine(ghost content: string, generated: map<string, string>, keys: seq<string>, i: nat,
                 ghost updated: string, lines: seq<string>) returns (r: seq<string>)
    requires Listed(keys, generated) && i < |keys| && keys[i] !in Read(ENV, content)
    requires Progress(content, generated, keys, i, updated, lines)
    ensures Progress(content, generated, keys, i + 1, updated, r)
  {
    var line := NewLine(keys[i], generated[keys[i]]);
    r := lines + [line];
    FixedSame(ENV, content, generated, keys, i);
    MissingNext(ENV, Read(ENV, content), generated, keys, i);
  }

  lemma NothingToDo(content: string, generated: map<string, string>, keys: seq<string>, i: nat,
                    updated: string, lines: seq<string>)
    requires Listed(keys, generated) && i < |keys|
    requires keys[i] in Read(ENV, content) && !ENV.Blank(Read(ENV, content)[keys[i]])
    requires Progress(content, generated, keys, i, updated, lines)
    ensures Progress(content, generated, keys, i + 1, updated, lines)
  {
    FixedSame(ENV, content, generated, keys, i);
    MissingNext(ENV, Read(ENV, content), generated, keys, i);
  }

  lemma Start(content: string, generated: map<string, string>, keys: seq<string>)
    ensures Progress(content, generated, keys, 0, content, [])
  {
    FixedNone(ENV, content, generated);
    assert keys[..0] == [];
  }

  lemma Finish(content: string, generated: map<string, string>, keys: seq<string>, updated: string, lines: seq<string>)
    requires Listed(keys, generated) && Progress(content, generated, keys, |keys|, updated, lines)
    ensures Added(updated, lines) == Updated(ENV, content, generated, keys)
  {
    assert keys[..|keys|] == keys;
  }

  /** What the loop does for one name. */
  method NextName(ghost content: string, existing: map<string, string>, generated: map<string, string>, keys: seq<string>, i: nat,
                  updated: string, lines: seq<string>) returns (newUpdated: string, newLines: seq<string>)
    requires existing == Read(ENV, content)
    requires Writable(ENV, generated) && Listed(keys, generated) && i < |keys| && ProperKey(keys[i])
    requires Progress(content, generated, keys, i, updated, lines)
    ensures Progress(content, generated, keys, i + 1, newUpdated, newLines)
  {
    if keys[i] !in existing {
      newLines := AddLine(content, generated, keys, i, updated, lines);
      return updated, newLines;
    }
    var blank := IsBlank(existing[keys[i]]);
    if !blank {
      NothingToDo(content, generated, keys, i, updated, lines);
      return updated, lines;
    }
    newUpdated := FillBlank(content, generated, keys, i, updated, lines);
    return newUpdated, lines;
  }

  ghost predicate KeysProper(generated: map<string, string>) { forall key :: key in generated ==> ProperKey(key) }

  /** The text to store: names that are there with a blank value one after the other, then the missing ones. */
  method Rewrite(content: string, generated: map<string, string>, keys: seq<string>) returns (updated: string)
    requires Writable(ENV, generated) && Listed(keys, generated)
    requires KeysProper(generated)
    ensures updated == Updated(ENV, content, generated, keys)
  {
    var text, lines := FillNames(content, generated, keys);
    updated := AddLines(text, lines);
  }

  method FillNames(content: string, generated: map<string, string>, keys: seq<string>)
    returns (updated: string, lines: seq<string>)
    requires Writable(ENV, generated) && Listed(keys, generated)
    requires KeysProper(generated)
    ensures Added(updated, lines) == Updated(ENV, content, generated, keys)
  {
    var existing := Read(ENV, content);
    updated, lines := content, [];
    Start(content, generated, keys);
    for i := 0 to |keys|
      invariant Progress(content, generated, keys, i, updated, lines)
    {
      updated, lines := NextName(content, existing, generated, keys, i, updated, lines);
    }
    Finish(content, generated, keys, updated, lines);
  }

  method AddLines(text: string, lines: seq<string>) returns (r: string)
    ensures r == Added(text, lines)
  {
    r := text;
    if |lines| > 0 {
      var prefix := [];
      if text != [] && text[|text| - 1] != '\n' {
        prefix := ['\n'];
      }
      r := text + prefix + Join(lines) + ['\n'];
    }
  }

  // ----- what is generated

  datatype Secrets = Secrets(cookieHashKey: string, cookieBlockKey: string, encryptionKey: string)

  /** The answers of the key generator, which may fail. */
  datatype Fresh = Fresh(hash: Option<string>, block: Option<string>, encryption: Option<string>) {
    ghost predicate Proper() { Usable(hash) && Usable(block) && Usable(encryption) }
  }

  predicate Usable(value: Option<string>) { value.Some? ==> ProperValue(value.value) && !Blank(value.value) }

  function Chosen(current: string, made: Option<string>): string {
    if Blank(current) && made.Some? then made.value else current
  }

  function Entry(name: string, current: string, made: Option<string>): map<string, string> {
    if Blank(current) && made.Some? then map[name := made.value] else map[]
  }

  function Generated(current: Secrets, host: string, made: Fresh): map<string, string> {
    Entry(HOST, [], if Blank(host) then None else Some(host))
    + Entry(COOKIE_HASH, current.cookieHashKey, made.hash)
    + Entry(COOKIE_BLOCK, current.cookieBlockKey, made.block)
    + Entry(ENCRYPTION, current.encryptionKey, made.encryption)
  }

  function If(name: string, generated: map<string, string>): seq<string> { if name in generated then [name] else [] }

  /** The generated names in alphabetical order. */
  function Sorted(generated: map<string, string>): (names: seq<string>)
    ensures forall name :: name in names ==> name in generated
  {
    If(COOKIE_BLOCK, generated) + If(COOKIE_HASH, generated) + If(ENCRYPTION, generated) + If(HOST, generated)
  }

  lemma SortedLists(generated: map<string, string>)
    requires generated.Keys <= {COOKIE_BLOCK, COOKIE_HASH, ENCRYPTION, HOST}
    ensures Listed(Sorted(generated), generated)
  {
    assert |COOKIE_BLOCK| == 23 && |COOKIE_HASH| == 22 && |ENCRYPTION| == 21 && |HOST| == 4;
  }

  ghost predicate AllProper(generated: map<string, string>) {
    forall key :: key in generated ==> ProperKey(key) && Usable(Some(generated[key]))
  }

  lemma EntryIsProper(name: string, current: string, made: Option<string>)
    requires ProperKey(name) && Usable(made)
    ensures AllProper(Entry(name, current, made))
  {}

  lemma AllProperTogether(a: map<string, string>, b: map<string, string>)
    requires AllProper(a) && AllProper(b)
    ensures AllProper(a + b)
  {}

  lemma AllProperIsWritable(generated: map<string, string>)
    requires AllProper(generated)
    ensures Writable(ENV, generated)
  {
    EnvCoherent();
    forall key | key in generated ensures ENV.WritesBack(key, generated[key]) && !ENV.Blank(generated[key]) {
      EnvWritesBack(key, generated[key]);
    }
  }

  lemma GeneratedIsProper(current: Secrets, host: string, made: Fresh)
    requires ProperValue(host) && made.Proper()
    ensures AllProper(Generated(current, host, made))
  {
    CookieBlockIsProper();
    CookieHashIsProper();
    EncryptionIsProper();
    HostIsProper();
    var hosts := Entry(HOST, [], if Blank(host) then None else Some(host));
    var hashes := Entry(COOKIE_HASH, current.cookieHashKey, made.hash);
    var blocks := Entry(COOKIE_BLOCK, current.cookieBlockKey, made.block);
    EntryIsProper(HOST, [], if Blank(host) then None else Some(host));
    EntryIsProper(COOKIE_HASH, current.cookieHashKey, made.hash);
    EntryIsProper(COOKIE_BLOCK, current.cookieBlockKey, made.block);
    EntryIsProper(ENCRYPTION, current.encryptionKey, made.encryption);
    AllProperTogether(hosts, hashes);
    AllProperTogether(hosts + hashes, blocks);
    AllProperTogether(hosts + hashes + blocks, Entry(ENCRYPTION, current.encryptionKey, made.encryption));
  }

  lemma GeneratedNames(current: Secrets, host: string, made: Fresh)
    ensures Generated(current, host, made).Keys <= {COOKIE_BLOCK, COOKIE_HASH, ENCRYPTION, HOST}
  {}

  lemma GeneratedIsWritable(current: Secrets, host: string, made: Fresh)
    requires ProperValue(host) && made.Proper()
    ensures var generated := Generated(current, host, made);
            && Writable(ENV, generated) && KeysProper(generated)
            && Listed(Sorted(generated), generated)
  {
    GeneratedIsProper(current, host, made);
    AllProperIsWritable(Generated(current, host, made));
    GeneratedNames(current, host, made);
    SortedLists(Generated(current, host, made));
  }

  /** One key: kept, or replaced by a generated one, which is then also noted for storing. */
  method Ensure(name: string, current: string, made: Option<string>, generated: map<string, string>)
    returns (ok: bool, key: string, noted: map<string, string>)
    ensures ok <==> !Blank(current) || made.Some?
    ensures key == Chosen(current, made) && noted == generated + Entry(name, current, made)
  {
    ok, key, noted := true, current, generated;
    if Blank(current) {
      if made.None? {
        return false, key, noted;
      }
      key, noted := made.value, generated[name := made.value];
    }
  }

  /** A configured key stays as it is, and a generated one takes the place of one that is blank. */
  ghost predicate IsChosen(key: string, current: string, made: Option<string>) {
    if Blank(current) then made == Some(key) else key == current
  }

  /** Every missing key can be made; an encryption key only where there surely is no database. */
  predicate KeysAvailable(current: Secrets, database: Option<bool>, made: Fresh) {
    && (Blank(current.cookieHashKey) ==> made.hash.Some?)
    && (Blank(current.cookieBlockKey) ==> made.block.Some?)
    && (Blank(current.encryptionKey) ==> database == Some(false) && made.encryption.Some?)
  }

  /** The keys to use and what to store of them, unless a key cannot be had. */
  method Complete(current: Secrets, database: Option<bool>, hostDefault: string, made: Fresh)
    returns (secrets: Option<Secrets>, generated: map<string, string>)
    ensures secrets.Some? ==> generated == Generated(current, hostDefault, made)
    ensures secrets.Some? ==> secrets.value == Secrets(Chosen(current.cookieHashKey, made.hash),
                                                       Chosen(current.cookieBlockKey, made.block),
                                                       Chosen(current.encryptionKey, made.encryption))
    ensures secrets.Some? <==> KeysAvailable(current, database, made)
  {
    generated := map[];
    if !Blank(hostDefault) {
      generated := generated[HOST := hostDefault];
    }
    assert generated == Entry(HOST, [], if Blank(hostDefault) then None else Some(hostDefault));
    var ok, hash, block, encryption;
    ok, hash, generated := Ensure(COOKIE_HASH, current.cookieHashKey, made.hash, generated);
    if !ok {
      return None, generated;
    }
    ok, block, generated := Ensure(COOKIE_BLOCK, current.cookieBlockKey, made.block, generated);
    if !ok {
      return None, generated;
    }
    if Blank(current.encryptionKey) && database != Some(false) {
      return None, generated;
    }
    ok, encryption, generated := Ensure(ENCRYPTION, current.encryptionKey, made.encryption, generated);
    if !ok {
      return None, generated;
    }
    secrets := Some(Secrets(hash, block, encryption));
  }

  /** Which of the calls made while storing succeed. */
  datatype Calls = Calls(directory: bool, reading: bool, securing: bool, replacing: bool)

  function TextOf(file: Option<string>): string { if file.Some? then file.value else [] }

  /** All that storing needs; a file that stays as it is must only have its permissions set. */
  ghost predicate CanStore(
    path: string, generated: map<string, string>, keys: seq<string>, calls: Calls, file: Option<string>)
    requires forall key :: key in keys ==> key in generated
  {
    generated == map[] ||
    (&& !Blank(path) && calls.directory && calls.reading
     && if Updated(ENV, TextOf(file), generated, keys) == TextOf(file) then file.None? || calls.securing else calls.replacing)
  }

  /** The environment's values if not blank, otherwise those of the file. */
  function Loaded(environment: Secrets, path: string, file: Option<string>): Secrets {
    var values := if Blank(path) then map[] else Read(ENV, TextOf(file));
    Secrets(FirstNonEmpty(environment.cookieHashKey, FileValue(values, COOKIE_HASH)),
            FirstNonEmpty(environment.cookieBlockKey, FileValue(values, COOKIE_BLOCK)),
            FirstNonEmpty(environment.encryptionKey, FileValue(values, ENCRYPTION)))
  }

  /** A key is the environment's if that is not blank, else the file's if that is not, else empty. */
  ghost predicate IsLoaded(key: string, environment: string, name: string, values: map<string, string>) {
    if !Blank(environment) then key == environment
    else if name in values && !Blank(values[name]) then key == values[name]
    else key == ""
  }

  lemma LoadedExactly(environment: Secrets, path: string, file: Option<string>)
    ensures var loaded := Loaded(environment, path, file);
            var values := if Blank(path) || file.None? then map[] else Read(ENV, file.value);
            && IsLoaded(loaded.cookieHashKey, environment.cookieHashKey, "COOKIE_HASH_KEY_BASE64", values)
            && IsLoaded(loaded.cookieBlockKey, environment.cookieBlockKey, "COOKIE_BLOCK_KEY_BASE64", values)
            && IsLoaded(loaded.encryptionKey, environment.encryptionKey, "ENCRYPTION_KEY_BASE64", values)
  {
    NothingRead();
    assert Blank([]);
  }

  function FileValue(values: map<string, string>, name: string): string { if name in values then values[name] else [] }

  function FirstNonEmpty(a: string, b: string): string { if !Blank(a) then a else if !Blank(b) then b else [] }

  class EnvStore {
    /** The file, which may not exist yet. */
    var file: Option<string>

    function Text(): string
      reads this
    {
      TextOf(file)
    }

    /** `reading` is whether an existing file can be read. */
    method LoadCurrentSecrets(environment: Secrets, path: string, reading: bool) returns (r: Option<Secrets>)
      ensures r == if !Blank(path) && file.Some? && !reading then None else Some(Loaded(environment, path, file))
    {
      var fileValues: map<string, string> := map[];
      if !Blank(path) && file.Some? {
        if !reading {
          return None;
        }
        fileValues := Read(ENV, file.value);
      }
      NothingRead();
      return Some(Secrets(FirstNonEmpty(environment.cookieHashKey, FileValue(fileValues, COOKIE_HASH)),
                          FirstNonEmpty(environment.cookieBlockKey, FileValue(fileValues, COOKIE_BLOCK)),
                          FirstNonEmpty(environment.encryptionKey, FileValue(fileValues, ENCRYPTION))));
    }

    /** `keys` lists the generated names in order. */
    method PersistGeneratedSecrets(path: string, generated: map<string, string>, keys: seq<string>, calls: Calls)
      returns (ok: bool)
      requires Writable(ENV, generated) && Listed(keys, generated)
      requires KeysProper(generated)
      modifies this
      ensures !ok || generated == map[] ==> file == old(file)
      ensures ok ==> Text() == Updated(ENV, old(Text()), generated, keys)
      ensures ok <==> CanStore(path, generated, keys, calls, old(file))
    {
      if |generated| == 0 {
        NothingGenerated(Text(), generated, keys);
        return true;
      }
      if Blank(path) || !calls.directory || !calls.reading {
        return false;
      }
      var content := Text();
      var updatedContent := Rewrite(content, generated, keys);
      if updatedContent == content {
        return file.None? || calls.securing;
      }
      if !calls.replacing {
        return false;
      }
      file := Some(updatedContent);
      return true;
    }

    /**
      `database` is the answer to whether the database file exists, or none when that could
      not be found out.
     */
    method EnsureSecrets(current: Secrets, database: Option<bool>, envPath: string, hostDefault: string,
                         made: Fresh, calls: Calls) returns (r: Option<Secrets>)
      requires ProperValue(hostDefault) && made.Proper()
      modifies this
      ensures r.None? ==> file == old(file)
      ensures r.Some? ==> r.value == Secrets(Chosen(current.cookieHashKey, made.hash),
                                             Chosen(current.cookieBlockKey, made.block),
                                             Chosen(current.encryptionKey, made.encryption))
      ensures r.Some? ==> !Blank(r.value.cookieHashKey) && !Blank(r.value.cookieBlockKey) && !Blank(r.value.encryptionKey)
      ensures r.Some? ==>
        && IsChosen(r.value.cookieHashKey, current.cookieHashKey, made.hash)
        && IsChosen(r.value.cookieBlockKey, current.cookieBlockKey, made.block)
        && IsChosen(r.value.encryptionKey, current.encryptionKey, made.encryption)
      ensures r.Some? <==>
        && KeysAvailable(current, database, made)
        && CanStore(envPath, Generated(current, hostDefault, made), Sorted(Generated(current, hostDefault, made)), calls, old(file))
      ensures r.Some? ==> Text() == Updated(ENV, old(Text()), Generated(current, hostDefault, made),
                                            Sorted(Generated(current, hostDefault, made)))
      ensures r.Some? ==> Read(ENV, Text()) == Completed(ENV, Read(ENV, old(Text())), Generated(current, hostDefault, made))
    {
      var secrets, generated := Complete(current, database, hostDefault, made);
      if secrets.None? {
        return None;
      }
      GeneratedIsWritable(current, hostDefault, made);
      UpdatedReads(ENV, Text(), generated, Sorted(generated));
      var persisted := PersistGeneratedSecrets(envPath, generated, Sorted(generated), calls);
      return if persisted then secrets else None;
    }
  }

  lemma NothingRead()
    ensures Read(ENV, []) == map[]
  {
    EnvCoherent();
    assert Split([]) == [[]];
    DictKept(ENV, [[]]);
  }

  lemma NothingGenerated(content: string, generated: map<string, string>, keys: seq<string>)
    requires Listed(keys, generated) && generated == map[]
    ensures Updated(ENV, content, generated, keys) == content
  {
    assert forall i :: 0 <= i < |keys| ==> keys[i] in generated;
    FixedNone(ENV, content, generated);
  }

  lemma NamesInGenerated(current: Secrets, host: string, made: Fresh)
    ensures var generated := Generated(current, host, made);
            && (COOKIE_HASH in generated <==> Blank(current.cookieHashKey) && made.hash.Some?)
            && (COOKIE_HASH in generated ==> generated[COOKIE_HASH] == made.hash.value)
            && (COOKIE_BLOCK in generated <==> Blank(current.cookieBlockKey) && made.block.Some?)
            && (COOKIE_BLOCK in generated ==> generated[COOKIE_BLOCK] == made.block.value)
            && (ENCRYPTION in generated <==> Blank(current.encryptionKey) && made.encryption.Some?)
            && (ENCRYPTION in generated ==> generated[ENCRYPTION] == made.encryption.value)
            && (HOST in generated <==> !Blank(host)) && (HOST in generated ==> generated[HOST] == host)
  {
    assert |COOKIE_BLOCK| == 23 && |COOKIE_HASH| == 22 && |ENCRYPTION| == 21 && |HOST| == 4;
  }

  lemma OneKeyStored(content: string, generated: map<string, string>, name: string, environment: string, made: Option<string>)
    requires Writable(ENV, generated) && Listed(Sorted(generated), generated) && Blank(environment)
    requires var current := FirstNonEmpty(environment, FileValue(Read(ENV, content), name));
             && (Blank(current) ==> made.Some?) && (name in generated <==> Blank(current))
             && (name in generated ==> generated[name] == made.value)
    ensures var after := Read(ENV, Updated(ENV, content, generated, Sorted(generated)));
            && name in after
            && Trim(after[name]) == Trim(Chosen(FirstNonEmpty(environment, FileValue(Read(ENV, content), name)), made))
  {
    UpdatedReads(ENV, content, generated, Sorted(generated));
    if name in generated { TrimTwice(generated[name]); }
  }

  /** The default host is stored if there is one, unless the file names a host already. */
  lemma HostIsStored(content: string, current: Secrets, host: string, made: Fresh)
    requires ProperValue(host) && made.Proper()
    ensures var generated := Generated(current, host, made);
            var before, after := Read(ENV, content), Read(ENV, Updated(ENV, content, generated, Sorted(generated)));
            && (!Blank(host) ==>
                "HOST" in after && after["HOST"] == if "HOST" in before && !Blank(before["HOST"]) then before["HOST"] else Trim(host))
            && (Blank(host) ==> ("HOST" in after <==> "HOST" in before) && ("HOST" in before ==> after["HOST"] == before["HOST"]))
  {
    var generated := Generated(current, host, made);
    GeneratedIsWritable(current, host, made);
    NamesInGenerated(current, host, made);
    UpdatedReads(ENV, content, generated, Sorted(generated));
  }

  /** The lines that a new file gets, in alphabetical order. */
  lemma FreshFile(hash: string, block: string, encryption: string, host: string)
    requires !Blank(hash) && !Blank(block) && !Blank(encryption) && !Blank(host)
    ensures var generated := Generated(Secrets([], [], []), host, Fresh(Some(hash), Some(block), Some(encryption)));
      var keys := ["COOKIE_BLOCK_KEY_BASE64", "COOKIE_HASH_KEY_BASE64", "ENCRYPTION_KEY_BASE64", "HOST"];
      Updated(ENV, "", generated, Sorted(generated)) ==
        (keys[0] + "=" + block) + "\n" + ((keys[1] + "=" + hash) + "\n" +
        ((keys[2] + "=" + encryption) + "\n" + (keys[3] + "=" + host))) + "\n"
  {
    var generated := Generated(Secrets([], [], []), host, Fresh(Some(hash), Some(block), Some(encryption)));
    NamesInGenerated(Secrets([], [], []), host, Fresh(Some(hash), Some(block), Some(encryption)));
    FourUpdated(generated, Sorted(generated));
  }

  lemma FourUpdated(generated: map<string, string>, keys: seq<string>)
    requires |keys| == 4 && forall key :: key in keys ==> key in generated
    ensures Updated(ENV, "", generated, keys) ==
      (keys[0] + "=" + generated[keys[0]]) + "\n" + ((keys[1] + "=" + generated[keys[1]]) + "\n" +
      ((keys[2] + "=" + generated[keys[2]]) + "\n" + (keys[3] + "=" + generated[keys[3]]))) + "\n"
  {
    NothingRead();
    FourMissing(generated, keys);
    forall k | 0 <= k < 4 ensures ENV.write(keys[k], generated[keys[k]], []) == keys[k] + "=" + generated[keys[k]] {
      Written(keys[k], generated[keys[k]]);
    }
    EmptyFixed(generated, keys);
    FourAdded(keys[0] + "=" + generated[keys[0]], keys[1] + "=" + generated[keys[1]],
              keys[2] + "=" + generated[keys[2]], keys[3] + "=" + generated[keys[3]]);
  }

  lemma FourAdded(a: string, b: string, c: string, d: string)
    ensures Added("", [a, b, c, d]) == a + "\n" + (b + "\n" + (c + "\n" + d)) + "\n"
  {
    JoinFour(a, b, c, d);
  }

  lemma Written(key: string, value: string)
    ensures ENV.write(key, value, []) == key + "=" + value
  {
    assert Ending([]) == [];
    assert ENV.write(key, value, []) == WriteLine(key, value, Ending([]));
    assert WriteLine(key, value, []) == key + "=" + value;
  }

  lemma EmptyFixed(generated: map<string, string>, keys: seq<string>)
    ensures Join(Fixed(ENV, "", generated, keys)) == ""
  {
    assert Split("") == [""];
    FindNone([], '=');
  }

  lemma FourMissing(generated: map<string, string>, keys: seq<string>)
    requires |keys| == 4 && forall key :: key in keys ==> key in generated
    ensures Missing(ENV, map[], generated, keys) == [
      ENV.write(keys[0], generated[keys[0]], []), ENV.write(keys[1], generated[keys[1]], []),
      ENV.write(keys[2], generated[keys[2]], []), ENV.write(keys[3], generated[keys[3]], [])]
  {
    assert keys[..3][..2] == keys[..2] && keys[..2][..1] == keys[..1] && keys[..1][..0] == [];
    assert Missing(ENV, map[], generated, keys[..0]) == [];
    assert Missing(ENV, map[], generated, keys[..1]) == [ENV.write(keys[0], generated[keys[0]], [])];
    assert Missing(ENV, map[], generated, keys[..2]) ==
      Missing(ENV, map[], generated, keys[..1]) + [ENV.write(keys[1], generated[keys[1]], [])];
    assert Missing(ENV, map[], generated, keys[..3]) ==
      Missing(ENV, map[], generated, keys[..2]) + [ENV.write(keys[2], generated[keys[2]], [])];
  }

  lemma JoinFour(a: string, b: string, c: string, d: string)
    ensures Join([a, b, c, d]) == a + "\n" + (b + "\n" + (c + "\n" + d))
  {
    JoinCons(c, [d]);
    JoinCons(b, [c, d]);
    JoinCons(a, [b, c, d]);
  }

  /**
    As the program starts, with the keys of the environment or else of the file: every key
    it uses that the environment does not provide is the one that the file holds afterwards.
   */
  lemma UsedIsStored(environment: Secrets, path: string, file: Option<string>, host: string, made: Fresh)
    requires ProperValue(host) && made.Proper() && !Blank(path)
    requires KeysAvailable(Loaded(environment, path, file), Some(false), made)
    ensures var current := Loaded(environment, path, file);
            var generated := Generated(current, host, made);
            var after := Read(ENV, Updated(ENV, TextOf(file), generated, Sorted(generated)));
            && (Blank(environment.cookieHashKey) ==>
                COOKIE_HASH in after && Trim(after[COOKIE_HASH]) == Trim(Chosen(current.cookieHashKey, made.hash)))
            && (Blank(environment.cookieBlockKey) ==>
                COOKIE_BLOCK in after && Trim(after[COOKIE_BLOCK]) == Trim(Chosen(current.cookieBlockKey, made.block)))
            && (Blank(environment.encryptionKey) ==>
                ENCRYPTION in after && Trim(after[ENCRYPTION]) == Trim(Chosen(current.encryptionKey, made.encryption)))
  {
    var current := Loaded(environment, path, file);
    var generated := Generated(current, host, made);
    GeneratedIsWritable(current, host, made);
    NamesInGenerated(current, host, made);
    if Blank(environment.cookieHashKey) {
      OneKeyStored(TextOf(file), generated, COOKIE_HASH, environment.cookieHashKey, made.hash);
    }
    if Blank(environment.cookieBlockKey) {
      OneKeyStored(TextOf(file), generated, COOKIE_BLOCK, environment.cookieBlockKey, made.block);
    }
    if Blank(environment.encryptionKey) {
      OneKeyStored(TextOf(file), generated, ENCRYPTION, environment.encryptionKey, made.encryption);
    }
  }

  /** A generated key that is returned is the one the file holds exactly if the file had none, or the same one. */
  lemma ReturnedIsStored(content: string, generated: map<string, string>, key: string)
    requires Writable(ENV, generated) && Listed(Sorted(generated), generated) && key in generated
    ensures var before := Read(ENV, content);
            var after := Read(ENV, Updated(ENV, content, generated, Sorted(generated)));
            key in after
            && (after[key] == Trim(generated[key])
                <==> (key !in before || Blank(before[key]) || before[key] == Trim(generated[key])))
  {
    UpdatedReads(ENV, content, generated, Sorted(generated));
  }

  /** Started again with the keys it returned, the program leaves the file alone. */
  lemma {:induction false} SecondStart(content: string, current: Secrets, host: string, made: Fresh, again: Fresh)
    requires ProperValue(host) && made.Proper() && again.Proper()
    requires Blank(current.cookieHashKey) ==> made.hash.Some?
    requires Blank(current.cookieBlockKey) ==> made.block.Some?
    requires Blank(current.encryptionKey) ==> made.encryption.Some?
    ensures var first := Generated(current, host, made);
            var after := Updated(ENV, content, first, Sorted(first));
            var returned := Secrets(Chosen(current.cookieHashKey, made.hash), Chosen(current.cookieBlockKey, made.block),
                                    Chosen(current.encryptionKey, made.encryption));
            var second := Generated(returned, host, again);
            Listed(Sorted(second), second) && Updated(ENV, after, second, Sorted(second)) == after
  {
    var first := Generated(current, host, made);
    var returned := Secrets(Chosen(current.cookieHashKey, made.hash), Chosen(current.cookieBlockKey, made.block),
                            Chosen(current.encryptionKey, made.encryption));
    var second := Generated(returned, host, again);
    GeneratedIsWritable(current, host, made);
    GeneratedIsWritable(returned, host, again);
    SecondRunChangesNothing(ENV, content, first, Sorted(first), second, Sorted(second));
  }
}
