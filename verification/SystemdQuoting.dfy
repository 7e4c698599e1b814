/**
  Printing the arguments of an `ExecStart=` line, and reading them back as systemd does:
  words are split and unquoted (systemd.syntax(7), section QUOTING), then specifiers are
  resolved (systemd.unit(5), section SPECIFIERS), then variables (systemd.service(5),
  section COMMAND LINES). What the reader would have to look up elsewhere is `None`.

  Line numbers refer to `internal/appservice/systemd-unit.go`.
 */
module SystemdQuoting {
  import opened Wrappers

  // ----- the printer

  /** Replaces every occurrence of one character by a text. */
  function ReplaceAll(s: string, c: char, text: string): string {
    if s == [] then [] else (if s[0] == c then text else [s[0]]) + ReplaceAll(s[1..], c, text)
  }

  predicate Printable(value: string) { '\r' !in value && '\n' !in value && '\0' !in value }

  function QuoteValue(value: string): Option<string> {
    if !Printable(value) then None else
    var escaped := ReplaceAll(value, '\\', ['\\', '\\']);
    var escaped' := ReplaceAll(escaped, '"', ['\\', '"']);
    Some(['"'] + ReplaceAll(escaped', '%', ['%', '%']) + ['"'])
  }

  function QuoteExecArgument(value: string): Option<string> {
    match QuoteValue(value)
    case None => None
    case Some(quoted) => Some(ReplaceAll(quoted, '$', ['$', '$']))
  }

  // ----- the reader

  predicate IsSpace(c: char) { c == ' ' || c == '\t' || c == '\n' || c == '\r' }

  predicate IsQuote(c: char) { c == '"' || c == '\'' }

  /** The character that a backslash and `c` stand for; numeric escapes are not read. */
  function Unescaped(c: char): Option<char> {
    if c == '\\' || c == '"' || c == '\'' then Some(c)
    else if c == 's' then Some(' ')
    else if c == 'n' then Some('\n')
    else if c == 'r' then Some('\r')
    else if c == 't' then Some('\t')
    else if c == 'a' then Some(7 as char)
    else if c == 'b' then Some(8 as char)
    else if c == 'v' then Some(11 as char)
    else if c == 'f' then Some(12 as char)
    else None
  }

  datatype Place = Between | Bare | Quoted(quote: char)

  function Cons(word: string, words: Option<seq<string>>): Option<seq<string>> {
    if words.Some? then Some([word] + words.value) else None
  }

  /** The words of `s`, when the reader is at `place` and has read `word` of the current one. */
  function Words(s: string, place: Place, word: string): Option<seq<string>>
    decreases |s|
  {
    if s == [] then
      match place
      case Between => Some([])
      case Bare => Some([word])
      case Quoted(_) => None
    else if s[0] == '\\' then
      if |s| == 1 || Unescaped(s[1]) == None then None
      else Words(s[2..], if place.Between? then Bare else place, word + [Unescaped(s[1]).value])
    else
      match place
      case Between =>
        if IsSpace(s[0]) then Words(s[1..], Between, [])
        else if IsQuote(s[0]) then Words(s[1..], Quoted(s[0]), [])
        else Words(s[1..], Bare, [s[0]])
      case Bare =>
        if IsSpace(s[0]) then Cons(word, Words(s[1..], Between, []))
        else if IsQuote(s[0]) then Words(s[1..], Quoted(s[0]), word)
        else Words(s[1..], Bare, word + [s[0]])
      case Quoted(quote) =>
        if s[0] == quote then Words(s[1..], Bare, word) else Words(s[1..], place, word + [s[0]])
  }

  /** Resolves a doubled `mark`; a single one refers to something the reader does not have. */
  function Resolve(word: string, mark: char): Option<string> {
    if word == [] then Some([])
    else if word[0] != mark then
      match Resolve(word[1..], mark)
      case None => None
      case Some(rest) => Some([word[0]] + rest)
    else if |word| > 1 && word[1] == mark then
      match Resolve(word[2..], mark)
      case None => None
      case Some(rest) => Some([mark] + rest)
    else None
  }

  function ReadWord(word: string): Option<string> {
    match Resolve(word, '%')
    case None => None
    case Some(resolved) => Resolve(resolved, '$')
  }

  function ReadWords(words: seq<string>): Option<seq<string>> {
    if words == [] then Some([]) else
    match ReadWord(words[0])
    case None => None
    case Some(argument) => Cons(argument, ReadWords(words[1..]))
  }

  function ReadArguments(line: string): Option<seq<string>> {
    match Words(line, Between, [])
    case None => None
    case Some(words) => ReadWords(words)
  }

  // ----- the chained replacements are one pass

  function Escaped(c: char): string {
    if c == '\\' then ['\\', '\\']
    else if c == '"' then ['\\', '"']
    else if c == '%' then ['%', '%']
    else if c == '$' then ['$', '$']
    else [c]
  }

  function EscapeAll(value: string): string {
    if value == [] then [] else Escaped(value[0]) + EscapeAll(value[1..])
  }

  lemma Regroup<T>(a: seq<T>, b: seq<T>, c: seq<T>)
    ensures a + b + c == a + (b + c)
  {
  }

  lemma ReplaceAllStep(x: char, rest: string, c: char, text: string)
    ensures ReplaceAll([x] + rest, c, text) == (if x == c then text else [x]) + ReplaceAll(rest, c, text)
  {
    assert ([x] + rest)[1..] == rest;
  }

  lemma {:induction false} ReplaceAllConcat(a: string, b: string, c: char, text: string)
    ensures ReplaceAll(a + b, c, text) == ReplaceAll(a, c, text) + ReplaceAll(b, c, text)
  {
    if a == [] {
      assert a + b == b;
    } else {
      ReplaceAllConcat(a[1..], b, c, text);
      ReplaceAllStep(a[0], a[1..] + b, c, text);
      assert a + b == [a[0]] + (a[1..] + b);
      Regroup(if a[0] == c then text else [a[0]], ReplaceAll(a[1..], c, text), ReplaceAll(b, c, text));
    }
  }

  lemma ReplaceOne(x: char, c: char, text: string)
    ensures ReplaceAll([x], c, text) == if x == c then text else [x]
  {
    assert [x][1..] == [];
  }

  lemma ReplaceTwo(x: char, y: char, c: char, text: string)
    ensures ReplaceAll([x, y], c, text) == (if x == c then text else [x]) + (if y == c then text else [y])
  {
    assert [x, y] == [x] + [y];
    ReplaceAllConcat([x], [y], c, text);
    ReplaceOne(x, c, text);
    ReplaceOne(y, c, text);
  }

  /** The four replacements, one after the other. */
  function Chained(value: string): string {
    ReplaceAll(ReplaceAll(ReplaceAll(ReplaceAll(value, '\\', ['\\', '\\']), '"', ['\\', '"']), '%', ['%', '%']), '$', ['$', '$'])
  }

  lemma ChainedConcat(a: string, b: string)
    ensures Chained(a + b) == Chained(a) + Chained(b)
  {
    var a1, b1 := ReplaceAll(a, '\\', ['\\', '\\']), ReplaceAll(b, '\\', ['\\', '\\']);
    var a2, b2 := ReplaceAll(a1, '"', ['\\', '"']), ReplaceAll(b1, '"', ['\\', '"']);
    var a3, b3 := ReplaceAll(a2, '%', ['%', '%']), ReplaceAll(b2, '%', ['%', '%']);
    ReplaceAllConcat(a, b, '\\', ['\\', '\\']);
    ReplaceAllConcat(a1, b1, '"', ['\\', '"']);
    ReplaceAllConcat(a2, b2, '%', ['%', '%']);
    ReplaceAllConcat(a3, b3, '$', ['$', '$']);
  }

  lemma ChainedOne(x: char)
    ensures Chained([x]) == Escaped(x)
  {
    ReplaceOne(x, '\\', ['\\', '\\']);
    ReplaceOne(x, '"', ['\\', '"']);
    ReplaceOne(x, '%', ['%', '%']);
    ReplaceOne(x, '$', ['$', '$']);
    var e := Escaped(x);
    if |e| == 2 {
      ReplaceTwo(e[0], e[1], '"', ['\\', '"']);
      ReplaceTwo(e[0], e[1], '%', ['%', '%']);
      ReplaceTwo(e[0], e[1], '$', ['$', '$']);
    }
  }

  lemma {:induction false} ChainedIsOnePass(value: string)
    ensures Chained(value) == EscapeAll(value)
  {
    if value != [] {
      ChainedIsOnePass(value[1..]);
      assert value == [value[0]] + value[1..];
      ChainedConcat([value[0]], value[1..]);
      ChainedOne(value[0]);
    }
  }

  /** An argument is printed as its escaped characters between quotes, or refused. */
  lemma QuotedIsEscaped(value: string)
    ensures QuoteExecArgument(value) == if Printable(value) then Some(PrintedOne(value)) else None
  {
    if Printable(value) {
      var inner := ReplaceAll(ReplaceAll(ReplaceAll(value, '\\', ['\\', '\\']), '"', ['\\', '"']), '%', ['%', '%']);
      ReplaceAllConcat(['"'] + inner, ['"'], '$', ['$', '$']);
      ReplaceAllConcat(['"'], inner, '$', ['$', '$']);
      ReplaceOne('"', '$', ['$', '$']);
      ChainedIsOnePass(value);
    }
  }

  // ----- reading back

  /** The value with every `mark` doubled. */
  function Doubled(value: string, mark: char): string { ReplaceAll(value, mark, [mark, mark]) }

  lemma ResolvePair(rest: string, mark: char)
    requires Resolve(rest, mark).Some?
    ensures Resolve([mark, mark] + rest, mark) == Some([mark] + Resolve(rest, mark).value)
  {
    assert ([mark, mark] + rest)[2..] == rest;
  }

  lemma ResolvePlain(c: char, rest: string, mark: char)
    requires c != mark && Resolve(rest, mark).Some?
    ensures Resolve([c] + rest, mark) == Some([c] + Resolve(rest, mark).value)
  {
    assert ([c] + rest)[1..] == rest;
  }

  lemma {:induction false} ResolveDoubled(value: string, mark: char)
    ensures Resolve(Doubled(value, mark), mark) == Some(value)
  {
    if value != [] {
      ResolveDoubled(value[1..], mark);
      var rest := Doubled(value[1..], mark);
      assert value == [value[0]] + value[1..];
      if value[0] == mark {
        assert Doubled(value, mark) == [mark, mark] + rest;
        ResolvePair(rest, mark);
      } else {
        assert Doubled(value, mark) == [value[0]] + rest;
        ResolvePlain(value[0], rest, mark);
      }
    }
  }

  /** What is left of a value once the quoted form has been split and unquoted. */
  function Half(value: string): string { Doubled(Doubled(value, '$'), '%') }

  lemma HalfNext(value: string)
    requires value != []
    ensures Half(value) ==
      HalfOf(value[0]) + Half(value[1..])
  {
    var c, rest := value[0], Doubled(value[1..], '$');
    if c == '$' {
      ReplaceAllConcat(['$', '$'], rest, '%', ['%', '%']);
      ReplaceTwo('$', '$', '%', ['%', '%']);
    } else {
      ReplaceAllConcat([c], rest, '%', ['%', '%']);
      ReplaceOne(c, '%', ['%', '%']);
    }
  }

  lemma WordsPlain(c: char, rest: string, word: string)
    requires c != '\\' && c != '"'
    ensures Words([c] + rest, Quoted('"'), word) == Words(rest, Quoted('"'), word + [c])
  {
    assert ([c] + rest)[1..] == rest;
  }

  lemma WordsEscaped(c: char, rest: string, word: string)
    requires c == '\\' || c == '"'
    ensures Words(['\\', c] + rest, Quoted('"'), word) == Words(rest, Quoted('"'), word + [c])
  {
    assert (['\\', c] + rest)[2..] == rest;
  }

  /** What is left, after splitting and unquoting, of one escaped character. */
  function HalfOf(c: char): string {
    if c == '%' then ['%', '%'] else if c == '$' then ['$', '$'] else [c]
  }

  lemma UnquoteOne(c: char, tail: string, word: string)
    ensures Words(Escaped(c) + tail, Quoted('"'), word) == Words(tail, Quoted('"'), word + HalfOf(c))
  {
    if c == '\\' || c == '"' {
      WordsEscaped(c, tail, word);
    } else if c == '%' || c == '$' {
      assert Escaped(c) + tail == [c] + ([c] + tail);
      WordsPlain(c, [c] + tail, word);
      WordsPlain(c, tail, word + [c]);
      assert word + [c] + [c] == word + HalfOf(c);
    } else {
      WordsPlain(c, tail, word);
    }
  }

  lemma CloseQuote(rest: string, word: string)
    ensures Words(['"'] + rest, Quoted('"'), word) == Words(rest, Bare, word)
  {
    assert (['"'] + rest)[1..] == rest;
  }

  /** Inside quotes the reader undoes the escapes and comes out behind the closing quote. */
  lemma {:induction false} UnquoteEscaped(value: string, rest: string, word: string)
    ensures Words(EscapeAll(value) + (['"'] + rest), Quoted('"'), word) == Words(rest, Bare, word + Half(value))
    decreases |value|
  {
    if value == [] {
      assert EscapeAll(value) + (['"'] + rest) == ['"'] + rest;
      assert word + Half(value) == word;
      CloseQuote(rest, word);
    } else {
      var c := value[0];
      var tail := EscapeAll(value[1..]) + (['"'] + rest);
      HalfNext(value);
      Regroup(Escaped(c), EscapeAll(value[1..]), ['"'] + rest);
      UnquoteOne(c, tail, word);
      UnquoteEscaped(value[1..], rest, word + HalfOf(c));
      Regroup(word, HalfOf(c), Half(value[1..]));
    }
  }

  /** One printed argument. */
  function PrintedOne(argument: string): string { ['"'] + EscapeAll(argument) + ['"'] }

  /** The printed arguments, each after a space. */
  function Printed(arguments: seq<string>): string {
    if arguments == [] then [] else [' '] + (PrintedOne(arguments[0]) + Printed(arguments[1..]))
  }

  function Halves(arguments: seq<string>): seq<string> {
    if arguments == [] then [] else [Half(arguments[0])] + Halves(arguments[1..])
  }

  /** A printed argument is one word, wherever it stands. */
  lemma ReadPrintedOne(argument: string, rest: string)
    ensures Words(PrintedOne(argument) + rest, Between, []) == Words(rest, Bare, Half(argument))
  {
    var inner := EscapeAll(argument) + (['"'] + rest);
    assert PrintedOne(argument) + rest == ['"'] + inner;
    assert (['"'] + inner)[1..] == inner;
    UnquoteEscaped(argument, rest, []);
    assert [] + Half(argument) == Half(argument);
  }

  lemma SpaceEndsWord(rest: string, word: string)
    ensures Words([' '] + rest, Bare, word) == Cons(word, Words(rest, Between, []))
    ensures Words([' '] + rest, Between, []) == Words(rest, Between, [])
  {
    assert ([' '] + rest)[1..] == rest;
  }

  lemma {:induction false} SplitPrinted(arguments: seq<string>, word: string)
    ensures Words(Printed(arguments), Between, []) == Some(Halves(arguments))
    ensures Words(Printed(arguments), Bare, word) == Some([word] + Halves(arguments))
  {
    if arguments == [] {
      assert [word] + Halves(arguments) == [word];
    } else {
      var rest := Printed(arguments[1..]);
      SplitPrinted(arguments[1..], Half(arguments[0]));
      ReadPrintedOne(arguments[0], rest);
      SpaceEndsWord(PrintedOne(arguments[0]) + rest, word);
    }
  }

  lemma ReadHalf(argument: string)
    ensures ReadWord(Half(argument)) == Some(argument)
  {
    ResolveDoubled(Doubled(argument, '$'), '%');
    ResolveDoubled(argument, '$');
  }

  lemma {:induction false} ReadHalves(arguments: seq<string>)
    ensures ReadWords(Halves(arguments)) == Some(arguments)
  {
    if arguments != [] {
      ReadHalves(arguments[1..]);
      ReadHalf(arguments[0]);
      ReadOneMore(Half(arguments[0]), Halves(arguments[1..]), arguments[0], arguments[1..]);
      assert arguments == [arguments[0]] + arguments[1..];
    }
  }

  lemma ReadOneMore(word: string, words: seq<string>, argument: string, arguments: seq<string>)
    requires ReadWord(word) == Some(argument) && ReadWords(words) == Some(arguments)
    ensures ReadWords([word] + words) == Some([argument] + arguments)
  {
    assert ([word] + words)[1..] == words;
  }

  /** Whatever the arguments are, reading the printed line gives back exactly them. */
  lemma {:induction false} ExecStartRoundTrip(arguments: seq<string>)
    ensures ReadArguments(Printed(arguments)) == Some(arguments)
  {
    SplitPrinted(arguments, []);
    ReadHalves(arguments);
  }

  lemma {:induction false} PrintedNext(arguments: seq<string>, argument: string)
    ensures Printed(arguments + [argument]) == Printed(arguments) + ([' '] + PrintedOne(argument))
  {
    if arguments == [] {
      assert arguments + [argument] == [argument];
      assert [argument][1..] == [];
      assert Printed([argument]) == [' '] + (PrintedOne(argument) + []);
    } else {
      PrintedNext(arguments[1..], argument);
      var longer := arguments + [argument];
      assert longer[0] == arguments[0] && longer[1..] == arguments[1..] + [argument];
      var first, rest, last := PrintedOne(arguments[0]), Printed(arguments[1..]), [' '] + PrintedOne(argument);
      Regroup(first, rest, last);
      Regroup([' '], first + rest, last);
    }
  }

  /**
    Lines 41-50: the part of `ExecStart=` after the executable. It is refused exactly if
    some argument holds a line break or NUL, and otherwise reads back as the arguments.
   */
  method PrintArguments(arguments: seq<string>) returns (line: Option<string>)
    ensures line.Some? <==> forall argument :: argument in arguments ==> '\r' !in argument && '\n' !in argument && '\0' !in argument
    ensures line.Some? ==> ReadArguments(line.value) == Some(arguments)
  {
    var builder: string := [];
    for i := 0 to |arguments|
      invariant builder == Printed(arguments[..i])
      invariant forall j :: 0 <= j < i ==> Printable(arguments[j])
    {
      QuotedIsEscaped(arguments[i]);
      var quoted := QuoteExecArgument(arguments[i]);
      if quoted.None? {
        return None;
      }
      PrintedNext(arguments[..i], arguments[i]);
      assert arguments[..i] + [arguments[i]] == arguments[..i + 1];
      Regroup(builder, [' '], quoted.value);
      builder := builder + [' '];
      builder := builder + quoted.value;
    }
    assert arguments[..|arguments|] == arguments;
    ExecStartRoundTrip(arguments);
    return Some(builder);
  }
}
