/**
  The Windows login command line (`quote_windows_argument` in src/login_startup.rs and
  `registration_command` in src/login_startup/windows.rs), against the rules that Microsoft documents for
  `CommandLineToArgvW`.
 */
module WindowsArguments {
  import opened Wrappers

  // ---- The rules of CommandLineToArgvW ----

  predicate Blank(c: char) { c == ' ' || c == '\t' }

  function Backslashes(n: nat): string {
    seq(n, _ => '\\')
  }

  datatype Cut = Cut(word: string, rest: string)

  /**
    One argument after the first, from inside it: `slashes` backslashes have been seen but not yet
    interpreted. Backslashes are literal unless a quotation mark follows; 2n of them before a mark stand for
    n and the mark toggles quoting, 2n + 1 stand for n and a literal mark.
   */
  function ReadWord(line: string, quoted: bool, slashes: nat, word: string): (cut: Cut)
    ensures |cut.rest| <= |line|
    ensures line != [] && (quoted || !Blank(line[0])) ==> |cut.rest| < |line|
    decreases |line|
  {
    if line == [] then Cut(word + Backslashes(slashes), line)
    else if line[0] == '\\' then ReadWord(line[1..], quoted, slashes + 1, word)
    else if line[0] == '"' then
      if slashes % 2 == 0 then ReadWord(line[1..], !quoted, 0, word + Backslashes(slashes / 2))
      else ReadWord(line[1..], quoted, 0, word + Backslashes(slashes / 2) + "\"")
    else if !quoted && Blank(line[0]) then Cut(word + Backslashes(slashes), line)
    else ReadWord(line[1..], quoted, 0, word + Backslashes(slashes) + [line[0]])
  }

  /** The arguments after the first. */
  function ParseArguments(line: string): seq<string>
    decreases |line|
  {
    if line == [] then []
    else if Blank(line[0]) then ParseArguments(line[1..])
    else
      var cut := ReadWord(line, false, 0, "");
      [cut.word] + ParseArguments(cut.rest)
  }

  /** Where `line` first satisfies the test that ends the program name, or its length. */
  function NameEnd(line: string, quoted: bool): (end: nat)
    ensures end <= |line|
    ensures forall i :: 0 <= i < end ==> (if quoted then line[i] != '"' else !Blank(line[i]))
    ensures end < |line| ==> (if quoted then line[end] == '"' else Blank(line[end]))
  {
    if line == [] || (if quoted then line[0] == '"' else Blank(line[0])) then 0 else 1 + NameEnd(line[1..], quoted)
  }

  /** A whole command line. The program name has its own rule: no backslash is special in it. */
  function ParseCommandLine(line: string): seq<string> {
    if line != [] && line[0] == '"' then
      var end := NameEnd(line[1..], true);
      [line[1..][..end]] + ParseArguments(if end < |line[1..]| then line[1..][end + 1..] else [])
    else
      var end := NameEnd(line, false);
      [line[..end]] + ParseArguments(line[end..])
  }

  // ---- The rules as Microsoft states them ----

  /** Blanks and tabs before an argument are skipped. */
  lemma BlanksAreSkipped(line: string)
    ensures ParseArguments(" " + line) == ParseArguments(line) == ParseArguments("\t" + line)
  {
    assert (" " + line)[1..] == line == ("\t" + line)[1..];
  }

  /** A word without marks and backslashes ends at the first blank or tab, or with the line. */
  lemma {:induction false} PlainWordIsRead(plain: string, rest: string, word: string)
    requires forall i :: 0 <= i < |plain| ==> plain[i] !in " \t\\\""
    requires rest == "" || rest[0] == ' ' || rest[0] == '\t'
    ensures ReadWord(plain + rest, false, 0, word) == Cut(word + plain, rest)
    decreases |plain|
  {
    assert Backslashes(0) == "";
    if plain == "" {
      assert plain + rest == rest && word + Backslashes(0) == word + plain;
    } else {
      assert plain[0] !in " \t\\\"";
      assert (plain + rest)[0] == plain[0] && (plain + rest)[1..] == plain[1..] + rest;
      forall i | 0 <= i < |plain| - 1 ensures plain[1..][i] !in " \t\\\"" {
        assert plain[i + 1] !in " \t\\\"";
      }
      PlainWordIsRead(plain[1..], rest, word + [plain[0]]);
      assert word + Backslashes(0) + [plain[0]] == word + [plain[0]];
      assert word + [plain[0]] + plain[1..] == word + plain;
    }
  }

  /**
    2n backslashes before a mark stand for n and the mark opens or closes a quotation; 2n + 1 stand for n and the
    mark for itself.
   */
  lemma MarksAfterBackslashes(n: nat, rest: string, quoted: bool, word: string)
    ensures ReadWord(Backslashes(2 * n) + ("\"" + rest), quoted, 0, word)
         == ReadWord(rest, !quoted, 0, word + Backslashes(n))
    ensures ReadWord(Backslashes(2 * n + 1) + ("\"" + rest), quoted, 0, word)
         == ReadWord(rest, quoted, 0, word + Backslashes(n) + "\"")
  {
    ReadBackslashes(2 * n, "\"" + rest, quoted, 0, word);
    ReadBackslashes(2 * n + 1, "\"" + rest, quoted, 0, word);
    assert ("\"" + rest)[1..] == rest;
  }

  /** Before anything else backslashes stand for themselves, and inside a quotation so do blanks and tabs. */
  lemma BackslashesAreLiteral(n: nat, c: char, rest: string, quoted: bool, word: string)
    requires c != '\\' && c != '"' && (quoted || (c != ' ' && c != '\t'))
    ensures ReadWord(Backslashes(n) + ([c] + rest), quoted, 0, word)
         == ReadWord(rest, quoted, 0, word + Backslashes(n) + [c])
  {
    ReadBackslashes(n, [c] + rest, quoted, 0, word);
    assert ([c] + rest)[1..] == rest;
  }

  lemma {:induction false} NameEndsAt(name: string, rest: string)
    requires (forall i :: 0 <= i < |name| ==> !Blank(name[i])) && (rest == "" || Blank(rest[0]))
    ensures NameEnd(name + rest, false) == |name|
    decreases |name|
  {
    hide Blank;
    if name == "" {
      assert name + rest == rest;
    } else {
      assert (name + rest)[0] == name[0] && (name + rest)[1..] == name[1..] + rest;
      NameEndsAt(name[1..], rest);
    }
  }

  /** So they do at the end of a line, and at the end of an argument outside a quotation. */
  lemma BackslashesAtTheEnd(n: nat, rest: string, quoted: bool, word: string)
    requires rest == "" || (!quoted && (rest[0] == ' ' || rest[0] == '\t'))
    ensures ReadWord(Backslashes(n) + rest, quoted, 0, word) == Cut(word + Backslashes(n), rest)
  {
    ReadBackslashes(n, rest, quoted, 0, word);
  }

  /** A program name that is not quoted ends at the first blank or tab, and marks in it mean nothing. */
  lemma UnquotedName(name: string, rest: string)
    requires name != "" && name[0] != '"' && ' ' !in name && '\t' !in name
    requires rest == "" || rest[0] == ' ' || rest[0] == '\t'
    ensures ParseCommandLine(name + rest) == [name] + ParseArguments(rest)
  {
    hide ParseArguments;
    forall i | 0 <= i < |name| ensures !Blank(name[i]) { assert name[i] in name; }
    NameEndsAt(name, rest);
    assert (name + rest)[0] == name[0];
    assert (name + rest)[..|name|] == name && (name + rest)[|name|..] == rest;
  }

  // ---- Quoting ----

  /** What is still to be written for `argument` when `slashes` backslashes before it are held back. */
  function Escape(argument: string, slashes: nat): string {
    if argument == [] then Backslashes(slashes * 2)
    else if argument[0] == '\\' then Escape(argument[1..], slashes + 1)
    else if argument[0] == '"' then Backslashes(slashes * 2 + 1) + "\"" + Escape(argument[1..], 0)
    else Backslashes(slashes) + [argument[0]] + Escape(argument[1..], 0)
  }

  function Quoted(argument: string): string {
    "\"" + Escape(argument, 0) + "\""
  }

  method QuoteWindowsArgument(argument: string) returns (quoted: string)
    ensures quoted == Quoted(argument)
  {
    quoted := "\"";
    var backslashes := 0;
    for k := 0 to |argument|
      invariant quoted + Escape(argument[k..], backslashes) == "\"" + Escape(argument, 0)
    {
      var character := argument[k];
      ghost var rest := argument[k..];
      assert rest[1..] == argument[k + 1..];
      if character == '\\' {
        backslashes := backslashes + 1;
      } else if character == '"' {
        quoted := quoted + Backslashes(backslashes * 2 + 1);
        quoted := quoted + "\"";
        backslashes := 0;
      } else {
        quoted := quoted + Backslashes(backslashes);
        backslashes := 0;
        quoted := quoted + [character];
      }
    }
    quoted := quoted + Backslashes(backslashes * 2);
    quoted := quoted + "\"";
  }

  function QuotedAll(words: seq<string>): seq<string> {
    seq(|words|, i requires 0 <= i < |words| => Quoted(words[i]))
  }

  /** The words with one space between neighbours. */
  function Join(words: seq<string>): string {
    if words == [] then ""
    else if |words| == 1 then words[0]
    else words[0] + " " + Join(words[1..])
  }

  // ---- The round trip ----

  lemma {:induction false} ReadBackslashes(n: nat, line: string, quoted: bool, slashes: nat, word: string)
    ensures ReadWord(Backslashes(n) + line, quoted, slashes, word) == ReadWord(line, quoted, slashes + n, word)
    decreases n
  {
    if n == 0 {
      assert Backslashes(0) + line == line;
    } else {
      assert (Backslashes(n) + line)[1..] == Backslashes(n - 1) + line;
      ReadBackslashes(n - 1, line, quoted, slashes + 1, word);
    }
  }

  ghost predicate EndsWord(rest: string) {
    rest == [] || Blank(rest[0])
  }

  lemma ReadMark(n: nat, rest: string, word: string)
    ensures ReadWord(Backslashes(n * 2 + 1) + ("\"" + rest), true, 0, word)
            == ReadWord(rest, true, 0, word + Backslashes(n) + "\"")
  {
    ReadBackslashes(n * 2 + 1, "\"" + rest, true, 0, word);
    assert ("\"" + rest)[1..] == rest;
  }

  lemma ReadPlain(n: nat, c: char, rest: string, word: string)
    requires c != '\\' && c != '"'
    ensures ReadWord(Backslashes(n) + ([c] + rest), true, 0, word)
            == ReadWord(rest, true, 0, word + Backslashes(n) + [c])
  {
    ReadBackslashes(n, [c] + rest, true, 0, word);
    assert ([c] + rest)[1..] == rest;
  }

  lemma ReadClosing(n: nat, rest: string, word: string)
    requires EndsWord(rest)
    ensures ReadWord(Backslashes(n * 2) + ("\"" + rest), true, 0, word) == Cut(word + Backslashes(n), rest)
  {
    ReadBackslashes(n * 2, "\"" + rest, true, 0, word);
    assert ("\"" + rest)[1..] == rest;
    assert word + Backslashes(n) + Backslashes(0) == word + Backslashes(n);
  }

  lemma OneMoreSlash(word: string, slashes: nat, more: string)
    ensures word + Backslashes(slashes + 1) + more == word + Backslashes(slashes) + (['\\'] + more)
  {
    assert Backslashes(slashes + 1) == Backslashes(slashes) + ['\\'];
  }

  lemma NoSlashes(word: string, one: string, more: string)
    ensures word + one + Backslashes(0) + more == word + (one + more)
  {
  }

  lemma RegroupFour(a: string, b: string, c: string, d: string)
    ensures a + b + c + d == a + (b + (c + d))
  {
  }

  /** Reading what quoting wrote gives the argument back, through every run of backslashes. */
  lemma {:induction false} ReadEscaped(argument: string, slashes: nat, rest: string, word: string)
    requires EndsWord(rest)
    ensures ReadWord(Escape(argument, slashes) + ("\"" + rest), true, 0, word)
            == Cut(word + Backslashes(slashes) + argument, rest)
    decreases |argument|
  {
    hide ReadWord, Backslashes;
    var tail := "\"" + rest;
    if argument == [] {
      ReadClosing(slashes, rest, word);
    } else {
      var c, more := argument[0], argument[1..];
      if c == '\\' {
        ReadEscaped(more, slashes + 1, rest, word);
        assert argument == ['\\'] + more;
        OneMoreSlash(word, slashes, more);
      } else if c == '"' {
        var after := Escape(more, 0) + tail;
        RegroupFour(Backslashes(slashes * 2 + 1), "\"", Escape(more, 0), tail);
        ReadMark(slashes, after, word);
        ReadEscaped(more, 0, rest, word + Backslashes(slashes) + "\"");
        assert argument == ['"'] + more;
        NoSlashes(word + Backslashes(slashes), "\"", more);
      } else {
        var after := Escape(more, 0) + tail;
        RegroupFour(Backslashes(slashes), [c], Escape(more, 0), tail);
        ReadPlain(slashes, c, after, word);
        ReadEscaped(more, 0, rest, word + Backslashes(slashes) + [c]);
        assert argument == [c] + more;
        NoSlashes(word + Backslashes(slashes), [c], more);
      }
    }
  }

  lemma ReadQuoted(argument: string, rest: string)
    requires EndsWord(rest)
    ensures ReadWord(Quoted(argument) + rest, false, 0, "") == Cut(argument, rest)
  {
    var line := Quoted(argument) + rest;
    assert line[1..] == Escape(argument, 0) + ("\"" + rest);
    assert "" + Backslashes(0) == "";
    ReadEscaped(argument, 0, rest, "");
    assert "" + Backslashes(0) + argument == argument;
  }

  lemma ParseFirst(argument: string, rest: string)
    requires EndsWord(rest)
    ensures ParseArguments(Quoted(argument) + rest) == [argument] + ParseArguments(rest)
  {
    ReadQuoted(argument, rest);
  }

  /** The joined quoted words parse back to the words, whatever characters they hold and however many they are. */
  lemma {:induction false} ParseInvertsQuoting(words: seq<string>)
    ensures ParseArguments(Join(QuotedAll(words))) == words
    decreases |words|
  {
    hide ReadWord, Quoted;
    if words == [] {
    } else {
      var first, more := words[0], words[1..];
      assert QuotedAll(words)[1..] == QuotedAll(more);
      ParseInvertsQuoting(more);
      if more == [] {
        ParseFirst(first, "");
        assert Quoted(first) + "" == Quoted(first);
      } else {
        var rest := " " + Join(QuotedAll(more));
        ParseFirst(first, rest);
        assert rest[1..] == Join(QuotedAll(more));
        assert Join(QuotedAll(words)) == Quoted(first) + rest;
      }
      assert [first] + more == words;
    }
  }

  // ---- The program name ----

  predicate EndsInBackslash(s: string) {
    s != [] && s[|s| - 1] == '\\'
  }

  function TrailingBackslashes(s: string): (n: nat)
    ensures n <= |s| && (n > 0 <==> EndsInBackslash(s))
  {
    if EndsInBackslash(s) then 1 + TrailingBackslashes(s[..|s| - 1]) else 0
  }

  lemma HeldBack(slashes: nat, s: string)
    requires s != [] && s[0] == '\\'
    ensures Backslashes(slashes + 1) + s[1..] == Backslashes(slashes) + s
  {
  }

  lemma NoneHeldBack(s: string)
    ensures Backslashes(0) + s == s
  {
  }

  lemma Regroup(a: string, b: string, c: string)
    ensures a + (b + c) == a + b + c
  {
  }

  /** Without quotation marks, quoting only doubles the backslashes at the end. */
  lemma {:induction false} EscapeWithoutMarks(s: string, slashes: nat)
    requires '"' !in s
    ensures Escape(s, slashes) == Backslashes(slashes) + s + Backslashes(TrailingBackslashes(Backslashes(slashes) + s))
    decreases |s|
  {
    hide Backslashes, TrailingBackslashes;
    if s == [] {
      TrailingOfBackslashes(slashes);
      assert Backslashes(slashes) + s == Backslashes(slashes);
      TwiceBackslashes(slashes);
    } else if s[0] == '\\' {
      EscapeWithoutMarks(s[1..], slashes + 1);
      HeldBack(slashes, s);
    } else {
      EscapeWithoutMarks(s[1..], 0);
      EscapeStep(s, slashes, Backslashes(TrailingBackslashes(Backslashes(0) + s[1..])));
    }
  }

  lemma EscapeStep(s: string, slashes: nat, doubled: string)
    requires s != [] && s[0] != '\\' && s[0] != '"'
    requires Escape(s[1..], 0) == Backslashes(0) + s[1..] + doubled
    ensures Escape(s, slashes) == Backslashes(slashes) + s + doubled
    ensures TrailingBackslashes(Backslashes(slashes) + s) == TrailingBackslashes(Backslashes(0) + s[1..])
  {
    hide Backslashes, TrailingBackslashes;
    var front := Backslashes(slashes) + [s[0]];
    NoneHeldBack(s[1..]);
    Regroup(Backslashes(slashes), [s[0]], s[1..]);
    assert [s[0]] + s[1..] == s;
    Regroup(front, s[1..], doubled);
    TrailingAfterOther(front, s[1..]);
  }

  lemma TwiceBackslashes(n: nat)
    ensures Backslashes(n * 2) == Backslashes(n) + Backslashes(n)
  {
  }

  lemma {:induction false} TrailingOfBackslashes(n: nat)
    ensures TrailingBackslashes(Backslashes(n)) == n
  {
    var s := Backslashes(n);
    if n > 0 {
      assert s[n - 1] == '\\' && s[..|s| - 1] == Backslashes(n - 1);
      TrailingOfBackslashes(n - 1);
      assert TrailingBackslashes(s) == 1 + TrailingBackslashes(s[..|s| - 1]);
    } else {
      assert s == "";
    }
  }

  lemma {:induction false} TrailingAfterOther(front: string, s: string)
    requires front != [] && front[|front| - 1] != '\\'
    ensures TrailingBackslashes(front + s) == TrailingBackslashes(s)
    decreases |s|
  {
    if s == [] {
      assert front + s == front;
    } else if EndsInBackslash(s) {
      TrailingAfterOther(front, s[..|s| - 1]);
      assert (front + s)[..|front + s| - 1] == front + s[..|s| - 1];
    }
  }

  /** The text before the first quotation mark. */
  lemma NameEndIs(line: string, end: nat)
    requires end < |line| && line[end] == '"' && forall i :: 0 <= i < end ==> line[i] != '"'
    ensures NameEnd(line, true) == end
  {
    assert NameEnd(line, true) <= end;
  }

  /** What stands for the arguments after the program name. */
  function Tail(arguments: seq<string>): string {
    if arguments == [] then "" else " " + Join(QuotedAll(arguments))
  }

  lemma TailParses(arguments: seq<string>)
    ensures ParseArguments(Tail(arguments)) == arguments
  {
    if arguments != [] {
      ParseInvertsQuoting(arguments);
      assert Tail(arguments)[1..] == Join(QuotedAll(arguments));
    }
  }

  lemma LineIs(executable: string, arguments: seq<string>)
    ensures Join(QuotedAll([executable] + arguments)) == "\"" + (Escape(executable, 0) + ("\"" + Tail(arguments)))
  {
    hide Escape, Quoted;
    var words := QuotedAll([executable] + arguments);
    assert words[1..] == QuotedAll(arguments);
    assert words[0] == Quoted(executable);
    QuotedBefore(executable, Tail(arguments));
    if arguments == [] {
      assert Quoted(executable) + "" == Quoted(executable);
    } else {
      Regroup(Quoted(executable), " ", Join(words[1..]));
    }
  }

  lemma QuotedBefore(executable: string, tail: string)
    ensures Quoted(executable) + tail == "\"" + (Escape(executable, 0) + ("\"" + tail))
  {
    hide Escape;
    Regroup("\"", Escape(executable, 0), "\"" + tail);
    Regroup("\"" + Escape(executable, 0), "\"", tail);
  }

  lemma NameBefore(name: string, tail: string)
    requires '"' !in name
    ensures var inside := name + ("\"" + tail);
            NameEnd(inside, true) == |name| && inside[..|name|] == name && inside[|name| + 1..] == tail
  {
    hide NameEnd;
    var inside := name + ("\"" + tail);
    assert forall i :: 0 <= i < |name| ==> inside[i] == name[i];
    NameEndIs(inside, |name|);
  }

  lemma CommandLineOf(name: string, tail: string)
    requires '"' !in name
    ensures ParseCommandLine("\"" + (name + ("\"" + tail))) == [name] + ParseArguments(tail)
  {
    hide ParseArguments, NameEnd;
    var inside := name + ("\"" + tail);
    assert ("\"" + inside)[1..] == inside;
    NameBefore(name, tail);
  }

  /** No program name that the rules can produce from a quoted word holds a quotation mark. */
  lemma NameHasNoMark(rest: string)
    ensures '"' !in ParseCommandLine("\"" + rest)[0]
  {
    hide ParseArguments;
    assert ("\"" + rest)[1..] == rest;
  }

  /**
    The program name survives exactly when it holds no quotation mark and does not end in a backslash, and then
    so does every argument after it.
   */
  lemma CommandLineRoundTrip(executable: string, arguments: seq<string>)
    ensures ParseCommandLine(Join(QuotedAll([executable] + arguments))) == [executable] + arguments
            <==> '"' !in executable && !EndsInBackslash(executable)
  {
    hide ParseCommandLine, ParseArguments, Escape, Join, QuotedAll, Backslashes, Tail;
    var line := Join(QuotedAll([executable] + arguments));
    LineIs(executable, arguments);
    if '"' in executable {
      NameHasNoMark(Escape(executable, 0) + ("\"" + Tail(arguments)));
      assert ([executable] + arguments)[0] == executable;
    } else {
      EscapeWithoutMarks(executable, 0);
      NoneHeldBack(executable);
      var doubled := Backslashes(TrailingBackslashes(executable));
      assert Escape(executable, 0) == executable + doubled;
      LengthOf(TrailingBackslashes(executable));
      assert '"' !in executable + doubled;
      CommandLineOf(executable + doubled, Tail(arguments));
      TailParses(arguments);
      assert ([executable] + arguments)[0] == executable;
      assert ParseCommandLine(line)[0] == executable + doubled;
      assert TrailingBackslashes(executable) == 0 ==> executable + doubled == executable;
    }
  }

  lemma LengthOf(n: nat)
    ensures |Backslashes(n)| == n && '"' !in Backslashes(n)
  {
  }

  // ---- The registration ----

  const START_HOST_ARG := "--start-host"
  const PROFILE_ID_ARG := "--profile-id"

  datatype InvalidInput = PathNotUnicode

  /** The words of a registration: the executable, then the arguments that start the Host of a profile. */
  function Words(executable: string, profileId: string): seq<string> {
    [executable] + [START_HOST_ARG, PROFILE_ID_ARG, profileId]
  }

  function Registration(executable: string, profileId: string): string {
    Join(QuotedAll(Words(executable, profileId)))
  }

  /** `executable` is `None` when the path is not valid Unicode. */
  method RegistrationCommand(executable: Option<string>, profileId: string)
      returns (command: Result<string, InvalidInput>)
    ensures executable.None? ==> command == Err(PathNotUnicode)
    ensures executable.Some? ==> command == Ok(Registration(executable.value, profileId))
  {
    if executable.None? {
      return Err(PathNotUnicode);
    }
    var words := [START_HOST_ARG, PROFILE_ID_ARG, profileId];
    var first := QuoteWindowsArgument(executable.value);
    var arguments := [first];
    for k := 0 to |words|
      invariant arguments == QuotedAll([executable.value] + words[..k])
    {
      var quoted := QuoteWindowsArgument(words[k]);
      arguments := arguments + [quoted];
      assert [executable.value] + words[..k + 1] == [executable.value] + words[..k] + [words[k]];
    }
    assert words[..|words|] == words;
    return Ok(Join(arguments));
  }

  /** What Windows starts at login is what was registered, for every executable path that Windows allows. */
  lemma RegistrationStartsTheHost(executable: string, profileId: string)
    requires '"' !in executable && !EndsInBackslash(executable)
    ensures ParseCommandLine(Registration(executable, profileId))
         == [executable, "--start-host", "--profile-id", profileId]
  {
    CommandLineRoundTrip(executable, [START_HOST_ARG, PROFILE_ID_ARG, profileId]);
    assert Words(executable, profileId) == [executable, "--start-host", "--profile-id", profileId];
  }

  /** Comparing command lines compares registrations: different executables or profiles never share one. */
  lemma RegistrationIsInjective(executable: string, profileId: string, executable': string, profileId': string)
    ensures Registration(executable, profileId) == Registration(executable', profileId')
            <==> executable == executable' && profileId == profileId'
  {
    var words, words' := Words(executable, profileId), Words(executable', profileId');
    ParseInvertsQuoting(words);
    ParseInvertsQuoting(words');
    assert words[0] == executable && words[3] == profileId;
    assert words'[0] == executable' && words'[3] == profileId';
  }
}
