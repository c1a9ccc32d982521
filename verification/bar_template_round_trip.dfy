/**
  Bar templates read back as they were written: parsing and formatting undo each other, within the limits, and
  rewriting a template in canonical form cannot make it much longer.
 */
module BarTemplateRoundTrip {
  import opened Wrappers
  import opened Text
  import opened BarTemplate

  // ---- Well-formed modules ----

  predicate WellFormed(m: Module) {
    match m
    case Named(name) => name in NAMES
    case Space(count) => 1 <= count <= MAX_SPACE
    case Words(text) => Bytes(text) <= MAX_TEXT_BYTES
    case Icon(icon) => icon in ICONS
    case Separator => true
    case Unknown(_) => false
  }

  ghost predicate AllWellFormed(modules: seq<Module>) {
    |modules| <= MAX_MODULES && forall i :: 0 <= i < |modules| ==> WellFormed(modules[i])
  }

  /** Lower-case words joined by hyphens: what every module and icon name looks like. */
  predicate Kebab(s: string) {
    s != "" && forall i :: 0 <= i < |s| ==> 'a' <= s[i] <= 'z' || s[i] == '-'
  }

  lemma NameGroup1()
    ensures Kebab("project-name") && Kebab("project-path") && Kebab("active-item")
    ensures Kebab("surface") && Kebab("vim-mode") && Kebab("vim-detail")
    ensures Kebab("vim-keys") && Kebab("editor-language")
  {
  }

  lemma NameGroup2()
    ensures Kebab("editor-position") && Kebab("editor-dirty") && Kebab("editor-diagnostics")
    ensures Kebab("editor-selection") && Kebab("editor-tab-size") && Kebab("editor-wrap")
    ensures Kebab("terminal-title") && Kebab("terminal-state")
  {
  }

  lemma NameGroup3()
    ensures Kebab("terminal-exit") && Kebab("terminal-size") && Kebab("git-branch")
    ensures Kebab("git-changes") && Kebab("agent-state") && Kebab("agent-waiting")
    ensures Kebab("agent-model") && Kebab("agent-children")
  {
  }

  lemma NameGroup4()
    ensures Kebab("agent-state-duration") && Kebab("ssh") && Kebab("update")
    ensures Kebab("projects-count") && Kebab("terminals-count") && Kebab("tabs-count")
    ensures Kebab("editors-count") && Kebab("app-cpu")
  {
  }

  lemma NameGroup5()
    ensures Kebab("app-memory") && Kebab("system-cpu") && Kebab("system-memory")
    ensures Kebab("command-palette") && Kebab("settings")
  {
  }

  lemma IconGroup1()
    ensures Kebab("settings") && Kebab("info") && Kebab("cpu")
    ensures Kebab("memory-stick") && Kebab("search") && Kebab("palette")
    ensures Kebab("folder") && Kebab("folder-open") && Kebab("file")
  {
  }

  lemma IconGroup2()
    ensures Kebab("square-terminal") && Kebab("github") && Kebab("network")
    ensures Kebab("globe") && Kebab("user") && Kebab("bot")
    ensures Kebab("bell") && Kebab("calendar") && Kebab("chart-pie")
  {
  }

  lemma IconGroup3()
    ensures Kebab("hard-drive") && Kebab("battery") && Kebab("triangle-alert")
    ensures Kebab("circle-check") && Kebab("circle-x") && Kebab("play")
    ensures Kebab("pause")
  {
  }

  lemma NamesAreKebab(name: string)
    requires name in NAMES
    ensures Kebab(name)
  {
    hide Kebab;
    NameGroup1();
    NameGroup2();
    NameGroup3();
    NameGroup4();
    NameGroup5();
  }

  lemma IconsAreKebab(icon: string)
    requires icon in ICONS
    ensures Kebab(icon)
  {
    hide Kebab;
    IconGroup1();
    IconGroup2();
    IconGroup3();
  }

  lemma KebabIsCanonical(s: string)
    requires Kebab(s)
    ensures Trim(s) == s && ToAsciiLowercase(s) == s && Hyphenated(s) == s
  {
    TrimOfTrimmed(s);
  }

  lemma {:induction false} KebabIsPlain(s: string)
    requires s == "" || Kebab(s)
    ensures Escape(s) == s && Bytes(s) == |s|
  {
    if s != "" { KebabIsPlain(s[1..]); }
  }

  // ---- One token ----

  function Token(m: Module): string {
    match m
    case Space(count) => "Space: " + Decimal(count)
    case Words(text) => "text:" + text
    case Icon(icon) => "icon:" + icon
    case Separator => "|"
    case Named(name) => name
    case Unknown(name) => name
  }

  /** Names are told apart from the keywords of other tokens, by their lengths alone. */
  lemma NameIsNoKeyword(name: string)
    requires name in NAMES
    ensures !EqIgnoreAsciiCase(name, "text") && !EqIgnoreAsciiCase(name, "icon") && !EqIgnoreAsciiCase(name, "space")
  {
    NameLengths(name);
  }

  lemma NameLengths(name: string)
    requires name in NAMES
    ensures |name| != 4 && |name| != 5
  {
  }

  lemma KebabHasNo(s: string, c: char)
    requires Kebab(s) && !('a' <= c <= 'z') && c != '-'
    ensures c !in s
  {
  }

  lemma NameTokenParses(name: string, position: nat)
    requires name in NAMES
    ensures ParseToken(name, position) == Ok(Named(name))
  {
    hide Kebab, Trim, ToAsciiLowercase, Hyphenated, Index;
    NamesAreKebab(name);
    KebabIsCanonical(name);
    NameIsNoKeyword(name);
    KebabHasNo(name, ':');
    KebabHasNo(name, '*');
    KebabHasNo(name, '|');
    KebabNotEmpty(name);
    assert name != "|" by { assert "|"[0] == '|'; }
  }

  lemma KebabNotEmpty(s: string)
    requires Kebab(s)
    ensures s != ""
  {
  }

  lemma IconIsFound(icon: string)
    requires icon in ICONS
    ensures FindIgnoringCase(ICONS, Trim(icon)) == Some(icon)
  {
    hide Kebab, Trim, ToAsciiLowercase, FindIgnoringCase;
    IconsAreKebab(icon);
    KebabIsCanonical(icon);
    var found := FindIgnoringCase(ICONS, icon);
    assert EqIgnoreAsciiCase(icon, icon);
    IconsAreKebab(found.value);
    KebabIsCanonical(found.value);
  }

  /** A token that starts with a keyword and a colon is split there. */
  lemma KeywordTokenParses(keyword: string, value: string, position: nat)
    requires keyword in ["text", "icon", "Space"]
    ensures ParseToken(keyword + ":" + value, position) == ParseValue(keyword, value, position)
  {
    hide ParseValue, Index, Trim;
    var token := keyword + ":" + value;
    assert token[0] == keyword[0] && token[1] == keyword[1];
    TrimKeepsCharacters(token);
    assert token[0] in token && token[1] in token;
    assert Trim(token) != "" && Trim(token) != "|" by {
      assert token[0] in Trim(token);
    }
    assert token[|keyword|] == ':' && token[..|keyword|] == keyword && token[|keyword| + 1..] == value;
    IndexIs(token, |keyword|, ':');
    TrimOfTrimmed(keyword);
  }

  lemma TrimAfterSpace(s: string)
    requires s != "" && !IsWhitespace(s[0]) && !IsWhitespace(s[|s| - 1])
    ensures Trim(" " + s) == s
  {
    hide IsWhitespace;
    assert IsWhitespace(' ') by { SpaceIsWhite(); }
    assert (" " + s)[1..] == s;
  }

  lemma SpaceIsWhite()
    ensures IsWhitespace(' ')
  {
  }

  lemma SpaceValueParses(count: nat)
    requires count < 65536
    ensures ParseU16(Trim(" " + Decimal(count))) == Some(count)
  {
    hide Decimal, ParseU16, Trim;
    var digits := Decimal(count);
    assert IsDigit(digits[0]) && IsDigit(digits[|digits| - 1]);
    TrimAfterSpace(digits);
    ParseInvertsDecimal(count);
  }

  lemma KeywordsMatch()
    ensures EqIgnoreAsciiCase("Space", "space") && !EqIgnoreAsciiCase("Space", "text")
        && !EqIgnoreAsciiCase("Space", "icon")
    ensures !EqIgnoreAsciiCase("icon", "text")
  {
    assert ToAsciiLowercase("Space") == "space";
    assert ToAsciiLowercase("space") == "space";
    assert ToAsciiLowercase("icon")[0] == 'i';
    assert ToAsciiLowercase("text")[0] == 't';
  }

  lemma WordsTokenParses(text: string, position: nat)
    requires Bytes(text) <= MAX_TEXT_BYTES
    ensures ParseToken("text:" + text, position) == Ok(Words(text))
  {
    hide ParseToken, ToAsciiLowercase, Bytes;
    assert "text:" + text == "text" + ":" + text;
    KeywordTokenParses("text", text, position);
  }

  lemma IconValueParses(icon: string, position: nat)
    requires FindIgnoringCase(ICONS, Trim(icon)) == Some(icon)
    ensures ParseValue("icon", icon, position) == Ok(Icon(icon))
  {
    hide ToAsciiLowercase, Trim, FindIgnoringCase;
    KeywordsMatch();
  }

  lemma IconTokenParses(icon: string, position: nat)
    requires icon in ICONS
    ensures ParseToken("icon:" + icon, position) == Ok(Icon(icon))
  {
    hide ParseToken, ParseValue, Trim, FindIgnoringCase;
    assert "icon:" + icon == "icon" + ":" + icon;
    KeywordTokenParses("icon", icon, position);
    IconIsFound(icon);
    IconValueParses(icon, position);
  }

  lemma SpaceTokenParses(count: nat, position: nat)
    requires 1 <= count <= MAX_SPACE
    ensures ParseToken("Space: " + Decimal(count), position) == Ok(Space(count))
  {
    hide ParseToken, ToAsciiLowercase, Trim, ParseU16, Decimal;
    var value := " " + Decimal(count);
    assert "Space: " + Decimal(count) == "Space" + ":" + value;
    KeywordTokenParses("Space", value, position);
    KeywordsMatch();
    SpaceValueParses(count);
  }

  /** What is written between the brackets is read as the module it was written from. */
  lemma TokenParses(m: Module, position: nat)
    requires WellFormed(m)
    ensures ParseToken(Token(m), position) == Ok(m)
  {
    hide ParseToken, Decimal, Bytes;
    match m {
      case Named(name) => NameTokenParses(name, position);
      case Words(text) => WordsTokenParses(text, position);
      case Icon(icon) => IconTokenParses(icon, position);
      case Space(count) => SpaceTokenParses(count, position);
      case Separator => SeparatorParses(position);
    }
  }

  lemma SeparatorParses(position: nat)
    ensures ParseToken("|", position) == Ok(Separator)
  {
    TrimOfTrimmed("|");
  }

  // ---- Other spellings ----

  /** A name may be written with any letter case, with underscores, and with white space around it. */
  lemma NameSpellings(token: string, position: nat)
    requires Hyphenated(ToAsciiLowercase(Trim(token))) in NAMES
    ensures ParseToken(token, position) == Ok(Named(Hyphenated(ToAsciiLowercase(Trim(token)))))
  {
    hide Trim, ToAsciiLowercase, Hyphenated, ParseValue, ParseWord, NAMES;
    SpelledNameIsPlain(token);
    SpelledNameIsWord(Trim(token), position);
  }

  /** Such a token is one word without a special character. */
  lemma SpelledNameIsPlain(token: string)
    requires Hyphenated(ToAsciiLowercase(Trim(token))) in NAMES
    ensures Trim(token) != "" && Trim(token) != "|" && ':' !in token && '*' !in Trim(token)
    ensures Trim(Trim(token)) == Trim(token)
  {
    hide Kebab, Trim, ToAsciiLowercase, Hyphenated, Index;
    var trimmed := Trim(token);
    NamesAreKebab(Hyphenated(ToAsciiLowercase(trimmed)));
    hide NAMES;
    KebabNotEmpty(Hyphenated(ToAsciiLowercase(trimmed)));
    SpelledHasNo(trimmed, ':');
    SpelledHasNo(trimmed, '*');
    SpelledHasNo(trimmed, '|');
    NotInside(token, ':');
    TrimOfTrimmed(trimmed);
    assert trimmed != "|" by { assert "|"[0] == '|'; }
  }

  lemma SpelledNameIsWord(trimmed: string, position: nat)
    requires Hyphenated(ToAsciiLowercase(trimmed)) in NAMES && Trim(trimmed) == trimmed && '*' !in trimmed
    ensures ParseWord(trimmed, position) == Ok(Named(Hyphenated(ToAsciiLowercase(trimmed))))
  {
    var name := Hyphenated(ToAsciiLowercase(trimmed));
    NameLengths(name);
    assert |name| == |ToAsciiLowercase(trimmed)| == |trimmed|;
    LengthsDiffer(trimmed, "text");
    LengthsDiffer(trimmed, "icon");
    LengthsDiffer(trimmed, "space");
    hide Trim, Hyphenated, NAMES, ToAsciiLowercase, EqIgnoreAsciiCase;
  }

  lemma LengthsDiffer(a: string, b: string)
    ensures |a| != |b| ==> !EqIgnoreAsciiCase(a, b)
  {
    assert |ToAsciiLowercase(a)| == |a| && |ToAsciiLowercase(b)| == |b|;
  }

  lemma SpelledHasNo(trimmed: string, c: char)
    requires Kebab(Hyphenated(ToAsciiLowercase(trimmed))) && (c == ':' || c == '*' || c == '|')
    ensures c !in trimmed
  {
    var name := Hyphenated(ToAsciiLowercase(trimmed));
    forall i | 0 <= i < |trimmed| ensures trimmed[i] != c {
      assert name[i] == if Lower(trimmed[i]) == '_' then '-' else Lower(trimmed[i]);
    }
  }

  lemma NotInside(token: string, c: char)
    requires c !in Trim(token) && !IsWhitespace(c)
    ensures c !in token
  {
    TrimKeepsCharacters(token);
  }

  /** The keyword of a text may be spelled as freely; what follows the colon is taken as it is, white space included. */
  lemma TextSpellings(keyword: string, text: string, position: nat)
    requires ToAsciiLowercase(Trim(keyword)) == "text" && ':' !in keyword
    ensures ParseToken(keyword + ":" + text, position)
            == if Bytes(text) > MAX_TEXT_BYTES then Err(At(position, TextTooLong)) else Ok(Words(text))
  {
    hide Trim, Index, Bytes;
    var token := keyword + ":" + text;
    assert ToAsciiLowercase("text") == "text";
    assert token[|keyword|] == ':' && token[..|keyword|] == keyword && token[|keyword| + 1..] == text;
    IndexIs(token, |keyword|, ':');
    ColonSurvives(token);
  }

  lemma ColonSurvives(token: string)
    requires ':' in token
    ensures Trim(token) != "" && Trim(token) != "|"
  {
    hide Trim;
    TrimKeepsCharacters(token);
    assert ':' in Trim(token);
  }

  // ---- Escaping ----

  lemma {:induction false} BytesConcat(a: string, b: string)
    ensures Bytes(a + b) == Bytes(a) + Bytes(b)
  {
    if a == "" {
      assert a + b == b;
    } else {
      assert (a + b)[1..] == a[1..] + b;
      BytesConcat(a[1..], b);
    }
  }

  lemma {:induction false} EscapeConcat(a: string, b: string)
    ensures Escape(a + b) == Escape(a) + Escape(b)
  {
    if a == "" {
      assert a + b == b;
    } else {
      assert (a + b)[1..] == a[1..] + b;
      EscapeConcat(a[1..], b);
    }
  }

  lemma Regroup(a: string, b: string, c: string)
    ensures a + (b + c) == a + b + c
  {
  }

  function EscapedCharacter(c: char): string {
    if Special(c) then ['\\', c] else [c]
  }

  lemma ReadClosing(rest: string, at: nat, open: nat, token: string)
    ensures ReadToken(Escape("") + ("]" + rest), at, open, token) == Ok(Cut(token, rest, at + 1))
  {
    var tail := "]" + rest;
    assert Escape("") + tail == tail && tail[1..] == rest;
  }

  /** An escaped token is read back character by character, up to its closing bracket. */
  lemma {:induction false} ReadEscaped(text: string, rest: string, at: nat, open: nat, token: string)
    ensures ReadToken(Escape(text) + ("]" + rest), at, open, token)
            == Ok(Cut(token + text, rest, at + Bytes(Escape(text)) + 1))
    decreases |text|
  {
    hide ReadToken, Bytes, Special, EscapedCharacter;
    if text == "" {
      ReadClosing(rest, at, open, token);
      assert token + text == token;
      NoBytes();
    } else {
      var first := EscapedCharacter(text[0]);
      ReadFirst(text, "]" + rest, at, open, token);
      EscapeFirst(text);
      BytesConcat(first, Escape(text[1..]));
      ReadEscaped(text[1..], rest, at + Bytes(first), open, token + [text[0]]);
      assert token + [text[0]] + text[1..] == token + text;
    }
  }

  lemma NoBytes()
    ensures Bytes(Escape("")) == 0
  {
  }

  lemma EscapeFirst(text: string)
    requires text != ""
    ensures Escape(text) == EscapedCharacter(text[0]) + Escape(text[1..])
  {
  }

  lemma FirstBytes(c: char)
    ensures Bytes([c]) == Utf8Length(c)
    ensures Special(c) ==> Bytes(['\\', c]) == 2
  {
    assert [c][1..] == "";
    assert ['\\', c][1..] == [c];
  }

  lemma ReadFirst(text: string, tail: string, at: nat, open: nat, token: string)
    requires text != ""
    ensures var first := EscapedCharacter(text[0]);
            ReadToken(Escape(text) + tail, at, open, token)
            == ReadToken(Escape(text[1..]) + tail, at + Bytes(first), open, token + [text[0]])
  {
    FirstBytes(text[0]);
    var after := Escape(text[1..]) + tail;
    if Special(text[0]) {
      Regroup(['\\', text[0]], Escape(text[1..]), tail);
      assert (['\\', text[0]] + after)[2..] == after;
    } else {
      Regroup([text[0]], Escape(text[1..]), tail);
      assert ([text[0]] + after)[1..] == after;
    }
  }

  /** Only text needs escaping. */
  lemma BodyIsEscapedToken(m: Module)
    requires WellFormed(m)
    ensures Body(m) == Escape(Token(m))
  {
    hide Decimal, Escape, Kebab;
    match m {
      case Named(name) => NamesAreKebab(name); KebabIsPlain(name);
      case Icon(icon) => IconsAreKebab(icon); PlainWord("icon:"); KebabIsPlain(icon); EscapeConcat("icon:", icon);
      case Words(text) => PlainWord("text:"); EscapeConcat("text:", text);
      case Space(count) =>
        PlainWord("Space: ");
        PlainWord(Decimal(count));
        EscapeConcat("Space: ", Decimal(count));
      case Separator => PlainWord("|");
    }
  }

  lemma {:induction false} PlainWord(s: string)
    requires forall i :: 0 <= i < |s| ==> !Special(s[i])
    ensures Escape(s) == s
  {
    if s != "" { PlainWord(s[1..]); }
  }

  // ---- Whole templates ----

  /** One bracketed module at the front of what is left to read. */
  lemma ReadModule(m: Module, rest: string, at: nat, modules: seq<Module>)
    requires WellFormed(m) && |modules| < MAX_MODULES
    ensures ReadModules(Bracketed(m) + rest, at, modules)
            == ReadModules(rest, at + Bytes(Bracketed(m)), modules + [m])
  {
    hide ReadToken, ParseToken, Escape, Bytes, WellFormed, Token, Body;
    BodyIsEscapedToken(m);
    TokenParses(m, at);
    var body := Escape(Token(m));
    var line := Bracketed(m) + rest;
    assert line[0] == '[' && line[1..] == body + ("]" + rest);
    ReadEscaped(Token(m), rest, at + 1, at, "");
    assert "" + Token(m) == Token(m);
    BytesConcat("[" + body, "]");
    BytesConcat("[", body);
    SingleBytes();
  }

  lemma SingleBytes()
    ensures Bytes("[") == 1 && Bytes("]") == 1 && Bytes(" ") == 1
  {
    FirstBytes('[');
    FirstBytes(']');
    FirstBytes(' ');
  }

  lemma {:induction false} ReadFormatted(modules: seq<Module>, at: nat, before: seq<Module>)
    requires AllWellFormed(modules) && |before| + |modules| <= MAX_MODULES
    ensures ReadModules(Formatted(modules), at, before) == Ok(before + modules)
    decreases |modules|
  {
    hide ReadModules, WellFormed, Bracketed;
    if modules == [] {
      ReadNothing(at, before);
      assert before + modules == before;
    } else {
      var m, more := modules[0], modules[1..];
      assert WellFormed(m);
      var next := at + Bytes(Bracketed(m));
      assert before + [m] + more == before + modules;
      if more == [] {
        assert Bracketed(m) + "" == Bracketed(m);
        ReadModule(m, "", at, before);
        ReadNothing(next, before + [m]);
        assert before + [m] == before + modules;
      } else {
        var rest := Formatted(more);
        Regroup(Bracketed(m), " ", rest);
        ReadModule(m, " " + rest, at, before);
        ReadSpace(rest, next, before + [m]);
        ReadFormatted(more, next + 1, before + [m]);
      }
    }
  }

  lemma ReadNothing(at: nat, modules: seq<Module>)
    ensures ReadModules("", at, modules) == Ok(modules)
  {
  }

  lemma ReadSpace(rest: string, at: nat, modules: seq<Module>)
    ensures ReadModules(" " + rest, at, modules) == ReadModules(rest, at + 1, modules)
  {
    SpaceIsWhite();
    assert (" " + rest)[1..] == rest;
  }

  // ---- What a successful parse gives ----

  lemma ParsedTokenIsWellFormed(token: string, position: nat)
    ensures var parsed := ParseToken(token, position);
            parsed.Ok? ==> WellFormed(parsed.value)
  {
    hide Bytes, Trim, ToAsciiLowercase, FindIgnoringCase, ParseU16, Index, Hyphenated;
  }

  lemma {:induction false} ParsedIsWellFormed(rest: string, at: nat, modules: seq<Module>)
    requires AllWellFormed(modules)
    ensures var parsed := ReadModules(rest, at, modules);
            parsed.Ok? ==> AllWellFormed(parsed.value)
    decreases |rest|
  {
    hide ReadToken, ParseToken, WellFormed, Utf8Length, IsWhitespace;
    if rest != "" {
      if IsWhitespace(rest[0]) {
        ParsedIsWellFormed(rest[1..], at + Utf8Length(rest[0]), modules);
      } else if rest[0] == '[' {
        var cut := ReadToken(rest[1..], at + 1, at, "");
        if cut.Ok? && |modules| < MAX_MODULES {
          var parsed := ParseToken(cut.value.token, at);
          ParsedTokenIsWellFormed(cut.value.token, at);
          if parsed.Ok? { ParsedIsWellFormed(cut.value.rest, cut.value.at, modules + [parsed.value]); }
        }
      }
    }
  }

  /**
    A list of modules reads back as it was written exactly when it is well-formed and its template fits: this is
    what every settings file relies on.
   */
  lemma ParseInvertsFormat(modules: seq<Module>)
    ensures Parsed(Formatted(modules)) == Ok(modules)
            <==> AllWellFormed(modules) && Bytes(Formatted(modules)) <= MAX_BYTES
  {
    hide ReadModules, AllWellFormed, Formatted, Bytes;
    var template := Formatted(modules);
    EmptyIsWellFormed();
    ParsedIsWellFormed(template, 0, []);
    if AllWellFormed(modules) {
      FewEnough(modules);
      ReadFormatted(modules, 0, []);
      assert [] + modules == modules;
    }
  }

  lemma EmptyIsWellFormed()
    ensures AllWellFormed([])
  {
  }

  lemma FewEnough(modules: seq<Module>)
    requires AllWellFormed(modules)
    ensures |modules| <= MAX_MODULES
  {
  }

  // ---- How much longer the canonical form can be ----

  lemma {:induction false} EscapeIsNoShorter(s: string)
    ensures |s| <= |Escape(s)|
  {
    if s != "" { EscapeIsNoShorter(s[1..]); }
  }

  /** Reading a token uses up its escaped form and the closing bracket. */
  lemma {:induction false} TokenBytes(rest: string, at: nat, open: nat, token: string)
    ensures var cut := ReadToken(rest, at, open, token);
            cut.Ok? ==>
              Bytes(rest) + Bytes(Escape(token)) == Bytes(Escape(cut.value.token)) + 1 + Bytes(cut.value.rest)
    decreases |rest|
  {
    if rest != "" && rest[0] != '[' {
      FirstBytes(rest[0]);
      if rest[0] == '\\' {
        if |rest| > 1 && Special(rest[1]) {
          TokenBytes(rest[2..], at + 2, open, token + [rest[1]]);
          GrowToken(token, rest[1]);
          assert rest[1..][1..] == rest[2..];
        }
      } else if rest[0] != ']' {
        TokenBytes(rest[1..], at + Utf8Length(rest[0]), open, token + [rest[0]]);
        GrowToken(token, rest[0]);
      }
    }
  }

  lemma GrowToken(token: string, c: char)
    ensures Bytes(Escape(token + [c])) == Bytes(Escape(token)) + if Special(c) then 2 else Utf8Length(c)
  {
    EscapeConcat(token, [c]);
    BytesConcat(Escape(token), Escape([c]));
    FirstBytes(c);
    assert [c][1..] == "";
    assert Escape([c]) == EscapedCharacter(c) + "";
    assert EscapedCharacter(c) + "" == EscapedCharacter(c);
  }

  lemma {:induction false} DigitBytes(s: string)
    requires AllDigits(s)
    ensures Bytes(s) == |s|
  {
    if s != "" { DigitBytes(s[1..]); }
  }

  /** Leading zeros are dropped, never added. */
  lemma {:induction false} DecimalIsShortest(s: string)
    requires s != "" && AllDigits(s)
    ensures |Decimal(Value(s))| <= |s|
  {
    var front := s[..|s| - 1];
    if front != "" {
      DecimalIsShortest(front);
      assert Value(s) >= 10 ==> Value(s) / 10 == Value(front);
    } else {
      assert Value(front) == 0;
    }
  }

  lemma NumberIsNoShorter(value: string)
    ensures var count := ParseU16(Trim(value));
            count.Some? ==> |Decimal(count.value)| <= |value|
  {
    hide Trim, Decimal, Value;
    var trimmed := Trim(value);
    var digits := if trimmed != "" && trimmed[0] == '+' then trimmed[1..] else trimmed;
    if digits != "" && AllDigits(digits) { DecimalIsShortest(digits); }
  }

  lemma BodyBytes(m: Module)
    requires WellFormed(m)
    ensures Bytes(Body(m)) == match m
      case Named(name) => |name|
      case Space(count) => 7 + |Decimal(count)|
      case Words(text) => 5 + Bytes(Escape(text))
      case Icon(icon) => 5 + |icon|
      case Separator => 1
      case Unknown(_) => 0
  {
    hide Decimal, Kebab, Escape, Bytes;
    match m {
      case Named(name) => NamesAreKebab(name); KebabIsPlain(name);
      case Icon(icon) => IconsAreKebab(icon); KebabIsPlain(icon); BytesConcat("icon:", icon); PrefixBytes();
      case Words(text) => BytesConcat("text:", Escape(text)); PrefixBytes();
      case Space(count) => BytesConcat("Space: ", Decimal(count)); DigitBytes(Decimal(count)); SpaceBytes();
      case Separator => FirstBytes('|'); PrefixBytes();
    }
  }

  lemma {:induction false} AsciiBytes(s: string)
    requires forall i :: 0 <= i < |s| ==> (s[i] as int) < 0x80
    ensures Bytes(s) == |s|
  {
    if s != "" { AsciiBytes(s[1..]); }
  }

  lemma PrefixBytes()
    ensures Bytes("icon:") == 5 && Bytes("text:") == 5 && Bytes("|") == 1
  {
    hide Bytes;
    AsciiBytes("icon:");
    AsciiBytes("text:");
    AsciiBytes("|");
  }

  lemma SpaceBytes()
    ensures Bytes("Space: ") == 7
  {
    hide Bytes;
    AsciiBytes("Space: ");
  }

  /** The bytes of a token with a colon, in its escaped form. */
  lemma SplitTokenBytes(token: string, colon: nat)
    requires colon < |token| && token[colon] == ':'
    ensures Bytes(Escape(token)) >= |Trim(token[..colon])| + 1 + Bytes(Escape(token[colon + 1..]))
  {
    hide Trim, Bytes, Escape;
    var keyword, value := token[..colon], token[colon + 1..];
    assert token == keyword + ([':'] + value);
    EscapeConcat(keyword, [':'] + value);
    EscapeConcat([':'], value);
    PlainWord([':']);
    BytesConcat(Escape(keyword), [':'] + Escape(value));
    BytesConcat([':'], Escape(value));
    FirstBytes(':');
    EscapeIsNoShorter(keyword);
  }

  lemma ValueBytes(keyword: string, value: string, position: nat)
    ensures var parsed := ParseValue(keyword, value, position);
            parsed.Ok? ==> Bytes(Body(parsed.value)) <= |keyword| + 2 + Bytes(Escape(value))
  {
    hide Trim, Bytes, Escape, Decimal, FindIgnoringCase, ParseU16, Body;
    var parsed := ParseValue(keyword, value, position);
    if parsed.Ok? {
      ValueIsWellFormed(keyword, value, position);
      BodyBytes(parsed.value);
      EscapeIsNoShorter(value);
      NumberIsNoShorter(value);
    }
  }

  lemma ValueIsWellFormed(keyword: string, value: string, position: nat)
    ensures var parsed := ParseValue(keyword, value, position);
            parsed.Ok? ==> WellFormed(parsed.value) && !parsed.value.Named? && !parsed.value.Separator?
  {
    hide Trim, Bytes, FindIgnoringCase, ParseU16, ToAsciiLowercase;
  }

  /** Writing a parsed token in canonical form costs at most one byte, the space after `Space:`. */
  lemma BodyIsHardlyLonger(token: string, position: nat)
    ensures var parsed := ParseToken(token, position);
            parsed.Ok? ==> Bytes(Body(parsed.value)) <= Bytes(Escape(token)) + 1
  {
    hide Trim, Bytes, Escape, Decimal, ParseValue, Body, Index, Hyphenated, ToAsciiLowercase, WellFormed;
    var parsed := ParseToken(token, position);
    if parsed.Ok? {
      ParsedTokenIsWellFormed(token, position);
      EscapeIsNoShorter(token);
      var colon := Index(token, ':');
      if Trim(token) != "|" && colon < |token| {
        SplitTokenBytes(token, colon);
        ValueBytes(Trim(token[..colon]), token[colon + 1..], position);
      } else {
        BodyBytes(parsed.value);
      }
    }
  }

  /** The bytes of the modules without anything between them. */
  function Weight(modules: seq<Module>): nat {
    if modules == [] then 0 else Weight(modules[..|modules| - 1]) + Bytes(Bracketed(modules[|modules| - 1]))
  }

  lemma {:induction false} FormattedBytes(modules: seq<Module>)
    requires modules != []
    ensures Bytes(Formatted(modules)) == Weight(modules) + |modules| - 1
  {
    hide Bytes, Bracketed;
    var front, last := modules[..|modules| - 1], modules[|modules| - 1];
    assert modules == front + [last];
    FormattedAppend(front, last);
    if front != [] {
      FormattedBytes(front);
      BytesConcat(Formatted(front) + " ", Bracketed(last));
      BytesConcat(Formatted(front), " ");
      SingleBytes();
    }
  }

  lemma BracketedBytes(m: Module)
    ensures Bytes(Bracketed(m)) == Bytes(Body(m)) + 2
  {
    hide Bytes, Body;
    BytesConcat("[" + Body(m), "]");
    BytesConcat("[", Body(m));
    SingleBytes();
  }

  lemma BytesTail(s: string)
    requires s != ""
    ensures Bytes(s) == Utf8Length(s[0]) + Bytes(s[1..])
  {
  }

  /** One token of a template against its canonical form. */
  lemma ModuleBytes(rest: string, at: nat, position: nat)
    requires rest != "" && rest[0] == '['
    ensures var cut := ReadToken(rest[1..], at, position, "");
            cut.Ok? ==>
              var parsed := ParseToken(cut.value.token, position);
              parsed.Ok? ==> Bytes(Bracketed(parsed.value)) + Bytes(cut.value.rest) <= Bytes(rest) + 1
  {
    hide ReadToken, ParseToken, Escape, Bracketed, Bytes;
    var cut := ReadToken(rest[1..], at, position, "");
    if cut.Ok? {
      var parsed := ParseToken(cut.value.token, position);
      if parsed.Ok? {
        TokenBytes(rest[1..], at, position, "");
        NoBytes();
        BytesTail(rest);
        BodyIsHardlyLonger(cut.value.token, position);
        BracketedBytes(parsed.value);
      }
    }
  }

  lemma WeightAppend(modules: seq<Module>, m: Module)
    ensures Weight(modules + [m]) == Weight(modules) + Bytes(Bracketed(m))
  {
    hide Bytes, Bracketed;
    assert (modules + [m])[..|modules|] == modules;
  }

  lemma {:induction false} ParsedWeight(rest: string, at: nat, modules: seq<Module>)
    requires |modules| <= MAX_MODULES
    ensures var parsed := ReadModules(rest, at, modules);
            parsed.Ok? ==> Weight(parsed.value) + |modules| <= Weight(modules) + Bytes(rest) + |parsed.value|
    decreases |rest|
  {
    hide ReadToken, ParseToken, IsWhitespace, Bracketed, Bytes, Weight;
    if rest != "" {
      if IsWhitespace(rest[0]) {
        BytesTail(rest);
        ParsedWeight(rest[1..], at + Utf8Length(rest[0]), modules);
      } else if rest[0] == '[' {
        var cut := ReadToken(rest[1..], at + 1, at, "");
        if cut.Ok? && |modules| < MAX_MODULES {
          var parsed := ParseToken(cut.value.token, at);
          if parsed.Ok? {
            ModuleBytes(rest, at + 1, at);
            WeightAppend(modules, parsed.value);
            ParsedWeight(cut.value.rest, cut.value.at, modules + [parsed.value]);
          }
        }
      }
    }
  }

  /** A template of n modules grows by at most one byte for each module and one for each gap. */
  lemma CanonicalIsHardlyLonger(template: string)
    ensures var parsed := Parsed(template);
            parsed.Ok? && parsed.value != [] ==>
              Bytes(Formatted(parsed.value)) <= Bytes(template) + 2 * |parsed.value| - 1
  {
    hide ReadModules, Formatted, Bytes;
    ParsedWeight(template, 0, []);
    var parsed := Parsed(template);
    if parsed.Ok? && parsed.value != [] { FormattedBytes(parsed.value); }
  }

  /**
    A template that was accepted is accepted again in canonical form, with the same modules, exactly when that form
    still fits; and it does whenever the template left room for the growth.
   */
  lemma CanonicalReadsBack(template: string)
    ensures var parsed := Parsed(template);
            parsed.Ok? ==>
              && (Parsed(Formatted(parsed.value)) == parsed <==> Bytes(Formatted(parsed.value)) <= MAX_BYTES)
              && (Bytes(template) + 2 * |parsed.value| <= MAX_BYTES + 1 ==> Parsed(Formatted(parsed.value)) == parsed)
  {
    hide ReadModules, Formatted, Bytes, AllWellFormed;
    var parsed := Parsed(template);
    if parsed.Ok? {
      EmptyIsWellFormed();
      ParsedIsWellFormed(template, 0, []);
      ParseInvertsFormat(parsed.value);
      CanonicalIsHardlyLonger(template);
      if parsed.value == [] { assert Bytes(Formatted([])) == 0 by { EmptyFormat(); } }
    }
  }

  lemma EmptyFormat()
    ensures Bytes(Formatted([])) == 0
  {
  }

  // ---- An accepted template whose canonical form is refused ----

  /** Modules written with nothing between them. */
  function Adjacent(modules: seq<Module>): string {
    if modules == [] then "" else Bracketed(modules[0]) + Adjacent(modules[1..])
  }

  lemma {:induction false} ReadAdjacent(modules: seq<Module>, at: nat, before: seq<Module>)
    requires AllWellFormed(modules) && |before| + |modules| <= MAX_MODULES
    ensures ReadModules(Adjacent(modules), at, before) == Ok(before + modules)
    decreases |modules|
  {
    hide ReadModules, WellFormed, Bracketed;
    if modules == [] {
      ReadNothing(at, before);
      assert before + modules == before;
    } else {
      assert WellFormed(modules[0]);
      ReadModule(modules[0], Adjacent(modules[1..]), at, before);
      ReadAdjacent(modules[1..], at + Bytes(Bracketed(modules[0])), before + [modules[0]]);
      assert before + [modules[0]] + modules[1..] == before + modules;
    }
  }

  /** Four adjacent texts that fill the limit exactly: the three spaces that formatting adds are too many. */
  lemma FullTemplateDoesNotReadBack()
    ensures var modules := seq(4, _ => Words(seq(4089, _ => 'a')));
            && Bytes(Adjacent(modules)) == MAX_BYTES
            && Parsed(Adjacent(modules)) == Ok(modules)
            && Parsed(Formatted(modules)) == Err(At(MAX_BYTES, TemplateTooLong))
  {
    hide Bytes, Bracketed, ReadModules, Adjacent, Formatted;
    var m := Words(seq(4089, _ => 'a'));
    var modules := seq(4, _ => m);
    AsciiBytes(m.text);
    PlainWord(m.text);
    BodyBytes(m);
    BracketedBytes(m);
    assert modules == [m, m, m, m];
    FourBytes(m);
    FormattedBytes(modules);
    FourWeight(m);
    ReadAdjacent(modules, 0, []);
    assert [] + modules == modules;
  }

  lemma FourWeight(m: Module)
    ensures Weight([m, m, m, m]) == 4 * Bytes(Bracketed(m))
  {
    hide Bytes, Bracketed;
    assert [m, m, m, m][..3] == [m, m, m] && [m, m, m][..2] == [m, m] && [m, m][..1] == [m] && [m][..0] == [];
    assert Weight([m]) == Bytes(Bracketed(m));
    assert Weight([m, m]) == 2 * Bytes(Bracketed(m));
  }

  lemma FourBytes(m: Module)
    ensures Bytes(Adjacent([m, m, m, m])) == 4 * Bytes(Bracketed(m))
  {
    hide Bytes, Bracketed;
    var b := Bracketed(m);
    AdjacentBytes(m, []);
    AdjacentBytes(m, [m]);
    AdjacentBytes(m, [m, m]);
    AdjacentBytes(m, [m, m, m]);
    assert [m] + [] == [m] && [m] + [m] == [m, m] && [m] + [m, m] == [m, m, m] && [m] + [m, m, m] == [m, m, m, m];
    assert Bytes(Adjacent([])) == 0 by { EmptyAdjacent(); }
  }

  lemma EmptyAdjacent()
    ensures Bytes(Adjacent([])) == 0
  {
  }

  lemma AdjacentBytes(m: Module, more: seq<Module>)
    ensures Bytes(Adjacent([m] + more)) == Bytes(Bracketed(m)) + Bytes(Adjacent(more))
  {
    hide Bytes, Bracketed;
    assert ([m] + more)[1..] == more;
    BytesConcat(Bracketed(m), Adjacent(more));
  }
}
