/**
  The bar template language (src/config/bars.rs): a list of modules written as bracketed tokens, as in
  `[project-name] [Space: 2] [text:a \[b\]]`.
 */
module BarTemplate {
  import opened Wrappers
  import opened Text

  // ---- Modules ----

  const NAMES: seq<string> := [
    "project-name", "project-path", "active-item", "surface", "vim-mode", "vim-detail", "vim-keys",
    "editor-language", "editor-position", "editor-dirty", "editor-diagnostics", "editor-selection",
    "editor-tab-size", "editor-wrap", "terminal-title", "terminal-state", "terminal-exit", "terminal-size",
    "git-branch", "git-changes", "agent-state", "agent-waiting", "agent-model", "agent-children",
    "agent-state-duration", "ssh", "update", "projects-count", "terminals-count", "tabs-count",
    "editors-count", "app-cpu", "app-memory", "system-cpu", "system-memory", "command-palette", "settings"
  ]

  const ICONS: seq<string> := [
    "settings", "info", "cpu", "memory-stick", "search", "palette", "folder", "folder-open", "file",
    "square-terminal", "github", "network", "globe", "user", "bot", "bell", "calendar", "chart-pie",
    "hard-drive", "battery", "triangle-alert", "circle-check", "circle-x", "play", "pause"
  ]

  /** `Named` stands for the modules that have nothing but a name, one of `NAMES`. */
  datatype Module =
    | Named(name: string)
    | Space(count: nat)
    | Words(text: string)
    | Icon(icon: string)
    | Separator
    | Unknown(name: string)

  function Hyphenated(s: string): (t: string)
    ensures |t| == |s| && forall i :: 0 <= i < |s| ==> t[i] == if s[i] == '_' then '-' else s[i]
  {
    seq(|s|, i requires 0 <= i < |s| => if s[i] == '_' then '-' else s[i])
  }

  /** White space around a name, letter case and underscores do not matter. */
  function FromName(name: string): Module {
    var normalized := Hyphenated(ToAsciiLowercase(Trim(name)));
    if normalized in NAMES then Named(normalized) else Unknown(name)
  }

  function FindIgnoringCase(names: seq<string>, s: string): (found: Option<string>)
    ensures found.Some? ==> found.value in names && EqIgnoreAsciiCase(s, found.value)
    ensures found.None? ==> forall name :: name in names ==> !EqIgnoreAsciiCase(s, name)
  {
    if names == [] then None
    else if EqIgnoreAsciiCase(s, names[0]) then Some(names[0])
    else FindIgnoringCase(names[1..], s)
  }

  // ---- Limits and errors ----

  const MAX_BYTES: nat := 16 * 1024
  const MAX_MODULES: nat := 256
  const MAX_TEXT_BYTES: nat := 4 * 1024
  const MAX_SPACE: nat := 256

  function Utf8Length(c: char): (n: nat)
    ensures 1 <= n <= 4
  {
    var code := c as int;
    if code < 0x80 then 1 else if code < 0x800 then 2 else if code < 0x10000 then 3 else 4
  }

  function Bytes(s: string): (n: nat)
    ensures |s| <= n
  {
    if s == "" then 0 else Utf8Length(s[0]) + Bytes(s[1..])
  }

  datatype Reason =
    | TemplateTooLong
    | ExpectedBracket
    | UnescapedBracket
    | BadEscape
    | UnfinishedEscape
    | Unclosed
    | TooManyModules
    | EmptyToken
    | TextTooLong
    | UnknownIcon(icon: string)
    | SpaceNotANumber
    | SpaceOutOfRange
    | UnknownKeyword(keyword: string)
    | MissingColon
    | SpaceWithoutNumber
    | UnknownToken(token: string)

  /** A reason and the byte it is reported at. */
  datatype Error = At(position: nat, reason: Reason)

  // ---- Reading ----

  function ParseValue(keyword: string, value: string, position: nat): Result<Module, Error> {
    if EqIgnoreAsciiCase(keyword, "text") then
      if Bytes(value) > MAX_TEXT_BYTES then Err(At(position, TextTooLong)) else Ok(Words(value))
    else if EqIgnoreAsciiCase(keyword, "icon") then
      var icon := FindIgnoringCase(ICONS, Trim(value));
      if icon.None? then Err(At(position, UnknownIcon(Trim(value)))) else Ok(Icon(icon.value))
    else if EqIgnoreAsciiCase(keyword, "space") then
      var count := ParseU16(Trim(value));
      if count.None? then Err(At(position, SpaceNotANumber))
      else if !(1 <= count.value <= MAX_SPACE) then Err(At(position, SpaceOutOfRange))
      else Ok(Space(count.value))
    else Err(At(position, UnknownKeyword(keyword)))
  }

  function ParseWord(trimmed: string, position: nat): Result<Module, Error> {
    if EqIgnoreAsciiCase(trimmed, "text") || EqIgnoreAsciiCase(trimmed, "icon") then Err(At(position, MissingColon))
    else
      var star := Index(trimmed, '*');
      if EqIgnoreAsciiCase(trimmed, "space")
        || (star < |trimmed| && EqIgnoreAsciiCase(Trim(trimmed[..star]), "space")) then
        Err(At(position, SpaceWithoutNumber))
      else
        var parsed := FromName(trimmed);
        if parsed.Unknown? then Err(At(position, UnknownToken(trimmed))) else Ok(parsed)
  }

  /** The module that an unescaped token stands for. */
  function ParseToken(token: string, position: nat): Result<Module, Error> {
    var trimmed := Trim(token);
    if trimmed == "" then Err(At(position, EmptyToken))
    else if trimmed == "|" then Ok(Separator)
    else
      var colon := Index(token, ':');
      if colon < |token| then ParseValue(Trim(token[..colon]), token[colon + 1..], position)
      else ParseWord(trimmed, position)
  }

  predicate Special(c: char) { c == '[' || c == ']' || c == '\\' }

  datatype Cut = Cut(token: string, rest: string, at: nat)

  /** The rest of a token that opened at byte `open`, unescaped, from byte `at` on. */
  function ReadToken(rest: string, at: nat, open: nat, token: string): (cut: Result<Cut, Error>)
    ensures cut.Ok? ==> |cut.value.rest| < |rest|
    decreases |rest|
  {
    if rest == "" then Err(At(open, Unclosed))
    else if rest[0] == ']' then Ok(Cut(token, rest[1..], at + 1))
    else if rest[0] == '[' then Err(At(at, UnescapedBracket))
    else if rest[0] == '\\' then
      if |rest| == 1 then Err(At(at, UnfinishedEscape))
      else if Special(rest[1]) then ReadToken(rest[2..], at + 2, open, token + [rest[1]])
      else Err(At(at + 1, BadEscape))
    else ReadToken(rest[1..], at + Utf8Length(rest[0]), open, token + [rest[0]])
  }

  /** The rest of a template, from byte `at` on, after `modules`. */
  function ReadModules(rest: string, at: nat, modules: seq<Module>): Result<seq<Module>, Error>
    decreases |rest|
  {
    if rest == "" then Ok(modules)
    else if IsWhitespace(rest[0]) then ReadModules(rest[1..], at + Utf8Length(rest[0]), modules)
    else if rest[0] != '[' then Err(At(at, ExpectedBracket))
    else
      var cut := ReadToken(rest[1..], at + 1, at, "");
      if cut.Err? then Err(cut.error)
      else if |modules| == MAX_MODULES then Err(At(at, TooManyModules))
      else
        var parsed := ParseToken(cut.value.token, at);
        if parsed.Err? then Err(parsed.error)
        else ReadModules(cut.value.rest, cut.value.at, modules + [parsed.value])
  }

  function Parsed(template: string): Result<seq<Module>, Error> {
    if Bytes(template) > MAX_BYTES then Err(At(MAX_BYTES, TemplateTooLong)) else ReadModules(template, 0, [])
  }

  /** The token that opened at byte `open`; `characters` is the iterator's place and `at` its byte. */
  method ReadTokenFrom(template: string, start: nat, byte: nat, open: nat)
    returns (token: string, characters: nat, at: nat, error: Option<Error>)
    requires start <= |template|
    ensures start <= characters <= |template|
    ensures ReadToken(template[start..], byte, open, "")
            == if error.Some? then Err(error.value) else Ok(Cut(token, template[characters..], at))
    ensures error.None? ==> start < characters
  {
    hide Utf8Length;
    token, characters, at := "", start, byte;
    while characters < |template|
      invariant start <= characters <= |template|
      invariant ReadToken(template[characters..], at, open, token) == ReadToken(template[start..], byte, open, "")
    {
      ghost var rest := template[characters..];
      var character := template[characters];
      assert rest[0] == character && rest[1..] == template[characters + 1..];
      if character == ']' {
        return token, characters + 1, at + 1, None;
      }
      if character == '[' {
        return token, characters, at, Some(At(at, UnescapedBracket));
      }
      if character == '\\' {
        if characters + 1 == |template| {
          return token, characters, at, Some(At(at, UnfinishedEscape));
        }
        var escaped := template[characters + 1];
        assert rest[1] == escaped && rest[2..] == template[characters + 2..];
        if !Special(escaped) {
          return token, characters, at, Some(At(at + 1, BadEscape));
        }
        token := token + [escaped];
        characters, at := characters + 2, at + 2;
      } else {
        token := token + [character];
        characters, at := characters + 1, at + Utf8Length(character);
      }
    }
    error := Some(At(open, Unclosed));
  }

  method ParseBarTemplate(template: string) returns (outcome: Result<seq<Module>, Error>)
    ensures outcome == Parsed(template)
  {
    hide ReadToken, ParseToken, Utf8Length;
    if Bytes(template) > MAX_BYTES {
      return Err(At(MAX_BYTES, TemplateTooLong));
    }
    var modules: seq<Module> := [];
    var characters: nat, at: nat := 0, 0;
    assert template[0..] == template;
    while characters < |template|
      invariant characters <= |template|
      invariant ReadModules(template[characters..], at, modules) == ReadModules(template, 0, [])
    {
      ghost var rest := template[characters..];
      var position, character := at, template[characters];
      assert rest[0] == character && rest[1..] == template[characters + 1..];
      characters, at := characters + 1, at + Utf8Length(character);
      if IsWhitespace(character) {
        continue;
      }
      if character != '[' {
        return Err(At(position, ExpectedBracket));
      }
      OneByte(character);
      var token, end, endByte, error := ReadTokenFrom(template, characters, at, position);
      if error.Some? {
        return Err(error.value);
      }
      if |modules| == MAX_MODULES {
        return Err(At(position, TooManyModules));
      }
      var parsed := ParseToken(token, position);
      if parsed.Err? {
        return Err(parsed.error);
      }
      modules, characters, at := modules + [parsed.value], end, endByte;
    }
    outcome := Ok(modules);
  }

  lemma OneByte(c: char)
    requires (c as int) < 0x80
    ensures Utf8Length(c) == 1
  {
  }

  // ---- Writing ----

  function Escape(text: string): string {
    if text == "" then "" else (if Special(text[0]) then ['\\', text[0]] else [text[0]]) + Escape(text[1..])
  }

  lemma EscapeStep(text: string, k: nat, before: string, piece: string)
    requires k < |text| && piece == if Special(text[k]) then ['\\', text[k]] else [text[k]]
    ensures before + Escape(text[k..]) == before + piece + Escape(text[k + 1..])
  {
    assert text[k..][1..] == text[k + 1..];
  }

  method EscapeBarTemplateText(text: string) returns (escaped: string)
    ensures escaped == Escape(text)
  {
    assert Escape("") == "" && text[0..] == text;
    hide Escape;
    escaped := "";
    for k := 0 to |text|
      invariant escaped + Escape(text[k..]) == Escape(text)
    {
      ghost var piece := if Special(text[k]) then ['\\', text[k]] else [text[k]];
      EscapeStep(text, k, escaped, piece);
      if Special(text[k]) {
        escaped := escaped + ['\\', text[k]];
      } else {
        escaped := escaped + [text[k]];
      }
    }
    assert text[|text|..] == "";
  }

  /** What stands between the brackets. */
  function Body(m: Module): string {
    match m
    case Space(count) => "Space: " + Decimal(count)
    case Words(text) => "text:" + Escape(text)
    case Icon(icon) => "icon:" + icon
    case Separator => "|"
    case Named(name) => name
    case Unknown(name) => name
  }

  function Bracketed(m: Module): string {
    "[" + Body(m) + "]"
  }

  function Formatted(modules: seq<Module>): string {
    if modules == [] then ""
    else if |modules| == 1 then Bracketed(modules[0])
    else Bracketed(modules[0]) + " " + Formatted(modules[1..])
  }

  lemma {:induction false} FormattedAppend(modules: seq<Module>, m: Module)
    ensures Formatted(modules + [m])
            == if modules == [] then Bracketed(m) else Formatted(modules) + " " + Bracketed(m)
  {
    hide Bracketed;
    if |modules| == 1 {
      assert (modules + [m])[1..] == [m];
    } else if |modules| > 1 {
      assert (modules + [m])[1..] == modules[1..] + [m];
      FormattedAppend(modules[1..], m);
    }
  }

  method FormatBarTemplate(modules: seq<Module>) returns (template: string)
    ensures template == Formatted(modules)
  {
    hide Escape, Formatted, Decimal;
    assert modules[..0] == [];
    template := "";
    FormattedEmpty();
    for index := 0 to |modules|
      invariant template == Formatted(modules[..index])
    {
      FormattedAppend(modules[..index], modules[index]);
      assert modules[..index + 1] == modules[..index] + [modules[index]];
      var m := modules[index];
      if index > 0 {
        template := template + " ";
      }
      match m {
        case Space(count) =>
          template := template + ("[Space: " + Decimal(count) + "]");
        case Words(text) =>
          var escaped := EscapeBarTemplateText(text);
          template := template + ("[text:" + escaped + "]");
        case Icon(icon) =>
          template := template + ("[icon:" + icon + "]");
        case Separator =>
          template := template + "[|]";
        case _ =>
          template := template + ("[" + m.name + "]");
      }
      BracketedIs(m);
    }
    assert modules[..|modules|] == modules;
  }

  lemma FormattedEmpty()
    ensures Formatted([]) == ""
  {
  }

  lemma BracketedIs(m: Module)
    ensures m.Space? ==> Bracketed(m) == "[Space: " + Decimal(m.count) + "]"
    ensures m.Words? ==> Bracketed(m) == "[text:" + Escape(m.text) + "]"
    ensures m.Icon? ==> Bracketed(m) == "[icon:" + m.icon + "]"
    ensures m.Separator? ==> Bracketed(m) == "[|]"
    ensures m.Named? || m.Unknown? ==> Bracketed(m) == "[" + m.name + "]"
  {
    hide Escape, Decimal;
  }
}
