/**
  The SSH command field (src/config/ssh_command.rs), at the level of words: splitting a line into shell words
  and joining words into a line are taken as inverse to each other.
 */
module SshCommand {
  import opened Wrappers
  import opened Text

  const DEFAULT_SSH_PORT: nat := 22

  datatype Parsed = Parsed(host: string, port: nat, user: Option<string>, identity: Option<string>)

  datatype Error =
    | Empty
    | NotSsh(program: string)
    | MissingOptionValue(option: string)
    | InvalidPort(port: string)
    | UnsupportedOption(option: string)
    | MissingDestination
    | InvalidDestination(destination: string)
    | RemoteCommandUnsupported

  // ---- Options ----

  /** The last component of a path, as `Path::file_name` finds it: none after `..`, at a root or in an empty path. */
  function FileName(path: string): Option<string>
    decreases |path|
  {
    var slash := LastIndex(path, '/');
    var last := if slash < |path| then path[slash + 1..] else path;
    if last == ".." then None
    else if last == "" || last == "." then if slash < |path| then FileName(path[..slash]) else None
    else Some(last)
  }

  predicate IsSsh(program: string) {
    var name := FileName(program);
    (if name.Some? then name.value else program) in ["ssh", "ssh.exe"]
  }

  // ---- The program ----

  /**
    What follows the last slash names the file, unless it is empty or a single dot, which does not count, or a
    double dot, after which there is no name.
   */
  lemma LastComponent(directory: string, last: string)
    requires '/' !in last
    ensures FileName(directory + "/" + last)
         == if last == ".." then None else if last == "" || last == "." then FileName(directory) else Some(last)
  {
    var path := directory + "/" + last;
    assert path[|directory|] == '/' && path[|directory| + 1..] == last && path[..|directory|] == directory;
    LastIndexIs(path, |directory|, '/');
    hide LastIndex;
  }

  lemma OnlyComponent(last: string)
    requires '/' !in last
    ensures FileName(last) == if last == "" || last == "." || last == ".." then None else Some(last)
  {
    hide LastIndex;
  }

  /** The program is ssh in whatever directory, with or without the Windows extension, and nothing else is. */
  lemma ProgramIsSsh(directory: string, name: string)
    requires '/' !in name && name !in ["", ".", ".."]
    ensures IsSsh(directory + "/" + name) <==> name == "ssh" || name == "ssh.exe"
    ensures IsSsh(name) <==> name == "ssh" || name == "ssh.exe"
  {
    LastComponent(directory, name);
    OnlyComponent(name);
    hide FileName;
  }

  function ParsePort(value: string): (port: Result<nat, Error>)
    ensures port.Ok? ==> 0 < port.value < 65536
  {
    var n := ParseU16(value);
    if n.Some? && n.value > 0 then Ok(n.value) else Err(InvalidPort(value))
  }

  function NonEmpty(value: string, option: string): Result<string, Error> {
    if value == "" then Err(MissingOptionValue(option)) else Ok(value)
  }

  /** The word after the option, which must not be empty. */
  function OptionValue(words: seq<string>, index: nat, option: string): Result<string, Error> {
    if index + 1 < |words| then NonEmpty(words[index + 1], option) else Err(MissingOptionValue(option))
  }

  const IGNORABLE := [
    "-4", "-6", "-A", "-a", "-C", "-K", "-k", "-N", "-n", "-q", "-T", "-t", "-v", "-X", "-x", "-Y", "-y"
  ]

  /** What the options have set so far. */
  datatype Settings = Settings(port: nat, user: Option<string>, identity: Option<string>)

  const DEFAULTS := Settings(DEFAULT_SSH_PORT, None, None)

  function WithPort(settings: Settings, value: Result<string, Error>): Result<Settings, Error> {
    if value.Err? then Err(value.error)
    else
      var port := ParsePort(value.value);
      if port.Err? then Err(port.error) else Ok(settings.(port := port.value))
  }

  function WithUser(settings: Settings, value: Result<string, Error>): Result<Settings, Error> {
    if value.Err? then Err(value.error) else Ok(settings.(user := Some(value.value)))
  }

  function WithIdentity(settings: Settings, value: Result<string, Error>): Result<Settings, Error> {
    if value.Err? then Err(value.error) else Ok(settings.(identity := Some(value.value)))
  }

  /** `-o name=value`, for the three names that the field knows. */
  function WithConfigOption(settings: Settings, option: string): Result<Settings, Error> {
    var i := Index(option, '=');
    if i == |option| then Err(UnsupportedOption("-o " + option))
    else
      var name, value := option[..i], option[i + 1..];
      var lower := ToAsciiLowercase(name);
      if lower == "port" then WithPort(settings, Ok(value))
      else if lower == "user" && value != "" then WithUser(settings, Ok(value))
      else if lower == "identityfile" && value != "" then WithIdentity(settings, Ok(value))
      else Err(UnsupportedOption("-o " + name))
  }

  datatype Turn = Turn(settings: Settings, next: nat)

  function Advance(settings: Result<Settings, Error>, next: nat): Result<Turn, Error> {
    if settings.Err? then Err(settings.error) else Ok(Turn(settings.value, next))
  }

  function Inline(word: string, option: string): string
    requires option <= word
  {
    word[|option|..]
  }

  /** One option word, with its value inline or in the next word. */
  function TakeOption(words: seq<string>, index: nat, settings: Settings): (turn: Result<Turn, Error>)
    requires index < |words|
    ensures turn.Ok? ==> index < turn.value.next <= |words|
  {
    var word := words[index];
    if word == "-p" then Advance(WithPort(settings, OptionValue(words, index, "-p")), index + 2)
    else if "-p" <= word then Advance(WithPort(settings, Ok(Inline(word, "-p"))), index + 1)
    else if word == "-l" then Advance(WithUser(settings, OptionValue(words, index, "-l")), index + 2)
    else if "-l" <= word then Advance(WithUser(settings, NonEmpty(Inline(word, "-l"), "-l")), index + 1)
    else if word == "-i" then Advance(WithIdentity(settings, OptionValue(words, index, "-i")), index + 2)
    else if "-i" <= word then Advance(WithIdentity(settings, NonEmpty(Inline(word, "-i"), "-i")), index + 1)
    else if word == "-o" then
      var option := OptionValue(words, index, "-o");
      if option.Err? then Err(option.error) else Advance(WithConfigOption(settings, option.value), index + 2)
    else if "-o" <= word then Advance(WithConfigOption(settings, Inline(word, "-o")), index + 1)
    else if word in IGNORABLE then Ok(Turn(settings, index + 1))
    else Err(UnsupportedOption(word))
  }

  predicate IsDestination(word: string) {
    word == "" || word[0] != '-' || word == "-"
  }

  /** The words from `index` on: options, then one destination, then nothing. */
  function Scan(words: seq<string>, index: nat, settings: Settings): Result<Parsed, Error>
    requires index <= |words|
    decreases |words| - index
  {
    if index == |words| then Err(MissingDestination)
    else if words[index] == "--" then
      if index + 1 == |words| then Err(MissingDestination)
      else if index + 2 < |words| then Err(RemoteCommandUnsupported)
      else Resolve(words[index + 1], settings)
    else if IsDestination(words[index]) then
      if index + 1 < |words| then Err(RemoteCommandUnsupported) else Resolve(words[index], settings)
    else
      var turn := TakeOption(words, index, settings);
      if turn.Err? then Err(turn.error) else Scan(words, turn.value.next, turn.value.settings)
  }

  // ---- Destinations ----

  datatype HostAndPort = HostAndPort(host: string, port: Option<nat>)

  /** A host in brackets may be followed by a port; a bare one has a port when it holds exactly one colon. */
  function ParseHostAndPort(value: string): Option<HostAndPort> {
    if value != "" && value[0] == '[' then
      var rest := value[1..];
      var close := Index(rest, ']');
      if close == |rest| || close == 0 then None
      else if close + 1 == |rest| then Some(HostAndPort(rest[..close], None))
      else if rest[close + 1] != ':' then None
      else WithParsedPort(rest[..close], rest[close + 2..])
    else if value == "" then None
    else
      var colon := LastIndex(value, ':');
      if colon < |value| && ':' !in value[..colon] then WithParsedPort(value[..colon], value[colon + 1..])
      else Some(HostAndPort(value, None))
  }

  function WithParsedPort(host: string, port: string): Option<HostAndPort> {
    var parsed := ParsePort(port);
    if parsed.Ok? then Some(HostAndPort(host, Some(parsed.value))) else None
  }

  /** A host without brackets and colons may be followed by a colon and a port, and then by nothing else. */
  lemma HostWithPort(host: string, port: string)
    requires ':' !in host && ':' !in port && (host == "" || host[0] != '[')
    ensures ParseHostAndPort(host + ":" + port)
         == if ParsePort(port).Ok? then Some(HostAndPort(host, Some(ParsePort(port).value))) else None
  {
    hide ParsePort, LastIndex;
    var value := host + ":" + port;
    assert value[0] == (if host == "" then ':' else host[0]);
    assert value[|host|] == ':' && value[..|host|] == host && value[|host| + 1..] == port;
    LastIndexIs(value, |host|, ':');
  }

  /** A host in brackets may hold anything but the closing one; only a port may come after it. */
  lemma BracketedHost(host: string, after: string)
    requires ']' !in host
    ensures ParseHostAndPort("[" + host + "]" + after)
         == if host == "" then None
            else if after == "" then Some(HostAndPort(host, None))
            else if after[0] == ':' && ParsePort(after[1..]).Ok?
            then Some(HostAndPort(host, Some(ParsePort(after[1..]).value)))
            else None
  {
    hide ParsePort, Index;
    var value, rest := "[" + host + "]" + after, host + "]" + after;
    assert value[0] == '[' && value[1..] == rest;
    assert rest[|host|] == ']' && rest[..|host|] == host;
    IndexIs(rest, |host|, ']');
    if after != "" {
      assert rest[|host| + 1] == after[0] && rest[|host| + 2..] == after[1..];
    }
  }

  /** Without a closing bracket, and without any text, there is no host. */
  lemma NoHost(text: string)
    requires ']' !in text
    ensures ParseHostAndPort("[" + text) == None == ParseHostAndPort("")
  {
    hide Index;
    assert ("[" + text)[1..] == text;
  }

  datatype Destination = Destination(user: Option<string>, host: string, port: Option<nat>)

  function WithoutScheme(destination: string): string {
    if "ssh://" <= destination then destination[|"ssh://"|..] else destination
  }

  function WithoutFinalSlash(destination: string): string {
    if destination != "" && destination[|destination| - 1] == '/' then destination[..|destination| - 1] else destination
  }

  function ParseDestination(word: string): Result<Destination, Error> {
    var destination := WithoutScheme(word);
    var authority := WithoutFinalSlash(destination);
    if authority == "" || '/' in authority then Err(InvalidDestination(destination))
    else
      var at := LastIndex(authority, '@');
      if at == 0 then Err(InvalidDestination(destination))
      else
        var parsed := ParseHostAndPort(if at < |authority| then authority[at + 1..] else authority);
        if parsed.None? then Err(InvalidDestination(destination))
        else
          var user := if at < |authority| then Some(authority[..at]) else None;
          Ok(Destination(user, parsed.value.host, parsed.value.port))
  }

  /** The destination's own user and port win over the options. */
  function Resolve(word: string, settings: Settings): Result<Parsed, Error> {
    var parsed := ParseDestination(word);
    if parsed.Err? then Err(parsed.error)
    else
      var d := parsed.value;
      Ok(Parsed(d.host, if d.port.Some? then d.port.value else settings.port,
                if d.user.Some? then d.user else settings.user, settings.identity))
  }

  // ---- The whole field ----

  function ParsedWords(words: seq<string>): Result<Parsed, Error> {
    if words == [] then Err(Empty)
    else if !IsSsh(words[0]) then Err(NotSsh(words[0]))
    else Scan(words, 1, DEFAULTS)
  }

  method ParseSshCommand(words: seq<string>) returns (outcome: Result<Parsed, Error>)
    ensures outcome == ParsedWords(words)
  {
    if words == [] {
      return Err(Empty);
    }
    if !IsSsh(words[0]) {
      return Err(NotSsh(words[0]));
    }
    var settings := DEFAULTS;
    var destination: Option<string> := None;
    var index := 1;
    while index < |words|
      invariant 1 <= index <= |words|
      invariant destination.None? ==> ParsedWords(words) == Scan(words, index, settings)
      invariant destination.Some? ==>
          ParsedWords(words) == if index < |words| then Err(RemoteCommandUnsupported)
            else Resolve(destination.value, settings)
    {
      var word := words[index];
      if destination.Some? {
        return Err(RemoteCommandUnsupported);
      }
      if word == "--" {
        index := index + 1;
        if index == |words| {
          return Err(MissingDestination);
        }
        destination := Some(words[index]);
        index := index + 1;
        continue;
      }
      if IsDestination(word) {
        destination := Some(word);
        index := index + 1;
        continue;
      }
      var turn := TakeOption(words, index, settings);
      if turn.Err? {
        return Err(turn.error);
      }
      settings, index := turn.value.settings, turn.value.next;
    }
    if destination.None? {
      return Err(MissingDestination);
    }
    outcome := Resolve(destination.value, settings);
  }

  /** The destination word that a host and a user are written as. */
  function DestinationWord(host: string, user: string): string {
    if Trim(user) == "" then host else Trim(user) + "@" + host
  }

  function Formatted(host: string, port: nat, user: string, identity: Option<string>): seq<string> {
    if Trim(host) == "" then ["ssh"]
    else
      ["ssh"] + (if port != DEFAULT_SSH_PORT then ["-p", Decimal(port)] else [])
      + (if identity.Some? then ["-i", identity.value] else [])
      + [DestinationWord(host, user)]
  }

  // ---- The round trip ----

  /** What the fields say, with the user as the formatter reads it. */
  function Fields(host: string, port: nat, user: string, identity: Option<string>): Parsed {
    Parsed(host, port, UserField(user), identity)
  }

  /** A host that survives being written after an optional `user@`. */
  predicate PlainHost(host: string) {
    host != "" && '/' !in host && '@' !in host && host[0] != '[' && Count(host, ':') != 1
  }

  predicate Writable(host: string, port: nat, user: string, identity: Option<string>) {
    && port > 0
    && identity != Some("")
    && Trim(host) != ""
    && PlainHost(host)
    && '/' !in Trim(user)
    && IsDestination(DestinationWord(host, user))
  }

  lemma {:induction false} CountOfSplit(s: string, i: nat, c: char)
    requires i < |s| && s[i] == c
    ensures Count(s, c) == Count(s[..i], c) + 1 + Count(s[i + 1..], c)
  {
    if i > 0 {
      CountOfSplit(s[1..], i - 1, c);
      assert s[1..][..i - 1] == s[..i][1..];
      assert s[1..][i..] == s[i + 1..];
    }
  }

  /** Host parsing returns its whole input exactly when the input is not bracketed and has not one colon. */
  lemma HostParsesWhole(host: string)
    ensures var parsed := ParseHostAndPort(host);
            parsed.Some? && parsed.value.host == host <==> host != "" && host[0] != '[' && Count(host, ':') != 1
    ensures var parsed := ParseHostAndPort(host);
            parsed.Some? && parsed.value.host == host ==> parsed.value.port == None
  {
    hide LastIndex, Index, ParsePort, Count;
    var colon := LastIndex(host, ':');
    if host != "" && host[0] != '[' && colon < |host| {
      CountOfSplit(host, colon, ':');
      assert Count(host[colon + 1..], ':') == 0;
    }
  }

  lemma ParsedHostHasNoAt(word: string)
    ensures var d := ParseDestination(word);
            d.Ok? ==>
              '@' !in d.value.host && '/' !in d.value.host && (d.value.user.Some? ==> '/' !in d.value.user.value)
  {
    var authority := WithoutFinalSlash(WithoutScheme(word));
    if authority != "" && '/' !in authority {
      var at := LastIndex(authority, '@');
      var value := if at < |authority| then authority[at + 1..] else authority;
      assert '@' !in value;
      assert forall i :: 0 <= i < |value| ==> value[i] in authority;
      HostIsPart(value);
    }
  }

  lemma HostIsPart(value: string)
    ensures var parsed := ParseHostAndPort(value);
            parsed.Some? ==> forall c :: c in parsed.value.host ==> c in value
  {
  }

  lemma LastAt(host: string, user: string)
    requires '@' !in host
    ensures var word := DestinationWord(host, user);
            LastIndex(word, '@') == if Trim(user) == "" then |word| else |Trim(user)|
  {
    hide Trim, LastIndex;
    if Trim(user) != "" {
      var word := DestinationWord(host, user);
      assert word[|Trim(user)|] == '@' && word[|Trim(user)| + 1..] == host;
      LastIndexIs(word, |Trim(user)|, '@');
    }
  }

  lemma NothingToStrip(word: string)
    requires '/' !in word
    ensures WithoutFinalSlash(WithoutScheme(word)) == word
  {
    assert !("ssh://" <= word) by {
      assert "ssh://"[4] == '/';
      assert |word| > 4 ==> word[4] in word;
    }
  }

  function UserField(user: string): Option<string> {
    if Trim(user) == "" then None else Some(Trim(user))
  }

  /** Without a slash, and with no `@` in the host, the word is split where it was joined. */
  lemma WordSplitsWhereJoined(host: string, user: string)
    requires host != "" && '/' !in host && '@' !in host && '/' !in Trim(user)
    ensures var parsed := ParseHostAndPort(host);
            var read := ParseDestination(DestinationWord(host, user));
            if parsed.None? then read.Err?
            else read == Ok(Destination(UserField(user), parsed.value.host, parsed.value.port))
  {
    hide ParseHostAndPort, Trim, LastIndex;
    var word := DestinationWord(host, user);
    NothingToStrip(word);
    LastAt(host, user);
    if Trim(user) != "" {
      assert word[..|Trim(user)|] == Trim(user);
      assert word[|Trim(user)| + 1..] == host;
    }
  }

  predicate Reads(read: Result<Destination, Error>, host: string, user: string) {
    read.Ok? && read.value.host == host && read.value.user == UserField(user)
  }

  /** Writing `user@host` and reading it again. */
  lemma DestinationRoundTrip(host: string, user: string)
    requires Trim(host) != ""
    ensures Reads(ParseDestination(DestinationWord(host, user)), host, user) <==> PlainHost(host) && '/' !in Trim(user)
    ensures var read := ParseDestination(DestinationWord(host, user));
            Reads(read, host, user) ==> read.value.port == None
  {
    hide ParseHostAndPort, Trim, Count, ParseDestination, LastIndex;
    ParsedHostHasNoAt(DestinationWord(host, user));
    HostParsesWhole(host);
    NotBlank(host);
    if '/' !in host && '@' !in host && '/' !in Trim(user) {
      WordSplitsWhereJoined(host, user);
    }
  }

  lemma NotBlank(host: string)
    requires Trim(host) != ""
    ensures host != ""
  {
  }

  /** The last word is the destination, or the whole field is refused. */
  lemma ScanLast(words: seq<string>, settings: Settings)
    requires words != []
    ensures var word := words[|words| - 1];
            var read := Scan(words, |words| - 1, settings);
            if IsDestination(word) then read == Resolve(word, settings) else read.Err?
  {
    hide TakeOption, Resolve;
  }

  lemma ScanPort(words: seq<string>, port: nat)
    requires |words| > 3 && words[1] == "-p" && words[2] == Decimal(port) && port < 65536
    ensures var read := Scan(words, 1, DEFAULTS);
            if port == 0 then read.Err? else read == Scan(words, 3, DEFAULTS.(port := port))
  {
    hide Resolve, Decimal;
    ParseInvertsDecimal(port);
  }

  lemma ScanIdentity(words: seq<string>, index: nat, settings: Settings)
    requires index + 2 < |words| && words[index] == "-i"
    ensures var read := Scan(words, index, settings);
            if words[index + 1] == "" then read.Err?
            else read == Scan(words, index + 2, settings.(identity := Some(words[index + 1])))
  {
    hide Resolve;
  }

  /** The options that the formatter writes set what they were written from. */
  lemma OptionsRoundTrip(host: string, port: nat, user: string, identity: Option<string>)
    requires Trim(host) != "" && port < 65536
    ensures var word := DestinationWord(host, user);
            var read := ParsedWords(Formatted(host, port, user, identity));
            if port > 0 && identity != Some("") && IsDestination(word) then
              read == Resolve(word, Settings(port, None, identity))
            else read.Err?
  {
    hide Trim, ParseDestination, DestinationWord, Resolve, Scan, IsDestination, Decimal;
    var words := Formatted(host, port, user, identity);
    assert FileName("ssh") == Some("ssh");
    if port != DEFAULT_SSH_PORT { ScanPort(words, port); }
    if port > 0 {
      var index := if port != DEFAULT_SSH_PORT then 3 else 1;
      if identity.Some? { ScanIdentity(words, index, DEFAULTS.(port := port)); }
      ScanLast(words, Settings(port, None, identity));
    }
  }

  /**
    The field reads back what was written exactly when it is writable: a real port, a nonempty identity file, and a
    host and user that the destination syntax cannot mistake for something else.
   */
  lemma FieldRoundTrip(host: string, port: nat, user: string, identity: Option<string>)
    requires port < 65536
    ensures ParsedWords(Formatted(host, port, user, identity)) == Ok(Fields(host, port, user, identity))
            <==> Writable(host, port, user, identity)
  {
    hide Trim, ParseDestination, DestinationWord, IsDestination, ParsedWords, PlainHost;
    if Trim(host) == "" {
      NothingAfterSsh();
    } else {
      OptionsRoundTrip(host, port, user, identity);
      DestinationRoundTrip(host, user);
      ResolvesToFields(host, port, user, identity);
    }
  }

  lemma NothingAfterSsh()
    ensures ParsedWords(["ssh"]) == Err(MissingDestination)
  {
    assert FileName("ssh") == Some("ssh");
  }

  lemma ResolvesToFields(host: string, port: nat, user: string, identity: Option<string>)
    requires var read := ParseDestination(DestinationWord(host, user));
             Reads(read, host, user) ==> read.value.port == None
    ensures var word := DestinationWord(host, user);
            Resolve(word, Settings(port, None, identity)) == Ok(Fields(host, port, user, identity))
            <==> Reads(ParseDestination(word), host, user)
  {
    hide Trim, ParseDestination, DestinationWord;
  }

  method FormatSshCommand(host: string, port: nat, user: string, identity: Option<string>) returns (words: seq<string>)
    requires port < 65536
    ensures words == Formatted(host, port, user, identity)
    ensures ParsedWords(words) == Ok(Fields(host, port, user, identity)) <==> Writable(host, port, user, identity)
  {
    hide Trim, Decimal, DestinationWord, ParsedWords, Writable, Fields;
    FieldRoundTrip(host, port, user, identity);
    if Trim(host) == "" {
      return ["ssh"];
    }
    words := ["ssh"];
    if port != DEFAULT_SSH_PORT {
      words := words + ["-p", Decimal(port)];
    }
    if identity.Some? {
      words := words + ["-i", identity.value];
    }
    words := words + [DestinationWord(host, user)];
  }

  // ---- What an accepted field holds ----

  ghost predicate Real(settings: Settings) {
    0 < settings.port < 65536 && settings.user != Some("") && settings.identity != Some("")
  }

  lemma ConfigOptionKeepsReal(settings: Settings, option: string)
    requires Real(settings)
    ensures var changed := WithConfigOption(settings, option);
            changed.Ok? ==> Real(changed.value)
  {
  }

  lemma OptionKeepsReal(words: seq<string>, index: nat, settings: Settings)
    requires index < |words| && Real(settings)
    ensures var turn := TakeOption(words, index, settings);
            turn.Ok? ==> Real(turn.value.settings)
  {
    hide WithConfigOption, ParsePort;
    var word := words[index];
    if word == "-o" {
      var option := OptionValue(words, index, "-o");
      if option.Ok? { ConfigOptionKeepsReal(settings, option.value); }
    } else if "-o" <= word {
      ConfigOptionKeepsReal(settings, Inline(word, "-o"));
    }
  }

  lemma HostPortIsReal(value: string)
    ensures var parsed := ParseHostAndPort(value);
            parsed.Some? && parsed.value.port.Some? ==> 0 < parsed.value.port.value < 65536
  {
    hide Index, LastIndex, ParsePort;
  }

  lemma DestinationIsReal(word: string)
    ensures var d := ParseDestination(word);
            d.Ok? ==> d.value.user != Some("") && (d.value.port.Some? ==> 0 < d.value.port.value < 65536)
  {
    hide ParseHostAndPort, WithoutScheme, WithoutFinalSlash, LastIndex;
    var authority := WithoutFinalSlash(WithoutScheme(word));
    var at := LastIndex(authority, '@');
    HostPortIsReal(if at < |authority| then authority[at + 1..] else authority);
  }

  lemma ResolveIsReal(word: string, settings: Settings)
    requires Real(settings)
    ensures var read := Resolve(word, settings);
            read.Ok? ==>
              && Real(Settings(read.value.port, read.value.user, read.value.identity))
              && '@' !in read.value.host && '/' !in read.value.host
  {
    hide ParseDestination;
    ParsedHostHasNoAt(word);
    DestinationIsReal(word);
  }

  /** Whatever the words, an accepted port is a real one, and no accepted part can be read as two. */
  lemma {:induction false} ScanIsReal(words: seq<string>, index: nat, settings: Settings)
    requires index <= |words| && Real(settings)
    ensures var read := Scan(words, index, settings);
            read.Ok? ==>
              && Real(Settings(read.value.port, read.value.user, read.value.identity))
              && '@' !in read.value.host && '/' !in read.value.host
    decreases |words| - index
  {
    hide TakeOption, Resolve, Real;
    if index < |words| {
      if words[index] == "--" {
        if index + 1 < |words| { ResolveIsReal(words[index + 1], settings); }
      } else if IsDestination(words[index]) {
        ResolveIsReal(words[index], settings);
      } else {
        OptionKeepsReal(words, index, settings);
        var turn := TakeOption(words, index, settings);
        if turn.Ok? { ScanIsReal(words, turn.value.next, turn.value.settings); }
      }
    }
  }

  lemma AcceptedIsReal(words: seq<string>)
    ensures var read := ParsedWords(words);
            read.Ok? ==>
              && 0 < read.value.port < 65536 && read.value.user != Some("") && read.value.identity != Some("")
              && '@' !in read.value.host && '/' !in read.value.host
  {
    if words != [] && IsSsh(words[0]) { ScanIsReal(words, 1, DEFAULTS); }
  }

  // ---- Accepted fields without a host ----

  /** The forms of a destination that give no host, with their optional parts. */
  function WithoutHost(scheme: bool, user: Option<string>, port: string, slash: bool): string {
    (if scheme then "ssh://" else "") + UserAndPort(user, port) + (if slash then "/" else "")
  }

  function UserAndPort(user: Option<string>, port: string): string {
    (if user.Some? then user.value + "@" else "") + (":" + port)
  }

  predicate IsUser(user: Option<string>) {
    user.Some? ==> user.value != "" && '/' !in user.value
  }

  /** The word is `:port`, behind an optional scheme and user and before an optional slash. */
  ghost predicate LacksHost(word: string) {
    exists scheme, user, port, slash ::
      word == WithoutHost(scheme, user, port, slash) && IsUser(user) && ParsePort(port).Ok?
  }

  lemma PortCharacters(port: string)
    requires ParsePort(port).Ok?
    ensures port != "" && forall c :: c in port ==> IsDigit(c) || c == '+'
  {
  }

  lemma EmptyHostAndPort(value: string)
    ensures var parsed := ParseHostAndPort(value);
            parsed.Some? && parsed.value.host == "" <==> value != "" && value[0] == ':' && ParsePort(value[1..]).Ok?
  {
    hide ParsePort, LastIndex, Index;
    if value != "" && value[0] == ':' && ParsePort(value[1..]).Ok? {
      PortCharacters(value[1..]);
      LastIndexIs(value, 0, ':');
      assert value[..0] == "";
    }
  }

  /** The authority of a destination, and what of it names host and port. */
  function AuthorityOf(word: string): string {
    WithoutFinalSlash(WithoutScheme(word))
  }

  function HostPart(authority: string): string {
    var at := LastIndex(authority, '@');
    if at < |authority| then authority[at + 1..] else authority
  }

  lemma EmptyHostOfAuthority(word: string)
    ensures var d := ParseDestination(word);
            var authority := AuthorityOf(word);
            d.Ok? && d.value.host == "" <==>
              && '/' !in authority && LastIndex(authority, '@') != 0
              && HostPart(authority) != "" && HostPart(authority)[0] == ':' && ParsePort(HostPart(authority)[1..]).Ok?
  {
    hide ParsePort, ParseHostAndPort, WithoutFinalSlash, WithoutScheme, LastIndex;
    EmptyHostAndPort(HostPart(AuthorityOf(word)));
  }

  lemma UserAndPortSplits(user: Option<string>, port: string)
    requires IsUser(user) && ParsePort(port).Ok?
    ensures var authority := UserAndPort(user, port);
            && authority != "" && '/' !in authority && LastIndex(authority, '@') != 0
            && HostPart(authority) == ":" + port
  {
    hide ParsePort, LastIndex;
    PortCharacters(port);
    var authority := UserAndPort(user, port);
    assert '@' !in ":" + port && '/' !in ":" + port;
    if user.Some? {
      assert authority[|user.value|] == '@' && authority[|user.value| + 1..] == ":" + port;
      LastIndexIs(authority, |user.value|, '@');
    } else {
      assert authority == ":" + port;
    }
  }

  lemma StripsToAuthority(scheme: bool, authority: string, slash: bool)
    requires authority != "" && '/' !in authority
    ensures AuthorityOf((if scheme then "ssh://" else "") + authority + (if slash then "/" else "")) == authority
  {
    var rest := authority + (if slash then "/" else "");
    var word := (if scheme then "ssh://" else "") + authority + (if slash then "/" else "");
    if scheme {
      assert word[|"ssh://"|..] == rest;
    } else {
      assert word == rest;
      assert "ssh://"[4] == '/' == "ssh://"[5];
      assert |word| > 5 ==> word[4] in authority;
    }
    assert WithoutScheme(word) == rest;
    assert rest[..|authority|] == authority;
    assert authority[|authority| - 1] in authority;
  }

  lemma FormOfWord(word: string)
    requires AuthorityOf(word) != ""
    ensures WithoutScheme(word) != ""
    ensures var scheme := "ssh://" <= word;
            var rest := WithoutScheme(word);
            word == (if scheme then "ssh://" else "") + AuthorityOf(word)
                    + (if rest[|rest| - 1] == '/' then "/" else "")
  {
    var rest := WithoutScheme(word);
    assert word == (if "ssh://" <= word then "ssh://" else "") + rest;
    assert rest == AuthorityOf(word) + (if rest[|rest| - 1] == '/' then "/" else "");
  }

  lemma FormHasNoHost(scheme: bool, user: Option<string>, port: string, slash: bool)
    requires IsUser(user) && ParsePort(port).Ok?
    ensures var d := ParseDestination(WithoutHost(scheme, user, port, slash));
            d.Ok? && d.value.host == ""
  {
    hide ParseDestination, ParsePort, LastIndex, UserAndPort, HostPart, WithoutFinalSlash, WithoutScheme, AuthorityOf;
    var authority := UserAndPort(user, port);
    UserAndPortSplits(user, port);
    StripsToAuthority(scheme, authority, slash);
    EmptyHostOfAuthority(WithoutHost(scheme, user, port, slash));
    assert (":" + port)[1..] == port;
  }

  lemma NoHostIsForm(word: string)
    requires var d := ParseDestination(word); d.Ok? && d.value.host == ""
    ensures LacksHost(word)
  {
    hide ParseDestination, ParsePort, LastIndex, WithoutFinalSlash, WithoutScheme, AuthorityOf;
    EmptyHostOfAuthority(word);
    var authority := AuthorityOf(word);
    var at := LastIndex(authority, '@');
    var user := if at < |authority| then Some(authority[..at]) else None;
    var port := HostPart(authority)[1..];
    var rest := WithoutScheme(word);
    FormOfWord(word);
    assert HostPart(authority) == ":" + port;
    assert authority == UserAndPort(user, port);
    assert word == WithoutHost("ssh://" <= word, user, port, rest[|rest| - 1] == '/');
  }

  /** A destination is accepted without a host exactly when it is one of the forms that give none. */
  lemma EmptyHostExactly(word: string)
    ensures var d := ParseDestination(word);
            d.Ok? && d.value.host == "" <==> LacksHost(word)
  {
    hide ParseDestination, ParsePort, WithoutHost;
    var d := ParseDestination(word);
    if d.Ok? && d.value.host == "" {
      NoHostIsForm(word);
    }
    if LacksHost(word) {
      var scheme, user, port, slash :|
        word == WithoutHost(scheme, user, port, slash) && IsUser(user) && ParsePort(port).Ok?;
      FormHasNoHost(scheme, user, port, slash);
    }
  }

  /** An accepted field takes its host from its last word. */
  lemma {:induction false} ScanResolvesLast(words: seq<string>, index: nat, settings: Settings)
    requires index <= |words|
    ensures var read := Scan(words, index, settings);
            read.Ok? ==> words != [] && ParseDestination(words[|words| - 1]).Ok?
                         && ParseDestination(words[|words| - 1]).value.host == read.value.host
    decreases |words| - index
  {
    hide TakeOption, ParseDestination;
    if index < |words| && words[index] != "--" && !IsDestination(words[index]) {
      var turn := TakeOption(words, index, settings);
      if turn.Ok? { ScanResolvesLast(words, turn.value.next, turn.value.settings); }
    }
  }

  /** An accepted field has no host if and only if its last word is one of the forms that give none. */
  lemma AcceptedWithoutHostExactly(words: seq<string>)
    ensures var read := ParsedWords(words);
            read.Ok? ==> words != [] && (read.value.host == "" <==> LacksHost(words[|words| - 1]))
  {
    hide Scan, ParseDestination, LacksHost, IsSsh;
    var read := ParsedWords(words);
    if read.Ok? {
      ScanResolvesLast(words, 1, DEFAULTS);
      EmptyHostExactly(words[|words| - 1]);
    }
  }

  /** The host itself may be empty: a lone colon and port are accepted. */
  lemma EmptyHostIsAccepted(port: nat)
    requires 0 < port < 65536
    ensures ParsedWords(["ssh", ":" + Decimal(port)]) == Ok(Parsed("", port, None, None))
  {
    hide TakeOption, ParseDestination, ParseHostAndPort, Decimal;
    var word := ":" + Decimal(port);
    assert FileName("ssh") == Some("ssh");
    ColonAndPort(port);
    ScanLast(["ssh", word], DEFAULTS);
  }

  lemma ColonAndPort(port: nat)
    requires 0 < port < 65536
    ensures ParseDestination(":" + Decimal(port)) == Ok(Destination(None, "", Some(port)))
  {
    hide Decimal, LastIndex, WithoutScheme, WithoutFinalSlash;
    var word := ":" + Decimal(port);
    var digits := Decimal(port);
    assert forall c :: c in digits ==> IsDigit(c);
    assert word[1..] == digits && word[..0] == "";
    NothingToStrip(word);
    assert '@' !in word;
    LastIndexIs(word, 0, ':');
    ParseInvertsDecimal(port);
  }

  // ---- Spellings that mean the same ----

  function SettingsAfter(words: seq<string>, settings: Settings): Result<Settings, Error>
    requires words != []
  {
    var turn := TakeOption(words, 0, settings);
    if turn.Err? then Err(turn.error) else Ok(turn.value.settings)
  }

  predicate SpelledAlike(short: string, name: string, value: string, settings: Settings) {
    var expected := SettingsAfter([short, value], settings);
    && SettingsAfter([short + value], settings) == expected
    && SettingsAfter(["-o", name + "=" + value], settings) == expected
    && SettingsAfter(["-o" + name + "=" + value], settings) == expected
  }

  lemma ConfigOptionSplits(name: string, value: string, settings: Settings)
    requires '=' !in name
    ensures var option := name + "=" + value;
            Index(option, '=') == |name| && option[..|name|] == name && option[|name| + 1..] == value
  {
    var option := name + "=" + value;
    assert option[..|name|] == name;
    IndexIs(option, |name|, '=');
  }

  lemma ConfigNames()
    ensures ToAsciiLowercase("Port") == "port" && ToAsciiLowercase("User") == "user"
    ensures ToAsciiLowercase("IdentityFile") == "identityfile"
  {
  }

  /** A configuration option may stand in the word after `-o` or in the same word. */
  lemma ConfigWords(option: string, settings: Settings)
    requires option != ""
    ensures SettingsAfter(["-o", option], settings) == WithConfigOption(settings, option)
    ensures SettingsAfter(["-o" + option], settings) == WithConfigOption(settings, option)
  {
    hide WithConfigOption, ParsePort;
    var word := "-o" + option;
    assert word[0] == '-' && word[1] == 'o' && word[2..] == option;
    assert |word| > 2;
  }

  /** `-p` sets the port, and nothing else; 0 is no port. */
  lemma PortOption(port: nat, settings: Settings)
    requires port < 65536
    ensures SettingsAfter(["-p", Decimal(port)], settings)
         == if port == 0 then Err(InvalidPort("0")) else Ok(Settings(port, settings.user, settings.identity))
  {
    hide Decimal, Value;
    ParseInvertsDecimal(port);
    assert Decimal(0) == "0" by { ZeroIsWritten(); }
  }

  lemma ZeroIsWritten()
    ensures Decimal(0) == "0"
  {
  }

  /** The three spellings of a port agree, on values that are refused as well. */
  lemma PortSpellings(value: string, settings: Settings)
    requires value != ""
    ensures SpelledAlike("-p", "Port", value, settings)
  {
    hide ParsePort, ToAsciiLowercase, Index;
    var option := "Port" + "=" + value;
    assert ("-p" + value)[2..] == value;
    assert "-o" + "Port" + "=" + value == "-o" + option;
    ConfigWords(option, settings);
    ConfigNames();
    ConfigOptionSplits("Port", value, settings);
  }

  /** `-l` sets the user, and nothing else. */
  lemma UserOption(value: string, settings: Settings)
    requires value != ""
    ensures SettingsAfter(["-l", value], settings) == Ok(Settings(settings.port, Some(value), settings.identity))
  {
    hide WithConfigOption;
  }

  /** The spellings of a user agree, and set it. */
  lemma UserSpellings(value: string, settings: Settings)
    requires value != ""
    ensures SpelledAlike("-l", "User", value, settings)
    ensures SettingsAfter(["-l", value], settings) == Ok(Settings(settings.port, Some(value), settings.identity))
  {
    UserOption(value, settings);
    hide ParsePort, ToAsciiLowercase, Index;
    var option := "User" + "=" + value;
    assert ("-l" + value)[2..] == value;
    assert "-o" + "User" + "=" + value == "-o" + option;
    ConfigWords(option, settings);
    ConfigNames();
    ConfigOptionSplits("User", value, settings);
  }

  lemma IdentityInline(value: string, settings: Settings)
    requires value != ""
    ensures SettingsAfter(["-i", value], settings) == Ok(Settings(settings.port, settings.user, Some(value)))
    ensures SettingsAfter(["-i" + value], settings) == Ok(Settings(settings.port, settings.user, Some(value)))
  {
    hide ParsePort, WithConfigOption;
    var word := "-i" + value;
    assert word[0] == '-' && word[1] == 'i' && word[2..] == value;
  }

  /** The spellings of an identity file agree, and set it. */
  lemma IdentitySpellings(value: string, settings: Settings)
    requires value != ""
    ensures SpelledAlike("-i", "IdentityFile", value, settings)
    ensures SettingsAfter(["-i", value], settings) == Ok(Settings(settings.port, settings.user, Some(value)))
  {
    hide ParsePort, ToAsciiLowercase, Index, SettingsAfter;
    var option := "IdentityFile" + "=" + value;
    IdentityInline(value, settings);
    assert "-o" + "IdentityFile" + "=" + value == "-o" + option;
    ConfigWords(option, settings);
    ConfigNames();
    ConfigOptionSplits("IdentityFile", value, settings);
  }

  /** The single letters that are passed over, and no others: the four with a value apart, any other is refused. */
  lemma SingleLetters(c: char, settings: Settings)
    requires c !in "plio"
    ensures SettingsAfter(["-" + [c]], settings)
         == if c in "46AaCKkNnqTtvXxYy" then Ok(settings) else Err(UnsupportedOption("-" + [c]))
  {
    var word := "-" + [c];
    assert word[0] == '-' && word[1] == c;
    assert word in IGNORABLE <==> c in "46AaCKkNnqTtvXxYy" by { LetterIsListed(c); }
  }

  lemma LetterIsListed(c: char)
    ensures "-" + [c] in IGNORABLE <==> c in "46AaCKkNnqTtvXxYy"
  {
    var word, letters := "-" + [c], "46AaCKkNnqTtvXxYy";
    assert |IGNORABLE| == |letters|;
    forall i | 0 <= i < |letters| ensures IGNORABLE[i] == "-" + [letters[i]] {
    }
    if c in letters {
      var i :| 0 <= i < |letters| && letters[i] == c;
      assert IGNORABLE[i] == word;
    }
    if word in IGNORABLE {
      var i :| 0 <= i < |IGNORABLE| && IGNORABLE[i] == word;
      assert IGNORABLE[i] == "-" + [letters[i]] && word[1] == letters[i];
    }
  }

  /** What has no value where one is due is refused, and so is a value that is empty. */
  lemma MissingValues(option: string, settings: Settings)
    requires option in ["-p", "-l", "-i", "-o"]
    ensures SettingsAfter([option], settings) == Err(MissingOptionValue(option))
    ensures SettingsAfter([option, ""], settings) == Err(MissingOptionValue(option))
  {
    hide WithConfigOption, ParsePort;
  }

  /** A configuration option that the field does not know is refused by its name, or whole when it has no value. */
  lemma UnknownConfigOption(name: string, value: string, settings: Settings)
    requires '=' !in name && ToAsciiLowercase(name) !in ["port", "user", "identityfile"]
    ensures SettingsAfter(["-o", name + "=" + value], settings) == Err(UnsupportedOption("-o " + name))
    ensures name != "" ==> SettingsAfter(["-o", name], settings) == Err(UnsupportedOption("-o " + name))
  {
    hide Index, ToAsciiLowercase;
    ConfigOptionSplits(name, value, settings);
    ConfigWords(name + "=" + value, settings);
    if name != "" { ConfigWords(name, settings); }
  }

  /** A lone hyphen and an empty word are no options. */
  lemma DestinationsAndOptions(word: string)
    ensures IsDestination("-") && IsDestination("")
    ensures |word| > 1 ==> (IsDestination(word) <==> word[0] != '-')
  {
  }

  /** What is refused without a destination, and what is refused after one. */
  lemma RefusedFields(word: string, more: string)
    requires IsDestination(word)
    ensures ParsedWords([]) == Err(Empty) && ParsedWords(["ssh"]) == Err(MissingDestination)
    ensures ParsedWords(["ssh", "--"]) == Err(MissingDestination)
    ensures ParsedWords(["ssh", word, more]) == Err(RemoteCommandUnsupported)
    ensures !IsSsh(word) ==> ParsedWords([word, more]) == Err(NotSsh(word))
  {
    hide TakeOption, Resolve;
    assert FileName("ssh") == Some("ssh");
  }

  // ---- Options and destination together ----

  /** A destination with a plain host, and with a user or without. */
  predicate PlainDestination(host: string, user: string) {
    Trim(host) != "" && PlainHost(host) && '/' !in Trim(user) && IsDestination(DestinationWord(host, user))
  }

  lemma PlainDestinationResolves(host: string, user: string, settings: Settings)
    requires PlainDestination(host, user)
    ensures Resolve(DestinationWord(host, user), settings)
         == Ok(Parsed(host, settings.port, if Trim(user) != "" then Some(Trim(user)) else settings.user,
                      settings.identity))
  {
    hide Trim, PlainHost, ParseDestination, DestinationWord;
    DestinationRoundTrip(host, user);
  }

  /** `-l` gives the user of a destination that names none; a user in the destination wins over it. */
  lemma UserOptionIsRead(option: string, host: string, user: string)
    requires option != "" && PlainDestination(host, user)
    ensures ParsedWords(["ssh", "-l", option, DestinationWord(host, user)])
         == Ok(Parsed(host, 22, if Trim(user) != "" then Some(Trim(user)) else Some(option), None))
  {
    hide Trim, PlainHost, DestinationWord, IsDestination, Resolve, ParsePort;
    var words := ["ssh", "-l", option, DestinationWord(host, user)];
    assert FileName("ssh") == Some("ssh");
    assert !IsDestination("-l") by { NoDestination("-l"); }
    PlainDestinationResolves(host, user, Settings(22, Some(option), None));
    assert TakeOption(words, 1, DEFAULTS) == Ok(Turn(Settings(22, Some(option), None), 3));
    hide TakeOption;
    ScanLast(words, Settings(22, Some(option), None));
  }

  lemma NoDestination(word: string)
    requires |word| > 1 && word[0] == '-'
    ensures !IsDestination(word)
  {
  }

  // ---- The URI form ----

  /** `ssh://user@[host]:port/`: the form that every host but an empty or bracketed one can be written in. */
  function Uri(user: string, host: string, port: nat): string {
    "ssh://" + (user + "@" + ("[" + host + "]:" + Decimal(port))) + "/"
  }

  lemma BracketedHostParses(host: string, port: nat)
    requires host != "" && ']' !in host && 0 < port < 65536
    ensures ParseHostAndPort("[" + host + "]:" + Decimal(port)) == Some(HostAndPort(host, Some(port)))
  {
    hide Decimal, Index;
    var value := "[" + host + "]:" + Decimal(port);
    var rest := host + "]:" + Decimal(port);
    assert value[1..] == rest;
    assert rest[..|host|] == host && rest[|host|] == ']' && rest[|host| + 1] == ':';
    assert rest[|host| + 2..] == Decimal(port);
    IndexIs(rest, |host|, ']');
    PortParses(port);
    hide ParsePort, ParseU16;
    assert value[0] == '[' && |rest| > |host| + 1;
    assert ParseHostAndPort(value) == WithParsedPort(rest[..|host|], rest[|host| + 2..]);
  }

  lemma PortParses(port: nat)
    requires 0 < port < 65536
    ensures ParsePort(Decimal(port)) == Ok(port)
  {
    ParseInvertsDecimal(port);
  }

  lemma BareAuthority(user: string, value: string)
    requires user != "" && '/' !in user && '/' !in value && '@' !in value && value != ""
    ensures var word := "ssh://" + (user + "@" + value) + "/";
            var authority := user + "@" + value;
            && WithoutFinalSlash(WithoutScheme(word)) == authority
            && LastIndex(authority, '@') == |user|
            && authority[..|user|] == user && authority[|user| + 1..] == value
  {
    hide LastIndex;
    var authority := user + "@" + value;
    var word := "ssh://" + authority + "/";
    assert word[|"ssh://"|..] == authority + "/";
    assert (authority + "/")[..|authority|] == authority;
    assert authority[|user| + 1..] == value;
    LastIndexIs(authority, |user|, '@');
  }

  lemma DigitsHaveNo(port: nat, c: char)
    requires !IsDigit(c)
    ensures c !in Decimal(port)
  {
    hide Decimal;
  }

  /** A destination in URI form says user, host and port by itself, whatever the options said. */
  lemma UriWinsOverOptions(user: string, host: string, port: nat, settings: Settings)
    requires user != "" && '/' !in user
    requires host != "" && ']' !in host && '/' !in host && '@' !in host
    requires 0 < port < 65536
    ensures Resolve(Uri(user, host, port), settings) == Ok(Parsed(host, port, Some(user), settings.identity))
  {
    hide Decimal, ParseHostAndPort, LastIndex, WithoutScheme, WithoutFinalSlash;
    var value := "[" + host + "]:" + Decimal(port);
    DigitsHaveNo(port, '/');
    DigitsHaveNo(port, '@');
    BracketedHostParses(host, port);
    BareAuthority(user, value);
  }
}
