/**
  The changelog (scripts/prepare_release.py and scripts/release_metadata.py): turning the Unreleased section
  into a release, and the check that a release's changelog must pass. A text is the list of its lines.
 */
module Changelog {
  import opened Wrappers
  import Text

  type Lines = seq<string>

  // ---- Stripping ----

  /** What `str.isspace` calls white space. */
  predicate IsSpace(c: char) {
    Text.IsWhitespace(c) || '\U{1C}' <= c <= '\U{1F}'
  }

  function StripLeft(s: string): (t: string)
    ensures t == "" || !IsSpace(t[0])
    ensures |t| <= |s| && t == s[|s| - |t|..]
  {
    if s != "" && IsSpace(s[0]) then StripLeft(s[1..]) else s
  }

  function StripRight(s: string): (t: string)
    ensures t == "" || !IsSpace(t[|t| - 1])
    ensures |t| <= |s| && t == s[..|t|]
  {
    if s != "" && IsSpace(s[|s| - 1]) then StripRight(s[..|s| - 1]) else s
  }

  predicate Blank(line: string) {
    StripRight(line) == ""
  }

  /** The text without leading white space. */
  function Begun(lines: Lines): Lines {
    if lines == [] then [] else if Blank(lines[0]) then Begun(lines[1..]) else [StripLeft(lines[0])] + lines[1..]
  }

  /** The text without trailing white space. */
  function Ended(lines: Lines): Lines {
    if lines == [] then []
    else
      var front, last := lines[..|lines| - 1], lines[|lines| - 1];
      if Blank(last) then Ended(front) else front + [StripRight(last)]
  }

  function Strip(lines: Lines): Lines {
    Ended(Begun(lines))
  }

  // ---- Headings ----

  const UNRELEASED := "## Unreleased"

  predicate IsHeading(line: string) {
    "## " <= line
  }

  predicate IsDate(s: string) {
    && |s| == 10 && s[4] == '-' && s[7] == '-'
    && Text.AllDigits(s[..4]) && Text.AllDigits(s[5..7]) && Text.AllDigits(s[8..])
  }

  predicate Numeral(s: string) {
    s != "" && Text.AllDigits(s) && (s[0] == '0' ==> |s| == 1)
  }

  /** Three numerals between dots. */
  predicate ValidVersion(s: string) {
    var first := Text.Index(s, '.');
    && first < |s|
    && var rest := s[first + 1..];
    var second := Text.Index(rest, '.');
    && second < |rest|
    && Numeral(s[..first]) && Numeral(rest[..second]) && Numeral(rest[second + 1..])
  }

  function ReleasePrefix(version: string): string {
    "## " + version + " - "
  }

  predicate IsRelease(line: string, version: string) {
    var prefix := ReleasePrefix(version);
    prefix <= line && IsDate(line[|prefix|..])
  }

  /** The first heading, or the length. */
  function NextHeading(lines: Lines): (i: nat)
    ensures i <= |lines|
    ensures forall j :: 0 <= j < i ==> !IsHeading(lines[j])
    ensures i < |lines| ==> IsHeading(lines[i])
  {
    if lines == [] || IsHeading(lines[0]) then 0 else 1 + NextHeading(lines[1..])
  }

  function Releases(lines: Lines, version: string): nat {
    if lines == [] then 0 else (if IsRelease(lines[0], version) then 1 else 0) + Releases(lines[1..], version)
  }

  function FirstRelease(lines: Lines, version: string): (i: nat)
    ensures i <= |lines|
    ensures i < |lines| <==> Releases(lines, version) > 0
    ensures i < |lines| ==> IsRelease(lines[i], version)
  {
    if lines == [] || IsRelease(lines[0], version) then 0 else 1 + FirstRelease(lines[1..], version)
  }

  function Unreleaseds(lines: Lines): nat {
    if lines == [] then 0 else (if lines[0] == UNRELEASED then 1 else 0) + Unreleaseds(lines[1..])
  }

  function FirstUnreleased(lines: Lines): (i: nat)
    ensures i <= |lines|
    ensures i < |lines| <==> Unreleaseds(lines) > 0
    ensures i < |lines| ==> lines[i] == UNRELEASED
  {
    if lines == [] || lines[0] == UNRELEASED then 0 else 1 + FirstUnreleased(lines[1..])
  }

  // ---- The check ----

  datatype Error =
    | InvalidVersion
    | InvalidDate
    | NoRelease
    | DuplicateRelease
    | EmptyRelease
    | AlreadyReleased
    | NoUnreleased
    | NotOneUnreleased
    | EmptyUnreleased
    | NothingAfterUnreleased
    | UnreleasedNotEmpty
    | NotFirstRelease

  /** The lines from `start` to the next heading. */
  function BodyAt(lines: Lines, start: nat): Lines
    requires start <= |lines|
  {
    lines[start..][..NextHeading(lines[start..])]
  }

  /** The notes of a release. */
  function Section(lines: Lines, version: string): Result<Lines, Error> {
    if !ValidVersion(version) then Err(InvalidVersion) else Notes(lines, version)
  }

  function Notes(lines: Lines, version: string): Result<Lines, Error> {
    if Releases(lines, version) == 0 then Err(NoRelease)
    else if Releases(lines, version) > 1 then Err(DuplicateRelease)
    else
      var notes := Strip(BodyAt(lines, FirstRelease(lines, version) + 1));
      if notes == [] then Err(EmptyRelease) else Ok(notes)
  }

  method ChangelogSection(lines: Lines, version: string) returns (notes: Result<Lines, Error>)
    ensures notes == Section(lines, version)
  {
    if !ValidVersion(version) {
      return Err(InvalidVersion);
    }
    if Releases(lines, version) == 0 {
      return Err(NoRelease);
    }
    if Releases(lines, version) > 1 {
      return Err(DuplicateRelease);
    }
    var start := FirstRelease(lines, version) + 1;
    var end := ScanToHeading(lines, start);
    var stripped := Strip(lines[start..end]);
    assert lines[start..end] == BodyAt(lines, start);
    if stripped == [] {
      return Err(EmptyRelease);
    }
    notes := Ok(stripped);
  }

  method ScanToHeading(lines: Lines, start: nat) returns (end: nat)
    requires start <= |lines|
    ensures end == start + NextHeading(lines[start..])
  {
    end := |lines|;
    var index := start;
    while index < |lines|
      invariant start <= index <= |lines|
      invariant index + NextHeading(lines[index..]) == start + NextHeading(lines[start..])
      invariant end == |lines|
    {
      assert lines[index..][0] == lines[index] && lines[index..][1..] == lines[index + 1..];
      if IsHeading(lines[index]) {
        end := index;
        break;
      }
      index := index + 1;
    }
  }

  /**
    What a release's changelog must be: one empty Unreleased section, and right after it the release with its
    notes.
   */
  function Validated(lines: Lines, version: string): Result<Lines, Error> {
    var notes := Section(lines, version);
    if notes.Err? then notes
    else if Unreleaseds(lines) != 1 then Err(NotOneUnreleased)
    else
      var start := FirstUnreleased(lines) + 1;
      var next := start + NextHeading(lines[start..]);
      if next == |lines| then Err(NothingAfterUnreleased)
      else if Strip(lines[start..next]) != [] then Err(UnreleasedNotEmpty)
      else if !IsRelease(lines[next], version) then Err(NotFirstRelease)
      else notes
  }

  // ---- Making a release ----

  function UnreleasedBody(lines: Lines): Lines
    requires Unreleaseds(lines) > 0
  {
    BodyAt(lines, FirstUnreleased(lines) + 1)
  }

  predicate Mentions(lines: Lines, version: string) {
    exists i :: 0 <= i < |lines| && ReleasePrefix(version) <= lines[i]
  }

  /** Why the Unreleased section cannot become a release, if it cannot. */
  function ArchiveRefusal(lines: Lines, version: string, date: string): Option<Error> {
    if !ValidVersion(version) then Some(InvalidVersion)
    else if !IsDate(date) then Some(InvalidDate)
    else if Mentions(lines, version) then Some(AlreadyReleased)
    else if Unreleaseds(lines) == 0 then Some(NoUnreleased)
    else if Strip(UnreleasedBody(lines)) == [] then Some(EmptyUnreleased)
    else None
  }

  function ReleaseHeading(version: string, date: string): string {
    ReleasePrefix(version) + date
  }

  /** A release heading put between the Unreleased heading and its body. */
  function Archived(lines: Lines, version: string, date: string): Lines
    requires Unreleaseds(lines) > 0
  {
    var heading := FirstUnreleased(lines);
    Ended(lines[..heading] + [UNRELEASED, "", ReleaseHeading(version, date)] + lines[heading + 1..])
  }

  method ArchiveUnreleased(lines: Lines, version: string, date: string) returns (updated: Result<Lines, Error>)
    ensures var refusal := ArchiveRefusal(lines, version, date);
            updated == if refusal.Some? then Err(refusal.value) else Ok(Archived(lines, version, date))
  {
    hide Strip, Ended, NextHeading, IsDate, ValidVersion;
    if !ValidVersion(version) {
      return Err(InvalidVersion);
    }
    if !IsDate(date) {
      return Err(InvalidDate);
    }
    if Mentions(lines, version) {
      return Err(AlreadyReleased);
    }
    if Unreleaseds(lines) == 0 {
      return Err(NoUnreleased);
    }
    var heading := FirstUnreleased(lines);
    var end := ScanToHeading(lines, heading + 1);
    assert lines[heading + 1..end] == UnreleasedBody(lines);
    if Strip(lines[heading + 1..end]) == [] {
      return Err(EmptyUnreleased);
    }
    var replacement := [UNRELEASED, "", ReleaseHeading(version, date)];
    updated := Ok(Ended(lines[..heading] + replacement + lines[heading + 1..]));
  }

  /** Why a release cannot take up a later Unreleased section, if it cannot. */
  function RepairRefusal(lines: Lines, version: string, date: string): Option<Error> {
    if !ValidVersion(version) then Some(InvalidVersion)
    else if !IsDate(date) then Some(InvalidDate)
    else if Unreleaseds(lines) != 1 then Some(NotOneUnreleased)
    else if Releases(lines, version) == 0 then Some(NoRelease)
    else if Releases(lines, version) > 1 then Some(DuplicateRelease)
    else
      var start := FirstUnreleased(lines) + 1;
      if start + NextHeading(lines[start..]) != FirstRelease(lines, version) then Some(NotFirstRelease)
      else if Strip(UnreleasedBody(lines)) == [] then Some(EmptyUnreleased)
      else None
  }

  /** Two stripped bodies with a blank line between, when there are two. */
  function Merged(unreleased: Lines, existing: Lines): Lines {
    if existing == [] then unreleased else if unreleased == [] then existing else unreleased + [""] + existing
  }

  function Repaired(lines: Lines, version: string, date: string): Lines
    requires Unreleaseds(lines) > 0 && Releases(lines, version) > 0
  {
    var heading, release := FirstUnreleased(lines), FirstRelease(lines, version);
    var existing := BodyAt(lines, release + 1);
    var tail := lines[release + 1..][|existing|..];
    Ended(lines[..heading] + [UNRELEASED, "", ReleaseHeading(version, date), ""]
          + Merged(Strip(UnreleasedBody(lines)), Strip(existing)) + tail)
  }
}
