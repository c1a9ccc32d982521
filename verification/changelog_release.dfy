/** Making a release meets the check that releases must pass, and leaves every other release alone. */
module ChangelogRelease {
  import opened Wrappers
  import opened Changelog

  // ---- Texts in parts ----

  lemma {:induction false} ReleasesConcat(a: Lines, b: Lines, version: string)
    ensures Releases(a + b, version) == Releases(a, version) + Releases(b, version)
  {
    hide IsRelease;
    if a == [] {
      assert a + b == b;
    } else {
      assert (a + b)[1..] == a[1..] + b;
      ReleasesConcat(a[1..], b, version);
    }
  }

  lemma {:induction false} UnreleasedsConcat(a: Lines, b: Lines)
    ensures Unreleaseds(a + b) == Unreleaseds(a) + Unreleaseds(b)
  {
    if a == [] {
      assert a + b == b;
    } else {
      assert (a + b)[1..] == a[1..] + b;
      UnreleasedsConcat(a[1..], b);
    }
  }

  lemma {:induction false} FirstReleaseConcat(a: Lines, b: Lines, version: string)
    ensures FirstRelease(a + b, version)
            == if Releases(a, version) > 0 then FirstRelease(a, version) else |a| + FirstRelease(b, version)
  {
    hide IsRelease;
    if a == [] {
      assert a + b == b;
    } else {
      assert (a + b)[1..] == a[1..] + b;
      FirstReleaseConcat(a[1..], b, version);
    }
  }

  lemma {:induction false} FirstUnreleasedConcat(a: Lines, b: Lines)
    ensures FirstUnreleased(a + b) == if Unreleaseds(a) > 0 then FirstUnreleased(a) else |a| + FirstUnreleased(b)
  {
    if a == [] {
      assert a + b == b;
    } else {
      assert (a + b)[1..] == a[1..] + b;
      FirstUnreleasedConcat(a[1..], b);
    }
  }

  /** A text that goes on with a heading, or not at all. */
  predicate OpensSection(lines: Lines) {
    lines == [] || IsHeading(lines[0])
  }

  predicate NoHeading(lines: Lines) {
    forall i :: 0 <= i < |lines| ==> !IsHeading(lines[i])
  }

  lemma {:induction false} NextHeadingConcat(a: Lines, b: Lines)
    ensures NextHeading(a + b) == if NextHeading(a) < |a| then NextHeading(a) else |a| + NextHeading(b)
  {
    hide IsHeading;
    if a == [] {
      assert a + b == b;
    } else {
      assert (a + b)[1..] == a[1..] + b;
      NextHeadingConcat(a[1..], b);
    }
  }

  lemma NoHeadingMeans(lines: Lines)
    ensures NoHeading(lines) <==> NextHeading(lines) == |lines|
  {
    hide IsHeading;
  }

  lemma OpeningHeading(lines: Lines)
    requires OpensSection(lines)
    ensures NextHeading(lines) == 0
  {
  }

  lemma BodyBeforeSection(a: Lines, b: Lines, start: nat)
    requires start <= |a| && OpensSection(b)
    ensures BodyAt(a + b, start) == BodyAt(a, start)
  {
    hide NextHeading, IsHeading;
    assert (a + b)[start..] == a[start..] + b;
    NextHeadingConcat(a[start..], b);
    OpeningHeading(b);
  }

  lemma BodyAfter(a: Lines, b: Lines, start: nat)
    requires start <= |b|
    ensures BodyAt(a + b, |a| + start) == BodyAt(b, start)
  {
    assert (a + b)[|a| + start..] == b[start..];
  }

  /** The notes of a release depend only on the part of the text that holds it. */
  lemma NotesConcat(a: Lines, b: Lines, version: string)
    requires OpensSection(b)
    ensures Notes(a + b, version)
            == if Releases(b, version) == 0 then Notes(a, version)
               else if Releases(a, version) == 0 then Notes(b, version)
               else Err(DuplicateRelease)
  {
    hide Releases, FirstRelease, Strip, BodyAt, IsHeading;
    ReleasesConcat(a, b, version);
    FirstReleaseConcat(a, b, version);
    if Releases(b, version) == 0 && Releases(a, version) == 1 {
      BodyBeforeSection(a, b, FirstRelease(a, version) + 1);
    }
    if Releases(a, version) == 0 && Releases(b, version) == 1 {
      BodyAfter(a, b, FirstRelease(b, version) + 1);
    }
  }

  /** One section: a heading and its body. */
  lemma NotesOfSection(heading: string, body: Lines, version: string)
    requires NoHeading(body) && IsHeading(heading)
    ensures Releases([heading] + body, version) == if IsRelease(heading, version) then 1 else 0
    ensures IsRelease(heading, version) ==>
      Notes([heading] + body, version) == if Strip(body) == [] then Err(EmptyRelease) else Ok(Strip(body))
  {
    hide Strip, IsRelease;
    var lines := [heading] + body;
    NoReleaseWithoutHeading(body, version);
    assert lines[1..] == body;
    NoHeadingMeans(body);
    assert BodyAt(lines, 1) == body;
  }

  lemma {:induction false} NoReleaseWithoutHeading(lines: Lines, version: string)
    requires NoHeading(lines)
    ensures Releases(lines, version) == 0
  {
    if lines != [] {
      ReleaseIsHeading(lines[0], version);
      NoReleaseWithoutHeading(lines[1..], version);
    }
  }

  lemma ReleaseIsHeading(line: string, version: string)
    ensures IsRelease(line, version) ==> IsHeading(line)
  {
    if IsRelease(line, version) {
      assert "## " <= ReleasePrefix(version);
    }
  }

  /** No line is the heading of two releases. */
  lemma OneVersionPerHeading(line: string, v: string, w: string)
    requires IsRelease(line, v) && IsRelease(line, w)
    ensures v == w
  {
    assert |v| == |w|;
    assert v == line[3..3 + |v|];
    assert w == line[3..3 + |w|];
  }

  lemma UnreleasedIsNoRelease(version: string)
    ensures IsHeading(UNRELEASED) && !IsRelease(UNRELEASED, version)
  {
    assert |ReleasePrefix(version)| >= 6;
  }

  lemma MadeHeadingIsRelease(version: string, date: string)
    requires IsDate(date)
    ensures IsRelease(ReleaseHeading(version, date), version) && IsHeading(ReleaseHeading(version, date))
    ensures ReleaseHeading(version, date) != UNRELEASED
  {
    var prefix := ReleasePrefix(version);
    assert ReleaseHeading(version, date)[|prefix|..] == date;
    ReleaseIsHeading(ReleaseHeading(version, date), version);
    UnreleasedIsNoRelease(version);
  }

  // ---- Stripping ----

  lemma {:induction false} BegunOfBlank(a: Lines, b: Lines)
    requires forall i :: 0 <= i < |a| ==> Blank(a[i])
    ensures Begun(a + b) == Begun(b)
  {
    if a == [] {
      assert a + b == b;
    } else {
      assert (a + b)[1..] == a[1..] + b;
      BegunOfBlank(a[1..], b);
    }
  }

  lemma EmptyIsBlank()
    ensures Blank("")
  {
  }

  ghost predicate AllBlank(lines: Lines) {
    forall i :: 0 <= i < |lines| ==> Blank(lines[i])
  }

  lemma {:induction false} EndedConcat(a: Lines, b: Lines)
    ensures Ended(a + b) == if Ended(b) == [] then Ended(a) else a + Ended(b)
    decreases |b|
  {
    hide Blank;
    if b == [] {
      assert a + b == a;
    } else {
      var last := b[|b| - 1];
      assert (a + b)[..|a + b| - 1] == a + b[..|b| - 1];
      if Blank(last) {
        EndedConcat(a, b[..|b| - 1]);
      } else {
        assert a + (b[..|b| - 1] + [StripRight(last)]) == (a + b[..|b| - 1]) + [StripRight(last)];
      }
    }
  }

  lemma {:induction false} EndedIsEmpty(lines: Lines)
    ensures Ended(lines) == [] <==> AllBlank(lines)
  {
    if lines != [] { EndedIsEmpty(lines[..|lines| - 1]); }
  }

  lemma StripLeftOfBlank(line: string)
    ensures StripLeft(line) == "" <==> Blank(line)
    ensures Blank(StripLeft(line)) <==> Blank(line)
  {
    if StripLeft(line) != "" {
      assert exists i :: 0 <= i < |line| && !IsSpace(line[i]) by {
        assert !IsSpace(line[|line| - |StripLeft(line)|]);
      }
      NonSpaceSurvives(line);
      NonSpaceSurvives(StripLeft(line));
    } else {
      AllSpaceIsBlank(line);
    }
  }

  lemma {:induction false} NonSpaceSurvives(s: string)
    requires exists i :: 0 <= i < |s| && !IsSpace(s[i])
    ensures StripRight(s) != ""
  {
    hide IsSpace;
    var i :| 0 <= i < |s| && !IsSpace(s[i]);
    if IsSpace(s[|s| - 1]) {
      assert s[..|s| - 1][i] == s[i];
      NonSpaceSurvives(s[..|s| - 1]);
    }
  }

  lemma {:induction false} AllSpaceIsBlank(s: string)
    requires StripLeft(s) == ""
    ensures Blank(s)
  {
    AllSpace(s);
  }

  lemma {:induction false} AllSpace(s: string)
    requires StripLeft(s) == ""
    ensures forall i :: 0 <= i < |s| ==> IsSpace(s[i])
  {
    hide IsSpace;
    if s != "" && IsSpace(s[0]) {
      AllSpace(s[1..]);
      assert forall i :: 0 < i < |s| ==> s[i] == s[1..][i - 1];
    }
  }

  /** A text that stripping does not change. */
  ghost predicate Stripped(lines: Lines) {
    lines == [] || (!Blank(lines[0]) && !IsSpace(lines[0][0]) && Ended(lines) == lines)
  }

  lemma StrippedIsKept(lines: Lines)
    requires Stripped(lines)
    ensures Strip(lines) == lines && Strip([""] + lines) == lines
  {
    EmptyIsBlank();
    BegunOfBlank([""], lines);
    assert lines != [] ==> Begun(lines) == lines;
  }

  lemma {:induction false} EndedTwice(lines: Lines)
    ensures Ended(Ended(lines)) == Ended(lines)
  {
    if lines != [] {
      var front, last := lines[..|lines| - 1], lines[|lines| - 1];
      if Blank(last) {
        EndedTwice(front);
      } else {
        assert (front + [StripRight(last)])[..|front|] == front;
      }
    }
  }

  /** Ending a text keeps its lines, but for the blanks after the last one and the white space at its end. */
  lemma {:induction false} EndedLines(lines: Lines)
    ensures var end := Ended(lines);
            && |end| <= |lines|
            && (forall i :: 0 <= i < |end| ==> end[i] == lines[i] || end[i] == StripRight(lines[i]))
            && (forall i :: |end| <= i < |lines| ==> Blank(lines[i]))
  {
    if lines != [] { EndedLines(lines[..|lines| - 1]); }
  }

  /** Where the text begins: the first line that is not blank. */
  lemma {:induction false} BegunAt(lines: Lines) returns (k: nat)
    ensures k <= |lines| && AllBlank(lines[..k])
    ensures k < |lines| ==> !Blank(lines[k])
    ensures Begun(lines) == if k == |lines| then [] else [StripLeft(lines[k])] + lines[k + 1..]
  {
    hide Blank, StripLeft;
    if lines != [] && Blank(lines[0]) {
      var rest := BegunAt(lines[1..]);
      k := rest + 1;
      assert lines[..k] == [lines[0]] + lines[1..][..rest];
      assert lines[1..][rest..] == lines[k..];
    } else {
      k := 0;
    }
  }

  lemma StripIsStripped(lines: Lines)
    ensures Stripped(Strip(lines))
  {
    var begun := Begun(lines);
    var end := Ended(begun);
    var k := BegunAt(lines);
    EndedLines(begun);
    EndedTwice(begun);
    if begun != [] {
      StripLeftOfBlank(lines[k]);
      RightTrimmedKeepsStart(begun[0]);
    }
    hide Begun, Ended, Blank, StripLeft, StripRight;
  }

  lemma RightTrimmedKeepsStart(line: string)
    requires !Blank(line) && !IsSpace(line[0])
    ensures !Blank(StripRight(line)) && StripRight(line)[0] == line[0]
  {
  }

  lemma StripIsEmpty(lines: Lines)
    ensures Strip(lines) == [] <==> AllBlank(lines)
  {
    var begun := Begun(lines);
    var k := BegunAt(lines);
    EndedIsEmpty(begun);
    if begun != [] {
      StripLeftOfBlank(lines[k]);
      assert !Blank(begun[0]);
    } else {
      assert Ended(begun) == [] && lines[..k] == lines;
    }
  }

  lemma TrimmedIsNoHeading(line: string)
    requires !IsHeading(line)
    ensures !IsHeading(StripRight(line))
  {
  }

  lemma EndedKeepsNoHeading(lines: Lines)
    requires NoHeading(lines)
    ensures NoHeading(Ended(lines))
  {
    hide IsHeading;
    EndedLines(lines);
    forall i | 0 <= i < |Ended(lines)| ensures !IsHeading(Ended(lines)[i]) { TrimmedIsNoHeading(lines[i]); }
  }

  /** Stripping a body can make a heading of its first line only, by taking away its indentation. */
  lemma StripMayOpenWithHeading(lines: Lines)
    requires NoHeading(lines)
    ensures Strip(lines) != [] ==> NoHeading(Strip(lines)[1..])
  {
    hide IsHeading, Blank, Begun, Ended, StripLeft, StripRight;
    var begun := Begun(lines);
    var k := BegunAt(lines);
    EndedLines(begun);
    var stripped := Strip(lines);
    assert stripped == Ended(begun);
    forall i | 1 <= i < |stripped| ensures !IsHeading(stripped[i]) {
      assert begun[i] == lines[k + i];
      TrimmedIsNoHeading(begun[i]);
    }
  }

  // ---- The check, on a text in parts ----

  lemma NoneBeforeFirst(lines: Lines)
    requires Unreleaseds(lines) > 0
    ensures Unreleaseds(lines[..FirstUnreleased(lines)]) == 0
    decreases |lines|
  {
    if lines[0] != UNRELEASED {
      NoneBeforeFirst(lines[1..]);
      assert lines[..FirstUnreleased(lines)][1..] == lines[1..][..FirstUnreleased(lines[1..])];
    }
  }

  lemma {:induction false} PartsOfUnreleaseds(lines: Lines)
    requires forall i :: 0 <= i < |lines| ==> lines[i] != UNRELEASED
    ensures Unreleaseds(lines) == 0
  {
    if lines != [] { PartsOfUnreleaseds(lines[1..]); }
  }

  /** The check on a text whose first Unreleased section is empty and goes right over into the release. */
  lemma ValidatedInParts(before: Lines, rest: Lines, version: string)
    requires Unreleaseds(before) == 0 && rest != [] && IsRelease(rest[0], version)
    ensures var lines := before + [UNRELEASED, ""] + rest;
            Validated(lines, version)
            == if Section(lines, version).Err? then Section(lines, version)
               else if Unreleaseds(rest) > 0 then Err(NotOneUnreleased)
               else Section(lines, version)
  {
    hide Section, IsRelease, ReleasePrefix, Strip, Unreleaseds, FirstUnreleased, NextHeading, IsHeading;
    var lines := before + [UNRELEASED, ""] + rest;
    UnreleasedsInParts(before, rest);
    var start := |before| + 1;
    assert lines[start..] == [""] + rest;
    ReleaseIsHeading(rest[0], version);
    HeadingAfterBlank(rest);
    assert lines[start..start + 1] == [""];
    EmptyIsBlank();
    StripIsEmpty([""]);
    assert lines[start + 1] == rest[0];
  }

  lemma HeadingAfterBlank(rest: Lines)
    requires rest != [] && IsHeading(rest[0])
    ensures NextHeading([""] + rest) == 1
  {
    assert ([""] + rest)[1..] == rest;
  }

  lemma UnreleasedsInParts(before: Lines, rest: Lines)
    requires Unreleaseds(before) == 0
    ensures Unreleaseds(before + [UNRELEASED, ""] + rest) == 1 + Unreleaseds(rest)
    ensures FirstUnreleased(before + [UNRELEASED, ""] + rest) == |before|
  {
    hide Unreleaseds, FirstUnreleased;
    Regroup(before, [UNRELEASED, ""], rest);
    Regroup([UNRELEASED], [""], rest);
    assert [UNRELEASED] + [""] == [UNRELEASED, ""];
    UnreleasedsConcat(before, [UNRELEASED, ""] + rest);
    FirstUnreleasedConcat(before, [UNRELEASED, ""] + rest);
    OpenedByUnreleased([""] + rest);
    UnreleasedsConcat([""], rest);
    SingleUnreleased("");
  }

  /** A part without headings of the release does not matter to its notes. */
  lemma OtherSectionsDoNotMatter(a: Lines, middle: Lines, b: Lines, version: string)
    requires OpensSection(middle) && OpensSection(b) && Releases(middle, version) == 0
    ensures Notes(a + middle + b, version) == Notes(a + b, version)
  {
    hide Notes, Releases, IsHeading;
    NotesConcat(a + middle, b, version);
    NotesConcat(a, middle, version);
    ReleasesConcat(a, middle, version);
    NotesConcat(a, b, version);
  }

  // ---- Archiving ----

  /** The parts of a text around its first Unreleased heading, once its end is stripped. */
  datatype Parts = Parts(before: Lines, body: Lines, after: Lines)

  ghost predicate Divides(parts: Parts, lines: Lines) {
    && lines == parts.before + [UNRELEASED] + parts.body + parts.after
    && Unreleaseds(parts.before) == 0 && NoHeading(parts.body) && OpensSection(parts.after)
  }

  lemma Regroup(a: Lines, b: Lines, c: Lines)
    ensures a + (b + c) == a + b + c
  {
  }

  lemma UnreleasedIsHeading()
    ensures IsHeading(UNRELEASED)
  {
  }

  lemma DivideAt(before: Lines, rest: Lines) returns (parts: Parts)
    requires Unreleaseds(before) == 0
    ensures Divides(parts, before + [UNRELEASED] + rest)
    ensures parts.before == before && parts.body + parts.after == rest
    ensures Unreleaseds(before + [UNRELEASED] + rest) == 1 + Unreleaseds(rest)
    ensures FirstUnreleased(before + [UNRELEASED] + rest) == |before|
    ensures parts.body == UnreleasedBody(before + [UNRELEASED] + rest)
  {
    hide IsHeading, NextHeading, Unreleaseds, FirstUnreleased;
    var n := NextHeading(rest);
    parts := Parts(before, rest[..n], rest[n..]);
    var lines := before + [UNRELEASED] + rest;
    var section := [UNRELEASED] + rest;
    Regroup(before, [UNRELEASED], rest);
    UnreleasedsConcat(before, section);
    FirstUnreleasedConcat(before, section);
    OpenedByUnreleased(rest);
    assert lines[|before| + 1..] == rest;
    assert rest == parts.body + parts.after;
    Regroup(before + [UNRELEASED], parts.body, parts.after);
  }

  lemma OpenedByUnreleased(rest: Lines)
    ensures Unreleaseds([UNRELEASED] + rest) == 1 + Unreleaseds(rest) && FirstUnreleased([UNRELEASED] + rest) == 0
  {
    assert ([UNRELEASED] + rest)[1..] == rest;
  }

  lemma {:induction false} NotMentionedMeansNoRelease(lines: Lines, version: string)
    requires !Mentions(lines, version)
    ensures Releases(lines, version) == 0
  {
    hide ReleasePrefix, IsDate;
    if lines != [] {
      assert ReleasePrefix(version) <= lines[0] ==> Mentions(lines, version);
      forall i | 0 <= i < |lines[1..]| ensures !(ReleasePrefix(version) <= lines[1..][i]) {
        assert lines[1..][i] == lines[i + 1];
      }
      NotMentionedMeansNoRelease(lines[1..], version);
    }
  }

  lemma EndedMentionsNoMore(lines: Lines, version: string)
    requires !Mentions(lines, version)
    ensures !Mentions(Ended(lines), version)
  {
    hide ReleasePrefix;
    EndedLines(lines);
    forall i | 0 <= i < |Ended(lines)| ensures !(ReleasePrefix(version) <= Ended(lines)[i]) {
      assert !(ReleasePrefix(version) <= lines[i]);
    }
  }

  lemma TrimmedIsNotBlank(line: string)
    requires !Blank(line)
    ensures !Blank(StripRight(line))
  {
  }

  /** A body that is not blank stays so when the text's end is stripped. */
  lemma BodyStaysNonBlank(rest: Lines)
    requires !AllBlank(rest[..NextHeading(rest)])
    ensures !AllBlank(Ended(rest)[..NextHeading(Ended(rest))]) && Ended(rest) != []
  {
    hide IsHeading, Ended, NextHeading, Blank, StripRight;
    var n := NextHeading(rest);
    var i :| 0 <= i < n && !Blank(rest[..n][i]);
    EndedLines(rest);
    var end := Ended(rest);
    assert i < |end|;
    forall k | 0 <= k <= i ensures !IsHeading(end[k]) { TrimmedIsNoHeading(rest[k]); }
    TrimmedIsNotBlank(rest[i]);
    assert i < NextHeading(end);
    assert end[..NextHeading(end)][i] == end[i];
  }

  lemma ReplacedInParts(before: Lines, r: string, rest: Lines)
    requires Ended(rest) != []
    ensures Ended(before + [UNRELEASED] + rest) == before + [UNRELEASED] + Ended(rest)
    ensures Ended(before + [UNRELEASED, "", r] + rest) == before + [UNRELEASED, "", r] + Ended(rest)
  {
    hide Ended;
    EndedConcat(before + [UNRELEASED], rest);
    EndedConcat(before + [UNRELEASED, "", r], rest);
  }

  lemma MadeFrom(before: Lines, r: string, body: Lines, after: Lines)
    ensures before + [UNRELEASED, "", r] + (body + after) == before + [UNRELEASED, ""] + ([r] + body + after)
  {
    Regroup([r], body, after);
    Regroup(before + [UNRELEASED, ""], [r], body + after);
    Regroup(before, [UNRELEASED, ""], [r]);
    assert [UNRELEASED, ""] + [r] == [UNRELEASED, "", r];
  }

  /** What archiving comes to, in parts. */
  lemma ArchivedInParts(lines: Lines, version: string, date: string) returns (parts: Parts)
    requires ArchiveRefusal(lines, version, date) == None
    ensures Divides(parts, Ended(lines)) && Strip(parts.body) != []
    ensures Unreleaseds(Ended(lines)) > 0 && parts.body == UnreleasedBody(Ended(lines))
    ensures Unreleaseds(Ended(lines)) == 1 + Unreleaseds(parts.body + parts.after)
    ensures !Mentions(Ended(lines), version)
    ensures Archived(lines, version, date)
            == parts.before + [UNRELEASED, ""] + ([ReleaseHeading(version, date)] + parts.body + parts.after)
  {
    hide IsHeading, NextHeading, Mentions, IsDate, ReleaseHeading, Ended, Strip, FirstUnreleased, Unreleaseds, AllBlank;
    var heading := FirstUnreleased(lines);
    var before, rest := lines[..heading], lines[heading + 1..];
    var r := ReleaseHeading(version, date);
    NoneBeforeFirst(lines);
    assert lines == before + [UNRELEASED] + rest;
    StripIsEmpty(UnreleasedBody(lines));
    BodyStaysNonBlank(rest);
    ReplacedInParts(before, r, rest);
    parts := DivideAt(before, Ended(rest));
    EndedMentionsNoMore(lines, version);
    MadeFrom(before, r, parts.body, parts.after);
    assert UnreleasedBody(Ended(lines)) == Ended(rest)[..NextHeading(Ended(rest))] by {
      assert Ended(lines)[|before| + 1..] == Ended(rest);
    }
    StripIsEmpty(parts.body);
  }

  lemma NotMentionedInPart(a: Lines, b: Lines, c: Lines, version: string)
    requires !Mentions(a + b + c, version)
    ensures Releases(a, version) == 0 && Releases(b, version) == 0 && Releases(c, version) == 0
  {
    hide Releases;
    NotMentionedMeansNoRelease(a + b + c, version);
    ReleasesConcat(a + b, c, version);
    ReleasesConcat(a, b, version);
  }

  /**
    Archiving yields a changelog that passes the check, with the Unreleased body as the notes, exactly when there is
    one Unreleased heading; a second one is the only thing that the check can object to.
   */
  lemma ArchivedMeetsTheCheck(lines: Lines, version: string, date: string)
    requires ArchiveRefusal(lines, version, date) == None
    ensures Unreleaseds(Ended(lines)) > 0
    ensures Validated(Archived(lines, version, date), version)
            == if Unreleaseds(Ended(lines)) == 1 then Ok(Strip(UnreleasedBody(Ended(lines)))) else Err(NotOneUnreleased)
  {
    hide *;
    var parts := ArchivedInParts(lines, version, date);
    VersionIsValid(lines, version, date);
    InParts(parts, Ended(lines));
    var r := ReleaseHeading(version, date);
    NotMentionedInParts(parts, Ended(lines), version);
    NotesOfMade(parts, r, version, date);
    MadeHeadingIsRelease(version, date);
    OpeningRelease(r, parts);
    ValidatedInParts(parts.before, [r] + parts.body + parts.after, version);
  }

  lemma VersionIsValid(lines: Lines, version: string, date: string)
    requires ArchiveRefusal(lines, version, date) == None
    ensures ValidVersion(version) && IsDate(date)
    ensures forall text :: Section(text, version) == Notes(text, version)
  {
  }

  lemma InParts(parts: Parts, lines: Lines)
    requires Divides(parts, lines)
    ensures Unreleaseds(parts.before) == 0 && NoHeading(parts.body) && OpensSection(parts.after)
  {
  }

  lemma OpeningRelease(r: string, parts: Parts)
    requires r != UNRELEASED
    ensures ([r] + parts.body + parts.after)[0] == r
    ensures Unreleaseds([r] + parts.body + parts.after) == Unreleaseds(parts.body + parts.after)
  {
    hide Unreleaseds;
    Regroup([r], parts.body, parts.after);
    UnreleasedsConcat([r], parts.body + parts.after);
    SingleUnreleased(r);
  }

  lemma NotMentionedInParts(parts: Parts, lines: Lines, version: string)
    requires Divides(parts, lines) && !Mentions(lines, version)
    ensures Releases(parts.before, version) == 0 && Releases(parts.after, version) == 0
  {
    hide Mentions, Releases;
    Regroup(parts.before, [UNRELEASED], parts.body);
    NotMentionedInPart(parts.before, [UNRELEASED] + parts.body, parts.after, version);
  }

  lemma NoReleaseInOpening(version: string)
    ensures Releases([UNRELEASED, ""], version) == 0 && OpensSection([UNRELEASED, ""])
  {
    hide IsRelease;
    UnreleasedIsNoRelease(version);
    BlankOpening();
    NotesOfSection(UNRELEASED, [""], version);
    assert [UNRELEASED] + [""] == [UNRELEASED, ""];
  }

  /** The notes of the release that was made. */
  lemma NotesOfMade(parts: Parts, r: string, version: string, date: string)
    requires r == ReleaseHeading(version, date) && IsDate(date)
    requires NoHeading(parts.body) && OpensSection(parts.after) && Strip(parts.body) != []
    requires Releases(parts.before, version) == 0 && Releases(parts.after, version) == 0
    ensures Notes(parts.before + [UNRELEASED, ""] + ([r] + parts.body + parts.after), version) == Ok(Strip(parts.body))
  {
    hide Notes, Strip, Releases, IsRelease, IsHeading, ReleaseHeading, IsDate;
    MadeHeadingIsRelease(version, date);
    NotesOfSection(r, parts.body, version);
    NoReleaseInOpening(version);
    var front, section := parts.before + [UNRELEASED, ""], [r] + parts.body;
    ReleasesConcat(parts.before, [UNRELEASED, ""], version);
    NotesConcat(front, section + parts.after, version);
    NotesConcat(section, parts.after, version);
    ReleasesConcat(section, parts.after, version);
  }

  lemma SingleUnreleased(line: string)
    ensures Unreleaseds([line]) == if line == UNRELEASED then 1 else 0
  {
    assert [line][1..] == [];
  }

  lemma BlankOpening()
    ensures NoHeading([""])
  {
  }

  lemma NoOtherReleaseIn(parts: Parts, r: string, other: string)
    requires NoHeading(parts.body) && IsHeading(r) && !IsRelease(r, other)
    ensures Releases([UNRELEASED] + parts.body, other) == 0
    ensures Releases([UNRELEASED, ""] + ([r] + parts.body), other) == 0
  {
    hide Notes, Strip, Releases, IsRelease;
    UnreleasedIsNoRelease(other);
    NotesOfSection(UNRELEASED, parts.body, other);
    NotesOfSection(r, parts.body, other);
    NoReleaseInOpening(other);
    ReleasesConcat([UNRELEASED, ""], [r] + parts.body, other);
  }

  /** No other release changes. */
  lemma ArchivingKeepsOtherReleases(lines: Lines, version: string, date: string, other: string)
    requires ArchiveRefusal(lines, version, date) == None && other != version
    ensures Section(Archived(lines, version, date), other) == Section(Ended(lines), other)
  {
    hide Mentions, IsDate, ReleaseHeading, IsRelease, Notes, Strip, Ended;
    hide Releases, ValidVersion, Archived, UnreleasedBody, Unreleaseds, IsHeading;
    var parts := ArchivedInParts(lines, version, date);
    var r := ReleaseHeading(version, date);
    MadeHeadingIsRelease(version, date);
    if IsRelease(r, other) { OneVersionPerHeading(r, version, other); }
    NoOtherReleaseIn(parts, r, other);
    UnreleasedIsHeading();
    var made := [UNRELEASED, ""] + ([r] + parts.body);
    OtherSectionsDoNotMatter(parts.before, made, parts.after, other);
    OtherSectionsDoNotMatter(parts.before, [UNRELEASED] + parts.body, parts.after, other);
    Regroup(parts.before, [UNRELEASED], parts.body);
    Regroup(parts.before + [UNRELEASED, ""], [r] + parts.body, parts.after);
    Regroup(parts.before, [UNRELEASED, ""], [r] + parts.body);
  }

  // ---- Texts whose lines end cleanly ----

  ghost predicate RightTrimmed(lines: Lines) {
    forall i :: 0 <= i < |lines| ==> StripRight(lines[i]) == lines[i]
  }

  /** On lines without trailing white space, stripping the end takes away empty lines only. */
  lemma {:induction false} EndedOfRightTrimmed(lines: Lines)
    requires RightTrimmed(lines)
    ensures var end := Ended(lines);
            |end| <= |lines| && end == lines[..|end|] && forall i :: |end| <= i < |lines| ==> lines[i] == ""
    decreases |lines|
  {
    hide StripRight;
    if lines != [] && Blank(lines[|lines| - 1]) { EndedOfRightTrimmed(lines[..|lines| - 1]); }
  }

  lemma StripIgnoresTrailingBlanks(body: Lines, blanks: Lines)
    requires AllBlank(blanks)
    ensures Strip(body + blanks) == Strip(body)
  {
    hide Blank, StripLeft;
    EndedIsEmpty(blanks);
    if AllBlank(body) {
      assert AllBlank(body + blanks);
      StripIsEmpty(body);
      StripIsEmpty(body + blanks);
    } else {
      BegunBefore(body, blanks);
      EndedConcat(Begun(body), blanks);
    }
  }

  lemma {:induction false} BegunBefore(a: Lines, b: Lines)
    requires !AllBlank(a)
    ensures Begun(a + b) == Begun(a) + b
  {
    hide Blank, StripLeft;
    assert (a + b)[1..] == a[1..] + b;
    if Blank(a[0]) {
      assert !AllBlank(a[1..]) by {
        var i :| 0 <= i < |a| && !Blank(a[i]);
        assert a[1..][i - 1] == a[i];
      }
      BegunBefore(a[1..], b);
    }
  }

  lemma {:induction false} NothingInEmptyLines(lines: Lines)
    requires forall i :: 0 <= i < |lines| ==> lines[i] == ""
    ensures Unreleaseds(lines) == 0 && NoHeading(lines) && AllBlank(lines)
  {
    EmptyIsBlank();
    PartsOfUnreleaseds(lines);
  }

  lemma EmptyLinesAtTheEnd(lines: Lines, blanks: Lines)
    requires Unreleaseds(lines) > 0 && forall i :: 0 <= i < |blanks| ==> blanks[i] == ""
    ensures Unreleaseds(lines + blanks) == Unreleaseds(lines)
    ensures Strip(UnreleasedBody(lines + blanks)) == Strip(UnreleasedBody(lines))
  {
    hide Strip, NextHeading, IsHeading, Unreleaseds, FirstUnreleased;
    NothingInEmptyLines(blanks);
    UnreleasedsConcat(lines, blanks);
    FirstUnreleasedConcat(lines, blanks);
    var start := FirstUnreleased(lines) + 1;
    assert (lines + blanks)[start..] == lines[start..] + blanks;
    NextHeadingConcat(lines[start..], blanks);
    NoHeadingMeans(blanks);
    if NextHeading(lines[start..]) == |lines[start..]| {
      assert UnreleasedBody(lines + blanks) == UnreleasedBody(lines) + blanks;
      StripIgnoresTrailingBlanks(UnreleasedBody(lines), blanks);
    } else {
      assert UnreleasedBody(lines + blanks) == UnreleasedBody(lines);
    }
  }

  /**
    On such texts archiving passes the check, with the old Unreleased body as notes, exactly with one Unreleased
    heading.
   */
  lemma RightTrimmedArchiveMeetsTheCheck(lines: Lines, version: string, date: string)
    requires ArchiveRefusal(lines, version, date) == None && RightTrimmed(lines)
    ensures Validated(Archived(lines, version, date), version)
            == if Unreleaseds(lines) == 1 then Ok(Strip(UnreleasedBody(lines))) else Err(NotOneUnreleased)
  {
    hide Validated, Archived, Strip, UnreleasedBody, Ended, Unreleaseds, StripRight;
    ArchivedMeetsTheCheck(lines, version, date);
    EndedOfRightTrimmed(lines);
    var n := |Ended(lines)|;
    assert lines == lines[..n] + lines[n..];
    EmptyLinesAtTheEnd(lines[..n], lines[n..]);
  }
}
