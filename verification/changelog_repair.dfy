/** Moving a later Unreleased section into the release that was already made, and exactly when that works. */
module ChangelogRepair {
  import opened Wrappers
  import opened Changelog
  import opened ChangelogRelease

  // ---- The parts of a changelog to repair ----

  /** What comes before Unreleased, its body, the release heading after it, the release's body, and the rest. */
  datatype Pieces = Pieces(before: Lines, body: Lines, heading: string, existing: Lines, after: Lines)

  function Whole(p: Pieces): Lines {
    p.before + [UNRELEASED] + p.body + [p.heading] + p.existing + p.after
  }

  ghost predicate Fits(p: Pieces, version: string) {
    && Unreleaseds(p.before) == 0 && NoHeading(p.body) && NoHeading(p.existing) && OpensSection(p.after)
    && IsRelease(p.heading, version) && Strip(p.body) != []
    && Releases(p.before, version) == 0 && Releases(p.after, version) == 0
  }

  /** The pieces around the Unreleased heading at `u` and the release heading at `r`. */
  function Cut(lines: Lines, u: nat, r: nat): Pieces
    requires u < r < |lines|
  {
    var more := lines[r + 1..];
    Pieces(lines[..u], lines[u + 1..r], lines[r], more[..NextHeading(more)], more[NextHeading(more)..])
  }

  lemma CutIsWhole(lines: Lines, u: nat, r: nat)
    requires u < r < |lines| && lines[u] == UNRELEASED
    ensures lines == Whole(Cut(lines, u, r))
  {
    hide NextHeading;
    var more := lines[r + 1..];
    assert lines == lines[..u] + [UNRELEASED] + lines[u + 1..r] + [lines[r]] + more;
    Regroup(lines[..u] + [UNRELEASED] + lines[u + 1..r] + [lines[r]], more[..NextHeading(more)],
      more[NextHeading(more)..]);
  }

  /** Where the headings of a repairable text are. */
  lemma HeadingsOfRepairable(lines: Lines, version: string, date: string)
    requires RepairRefusal(lines, version, date) == None
    ensures Unreleaseds(lines) == 1 && Releases(lines, version) == 1
    ensures var u, r := FirstUnreleased(lines), FirstRelease(lines, version);
            u < r < |lines| && UnreleasedBody(lines) == lines[u + 1..r] && Strip(lines[u + 1..r]) != []
  {
    hide Strip, NextHeading, IsRelease, Unreleaseds, FirstUnreleased, Releases, FirstRelease, IsDate, ValidVersion;
    var u, r := FirstUnreleased(lines), FirstRelease(lines, version);
    assert lines[u + 1..][..r - u - 1] == lines[u + 1..r];
  }

  lemma CutFits(lines: Lines, version: string, date: string)
    requires RepairRefusal(lines, version, date) == None
    requires FirstUnreleased(lines) < FirstRelease(lines, version) < |lines|
    ensures Fits(Cut(lines, FirstUnreleased(lines), FirstRelease(lines, version)), version)
  {
    hide Strip, IsHeading, IsRelease, Unreleaseds, FirstUnreleased, Releases;
    hide FirstRelease, RepairRefusal, Whole, NextHeading;
    HeadingsOfRepairable(lines, version, date);
    var u, r := FirstUnreleased(lines), FirstRelease(lines, version);
    var p := Cut(lines, u, r);
    NoneBeforeFirst(lines);
    CutIsWhole(lines, u, r);
    BodyHasNoHeading(lines, u + 1);
    NoneAround(p, version);
  }

  lemma BodyHasNoHeading(lines: Lines, start: nat)
    requires start <= |lines|
    ensures NoHeading(BodyAt(lines, start))
  {
    hide IsHeading;
  }

  lemma TakeApart(lines: Lines, version: string, date: string) returns (p: Pieces)
    requires RepairRefusal(lines, version, date) == None
    ensures lines == Whole(p) && Fits(p, version)
    ensures p.body == UnreleasedBody(lines) && p.existing == BodyAt(lines, FirstRelease(lines, version) + 1)
    ensures Repaired(lines, version, date)
        == Ended(p.before + [UNRELEASED, "", ReleaseHeading(version, date), ""]
                 + Merged(Strip(p.body), Strip(p.existing)) + p.after)
  {
    hide Strip, Ended, NextHeading, IsHeading, Fits, Unreleaseds, FirstUnreleased;
    hide Releases, FirstRelease, RepairRefusal, ReleaseHeading, Whole, Merged;
    HeadingsOfRepairable(lines, version, date);
    var u, r := FirstUnreleased(lines), FirstRelease(lines, version);
    p := Cut(lines, u, r);
    CutIsWhole(lines, u, r);
    CutFits(lines, version, date);
  }

  /** Outside its heading, a text with one release of a version has none of it. */
  lemma NoneAround(p: Pieces, version: string)
    requires IsRelease(p.heading, version) && Releases(Whole(p), version) == 1
    ensures Releases(p.before, version) == 0 && Releases(p.after, version) == 0
  {
    hide IsRelease, Releases;
    var opening := p.before + [UNRELEASED];
    ReleasesConcat(opening + p.body + [p.heading] + p.existing, p.after, version);
    ReleasesConcat(opening + p.body + [p.heading], p.existing, version);
    ReleasesConcat(opening + p.body, [p.heading], version);
    ReleasesConcat(opening, p.body, version);
    ReleasesConcat(p.before, [UNRELEASED], version);
    OneRelease(p.heading, version);
  }

  lemma OneRelease(line: string, version: string)
    ensures Releases([line], version) == if IsRelease(line, version) then 1 else 0
  {
    hide IsRelease;
    assert [line][1..] == [];
  }

  // ---- What the repair yields ----

  /** The body opens with an indented line that would be a heading without its indentation. */
  predicate IndentedHeading(body: Lines) {
    Strip(body) != [] && IsHeading(Strip(body)[0])
  }

  /** The rest of the text still starts with a heading, and with no new one, once white space at its end is stripped. */
  predicate Stands(after: Lines, version: string) {
    OpensSection(Ended(after)) && Unreleaseds(Ended(after)) == 0 && Releases(Ended(after), version) == 0
  }

  lemma MergedIsStripped(p: Pieces)
    requires Strip(p.body) != []
    ensures var merged := Merged(Strip(p.body), Strip(p.existing));
            merged != [] && Stripped(merged)
  {
    hide Strip, Ended, Blank, IsSpace;
    var body, existing := Strip(p.body), Strip(p.existing);
    StripIsStripped(p.body);
    StripIsStripped(p.existing);
    if existing != [] { EndedConcat(body + [""], existing); }
  }

  lemma MergedHeadings(p: Pieces)
    requires NoHeading(p.body) && NoHeading(p.existing)
    ensures NoHeading(Merged(Strip(p.body), Strip(p.existing)))
        <==> !IndentedHeading(p.body) && !IndentedHeading(p.existing)
  {
    hide Strip, IsHeading;
    var body, existing := Strip(p.body), Strip(p.existing);
    StripMayOpenWithHeading(p.body);
    StripMayOpenWithHeading(p.existing);
    BlankOpening();
    HeadingsOf(body);
    HeadingsOf(existing);
    HeadingsTogether(body, existing);
  }

  lemma HeadingsOf(lines: Lines)
    requires lines != [] ==> NoHeading(lines[1..])
    ensures NoHeading(lines) <==> (lines == [] || !IsHeading(lines[0]))
  {
    hide IsHeading;
    assert forall i :: 0 < i < |lines| ==> lines[i] == lines[1..][i - 1];
  }

  lemma NoHeadingConcat(a: Lines, b: Lines)
    ensures NoHeading(a + b) <==> NoHeading(a) && NoHeading(b)
  {
    hide IsHeading;
    assert forall i :: 0 <= i < |a| ==> (a + b)[i] == a[i];
    assert forall i :: 0 <= i < |b| ==> (a + b)[|a| + i] == b[i];
  }

  lemma HeadingsTogether(body: Lines, existing: Lines)
    ensures NoHeading(Merged(body, existing)) <==> NoHeading(body) && NoHeading(existing)
  {
    hide NoHeading;
    BlankOpening();
    NoHeadingConcat(body, [""]);
    NoHeadingConcat(body + [""], existing);
    NoHeadingOfNothing();
  }

  lemma NoHeadingOfNothing()
    ensures NoHeading([])
  {
  }

  lemma EndOfRepaired(front: Lines, merged: Lines, after: Lines)
    requires merged != [] && Stripped(merged)
    ensures Ended(front + merged + after) == front + merged + Ended(after)
  {
    hide Ended, Blank, IsSpace;
    EndedConcat(front + merged, after);
    EndedConcat(front, merged);
    if Ended(after) == [] { assert front + merged + [] == front + merged; }
  }

  /** The repaired text in parts. */
  lemma RepairedInParts(lines: Lines, version: string, date: string) returns (p: Pieces, merged: Lines)
    requires RepairRefusal(lines, version, date) == None
    ensures lines == Whole(p) && Fits(p, version)
    ensures p.body == UnreleasedBody(lines) && p.existing == BodyAt(lines, FirstRelease(lines, version) + 1)
    ensures merged == Merged(Strip(p.body), Strip(p.existing)) && merged != [] && Stripped(merged)
    ensures Repaired(lines, version, date)
        == p.before + [UNRELEASED, ""] + ([ReleaseHeading(version, date)] + ([""] + merged) + Ended(p.after))
  {
    hide *;
    p := TakeApart(lines, version, date);
    merged := Merged(Strip(p.body), Strip(p.existing));
    BodyNotEmpty(p, version);
    MergedIsStripped(p);
    var r := ReleaseHeading(version, date);
    EndOfRepaired(p.before + [UNRELEASED, "", r, ""], merged, p.after);
    Reassemble(p.before, r, merged, Ended(p.after));
  }

  lemma BodyNotEmpty(p: Pieces, version: string)
    requires Fits(p, version)
    ensures Strip(p.body) != []
  {
  }

  lemma Reassemble(before: Lines, r: string, merged: Lines, end: Lines)
    ensures before + [UNRELEASED, "", r, ""] + merged + end
         == before + [UNRELEASED, ""] + ([r] + ([""] + merged) + end)
  {
    assert [UNRELEASED, "", r, ""] == [UNRELEASED, ""] + ([r] + [""]);
    Regroup(before, [UNRELEASED, ""], [r] + [""]);
    Regroup(before + [UNRELEASED, ""], [r] + [""], merged);
    Regroup([r], [""], merged);
    Regroup(before + [UNRELEASED, ""], [r] + ([""] + merged), end);
  }

  /** The notes of the repaired release, when the lines after its heading up to `end` hold no heading. */
  lemma NotesOfRepaired(before: Lines, r: string, body: Lines, end: Lines, version: string, date: string)
    requires r == ReleaseHeading(version, date) && IsDate(date)
    requires NoHeading(body) && OpensSection(end) && Releases(before, version) == 0
    ensures Notes(before + [UNRELEASED, ""] + ([r] + ([""] + body) + end), version)
         == if Releases(end, version) > 0 then Err(DuplicateRelease)
            else if Strip([""] + body) == [] then Err(EmptyRelease) else Ok(Strip([""] + body))
  {
    hide Notes, Strip, Releases, IsRelease, IsHeading, ReleaseHeading, IsDate, NoHeading;
    MadeHeadingIsRelease(version, date);
    BlankOpening();
    NoHeadingConcat([""], body);
    var section := [r] + ([""] + body);
    NotesOfSection(r, [""] + body, version);
    NoReleaseInOpening(version);
    var front := before + [UNRELEASED, ""];
    ReleasesConcat(before, [UNRELEASED, ""], version);
    NotesConcat(front, section + end, version);
    NotesConcat(section, end, version);
    ReleasesConcat(section, end, version);
    StartsSection(r, [""] + body, end);
  }

  lemma StartsSection(r: string, body: Lines, end: Lines)
    requires IsHeading(r)
    ensures OpensSection([r] + body + end) && OpensSection([r] + body)
  {
  }

  lemma UnreleasedsOfRepaired(r: string, merged: Lines, end: Lines)
    requires r != UNRELEASED
    ensures Unreleaseds([r] + ([""] + merged) + end) == Unreleaseds(merged) + Unreleaseds(end)
  {
    hide Unreleaseds;
    UnreleasedsConcat([r] + ([""] + merged), end);
    UnreleasedsConcat([r], [""] + merged);
    UnreleasedsConcat([""], merged);
    SingleUnreleased(r);
    SingleUnreleased("");
  }

  lemma {:induction false} NoUnreleasedWithoutHeading(lines: Lines)
    requires NoHeading(lines)
    ensures Unreleaseds(lines) == 0
  {
    hide IsHeading;
    UnreleasedIsHeading();
    if lines != [] { NoUnreleasedWithoutHeading(lines[1..]); }
  }

  // ---- When the repaired text passes ----

  /** Nothing is in the way: the notes are the Unreleased body and what the release already said. */
  lemma RepairedPasses(p: Pieces, merged: Lines, version: string, date: string)
    requires Fits(p, version) && merged != [] && Stripped(merged) && NoHeading(merged)
    requires ValidVersion(version) && IsDate(date) && Stands(p.after, version)
    ensures var r := ReleaseHeading(version, date);
            Validated(p.before + [UNRELEASED, ""] + ([r] + ([""] + merged) + Ended(p.after)), version) == Ok(merged)
  {
    hide Ended, Notes, Strip, Releases, IsRelease, IsHeading, ReleaseHeading;
    hide IsDate, Validated, Unreleaseds, ValidVersion, NoHeading, Stripped;
    var r, end := ReleaseHeading(version, date), Ended(p.after);
    MadeHeadingIsRelease(version, date);
    NotesOfRepaired(p.before, r, merged, end, version, date);
    StrippedIsKept(merged);
    var rest := [r] + ([""] + merged) + end;
    assert rest[0] == r;
    ValidatedInParts(p.before, rest, version);
    UnreleasedsOfRepaired(r, merged, end);
    NoUnreleasedWithoutHeading(merged);
  }

  lemma StripIsNoLonger(lines: Lines)
    ensures |Strip([""] + lines)| <= |lines|
  {
    EmptyIsBlank();
    BegunOfBlank([""], lines);
    var k := BegunAt(lines);
    EndedLines(Begun(lines));
  }

  /** A heading inside the notes cuts them short. */
  lemma HeadingCutsNotes(p: Pieces, merged: Lines, version: string, date: string)
    requires Fits(p, version) && !NoHeading(merged) && IsDate(date)
    ensures var r := ReleaseHeading(version, date);
            Notes(p.before + [UNRELEASED, ""] + ([r] + ([""] + merged) + Ended(p.after)), version) != Ok(merged)
  {
    hide Ended, Notes, Strip, Releases, IsRelease, IsHeading, ReleaseHeading, IsDate, NextHeading;
    var n := NextHeading(merged);
    var kept, cut := merged[..n], merged[n..];
    NoHeadingMeans(merged);
    var r, end := ReleaseHeading(version, date), cut + Ended(p.after);
    NotesOfRepaired(p.before, r, kept, end, version, date);
    StripIsNoLonger(kept);
    assert merged == kept + cut;
    Regroup([""], kept, cut);
    Regroup([r], [""] + kept, cut);
    Regroup([r] + ([""] + kept), cut, Ended(p.after));
  }

  lemma FirstLineStays(lines: Lines)
    requires lines != [] && IsHeading(lines[0])
    ensures Ended(lines) != [] && !Blank(Ended(lines)[0])
  {
    HeadingIsNotBlank(lines[0]);
    EndedIsEmpty(lines);
    EndedLines(lines);
    TrimmedIsNotBlank(lines[0]);
  }

  lemma HeadingIsNotBlank(line: string)
    requires IsHeading(line)
    ensures !Blank(line)
  {
    assert line[0] == '#' && !IsSpace('#');
    NonSpaceSurvives(line);
  }

  /** Text that is no section of its own runs into the notes. */
  lemma StrayTextJoinsNotes(p: Pieces, merged: Lines, version: string, date: string)
    requires Fits(p, version) && merged != [] && Stripped(merged) && NoHeading(merged) && IsDate(date)
    requires !OpensSection(Ended(p.after))
    ensures var r := ReleaseHeading(version, date);
            Notes(p.before + [UNRELEASED, ""] + ([r] + ([""] + merged) + Ended(p.after)), version) != Ok(merged)
  {
    hide Notes, Strip, Releases, IsRelease, ReleaseHeading, IsDate, NextHeading;
    hide Ended, Blank, IsSpace, IsHeading, NoHeading;
    var end := Ended(p.after);
    EndedOfNothing();
    FirstLineStays(p.after);
    var n := NextHeading(end);
    var stray, rest := end[..n], end[n..];
    NoHeadingMeans(stray);
    StrayHasNoHeading(end);
    NoHeadingConcat(merged, stray);
    var r := ReleaseHeading(version, date);
    NotesOfRepaired(p.before, r, merged + stray, rest, version, date);
    StripOfMore(merged, stray);
    assert end == stray + rest;
    Regroup([""], merged, stray);
    Regroup([r], [""] + merged, stray);
    Regroup([r] + ([""] + merged), stray, rest);
  }

  lemma EndedOfNothing()
    ensures Ended([]) == []
  {
  }

  lemma StrayHasNoHeading(end: Lines)
    ensures NoHeading(end[..NextHeading(end)]) && OpensSection(end[NextHeading(end)..])
    ensures !OpensSection(end) ==> NextHeading(end) > 0
  {
    hide IsHeading;
  }

  lemma StripOfMore(merged: Lines, stray: Lines)
    requires merged != [] && Stripped(merged) && stray != [] && !Blank(stray[0])
    ensures Strip([""] + (merged + stray)) != merged
  {
    hide Blank, IsSpace, Ended;
    EmptyIsBlank();
    BegunOfBlank([""], merged + stray);
    BegunOfMerged(merged, stray);
    EndedConcat(merged, stray);
    EndedIsEmpty(stray);
  }

  lemma BegunOfMerged(merged: Lines, stray: Lines)
    requires merged != [] && Stripped(merged)
    ensures Begun(merged + stray) == merged + stray
  {
  }

  /**
    A repair yields a changelog that passes the check, with both bodies as the notes, exactly when neither body opens
    with an indented heading and the text after the release does not change its headings when its end is stripped.
   */
  lemma RepairedMeetsTheCheck(lines: Lines, version: string, date: string)
    requires RepairRefusal(lines, version, date) == None
    ensures var body := UnreleasedBody(lines);
            var start := FirstRelease(lines, version) + 1;
            var existing := BodyAt(lines, start);
            var notes := Strip(body) + (if Strip(existing) == [] then [] else [""] + Strip(existing));
            (Validated(Repaired(lines, version, date), version) == Ok(notes)
             <==> !IndentedHeading(body) && !IndentedHeading(existing) && Stands(lines[start..][|existing|..], version))
  {
    UnreleasedComesFirst(Strip(UnreleasedBody(lines)), Strip(BodyAt(lines, FirstRelease(lines, version) + 1)));
    RepairableHasBody(lines, version, date);
    hide *;
    RepairableMeans(lines, version, date);
    var p, merged := RepairedInParts(lines, version, date);
    TailIs(lines, p, version);
    BodiesHaveNoHeading(p, version);
    MergedHeadings(p);
    if NoHeading(merged) {
      if Stands(p.after, version) {
        RepairedPasses(p, merged, version, date);
      } else {
        UnsteadyTailFails(p, merged, version, date);
      }
    } else {
      HeadingCutsNotes(p, merged, version, date);
      ValidatedNeedsNotes(Repaired(lines, version, date), version, merged);
    }
  }

  /** The notes that were Unreleased come first, and those that were there already after a blank line. */
  lemma UnreleasedComesFirst(unreleased: Lines, existing: Lines)
    ensures unreleased != [] ==>
              Merged(unreleased, existing) == unreleased + (if existing == [] then [] else [""] + existing)
  {
    assert unreleased + [""] + existing == unreleased + ([""] + existing);
  }

  lemma RepairableHasBody(lines: Lines, version: string, date: string)
    requires RepairRefusal(lines, version, date) == None
    ensures Strip(UnreleasedBody(lines)) != []
  {
    hide Strip, UnreleasedBody, NextHeading, IsDate, ValidVersion;
  }

  lemma RepairableMeans(lines: Lines, version: string, date: string)
    requires RepairRefusal(lines, version, date) == None
    ensures ValidVersion(version) && IsDate(date) && Unreleaseds(lines) == 1 && Releases(lines, version) == 1
  {
  }

  lemma TailIs(lines: Lines, p: Pieces, version: string)
    requires lines == Whole(p) && FirstRelease(lines, version) < |lines|
    requires p.existing == BodyAt(lines, FirstRelease(lines, version) + 1) && Fits(p, version)
    ensures lines[FirstRelease(lines, version) + 1..][|p.existing|..] == p.after
  {
    hide NextHeading, IsRelease, Releases, FirstRelease, IsHeading, Strip, Unreleaseds, BodyAt;
    var front := p.before + ([UNRELEASED] + p.body);
    Regroup(p.before, [UNRELEASED], p.body);
    UnreleasedIsNoRelease(version);
    UnreleasedIsHeading();
    NotesOfSection(UNRELEASED, p.body, version);
    ReleasesConcat(p.before, [UNRELEASED] + p.body, version);
    var rest := [p.heading] + (p.existing + p.after);
    Regroup([p.heading], p.existing, p.after);
    Regroup(front, [p.heading], p.existing + p.after);
    Regroup(front + [p.heading], p.existing, p.after);
    FirstReleaseConcat(front, rest, version);
    FirstIsRelease(p.heading, p.existing + p.after, version);
    assert lines == front + rest;
    assert lines[|front| + 1..] == p.existing + p.after;
  }

  lemma FirstIsRelease(heading: string, rest: Lines, version: string)
    requires IsRelease(heading, version)
    ensures FirstRelease([heading] + rest, version) == 0
  {
    hide IsRelease;
  }

  lemma BodiesHaveNoHeading(p: Pieces, version: string)
    requires Fits(p, version)
    ensures NoHeading(p.body) && NoHeading(p.existing)
  {
  }

  lemma ValidatedNeedsNotes(lines: Lines, version: string, notes: Lines)
    requires Notes(lines, version) != Ok(notes)
    ensures Validated(lines, version) != Ok(notes)
  {
    hide Notes;
  }

  lemma UnsteadyTailFails(p: Pieces, merged: Lines, version: string, date: string)
    requires Fits(p, version) && merged != [] && Stripped(merged) && NoHeading(merged)
    requires ValidVersion(version) && IsDate(date) && !Stands(p.after, version)
    ensures var r := ReleaseHeading(version, date);
            Validated(p.before + [UNRELEASED, ""] + ([r] + ([""] + merged) + Ended(p.after)), version) != Ok(merged)
  {
    hide Ended, Notes, Strip, Releases, IsRelease, IsHeading, ReleaseHeading, IsDate;
    hide Unreleaseds, ValidVersion, NoHeading, Stripped, Validated, OpensSection;
    var r, end := ReleaseHeading(version, date), Ended(p.after);
    MadeHeadingIsRelease(version, date);
    var rest := [r] + ([""] + merged) + end;
    assert rest[0] == r;
    if !OpensSection(end) {
      StrayTextJoinsNotes(p, merged, version, date);
      ValidatedNeedsNotes(p.before + [UNRELEASED, ""] + rest, version, merged);
    } else {
      NotesOfRepaired(p.before, r, merged, end, version, date);
      ValidatedNeedsNotesOrOne(p.before, rest, version, merged);
      UnreleasedsOfRepaired(r, merged, end);
    }
  }

  lemma ValidatedNeedsNotesOrOne(before: Lines, rest: Lines, version: string, notes: Lines)
    requires Unreleaseds(before) == 0 && rest != [] && IsRelease(rest[0], version)
    ensures var lines := before + [UNRELEASED, ""] + rest;
            Validated(lines, version) == Ok(notes) ==> Notes(lines, version) == Ok(notes) && Unreleaseds(rest) == 0
  {
    hide Notes, Unreleaseds, IsRelease, Validated, ValidVersion;
    ValidatedInParts(before, rest, version);
  }

  // ---- Other releases ----

  lemma EndOfOriginal(p: Pieces, version: string) returns (existing: Lines)
    requires Fits(p, version)
    ensures NoHeading(existing)
    ensures Ended(Whole(p)) == p.before + ([UNRELEASED] + p.body + [p.heading] + existing) + Ended(p.after)
  {
    hide Ended, IsRelease, Strip, Releases, Unreleaseds, IsHeading, Blank, StripRight;
    var front := p.before + [UNRELEASED] + p.body;
    ReleaseHeadingStays(p.heading, version);
    EndedKeepsNoHeading(p.existing);
    EndedConcat(front + [p.heading] + p.existing, p.after);
    EndedConcat(front + [p.heading], p.existing);
    EndedConcat(front, [p.heading]);
    existing := if Ended(p.after) == [] then Ended(p.existing) else p.existing;
    if Ended(p.after) == [] {
      assert front + [p.heading] + [] == front + [p.heading];
      assert Ended(Whole(p)) == front + [p.heading] + existing;
      assert front + [p.heading] + existing + [] == front + [p.heading] + existing;
    }
    RegroupMiddle(p.before, p.body, p.heading, existing);
  }

  lemma RegroupMiddle(before: Lines, body: Lines, heading: string, existing: Lines)
    ensures before + [UNRELEASED] + body + [heading] + existing == before + ([UNRELEASED] + body + [heading] + existing)
  {
    Regroup(before, [UNRELEASED], body);
    Regroup(before, [UNRELEASED] + body, [heading]);
    Regroup(before, [UNRELEASED] + body + [heading], existing);
  }

  lemma ReleaseHeadingStays(heading: string, version: string)
    requires IsRelease(heading, version)
    ensures Ended([heading]) == [heading]
  {
    var last := heading[|heading| - 1];
    assert last == heading[|ReleasePrefix(version)|..][8..][1];
    assert '0' <= last <= '9';
    assert !IsSpace(last);
    assert StripRight(heading) == heading;
    assert [heading][..0] + [heading] == [heading];
  }

  /** The middle that a repair replaces holds no release but the repaired one, before and after. */
  lemma MiddleHasNoOther(p: Pieces, existing: Lines, r: string, merged: Lines, version: string, other: string)
    requires Fits(p, version) && NoHeading(existing) && NoHeading(merged) && other != version
    requires IsRelease(r, version)
    ensures var replaced := [UNRELEASED] + p.body + [p.heading] + existing;
            OpensSection(replaced) && Releases(replaced, other) == 0
    ensures var made := [UNRELEASED, ""] + ([r] + ([""] + merged));
            OpensSection(made) && Releases(made, other) == 0
  {
    hide Releases, IsRelease, Strip, Unreleaseds, NoHeading, IsHeading, Notes;
    UnreleasedIsNoRelease(other);
    UnreleasedIsHeading();
    ReleaseIsHeading(p.heading, version);
    ReleaseIsHeading(r, version);
    if IsRelease(p.heading, other) { OneVersionPerHeading(p.heading, version, other); }
    if IsRelease(r, other) { OneVersionPerHeading(r, version, other); }
    BodiesHaveNoHeading(p, version);
    NotesOfSection(UNRELEASED, p.body, other);
    NotesOfSection(p.heading, existing, other);
    ReleasesConcat([UNRELEASED] + p.body, [p.heading] + existing, other);
    Regroup([UNRELEASED] + p.body, [p.heading], existing);
    BlankOpening();
    NoHeadingConcat([""], merged);
    NotesOfSection(r, [""] + merged, other);
    NoReleaseInOpening(other);
    ReleasesConcat([UNRELEASED, ""], [r] + ([""] + merged), other);
  }

  /** A repair that works changes no other release. */
  lemma RepairKeepsOtherReleases(lines: Lines, version: string, date: string, other: string)
    requires RepairRefusal(lines, version, date) == None && other != version
    requires var body := UnreleasedBody(lines);
             var start := FirstRelease(lines, version) + 1;
             var existing := BodyAt(lines, start);
             !IndentedHeading(body) && !IndentedHeading(existing) && Stands(lines[start..][|existing|..], version)
    ensures Section(Repaired(lines, version, date), other) == Section(Ended(lines), other)
  {
    hide *;
    RepairableMeans(lines, version, date);
    var p, merged := RepairedInParts(lines, version, date);
    TailIs(lines, p, version);
    BodiesHaveNoHeading(p, version);
    MergedHeadings(p);
    TailOpens(p.after, version);
    var r := ReleaseHeading(version, date);
    MadeHeadingIsRelease(version, date);
    var existing := EndOfOriginal(p, version);
    MiddleHasNoOther(p, existing, r, merged, version, other);
    OtherSectionsDoNotMatter(p.before, [UNRELEASED] + p.body + [p.heading] + existing, Ended(p.after), other);
    OtherSectionsDoNotMatter(p.before, [UNRELEASED, ""] + ([r] + ([""] + merged)), Ended(p.after), other);
    Regroup(p.before + [UNRELEASED, ""], [r] + ([""] + merged), Ended(p.after));
    Regroup(p.before, [UNRELEASED, ""], [r] + ([""] + merged));
    SameSection(Repaired(lines, version, date), Ended(lines), other);
  }

  lemma TailOpens(after: Lines, version: string)
    requires Stands(after, version)
    ensures OpensSection(Ended(after))
  {
  }

  lemma SameSection(a: Lines, b: Lines, version: string)
    requires Notes(a, version) == Notes(b, version)
    ensures Section(a, version) == Section(b, version)
  {
    hide Notes;
  }

  // ---- Texts whose lines end cleanly ----

  /** When no line ends in white space, the text after the release always stands. */
  lemma RightTrimmedTailStands(after: Lines, version: string)
    requires RightTrimmed(after) && OpensSection(after) && Unreleaseds(after) == 0 && Releases(after, version) == 0
    ensures Stands(after, version)
  {
    hide IsRelease, IsHeading;
    EndedOfRightTrimmed(after);
    var n := |Ended(after)|;
    assert after == after[..n] + after[n..];
    UnreleasedsConcat(after[..n], after[n..]);
    ReleasesConcat(after[..n], after[n..], version);
  }

  lemma TailOfRepairable(lines: Lines, version: string, date: string)
    requires RepairRefusal(lines, version, date) == None && RightTrimmed(lines)
    ensures var start := FirstRelease(lines, version) + 1;
            var existing := BodyAt(lines, start);
            Stands(lines[start..][|existing|..], version)
  {
    hide *;
    RepairableMeans(lines, version, date);
    var p := TakeApart(lines, version, date);
    TailIs(lines, p, version);
    TailIsTrimmed(p);
    TailHasNone(p, version, date);
    RightTrimmedTailStands(p.after, version);
  }

  lemma TailIsTrimmed(p: Pieces)
    requires RightTrimmed(Whole(p))
    ensures RightTrimmed(p.after)
  {
    hide StripRight;
    var front := p.before + [UNRELEASED] + p.body + [p.heading] + p.existing;
    assert forall i :: 0 <= i < |p.after| ==> Whole(p)[|front| + i] == p.after[i];
  }

  lemma TailHasNone(p: Pieces, version: string, date: string)
    requires Fits(p, version) && Unreleaseds(Whole(p)) == 1
    ensures OpensSection(p.after) && Unreleaseds(p.after) == 0 && Releases(p.after, version) == 0
  {
    hide Unreleaseds, Releases, IsRelease, IsHeading, Strip;
    UnreleasedsConcat(p.before + [UNRELEASED] + p.body + [p.heading] + p.existing, p.after);
    UnreleasedsConcat(p.before + [UNRELEASED] + p.body + [p.heading], p.existing);
    UnreleasedsConcat(p.before + [UNRELEASED] + p.body, [p.heading]);
    UnreleasedsConcat(p.before + [UNRELEASED], p.body);
    UnreleasedsConcat(p.before, [UNRELEASED]);
    SingleUnreleased(UNRELEASED);
  }

  /** On such texts a repair passes the check exactly when neither body opens with an indented heading. */
  lemma RightTrimmedRepairMeetsTheCheck(lines: Lines, version: string, date: string)
    requires RepairRefusal(lines, version, date) == None && RightTrimmed(lines)
    ensures var body := UnreleasedBody(lines);
            var existing := BodyAt(lines, FirstRelease(lines, version) + 1);
            var notes := Strip(body) + (if Strip(existing) == [] then [] else [""] + Strip(existing));
            (Validated(Repaired(lines, version, date), version) == Ok(notes)
             <==> !IndentedHeading(body) && !IndentedHeading(existing))
  {
    hide *;
    TailOfRepairable(lines, version, date);
    RepairedMeetsTheCheck(lines, version, date);
  }

  /** A line that is no heading becomes one when it loses its indentation. */
  lemma IndentationHidesAHeading()
    ensures NoHeading([" ## x"]) && Strip([" ## x"]) == ["## x"] && IndentedHeading([" ## x"])
  {
    StripOfIndented("## x");
    IndentedLine();
    LineWithoutHeading(" ## x");
    hide Strip, StripRight, NoHeading;
  }

  lemma LineWithoutHeading(line: string)
    requires !IsHeading(line)
    ensures NoHeading([line])
  {
    hide IsHeading;
  }

  lemma StripOfIndented(line: string)
    requires StripRight(line) == line && StripRight(" " + line) == " " + line && line != "" && !IsSpace(line[0])
    ensures Strip([" " + line]) == [line]
  {
    hide StripRight, IsSpace;
    var indented := " " + line;
    assert indented[0] == ' ' && indented[1..] == line;
    assert IsSpace(' ') by { SpaceIsSpace(); }
    assert StripLeft(indented) == line;
    assert Begun([indented]) == [line];
    assert [line][..0] == [] && Ended([line]) == [line];
  }

  lemma SpaceIsSpace()
    ensures IsSpace(' ')
  {
  }

  lemma IndentedLine()
    ensures StripRight(" ## x") == " ## x" && StripRight("## x") == "## x" && " " + "## x" == " ## x"
    ensures !IsSpace('#') && "## x"[0] == '#' && IsHeading("## x") && !IsHeading(" ## x") && " ## x" != UNRELEASED
  {
    assert !IsSpace('x');
    assert " ## x"[0] == ' ' && "## "[0] == '#';
  }

  /** A changelog with such a body, whatever the version and the date. */
  function Indented(version: string, date: string): Lines {
    [UNRELEASED, " ## x", ReleaseHeading(version, date)]
  }

  lemma IndentedIsRepairable(version: string, date: string)
    requires ValidVersion(version) && IsDate(date)
    ensures var lines := Indented(version, date);
            && RepairRefusal(lines, version, date) == None
            && UnreleasedBody(lines) == [" ## x"] && FirstRelease(lines, version) == 2
            && FirstUnreleased(lines) == 0
  {
    var r, lines := ReleaseHeading(version, date), Indented(version, date);
    MadeHeadingIsRelease(version, date);
    UnreleasedIsNoRelease(version);
    IndentationHidesAHeading();
    IndentedLine();
    NoHeadingNoRelease(" ## x", version);
    ThreeLines(UNRELEASED, " ## x", r, version);
    hide ValidVersion, IsDate, Strip, StripRight, IsRelease, IsHeading, ReleaseHeading, NextHeading, UnreleasedBody;
    hide Unreleaseds, Releases, FirstRelease, FirstUnreleased, IndentedHeading, NoHeading;
  }

  lemma NoHeadingNoRelease(line: string, version: string)
    requires !IsHeading(line)
    ensures !IsRelease(line, version)
  {
    if IsRelease(line, version) {
      ReleaseIsHeading(line, version);
    }
  }

  lemma ThreeLines(u: string, body: string, r: string, version: string)
    requires u == UNRELEASED && body != u && r != u && !IsHeading(body) && IsHeading(r)
    requires IsRelease(r, version) && !IsRelease(u, version) && !IsRelease(body, version)
    ensures var lines := [u, body, r];
            && Unreleaseds(lines) == 1 && Releases(lines, version) == 1
            && FirstUnreleased(lines) == 0 && FirstRelease(lines, version) == 2
            && NextHeading(lines[1..]) == 1 && UnreleasedBody(lines) == [body]
  {
    hide IsHeading, IsRelease;
    assert [u, body, r][1..] == [body, r] && [body, r][1..] == [r] && [r][1..] == [];
    OneRelease(r, version);
    assert Releases([body, r], version) == 1 && FirstRelease([body, r], version) == 1;
    assert Unreleaseds([r]) == 0;
    assert Unreleaseds([body, r]) == 0;
    assert NextHeading([r]) == 0;
    assert [body, r][..1] == [body];
  }

  /**
    Such a changelog can be repaired, and then fails the check: the body has become a heading of its own, and
    the release has no notes.
   */
  lemma IndentedBodyLeavesNoNotes(version: string, date: string)
    requires ValidVersion(version) && IsDate(date)
    ensures var lines := Indented(version, date);
            && RepairRefusal(lines, version, date) == None
            && Validated(Repaired(lines, version, date), version) == Err(EmptyRelease)
  {
    IndentedIsRepairable(version, date);
    RepairedIndented(version, date);
    NotesOfIndented(version, date);
    hide Repaired, RepairRefusal, Indented, Notes, ReleaseHeading, ValidVersion, IsDate;
  }

  lemma RepairedIndented(version: string, date: string)
    requires ValidVersion(version) && IsDate(date)
    requires RepairRefusal(Indented(version, date), version, date) == None
    ensures Repaired(Indented(version, date), version, date)
         == [UNRELEASED, "", ReleaseHeading(version, date), "", "## x"]
  {
    hide *;
    IndentedIs(version, date);
    IndentedIsRepairable(version, date);
    IndentationHidesAHeading();
    IndentedLine();
    RepairedOfThree(UNRELEASED, " ## x", ReleaseHeading(version, date), "## x", version, date);
  }

  lemma IndentedIs(version: string, date: string)
    ensures Indented(version, date) == [UNRELEASED, " ## x", ReleaseHeading(version, date)]
  {
  }

  lemma RepairedOfThree(u: string, body: string, r: string, stripped: string, version: string, date: string)
    requires RepairRefusal([u, body, r], version, date) == None && UnreleasedBody([u, body, r]) == [body]
    requires FirstUnreleased([u, body, r]) == 0 && FirstRelease([u, body, r], version) == 2
    requires r == ReleaseHeading(version, date) && Strip([body]) == [stripped]
    requires stripped != "" && StripRight(stripped) == stripped
    ensures Repaired([u, body, r], version, date) == [UNRELEASED, "", r, "", stripped]
  {
    var lines, all := [u, body, r], [UNRELEASED, "", r, "", stripped];
    assert lines[3..] == [] && lines[..0] == [] && Strip([]) == [];
    assert BodyAt(lines, 3) == [];
    assert all[..4] + [stripped] == all && Ended(all) == all;
    hide RepairRefusal, UnreleasedBody, FirstUnreleased, FirstRelease, Strip, StripRight, Ended, ReleaseHeading;
    assert lines[..0] + [UNRELEASED, "", r, ""] + [stripped] + [] == all;
  }

  lemma NotesOfIndented(version: string, date: string)
    requires IsDate(date)
    ensures Notes([UNRELEASED, "", ReleaseHeading(version, date), "", "## x"], version) == Err(EmptyRelease)
  {
    MadeHeadingIsRelease(version, date);
    UnreleasedIsNoRelease(version);
    ShortIsNoRelease(version);
    EmptyIsBlank();
    NotesOfFive(UNRELEASED, "", ReleaseHeading(version, date), "## x", version);
  }

  lemma NotesOfFive(u: string, blank: string, r: string, heading: string, version: string)
    requires IsRelease(r, version) && IsHeading(heading) && Blank(blank) && !IsHeading(blank)
    requires !IsRelease(u, version) && !IsRelease(blank, version) && !IsRelease(heading, version)
    ensures Notes([u, blank, r, blank, heading], version) == Err(EmptyRelease)
  {
    var rest := [blank, heading];
    FirstOfFive(u, blank, r, heading, version);
    hide IsRelease, IsHeading, Blank, Releases, FirstRelease;
    assert [u, blank, r, blank, heading][3..] == rest && rest[1..] == [heading] && rest[..1] == [blank];
    assert NextHeading([heading]) == 0;
    assert NextHeading(rest) == 1;
    BlankLineIsStripped(blank);
    hide Strip;
  }

  lemma BlankLineIsStripped(line: string)
    requires Blank(line)
    ensures Strip([line]) == []
  {
    hide Blank;
    assert [line][1..] == [] && Begun([line]) == [];
  }

  lemma FirstOfFive(u: string, blank: string, r: string, heading: string, version: string)
    requires IsRelease(r, version)
    requires !IsRelease(u, version) && !IsRelease(blank, version) && !IsRelease(heading, version)
    ensures FirstRelease([u, blank, r, blank, heading], version) == 2
    ensures Releases([u, blank, r, blank, heading], version) == 1
  {
    hide IsRelease;
    var all, rest := [u, blank, r, blank, heading], [blank, heading];
    assert all[1..] == [blank, r] + rest && ([blank, r] + rest)[1..] == [r] + rest && ([r] + rest)[1..] == rest;
    assert rest[1..] == [heading];
    OneRelease(heading, version);
    assert Releases(rest, version) == 0;
    assert Releases([r] + rest, version) == 1 && FirstRelease([r] + rest, version) == 0;
    assert Releases([blank, r] + rest, version) == 1 && FirstRelease([blank, r] + rest, version) == 1;
  }

  lemma ShortIsNoRelease(version: string)
    ensures !IsRelease("", version) && !IsRelease("## x", version) && IsHeading("## x") && !IsHeading("")
  {
    assert |ReleasePrefix(version)| >= 6;
  }
}
