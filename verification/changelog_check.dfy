/**
  The check that a release's changelog must pass (`validate_release_changelog` in scripts/release_metadata.py), by
  the lines of the text: exactly which texts pass it, with which notes, and what a text lacks that does not.
 */
module ChangelogCheck {
  import opened Wrappers
  import opened Changelog
  import opened ChangelogRelease
  import opened ChangelogRepair

  /** The one line that reads `## Unreleased` is at `u`. */
  ghost predicate OnlyUnreleasedAt(lines: Lines, u: nat) {
    u < |lines| && forall i :: 0 <= i < |lines| ==> (lines[i] == "## Unreleased" <==> i == u)
  }

  /** The one heading of the release is at `r`. */
  ghost predicate OnlyReleaseAt(lines: Lines, version: string, r: nat) {
    r < |lines| && forall i :: 0 <= i < |lines| ==> (IsRelease(lines[i], version) <==> i == r)
  }

  lemma {:induction false} NoUnreleased(lines: Lines)
    ensures Unreleaseds(lines) == 0 <==> forall i :: 0 <= i < |lines| ==> lines[i] != UNRELEASED
  {
    if lines != [] {
      NoUnreleased(lines[1..]);
      assert forall i :: 0 < i < |lines| ==> lines[i] == lines[1..][i - 1];
    }
  }

  lemma {:induction false} NoRelease(lines: Lines, version: string)
    ensures Releases(lines, version) == 0 <==> forall i :: 0 <= i < |lines| ==> !IsRelease(lines[i], version)
  {
    hide IsRelease;
    if lines != [] {
      NoRelease(lines[1..], version);
      assert forall i :: 0 < i < |lines| ==> lines[i] == lines[1..][i - 1];
    }
  }

  lemma {:induction false} OneUnreleased(lines: Lines, u: nat)
    ensures Unreleaseds(lines) == 1 && FirstUnreleased(lines) == u <==> OnlyUnreleasedAt(lines, u)
    decreases lines
  {
    if lines != [] {
      NoUnreleased(lines[1..]);
      if u > 0 { OneUnreleased(lines[1..], u - 1); }
      assert forall i :: 0 < i < |lines| ==> lines[i] == lines[1..][i - 1];
    }
  }

  lemma {:induction false} OneReleaseAt(lines: Lines, version: string, r: nat)
    ensures Releases(lines, version) == 1 && FirstRelease(lines, version) == r <==> OnlyReleaseAt(lines, version, r)
    decreases lines
  {
    hide IsRelease;
    if lines != [] {
      NoRelease(lines[1..], version);
      if r > 0 { OneReleaseAt(lines[1..], version, r - 1); }
      assert forall i :: 0 < i < |lines| ==> lines[i] == lines[1..][i - 1];
    }
  }

  /** The next heading after `start` is the release when only blank lines stand before it, and not otherwise. */
  lemma NextIsRelease(lines: Lines, start: nat, version: string, r: nat)
    requires start <= |lines| && OnlyReleaseAt(lines, version, r)
    ensures var next := start + NextHeading(lines[start..]);
            && next <= |lines|
            && (next < |lines| && Strip(lines[start..next]) == [] && IsRelease(lines[next], version)
                <==> start <= r && forall i :: start <= i < r ==> Blank(lines[i]))
  {
    hide IsRelease, IsHeading, Blank, Strip;
    var n := NextHeading(lines[start..]);
    var next := start + n;
    StripIsEmpty(lines[start..next]);
    assert forall i :: start <= i < next ==> lines[start..next][i - start] == lines[i];
    ReleaseIsHeading(lines[r], version);
    if start <= r && forall i :: start <= i < r ==> Blank(lines[i]) {
      NextIs(lines, start, r);
      forall i | 0 <= i < |lines[start..next]| ensures Blank(lines[start..next][i]) {
        assert lines[start..next][i] == lines[start + i];
      }
    }
  }

  lemma NextIs(lines: Lines, start: nat, r: nat)
    requires start <= r < |lines| && IsHeading(lines[r]) && forall i :: start <= i < r ==> Blank(lines[i])
    ensures start + NextHeading(lines[start..]) == r
  {
    hide IsHeading, Blank;
    var n := NextHeading(lines[start..]);
    assert lines[start..][r - start] == lines[r];
    if start + n < r {
      assert lines[start..][n] == lines[start + n];
      HeadingIsNotBlank(lines[start + n]);
    }
  }

  /** Unreleased at `u` and the release at `r` are where they must be, and the release has these notes. */
  ghost predicate Passes(lines: Lines, version: string, u: nat, r: nat, notes: Lines) {
    && OnlyUnreleasedAt(lines, u) && OnlyReleaseAt(lines, version, r)
    && u < r && (forall i :: u < i < r ==> Blank(lines[i]))
    && notes == Strip(BodyAt(lines, r + 1)) && notes != []
  }

  lemma PassesAtFirst(lines: Lines, version: string, notes: Lines)
    requires ValidVersion(version)
    ensures Validated(lines, version) == Ok(notes)
        <==> Passes(lines, version, FirstUnreleased(lines), FirstRelease(lines, version), notes)
  {
    hide ValidVersion, Strip, IsRelease, Blank, BodyAt, OnlyUnreleasedAt, OnlyReleaseAt;
    var u, r := FirstUnreleased(lines), FirstRelease(lines, version);
    OneUnreleased(lines, u);
    OneReleaseAt(lines, version, r);
    hide Unreleaseds, Releases;
    if OnlyUnreleasedAt(lines, u) && OnlyReleaseAt(lines, version, r) {
      ReleaseInRange(lines, version, r);
      NextIsRelease(lines, u + 1, version, r);
    }
  }

  /**
    A text passes the check, with its notes, exactly when the version is one, one line reads Unreleased, one is the
    heading of the release, nothing but blank lines stands between the two, and the release has notes.
   */
  lemma ValidatedExactly(lines: Lines, version: string, notes: Lines)
    ensures Validated(lines, version) == Ok(notes)
        <==> ValidVersion(version) && exists u: nat, r: nat :: Passes(lines, version, u, r, notes)
  {
    hide Validated, Strip, IsRelease, Blank, BodyAt, OnlyUnreleasedAt, OnlyReleaseAt, Unreleaseds, Releases;
    if ValidVersion(version) {
      PassesAtFirst(lines, version, notes);
      if u: nat, r: nat :| Passes(lines, version, u, r, notes) {
        OneUnreleased(lines, u);
        OneReleaseAt(lines, version, r);
      }
    } else {
      InvalidIsRefused(lines, version);
    }
  }

  lemma InvalidIsRefused(lines: Lines, version: string)
    requires !ValidVersion(version)
    ensures Validated(lines, version) == Err(InvalidVersion)
  {
    hide ValidVersion;
  }

  lemma ReleaseInRange(lines: Lines, version: string, r: nat)
    requires OnlyReleaseAt(lines, version, r)
    ensures r < |lines|
  {
  }

  /** With one Unreleased section and a release with notes, what can still be wrong is what stands after Unreleased. */
  lemma RefusedAfterUnreleased(lines: Lines, version: string, u: nat, notes: Lines)
    requires Section(lines, version) == Ok(notes) && OnlyUnreleasedAt(lines, u)
    ensures var next := u + 1 + NextHeading(lines[u + 1..]);
            && (next == |lines| ==> Validated(lines, version) == Err(NothingAfterUnreleased))
            && (next < |lines| && (exists i :: u < i < next && !Blank(lines[i])) ==>
                  Validated(lines, version) == Err(UnreleasedNotEmpty))
            && (next < |lines| && !IsRelease(lines[next], version) && (forall i :: u < i < next ==> Blank(lines[i])) ==>
                  Validated(lines, version) == Err(NotFirstRelease))
  {
    hide Section, Strip, IsRelease, IsHeading, Blank;
    OneUnreleased(lines, u);
    hide Unreleaseds, FirstUnreleased;
    var next := u + 1 + NextHeading(lines[u + 1..]);
    BlankBetween(lines, u + 1, next);
    hide AllBlank;
  }

  lemma BlankBetween(lines: Lines, start: nat, end: nat)
    requires start <= end <= |lines|
    ensures Strip(lines[start..end]) == [] <==> forall i :: start <= i < end ==> Blank(lines[i])
  {
    hide Strip, Blank;
    var between := lines[start..end];
    StripIsEmpty(between);
    forall i | 0 <= i < |between| ensures between[i] == lines[start + i] {}
    if AllBlank(between) {
      forall i | start <= i < end ensures Blank(lines[i]) { assert Blank(between[i - start]); }
    }
  }

  /** And before that: an invalid version, a release that is missing, doubled or empty, in this order. */
  lemma RefusedForTheRelease(lines: Lines, version: string, r: nat)
    ensures !ValidVersion(version) ==> Validated(lines, version) == Err(InvalidVersion)
    ensures ValidVersion(version) && (forall i :: 0 <= i < |lines| ==> !IsRelease(lines[i], version)) ==>
              Validated(lines, version) == Err(Error.NoRelease)
    ensures ValidVersion(version) && OnlyReleaseAt(lines, version, r) && Strip(BodyAt(lines, r + 1)) == [] ==>
              Validated(lines, version) == Err(EmptyRelease)
    ensures ValidVersion(version) && Releases(lines, version) > 1 ==> Validated(lines, version) == Err(DuplicateRelease)
  {
    hide ValidVersion, IsRelease, Strip, BodyAt;
    NoRelease(lines, version);
    OneReleaseAt(lines, version, r);
  }
}
