/**
  The forms that the changelog scripts look for (scripts/release_metadata.py and scripts/prepare_release.py), by how
  such texts are put together: versions, dates, and the headings of releases.
 */
module ChangelogForms {
  import opened Wrappers
  import opened Text
  import opened Changelog

  lemma SplitsAtDots(a: string, b: string, c: string)
    requires '.' !in a && '.' !in b
    ensures ValidVersion(a + "." + b + "." + c) <==> Numeral(a) && Numeral(b) && Numeral(c)
  {
    hide Numeral;
    var rest, s := b + "." + c, a + "." + b + "." + c;
    assert s == a + "." + rest;
    assert s[..|a|] == a && s[|a| + 1..] == rest && s[|a|] == '.';
    assert rest[..|b|] == b && rest[|b| + 1..] == c && rest[|b|] == '.';
    IndexIs(s, |a|, '.');
    IndexIs(rest, |b|, '.');
  }

  lemma VersionHasThreeParts(s: string) returns (a: string, b: string, c: string)
    requires ValidVersion(s)
    ensures s == a + "." + b + "." + c && Numeral(a) && Numeral(b) && Numeral(c)
  {
    hide Numeral;
    var first := Index(s, '.');
    var rest := s[first + 1..];
    var second := Index(rest, '.');
    a, b, c := s[..first], rest[..second], rest[second + 1..];
    CutInThree(s, first, second);
  }

  lemma CutInThree(s: string, first: nat, second: nat)
    requires first < |s| && second < |s| - first - 1 && s[first] == s[first + 1 + second] == '.'
    ensures var rest := s[first + 1..];
            s == s[..first] + "." + rest[..second] + "." + rest[second + 1..]
  {
    CutAt(s, first);
    CutAt(s[first + 1..], second);
    Joined(s[..first], ".", s[first + 1..][..second], ".", s[first + 1..][second + 1..]);
  }

  lemma CutAt(s: string, i: nat)
    requires i < |s|
    ensures s == s[..i] + [s[i]] + s[i + 1..]
  {
  }

  lemma Joined(a: string, d: string, b: string, e: string, c: string)
    ensures a + d + (b + e + c) == a + d + b + e + c
  {
    assert a + d + (b + e + c) == (a + d) + (b + e) + c;
    assert (a + d) + (b + e) == a + d + b + e;
  }

  predicate IsThreeNumbers(s: string, a: nat, b: nat, c: nat) {
    s == Decimal(a) + "." + Decimal(b) + "." + Decimal(c)
  }

  /** A version is three numbers as they are written, between dots. */
  lemma VersionIsThreeNumbers(s: string)
    ensures ValidVersion(s) <==> exists a: nat, b: nat, c: nat :: IsThreeNumbers(s, a, b, c)
  {
    hide Decimal, Numeral, ValidVersion;
    if ValidVersion(s) {
      var x, y, z := VersionHasThreeParts(s);
      var a := NumeralIsNumber(x);
      var b := NumeralIsNumber(y);
      var c := NumeralIsNumber(z);
      assert IsThreeNumbers(s, a, b, c);
    }
    if a: nat, b: nat, c: nat :| IsThreeNumbers(s, a, b, c) {
      NumberIsNumeral(a);
      NumberIsNumeral(b);
      NumberIsNumeral(c);
      DigitsHaveNoDot(a);
      DigitsHaveNoDot(b);
      SplitsAtDots(Decimal(a), Decimal(b), Decimal(c));
    }
  }

  lemma DigitsHaveNoDot(n: nat)
    ensures '.' !in Decimal(n)
  {
    hide Decimal;
    assert !IsDigit('.');
  }

  lemma {:induction false} NumberIsNumeral(n: nat)
    ensures Numeral(Decimal(n)) && (Decimal(n)[0] == '0' <==> n == 0)
  {
    if n >= 10 {
      NumberIsNumeral(n / 10);
      assert Decimal(n)[0] == Decimal(n / 10)[0];
    }
  }

  /** What counts as a number in a version is some number as it is written. */
  lemma {:induction false} NumeralIsNumber(s: string) returns (n: nat)
    requires Numeral(s)
    ensures s == Decimal(n)
    decreases |s|
  {
    var front, last := s[..|s| - 1], s[|s| - 1];
    assert IsDigit(last);
    if front == "" {
      n := DigitValue(last);
      assert s == [last];
    } else {
      assert front[0] == s[0] && s[0] != '0';
      var high := NumeralIsNumber(front);
      NumberIsNumeral(high);
      n := high * 10 + DigitValue(last);
      assert n / 10 == high && n % 10 == DigitValue(last);
      assert s == front + [last];
    }
  }

  predicate IsYearMonthDay(s: string, year: string, month: string, day: string) {
    && s == year + "-" + month + "-" + day && |year| == 4 && |month| == 2 && |day| == 2
    && AllDigits(year) && AllDigits(month) && AllDigits(day)
  }

  /** A date is four, two and two digits between hyphens. */
  lemma DateIsDigits(s: string)
    ensures IsDate(s) <==> exists year, month, day :: IsYearMonthDay(s, year, month, day)
  {
    hide AllDigits;
    if IsDate(s) {
      assert s == s[..4] + "-" + s[5..7] + "-" + s[8..];
      assert IsYearMonthDay(s, s[..4], s[5..7], s[8..]);
    }
    if year, month, day :| IsYearMonthDay(s, year, month, day) {
      DatePartsAre(s, year, month, day);
    }
  }

  lemma DatePartsAre(s: string, year: string, month: string, day: string)
    requires s == year + "-" + month + "-" + day && |year| == 4 && |month| == 2 && |day| == 2
    ensures |s| == 10 && s[4] == '-' && s[7] == '-' && s[..4] == year && s[5..7] == month && s[8..] == day
  {
  }

  /** A release has a heading of the second level: its version, a hyphen between spaces, and a date. */
  lemma ReleaseIsHeaded(line: string, version: string)
    ensures IsRelease(line, version)
        <==> exists date :: IsDate(date) && line == "## " + version + " - " + date
  {
    hide IsDate;
    var prefix := "## " + version + " - ";
    if IsRelease(line, version) {
      assert line == prefix + line[|prefix|..];
    }
    if date :| IsDate(date) && line == "## " + version + " - " + date {
      assert line[|prefix|..] == date;
    }
  }

  /** And so has the section that is not released; it belongs to no version. */
  lemma UnreleasedIsHeaded()
    ensures UNRELEASED == "## Unreleased" && IsHeading(UNRELEASED)
    ensures forall rest: string :: IsHeading("## " + rest)
  {
  }

  /** The heading that is made is the one that is looked for. */
  lemma MadeHeadingIsHeaded(version: string, date: string)
    ensures ReleaseHeading(version, date) == "## " + version + " - " + date
  {
  }

  /** What both scripts strip besides Unicode white space. */
  lemma SpacesArePythons(c: char)
    ensures IsSpace(c) <==> IsWhitespace(c) || c as int in {28, 29, 30, 31}
  {
  }
}
