/** The string operations of Rust's standard library that the parsers rely on. */
module Text {
  import opened Wrappers

  // ---- Searching and splitting ----

  /** The first place of `c`, or the length of `s`. */
  function Index(s: string, c: char): (i: nat)
    ensures i <= |s| && c !in s[..i] && (i < |s| ==> s[i] == c)
    ensures i < |s| <==> c in s
  {
    if s == "" || s[0] == c then 0 else 1 + Index(s[1..], c)
  }

  /** The last place of `c`, or the length of `s`. */
  function LastIndex(s: string, c: char): (i: nat)
    ensures i <= |s| && (i < |s| ==> s[i] == c && c !in s[i + 1..])
    ensures i < |s| <==> c in s
  {
    if s == "" then 0
    else if s[|s| - 1] == c then |s| - 1
    else
      var i := LastIndex(s[..|s| - 1], c);
      if i == |s| - 1 then |s| else i
  }

  lemma {:induction false} LastIndexIs(s: string, i: nat, c: char)
    requires i < |s| && s[i] == c && c !in s[i + 1..]
    ensures LastIndex(s, c) == i
    decreases |s|
  {
    if i < |s| - 1 {
      var front := s[..|s| - 1];
      assert s[i + 1..][|s| - i - 2] == s[|s| - 1];
      assert front[i + 1..] == s[i + 1..][..|s| - i - 2];
      LastIndexIs(front, i, c);
    }
  }

  lemma {:induction false} IndexIs(s: string, i: nat, c: char)
    requires i < |s| && s[i] == c && c !in s[..i]
    ensures Index(s, c) == i
  {
    if i > 0 {
      assert s[..i][0] == s[0];
      assert s[1..][..i - 1] == s[..i][1..];
      IndexIs(s[1..], i - 1, c);
    }
  }

  function Count(s: string, c: char): (n: nat)
    ensures n > 0 <==> c in s
  {
    if s == "" then 0 else (if s[0] == c then 1 else 0) + Count(s[1..], c)
  }

  // ---- White space ----

  /** The code points with the Unicode property White_Space. */
  predicate IsWhitespace(c: char) {
    || '\t' <= c <= '\r' || c == ' ' || c == '\U{85}' || c == '\U{A0}' || c == '\U{1680}'
    || '\U{2000}' <= c <= '\U{200A}' || c == '\U{2028}' || c == '\U{2029}' || c == '\U{202F}'
    || c == '\U{205F}' || c == '\U{3000}'
  }

  function TrimStart(s: string): (t: string)
    ensures t == "" || !IsWhitespace(t[0])
    ensures |t| <= |s| && s[|s| - |t|..] == t
    ensures forall i :: 0 <= i < |s| - |t| ==> IsWhitespace(s[i])
  {
    if s != "" && IsWhitespace(s[0]) then TrimStart(s[1..]) else s
  }

  function TrimEnd(s: string): (t: string)
    ensures t == "" || !IsWhitespace(t[|t| - 1])
    ensures |t| <= |s| && s[..|t|] == t
    ensures forall i :: |t| <= i < |s| ==> IsWhitespace(s[i])
  {
    if s != "" && IsWhitespace(s[|s| - 1]) then TrimEnd(s[..|s| - 1]) else s
  }

  function Trim(s: string): (t: string)
    ensures t == "" || (!IsWhitespace(t[0]) && !IsWhitespace(t[|t| - 1]))
    ensures |t| <= |s|
  {
    var start := TrimStart(s);
    var t := TrimEnd(start);
    assert t != "" ==> t[0] == start[0];
    t
  }

  lemma TrimOfTrimmed(s: string)
    requires s == "" || (!IsWhitespace(s[0]) && !IsWhitespace(s[|s| - 1]))
    ensures Trim(s) == s
  {
  }

  lemma TrimKeepsCharacters(s: string)
    ensures forall c :: c in Trim(s) ==> c in s
    ensures forall c :: c in s && !IsWhitespace(c) ==> c in Trim(s)
  {
    hide IsWhitespace;
    TrimStartKeepsCharacters(s);
    TrimEndKeepsCharacters(TrimStart(s));
  }

  lemma TrimStartKeepsCharacters(s: string)
    ensures forall c :: c in TrimStart(s) ==> c in s
    ensures forall c :: c in s && !IsWhitespace(c) ==> c in TrimStart(s)
  {
    hide IsWhitespace;
    var t := TrimStart(s);
    var k := |s| - |t|;
    forall i | 0 <= i < |t| ensures t[i] == s[i + k] {
      assert s[k..][i] == s[i + k];
    }
    forall c | c in s && !IsWhitespace(c) ensures c in t {
      var i :| 0 <= i < |s| && s[i] == c;
      assert t[i - k] == c;
    }
  }

  lemma TrimEndKeepsCharacters(s: string)
    ensures forall c :: c in TrimEnd(s) ==> c in s
    ensures forall c :: c in s && !IsWhitespace(c) ==> c in TrimEnd(s)
  {
    hide IsWhitespace;
    var t := TrimEnd(s);
    forall i | 0 <= i < |t| ensures t[i] == s[i] {
      assert s[..|t|][i] == s[i];
    }
    forall c | c in s && !IsWhitespace(c) ensures c in t {
      var i :| 0 <= i < |s| && s[i] == c;
      assert t[i] == c;
    }
  }

  lemma {:induction false} StartIsStripped(before: string, s: string)
    requires forall i :: 0 <= i < |before| ==> IsWhitespace(before[i])
    ensures TrimStart(before + s) == TrimStart(s)
    decreases |before|
  {
    hide IsWhitespace;
    if before == "" {
      assert before + s == s;
    } else {
      assert (before + s)[0] == before[0] && (before + s)[1..] == before[1..] + s;
      StartIsStripped(before[1..], s);
    }
  }

  lemma {:induction false} EndIsStripped(s: string, after: string)
    requires forall i :: 0 <= i < |after| ==> IsWhitespace(after[i])
    ensures TrimEnd(s + after) == TrimEnd(s)
    decreases |after|
  {
    hide IsWhitespace;
    if after == "" {
      assert s + after == s;
    } else {
      var front := after[..|after| - 1];
      assert (s + after)[|s + after| - 1] == after[|after| - 1];
      assert (s + after)[..|s + after| - 1] == s + front;
      EndIsStripped(s, front);
    }
  }

  lemma {:induction false} NothingIsLeft(s: string)
    requires forall i :: 0 <= i < |s| ==> IsWhitespace(s[i])
    ensures TrimStart(s) == "" == TrimEnd(s)
  {
    hide IsWhitespace;
    StartIsStripped(s, "");
    EndIsStripped("", s);
    assert s + "" == s && "" + s == s;
  }

  lemma {:induction false} StartKeepsEnd(s: string, after: string)
    requires exists i :: 0 <= i < |s| && !IsWhitespace(s[i])
    ensures TrimStart(s + after) == TrimStart(s) + after
    decreases |s|
  {
    hide IsWhitespace;
    assert (s + after)[0] == s[0];
    if IsWhitespace(s[0]) {
      var i :| 0 <= i < |s| && !IsWhitespace(s[i]);
      assert s[1..][i - 1] == s[i];
      assert (s + after)[1..] == s[1..] + after;
      StartKeepsEnd(s[1..], after);
    }
  }

  /** White space around a text does not matter, whatever the text. */
  lemma TrimStrips(before: string, s: string, after: string)
    requires forall i :: 0 <= i < |before| ==> IsWhitespace(before[i])
    requires forall i :: 0 <= i < |after| ==> IsWhitespace(after[i])
    ensures Trim(before + s + after) == Trim(s)
  {
    hide IsWhitespace;
    assert before + s + after == before + (s + after);
    StartIsStripped(before, s + after);
    if exists i :: 0 <= i < |s| && !IsWhitespace(s[i]) {
      StartKeepsEnd(s, after);
      EndIsStripped(TrimStart(s), after);
    } else {
      NothingIsLeft(s);
      forall i | 0 <= i < |s + after| ensures IsWhitespace((s + after)[i]) {
      }
      NothingIsLeft(s + after);
    }
  }

  /** The white space of Unicode, by code point. */
  lemma WhitespaceIs(c: char)
    ensures IsWhitespace(c)
        <==> || c as int in {9, 10, 11, 12, 13, 32, 133, 160, 5760, 8232, 8233, 8239, 8287, 12288}
             || 8192 <= c as int <= 8202
  {
  }

  // ---- Letter case ----

  function Lower(c: char): char {
    if 'A' <= c <= 'Z' then (c as int + 32) as char else c
  }

  /** Each of the 26 letters has its small one, and no other character is changed. */
  lemma SmallLetters(c: char, i: nat)
    requires i < 26
    ensures Lower("ABCDEFGHIJKLMNOPQRSTUVWXYZ"[i]) == "abcdefghijklmnopqrstuvwxyz"[i]
    ensures Lower(c) == c || c in "ABCDEFGHIJKLMNOPQRSTUVWXYZ"
  {
    if Lower(c) != c {
      assert "ABCDEFGHIJKLMNOPQRSTUVWXYZ"[c as int - 65] == c;
    }
  }

  function ToAsciiLowercase(s: string): (t: string)
    ensures |t| == |s| && forall i :: 0 <= i < |s| ==> t[i] == Lower(s[i])
  {
    seq(|s|, i requires 0 <= i < |s| => Lower(s[i]))
  }

  predicate EqIgnoreAsciiCase(a: string, b: string) {
    ToAsciiLowercase(a) == ToAsciiLowercase(b)
  }

  // ---- Numbers ----

  predicate IsDigit(c: char) { '0' <= c <= '9' }

  predicate AllDigits(s: string) { forall i :: 0 <= i < |s| ==> IsDigit(s[i]) }

  function DigitOf(n: nat): (c: char)
    requires n < 10
    ensures IsDigit(c)
  {
    ('0' as int + n) as char
  }

  function DigitValue(c: char): (n: nat)
    requires IsDigit(c)
    ensures n < 10
  {
    c as int - '0' as int
  }

  function Decimal(n: nat): (s: string)
    ensures s != "" && AllDigits(s)
  {
    if n < 10 then [DigitOf(n)] else Decimal(n / 10) + [DigitOf(n % 10)]
  }

  function Value(s: string): nat
    requires AllDigits(s)
  {
    if s == "" then 0 else Value(s[..|s| - 1]) * 10 + DigitValue(s[|s| - 1])
  }

  /** `parse::<u16>`: digits with an optional plus sign, at most 65535. */
  function ParseU16(s: string): (n: Option<nat>)
    ensures n.Some? ==> n.value < 65536
  {
    var digits := if s != "" && s[0] == '+' then s[1..] else s;
    if digits != "" && AllDigits(digits) && Value(digits) < 65536 then Some(Value(digits)) else None
  }

  /** The ten digits, and how a number goes on. */
  lemma DecimalDigits(n: nat)
    requires n >= 10
    ensures Decimal(n) == Decimal(n / 10) + ["0123456789"[n % 10]]
    ensures forall k: nat :: k < 10 ==> Decimal(k) == ["0123456789"[k]]
  {
  }

  lemma {:induction false} ValueOfDecimal(n: nat)
    ensures Value(Decimal(n)) == n
  {
    if n >= 10 {
      ValueOfDecimal(n / 10);
      assert Decimal(n)[..|Decimal(n)| - 1] == Decimal(n / 10);
    } else {
      assert Decimal(n)[..0] == "";
    }
  }

  /** Leading zeros and one plus sign do not matter. */
  lemma {:induction false} ZerosBefore(zeros: nat, s: string)
    requires AllDigits(s)
    ensures AllDigits(Zeros(zeros) + s) && Value(Zeros(zeros) + s) == Value(s)
    decreases |s|
  {
    if s == "" {
      assert Zeros(zeros) + s == Zeros(zeros);
      ZerosAreNothing(zeros);
    } else {
      var front := s[..|s| - 1];
      ZerosBefore(zeros, front);
      assert (Zeros(zeros) + s)[..|Zeros(zeros) + s| - 1] == Zeros(zeros) + front;
    }
  }

  function Zeros(n: nat): string {
    seq(n, _ => '0')
  }

  lemma {:induction false} ZerosAreNothing(n: nat)
    ensures Value(Zeros(n)) == 0
  {
    if n > 0 {
      assert Zeros(n)[..n - 1] == Zeros(n - 1);
      ZerosAreNothing(n - 1);
    }
  }

  /** A 16-bit number is read from its digits, behind zeros and a plus sign if there are any. */
  lemma ParseReadsDecimal(plus: bool, zeros: nat, n: nat)
    ensures ParseU16((if plus then "+" else "") + (Zeros(zeros) + Decimal(n))) == if n < 65536 then Some(n) else None
  {
    hide Decimal, Value;
    var digits := Zeros(zeros) + Decimal(n);
    ZerosBefore(zeros, Decimal(n));
    ValueOfDecimal(n);
    assert IsDigit(digits[0]);
    assert ("+" + digits)[1..] == digits && "" + digits == digits;
  }

  lemma ParseInvertsDecimal(n: nat)
    ensures ParseU16(Decimal(n)) == if n < 65536 then Some(n) else None
  {
    ValueOfDecimal(n);
    assert IsDigit(Decimal(n)[0]);
  }
}
