/**
  Single tokens of a bar template (`parse_bar_template_token` in src/config/bars.rs): what each keyword makes of its
  value, and which tokens are refused with which reason.
 */
module BarTemplateTokens {
  import opened Wrappers
  import opened Text
  import opened BarTemplate
  import opened BarTemplateRoundTrip

  /** A keyword without a colon, whatever its letter case and the white space around it. */
  predicate Spells(keyword: string, name: string) {
    ':' !in keyword && ToAsciiLowercase(Trim(keyword)) == name
  }

  lemma ValueIsParsed(keyword: string, value: string, position: nat)
    requires ':' !in keyword
    ensures ParseToken(keyword + ":" + value, position) == ParseValue(Trim(keyword), value, position)
  {
    hide Trim, Index, ParseValue, ParseWord;
    var token := keyword + ":" + value;
    assert token[|keyword|] == ':' && token[..|keyword|] == keyword && token[|keyword| + 1..] == value;
    IndexIs(token, |keyword|, ':');
    ColonSurvives(token);
  }

  lemma KeywordsAreLower()
    ensures ToAsciiLowercase("text") == "text" && ToAsciiLowercase("icon") == "icon"
    ensures ToAsciiLowercase("space") == "space"
  {
  }

  lemma KeywordsDiffer()
    ensures "text" != "icon" && "icon" != "space" && "text" != "space"
  {
    assert "text"[0] == 't' && "icon"[0] == 'i' && "space"[0] == 's';
  }

  /** An icon is known by its name, whatever its letter case and the white space around it. */
  lemma IconTokens(keyword: string, value: string, position: nat)
    requires Spells(keyword, "icon")
    ensures var parsed := ParseToken(keyword + ":" + value, position);
            if exists icon :: icon in ICONS && ToAsciiLowercase(icon) == ToAsciiLowercase(Trim(value))
            then parsed.Ok? && parsed.value.Icon? && parsed.value.icon in ICONS
                 && ToAsciiLowercase(parsed.value.icon) == ToAsciiLowercase(Trim(value))
            else parsed == Err(At(position, UnknownIcon(Trim(value))))
  {
    hide Trim, ICONS, ToAsciiLowercase, ParseU16, Bytes;
    ValueIsParsed(keyword, value, position);
    KeywordsAreLower();
    KeywordsDiffer();
  }

  /** A space is a number from 1 to 256, in decimal, with white space around it. */
  lemma SpaceTokens(keyword: string, before: string, count: nat, after: string, position: nat)
    requires Spells(keyword, "space")
    requires forall i :: 0 <= i < |before| ==> IsWhitespace(before[i])
    requires forall i :: 0 <= i < |after| ==> IsWhitespace(after[i])
    ensures ParseToken(keyword + ":" + (before + Decimal(count) + after), position)
         == if 1 <= count <= 256 then Ok(Space(count))
            else if count < 65536 then Err(At(position, SpaceOutOfRange)) else Err(At(position, SpaceNotANumber))
  {
    hide Trim, ToAsciiLowercase, ParseU16, Bytes, IsWhitespace;
    ValueIsParsed(keyword, before + Decimal(count) + after, position);
    KeywordsAreLower();
    KeywordsDiffer();
    TrimStrips(before, Decimal(count), after);
    DecimalIsTrimmed(count);
    ParseInvertsDecimal(count);
    hide Decimal;
  }

  lemma DecimalIsTrimmed(n: nat)
    ensures Trim(Decimal(n)) == Decimal(n)
  {
    hide Decimal;
    var s := Decimal(n);
    assert IsDigit(s[0]) && IsDigit(s[|s| - 1]);
    TrimOfTrimmed(s);
  }

  /** Any other keyword before a colon is refused by name. */
  lemma UnknownKeywords(keyword: string, value: string, position: nat)
    requires ':' !in keyword
    requires ToAsciiLowercase(Trim(keyword)) !in ["text", "icon", "space"]
    ensures ParseToken(keyword + ":" + value, position) == Err(At(position, UnknownKeyword(Trim(keyword))))
  {
    hide Trim, ToAsciiLowercase, ICONS, ParseU16, Bytes;
    ValueIsParsed(keyword, value, position);
    KeywordsAreLower();
  }

  /** A token of nothing but white space is refused as empty. */
  lemma EmptyTokens(token: string, position: nat)
    requires forall i :: 0 <= i < |token| ==> IsWhitespace(token[i])
    ensures ParseToken(token, position) == Err(At(position, EmptyToken))
  {
    hide IsWhitespace, Index, ParseValue, ParseWord;
    TrimStrips(token, "", "");
    assert token + "" + "" == token;
    assert Trim("") == "";
    hide Trim;
  }

  /**
    Without a colon a keyword alone is refused for want of one, and so is a space with a count behind a star; what
    is left is a name, or refused as unknown.
   */
  lemma WordTokens(token: string, position: nat)
    requires ':' !in token && Trim(token) != "" && Trim(token) != "|"
    ensures var word := Trim(token);
            var lower := ToAsciiLowercase(word);
            ParseToken(token, position)
            == if lower == "text" || lower == "icon" then Err(At(position, MissingColon))
               else if lower == "space" || CountsSpace(word) then Err(At(position, SpaceWithoutNumber))
               else if Hyphenated(ToAsciiLowercase(Trim(word))) in NAMES
               then Ok(Named(Hyphenated(ToAsciiLowercase(Trim(word)))))
               else Err(At(position, UnknownToken(word)))
  {
    hide Trim, ToAsciiLowercase, NAMES, Hyphenated, Index, ParseValue;
    KeywordsAreLower();
    StarSplits(Trim(token));
  }

  predicate IsCounted(word: string, keyword: string, count: string) {
    word == keyword + "*" + count && '*' !in keyword && ToAsciiLowercase(Trim(keyword)) == "space"
  }

  /** `space`, a star, and anything. */
  ghost predicate CountsSpace(word: string) {
    exists keyword, count :: IsCounted(word, keyword, count)
  }

  lemma CutAtStar(word: string, star: nat)
    requires star < |word| && word[star] == '*'
    ensures word == word[..star] + "*" + word[star + 1..]
  {
  }

  lemma StarIs(word: string, keyword: string, count: string)
    requires word == keyword + "*" + count && '*' !in keyword
    ensures Index(word, '*') == |keyword| < |word| && word[..|keyword|] == keyword
  {
    hide Index;
    assert word[|keyword|] == '*' && word[..|keyword|] == keyword;
    IndexIs(word, |keyword|, '*');
  }

  lemma StarSplits(word: string)
    ensures CountsSpace(word)
        <==> Index(word, '*') < |word| && EqIgnoreAsciiCase(Trim(word[..Index(word, '*')]), "space")
  {
    hide Trim, Index, ToAsciiLowercase, IsWhitespace;
    KeywordsAreLower();
    var star := Index(word, '*');
    if star < |word| && EqIgnoreAsciiCase(Trim(word[..star]), "space") {
      CutAtStar(word, star);
      assert IsCounted(word, word[..star], word[star + 1..]);
    }
    if keyword, count :| IsCounted(word, keyword, count) {
      StarIs(word, keyword, count);
    }
  }
}
