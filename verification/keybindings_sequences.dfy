/**
  Key sequences and single entries (src/config/keybindings.rs and `compile_keybinding_spec` in
  src/ui/interaction/actions.rs): how a text of keys falls into keystrokes, what the leader stands for in it, and
  exactly which entries do anything.
 */
module KeybindingsSequences {
  import opened Wrappers
  import opened Text
  import opened Keybindings

  // ---- Keystrokes ----

  predicate IsWord(s: string) {
    s != "" && forall i :: 0 <= i < |s| ==> !IsWhitespace(s[i])
  }

  /** The text of keystrokes, with some white space between them: `gaps[i]` stands before the word at `i`. */
  function Laid(words: seq<string>, gaps: seq<string>): string
    requires |gaps| == |words|
  {
    if words == [] then "" else gaps[0] + words[0] + Laid(words[1..], gaps[1..])
  }

  predicate IsGap(s: string, needed: bool) {
    (needed ==> s != "") && forall i :: 0 <= i < |s| ==> IsWhitespace(s[i])
  }

  lemma {:induction false} GapIsSkipped(gap: string, rest: string)
    requires IsGap(gap, false)
    ensures SplitWhitespace(gap + rest) == SplitWhitespace(rest)
    decreases |gap|
  {
    hide IsWhitespace;
    if gap == "" {
      assert gap + rest == rest;
    } else {
      assert (gap + rest)[0] == gap[0] && (gap + rest)[1..] == gap[1..] + rest;
      GapIsSkipped(gap[1..], rest);
    }
  }

  lemma {:induction false} WordEndIs(word: string, rest: string)
    requires (forall i :: 0 <= i < |word| ==> !IsWhitespace(word[i])) && (rest == "" || IsWhitespace(rest[0]))
    ensures WordEnd(word + rest) == |word|
    decreases |word|
  {
    hide IsWhitespace;
    if word == "" {
      assert word + rest == rest;
    } else {
      assert (word + rest)[0] == word[0] && (word + rest)[1..] == word[1..] + rest;
      WordEndIs(word[1..], rest);
    }
  }

  lemma WordIsTaken(word: string, rest: string)
    requires IsWord(word) && (rest == "" || IsWhitespace(rest[0]))
    ensures SplitWhitespace(word + rest) == [word] + SplitWhitespace(rest)
  {
    hide IsWhitespace;
    WordEndIs(word, rest);
    assert (word + rest)[0] == word[0];
    assert (word + rest)[..|word|] == word && (word + rest)[|word|..] == rest;
  }

  /** Any layout of words, with white space of any kind between them, splits into just these words. */
  lemma {:induction false} SplitsIntoWords(words: seq<string>, gaps: seq<string>, end: string)
    requires |gaps| == |words| && (forall i :: 0 <= i < |words| ==> IsWord(words[i]) && IsGap(gaps[i], i > 0))
    requires IsGap(end, false)
    ensures SplitWhitespace(Laid(words, gaps) + end) == words
    decreases |words|
  {
    hide IsWhitespace;
    if words == [] {
      assert Laid(words, gaps) + end == end + "";
      GapIsSkipped(end, "");
    } else {
      var tail := Laid(words[1..], gaps[1..]) + end;
      assert Laid(words, gaps) + end == gaps[0] + (words[0] + tail);
      GapIsSkipped(gaps[0], words[0] + tail);
      forall i | 0 <= i < |words| - 1 ensures IsWord(words[1..][i]) && IsGap(gaps[1..][i], i > 0) {
        assert IsGap(gaps[i + 1], true);
      }
      TailOpensBlank(words, gaps, end);
      WordIsTaken(words[0], tail);
      SplitsIntoWords(words[1..], gaps[1..], end);
    }
  }

  lemma TailOpensBlank(words: seq<string>, gaps: seq<string>, end: string)
    requires |gaps| == |words| > 0 && (forall i :: 0 < i < |words| ==> IsGap(gaps[i], true)) && IsGap(end, false)
    ensures var tail := Laid(words[1..], gaps[1..]) + end; tail == "" || IsWhitespace(tail[0])
  {
    hide IsWhitespace;
    if |words| > 1 {
      assert IsGap(gaps[1], true);
      assert gaps[1..][0] == gaps[1];
      assert (Laid(words[1..], gaps[1..]) + end)[0] == gaps[1][0];
    }
  }

  // ---- The leader ----

  function LedWord(word: string, leader: string): string {
    if ToAsciiLowercase(word) == "<leader>" then leader else word
  }

  /** The keystrokes with the leader put in for every `<leader>`, in any letter case. */
  function Led(words: seq<string>, leader: string): (led: seq<string>)
    ensures |led| == |words| && forall i :: 0 <= i < |words| ==> led[i] == LedWord(words[i], leader)
  {
    seq(|words|, i requires 0 <= i < |words| => LedWord(words[i], leader))
  }

  /** Words in order, with a space before each but where nothing has been written yet. */
  function Spaced(words: seq<string>): string {
    if words == [] then ""
    else
      var front, last := words[..|words| - 1], words[|words| - 1];
      Spaced(front) + (if Spaced(front) == "" then "" else " ") + last
  }

  lemma PushOne(before: seq<string>, word: string, leader: string)
    ensures Push(Spaced(before), word, leader) == Spaced(before + [LedWord(word, leader)])
  {
    LeaderIsLower(word);
    assert (before + [LedWord(word, leader)])[..|before|] == before;
  }

  lemma LedFirst(before: seq<string>, words: seq<string>, leader: string)
    requires words != []
    ensures before + Led(words, leader) == before + [LedWord(words[0], leader)] + Led(words[1..], leader)
  {
    hide ToAsciiLowercase;
  }

  lemma {:induction false} PushesSpaced(before: seq<string>, words: seq<string>, leader: string)
    ensures PushAll(Spaced(before), words, leader) == Spaced(before + Led(words, leader))
    decreases |words|
  {
    if words == [] {
      assert before + Led(words, leader) == before;
    } else {
      hide Push, Spaced, Led, LedWord;
      PushOne(before, words[0], leader);
      PushesSpaced(before + [LedWord(words[0], leader)], words[1..], leader);
      LedFirst(before, words, leader);
    }
  }

  lemma LeaderIsLower(word: string)
    ensures EqIgnoreAsciiCase(word, "<leader>") <==> ToAsciiLowercase(word) == "<leader>"
  {
    assert ToAsciiLowercase("<leader>") == "<leader>";
  }

  /** A resolved sequence has the keystrokes of the text in lower case, the leader's keys in the place of `<leader>`. */
  lemma ResolvedIsLed(keys: string, leader: string)
    ensures Resolved(keys, leader)
         == Spaced(Led(SplitWhitespace(ToAsciiLowercase(Trim(keys))), ToAsciiLowercase(Trim(leader))))
  {
    PushesSpaced([], SplitWhitespace(NormalizeKeys(keys)), NormalizeKeys(leader));
    assert [] + Led(SplitWhitespace(NormalizeKeys(keys)), NormalizeKeys(leader))
        == Led(SplitWhitespace(NormalizeKeys(keys)), NormalizeKeys(leader));
  }

  // ---- Single entries ----

  /** The keys can be pressed and the context is one: there is a keystroke, and all are valid. */
  predicate Pressable(rules: Rules, keys: string, context: Option<string>) {
    && keys != ""
    && (forall i :: 0 <= i < |SplitWhitespace(keys)| ==> rules.validKeystroke(SplitWhitespace(keys)[i]))
    && (context == None || rules.validContext(context.value))
  }

  lemma PressableIsValid(rules: Rules, keys: string, context: Option<string>)
    ensures ValidPlace(rules, keys, context) <==> Pressable(rules, keys, context)
  {
    if Pressable(rules, keys, context) {
      forall word | word in SplitWhitespace(keys) ensures rules.validKeystroke(word) {
      }
    }
  }

  /** An entry binds exactly when its keys can be pressed and its command exists and can be bound. */
  lemma BindsExactly(rules: Rules, binding: Keybinding, command: string)
    ensures ActionOf(rules, binding) == Bind(command)
        <==> && Pressable(rules, Resolved(binding.keys, rules.leader), NormalizeContext(binding.context))
             && !binding.unbind && command == Trim(binding.command) && command != ""
             && rules.bindable(command) && rules.registered(command)
  {
    PressableIsValid(rules, Resolved(binding.keys, rules.leader), NormalizeContext(binding.context));
    hide ValidPlace, Pressable, Resolved, Trim;
  }

  /**
    An entry unbinds exactly when its keys can be pressed and it names no command or one that can be bound; it
    unbinds that command alone if there is such a command, and everything otherwise.
   */
  lemma UnbindsExactly(rules: Rules, binding: Keybinding, which: Option<string>)
    ensures var command := Trim(binding.command);
            ActionOf(rules, binding) == Unbind(which)
            <==> && Pressable(rules, Resolved(binding.keys, rules.leader), NormalizeContext(binding.context))
                 && binding.unbind && (command == "" || rules.bindable(command))
                 && which == if command != "" && rules.registered(command) then Some(command) else None
  {
    PressableIsValid(rules, Resolved(binding.keys, rules.leader), NormalizeContext(binding.context));
    hide ValidPlace, Pressable, Resolved, Trim;
  }

  /** A context that is blank is none, and white space around one does not matter. */
  lemma ContextIsTrimmed(before: string, context: string, after: string)
    requires IsGap(before, false) && IsGap(after, false)
    ensures NormalizeContext(Some(before + context + after)) == NormalizeContext(Some(context))
    ensures NormalizeContext(Some(before)) == None == NormalizeContext(None)
  {
    TrimStrips(before, context, after);
    BlankTrimsToNothing(before);
    hide Trim, IsGap;
  }

  lemma BlankTrimsToNothing(blank: string)
    requires IsGap(blank, false)
    ensures Trim(blank) == ""
  {
    TrimStrips(blank, "", "");
    hide IsWhitespace, IsGap;
    assert blank + "" + "" == blank;
  }
}
