/**
 * The text handed to the speech synthesiser.
 *
 * `cleanForSpeech` (ChatBotGUI.java:333-349) is a fixed chain of twelve
 * steps: eleven regular-expression replacements followed by `trim()`. Each
 * step is one function below. The Unicode categories `\p{So}` (other symbol) and
 * `\p{Cn}` (unassigned) are not tabulated: the caller supplies them as the
 * predicate `symbolic`, and `UnicodeFacts` lists the few facts about them
 * that the lemmas use. Java's `\s` (without UNICODE_CHARACTER_CLASS) is the
 * six ASCII characters of `IsSpace`, and `String.trim()` strips every
 * character at or below U+0020 from both ends.
 *
 * `EscapeQuotes` is the `safeText` escaping of ChatBotGUI.java:367, which
 * prepares a cleaned text for a PowerShell double-quoted string literal.
 */
module SpeechText {
  import opened Wrappers

  // ---------------------------------------------------------------------
  // Character classes
  // ---------------------------------------------------------------------

  /** Java's `\s`: space, tab, newline, vertical tab, form feed, carriage return. */
  predicate IsSpace(c: char) {
    c == ' ' || c == '\t' || c == '\n' || c == '\U{000B}' || c == '\U{000C}' || c == '\r'
  }

  /** The characters `String.trim()` removes from the ends. */
  predicate IsTrimmable(c: char) {
    c <= ' '
  }

  /** The class `[‘’`]` of the first step. */
  const SingleQuoteLike: set<char> := {'\U{2018}', '\U{2019}', '`'}

  /** The class `[“”]` of the second step. */
  const DoubleQuoteLike: set<char> := {'\U{201C}', '\U{201D}'}

  /** The class `[*_~`>#|=\[\]\(\){}]` of the fourth step. */
  const MarkupChars: set<char> := {'*', '_', '~', '`', '>', '#', '|', '=', '[', ']', '(', ')', '{', '}'}

  /** The class `[@#$%^&+=<>]` of the seventh step. */
  const DecorativeChars: set<char> := {'@', '#', '$', '%', '^', '&', '+', '=', '<', '>'}

  /** The characters that no cleaned text contains. */
  predicate IsUnspoken(c: char) {
    c in SingleQuoteLike || c in DoubleQuoteLike || c in MarkupChars || c in DecorativeChars
  }

  /** The alternatives `😊|🙂|😄`. */
  const HappyFaces: seq<string> := ["\U{1F60A}", "\U{1F642}", "\U{1F604}"]

  /** The alternatives `😢|😭|💔`. */
  const SadFaces: seq<string> := ["\U{1F622}", "\U{1F62D}", "\U{1F494}"]

  /** The alternatives `🔥|❤️`; the heart is U+2764 followed by the variation selector U+FE0F. */
  const HeartAndFire: seq<string> := ["\U{1F525}", "\U{2764}\U{FE0F}"]

  /**
   * What the model assumes of the predicate standing for `[\p{So}\p{Cn}]`:
   * no ASCII character is in `[\p{So}\p{Cn}]`, and the first character of
   * each emoji the mapping steps look for is in `[\p{So}\p{Cn}]` (an
   * other-symbol, or unassigned in the Unicode versions before the emoji).
   */
  ghost predicate UnicodeFacts(symbolic: char -> bool) {
    && (forall c: char :: c <= '\U{7F}' ==> !symbolic(c))
    && (forall c :: c in Heads(HappyFaces) ==> symbolic(c))
    && (forall c :: c in Heads(SadFaces) ==> symbolic(c))
    && (forall c :: c in Heads(HeartAndFire) ==> symbolic(c))
  }

  // ---------------------------------------------------------------------
  // Generic replacements
  // ---------------------------------------------------------------------

  /** Whether `prefix` begins `s`. */
  predicate StartsWith(s: string, prefix: string) {
    |prefix| <= |s| && s[..|prefix|] == prefix
  }

  /** `replaceAll("[...]", to)`: every character of `from` becomes `to`. */
  function ReplaceChars(s: string, from: set<char>, to: char): string {
    if s == [] then []
    else [if s[0] in from then to else s[0]] + ReplaceChars(s[1..], from, to)
  }

  /** Replacing a character class adds no character but `to`, and changes nothing when the class does not occur. */
  lemma {:induction false} ReplaceCharsLemma(s: string, from: set<char>, to: char)
    ensures forall c :: c in ReplaceChars(s, from, to) ==> (c in s && c !in from) || c == to
    ensures (forall c :: c in s ==> c !in from) ==> ReplaceChars(s, from, to) == s
  {
    if s != [] {
      ReplaceCharsLemma(s[1..], from, to);
      assert s == [s[0]] + s[1..];
    }
  }

  /** `replaceAll("[...]", "")`: every character `drop` holds of is deleted. */
  function DeleteChars(s: string, drop: char -> bool): string {
    if s == [] then []
    else if drop(s[0]) then DeleteChars(s[1..], drop)
    else [s[0]] + DeleteChars(s[1..], drop)
  }

  /** Deleting keeps only characters of `s` that `drop` does not hold of, and changes nothing when there is nothing to drop. */
  lemma {:induction false} DeleteCharsLemma(s: string, drop: char -> bool)
    ensures forall c :: c in DeleteChars(s, drop) ==> c in s && !drop(c)
    ensures (forall c :: c in s ==> !drop(c)) ==> DeleteChars(s, drop) == s
  {
    if s != [] {
      DeleteCharsLemma(s[1..], drop);
      assert s == [s[0]] + s[1..];
    }
  }

  /** The first characters of the non-empty alternatives. */
  function Heads(alternatives: seq<string>): set<char> {
    if alternatives == [] then {}
    else (if alternatives[0] == [] then {} else {alternatives[0][0]}) + Heads(alternatives[1..])
  }

  /**
   * The length of the match of `a1|a2|...` at the start of `s`: the first
   * non-empty alternative that begins `s`, or 0 when none does.
   */
  function AlternativeMatch(s: string, alternatives: seq<string>): (n: nat)
    ensures n <= |s|
    ensures n > 0 ==> s[0] in Heads(alternatives)
  {
    if alternatives == [] then 0
    else if alternatives[0] != [] && StartsWith(s, alternatives[0]) then |alternatives[0]|
    else AlternativeMatch(s, alternatives[1..])
  }

  /** `replaceAll("a1|a2|...", replacement)`, scanning left to right. */
  function ReplaceAlternatives(s: string, alternatives: seq<string>, replacement: string): string
    decreases |s|
  {
    if s == [] then []
    else
      var n := AlternativeMatch(s, alternatives);
      if n > 0 then replacement + ReplaceAlternatives(s[n..], alternatives, replacement)
      else [s[0]] + ReplaceAlternatives(s[1..], alternatives, replacement)
  }

  /**
   * Replacing alternatives adds only the replacement's characters, and
   * changes nothing when no character of `s` can begin an alternative.
   */
  lemma {:induction false} ReplaceAlternativesLemma(s: string, alternatives: seq<string>, replacement: string)
    ensures forall c :: c in ReplaceAlternatives(s, alternatives, replacement) ==> c in s || c in replacement
    ensures (forall c :: c in s ==> c !in Heads(alternatives)) ==> ReplaceAlternatives(s, alternatives, replacement) == s
    decreases |s|
  {
    if s != [] {
      var n := AlternativeMatch(s, alternatives);
      if n > 0 {
        ReplaceAlternativesLemma(s[n..], alternatives, replacement);
        assert forall c :: c in s[n..] ==> c in s;
      } else {
        ReplaceAlternativesLemma(s[1..], alternatives, replacement);
        assert s == [s[0]] + s[1..];
      }
    }
  }

  // ---------------------------------------------------------------------
  // The twelve steps of cleanForSpeech
  // ---------------------------------------------------------------------

  /** Step 1: `‘`, `’` and the backtick become `'`. */
  function NormalizeSingleQuotes(s: string): string {
    ReplaceChars(s, SingleQuoteLike, '\'')
  }

  /** Step 2: `“` and `”` become `"`. */
  function NormalizeDoubleQuotes(s: string): string {
    ReplaceChars(s, DoubleQuoteLike, '"')
  }

  /** Step 3: other symbols and unassigned code points are deleted. */
  function DeleteSymbols(s: string, symbolic: char -> bool): string {
    DeleteChars(s, symbolic)
  }

  /** Whether the fourth step deletes `c`. */
  predicate IsMarkup(c: char) {
    c in MarkupChars
  }

  /** Step 4: markup characters are deleted. */
  function DeleteMarkup(s: string): string {
    DeleteChars(s, IsMarkup)
  }

  /** The length of the non-`\s` run that begins `s`. */
  function NonSpaceRun(s: string): (n: nat)
    ensures n <= |s|
  {
    if s != [] && !IsSpace(s[0]) then 1 + NonSpaceRun(s[1..]) else 0
  }

  /** The length of `https?` followed by `://` at the start of `s`, or 0. */
  function SchemeLength(s: string): (n: nat)
    ensures n <= |s|
  {
    if StartsWith(s, "https://") then 8
    else if StartsWith(s, "http://") then 7
    else 0
  }

  /** The length of the match of `https?://\S+` at the start of `s`, or 0 when there is none. */
  function UrlLength(s: string): (n: nat)
    ensures n <= |s|
  {
    var k := SchemeLength(s);
    if k == 0 then 0
    else
      var run := NonSpaceRun(s[k..]);
      if run == 0 then 0 else k + run
  }

  /** Whether `https?://\S+` matches anywhere in `s`. */
  predicate ContainsUrl(s: string) {
    exists i :: 0 <= i < |s| && UrlLength(s[i..]) > 0
  }

  /** Step 5: every `https?://\S+` is deleted. */
  function RemoveUrls(s: string): string
    decreases |s|
  {
    if s == [] then []
    else
      var n := UrlLength(s);
      if n > 0 then RemoveUrls(s[n..]) else [s[0]] + RemoveUrls(s[1..])
  }

  /** Removing links adds no character. */
  lemma {:induction false} RemoveUrlsKeepsCharacters(s: string)
    ensures forall c :: c in RemoveUrls(s) ==> c in s
    decreases |s|
  {
    if s != [] {
      var n := UrlLength(s);
      if n > 0 {
        RemoveUrlsKeepsCharacters(s[n..]);
        assert forall c :: c in s[n..] ==> c in s;
      } else {
        RemoveUrlsKeepsCharacters(s[1..]);
      }
    }
  }

  /** Removing links changes nothing when no link matches. */
  lemma {:induction false} RemoveUrlsWithoutLinks(s: string)
    requires !ContainsUrl(s)
    ensures RemoveUrls(s) == s
    decreases |s|
  {
    if s != [] {
      assert s[0..] == s;
      assert UrlLength(s) == 0;
      assert !ContainsUrl(s[1..]) by {
        forall i | 0 <= i < |s[1..]| ensures s[1..][i..] == s[i + 1..] { }
      }
      RemoveUrlsWithoutLinks(s[1..]);
      assert s == [s[0]] + s[1..];
    }
  }

  /** The first position at or after `from` where three backticks begin, if any. */
  function FenceAt(s: string, from: nat): (k: Option<nat>)
    ensures k.Some? ==> from <= k.value && k.value + 3 <= |s|
    decreases |s| - from
  {
    if from + 3 > |s| then None
    else if s[from..from + 3] == "```" then Some(from)
    else FenceAt(s, from + 1)
  }

  /** The length of the match of the lazy pattern ```` ```[\s\S]*?``` ```` at the start of `s`, or 0. */
  function FenceLength(s: string): (n: nat)
    ensures n <= |s|
    ensures n > 0 ==> s[0] == '`'
  {
    if !StartsWith(s, "```") then 0
    else
      match FenceAt(s, 3)
      case None => 0
      case Some(k) => k + 3
  }

  /** Step 6: every fenced code block is deleted. */
  function RemoveFences(s: string): string
    decreases |s|
  {
    if s == [] then []
    else
      var n := FenceLength(s);
      if n > 0 then RemoveFences(s[n..]) else [s[0]] + RemoveFences(s[1..])
  }

  /** Removing fences adds no character, and changes nothing in a text without backticks. */
  lemma {:induction false} RemoveFencesLemma(s: string)
    ensures forall c :: c in RemoveFences(s) ==> c in s
    ensures '`' !in s ==> RemoveFences(s) == s
    decreases |s|
  {
    if s != [] {
      var n := FenceLength(s);
      if n > 0 {
        RemoveFencesLemma(s[n..]);
        assert forall c :: c in s[n..] ==> c in s;
      } else {
        RemoveFencesLemma(s[1..]);
        assert s == [s[0]] + s[1..];
      }
    }
  }

  /** Whether the seventh step deletes `c`. */
  predicate IsDecorative(c: char) {
    c in DecorativeChars
  }

  /** Step 7: decorative characters are deleted. */
  function DeleteDecorations(s: string): string {
    DeleteChars(s, IsDecorative)
  }

  /** Step 8: happy faces become " happy ". */
  function MapHappyFaces(s: string): string {
    ReplaceAlternatives(s, HappyFaces, " happy ")
  }

  /** Step 9: sad faces become " sad ". */
  function MapSadFaces(s: string): string {
    ReplaceAlternatives(s, SadFaces, " sad ")
  }

  /** Step 10: fire and the red heart become " heart ". */
  function MapHeartAndFire(s: string): string {
    ReplaceAlternatives(s, HeartAndFire, " heart ")
  }

  /** The length of the `\s` run that begins `s`. */
  function SpaceRun(s: string): (n: nat)
    ensures n <= |s|
    ensures forall i :: 0 <= i < n ==> IsSpace(s[i])
    ensures n < |s| ==> !IsSpace(s[n])
  {
    if s != [] && IsSpace(s[0]) then 1 + SpaceRun(s[1..]) else 0
  }

  /** No two neighbouring characters are both `\s`. */
  predicate NoAdjacentSpaces(s: string) {
    forall i :: 0 < i < |s| ==> !IsSpace(s[i - 1]) || !IsSpace(s[i])
  }

  /** Putting one character in front keeps the property exactly when it does not meet a `\s` with a `\s`. */
  lemma NoAdjacentSpacesCons(x: char, t: string)
    ensures NoAdjacentSpaces([x] + t) <==> NoAdjacentSpaces(t) && (t == [] || !IsSpace(x) || !IsSpace(t[0]))
  {
    var s := [x] + t;
    if NoAdjacentSpaces(t) && (t == [] || !IsSpace(x) || !IsSpace(t[0])) {
      forall i | 0 < i < |s| ensures !IsSpace(s[i - 1]) || !IsSpace(s[i]) {
        if i > 1 {
          assert s[i - 1] == t[i - 2] && s[i] == t[i - 1];
        }
      }
    }
    if NoAdjacentSpaces(s) {
      forall i | 0 < i < |t| ensures !IsSpace(t[i - 1]) || !IsSpace(t[i]) {
        assert t[i - 1] == s[i] && t[i] == s[i + 1];
      }
      if t != [] {
        assert s[0] == x && s[1] == t[0];
      }
    }
  }

  /** Step 11: every run of two or more `\s` becomes one space. */
  function CollapseSpaces(s: string): string
    decreases |s|
  {
    if s == [] then []
    else
      var n := SpaceRun(s);
      if n >= 2 then " " + CollapseSpaces(s[n..]) else [s[0]] + CollapseSpaces(s[1..])
  }

  /**
   * After collapsing, no two neighbouring characters are `\s`; the result
   * begins with `\s` only if `s` does; the only character added is the
   * space; and a text without neighbouring `\s` is left as it is.
   */
  lemma {:induction false} CollapseSpacesLemma(s: string)
    ensures NoAdjacentSpaces(CollapseSpaces(s))
    ensures CollapseSpaces(s) != [] && IsSpace(CollapseSpaces(s)[0]) ==> s != [] && IsSpace(s[0])
    ensures forall c :: c in CollapseSpaces(s) ==> c in s || c == ' '
    ensures NoAdjacentSpaces(s) ==> CollapseSpaces(s) == s
    decreases |s|
  {
    if s != [] {
      var n := SpaceRun(s);
      if n >= 2 {
        var rest := CollapseSpaces(s[n..]);
        CollapseSpacesLemma(s[n..]);
        assert forall c :: c in s[n..] ==> c in s;
        NoAdjacentSpacesCons(' ', rest);
        assert IsSpace(s[0]) && IsSpace(s[1]);
      } else {
        var rest := CollapseSpaces(s[1..]);
        CollapseSpacesLemma(s[1..]);
        NoAdjacentSpacesCons(s[0], rest);
        assert s == [s[0]] + s[1..];
        NoAdjacentSpacesCons(s[0], s[1..]);
      }
    }
  }

  /** The number of characters at or below U+0020 that begin `s`. */
  function LeadingTrimmable(s: string): (k: nat)
    ensures k <= |s|
    ensures forall i :: 0 <= i < k ==> IsTrimmable(s[i])
    ensures k < |s| ==> !IsTrimmable(s[k])
  {
    if s == [] || !IsTrimmable(s[0]) then 0 else 1 + LeadingTrimmable(s[1..])
  }

  /** Where the characters at or below U+0020 that end `s` begin. */
  function TrailingStart(s: string): (m: nat)
    ensures m <= |s|
    ensures forall i :: m <= i < |s| ==> IsTrimmable(s[i])
    ensures m > 0 ==> !IsTrimmable(s[m - 1])
  {
    if s == [] || !IsTrimmable(s[|s| - 1]) then |s| else TrailingStart(s[..|s| - 1])
  }

  /** Step 12, Java's `String.trim()`: the text between the leading and the trailing characters at or below U+0020. */
  function Trim(s: string): string {
    var k := LeadingTrimmable(s);
    var m := TrailingStart(s);
    if k < m then s[k..m] else []
  }

  /**
   * `trim()` gives the slice of `s` between its leading and its trailing
   * characters at or below U+0020, and that slice neither begins nor ends
   * with such a character.
   */
  lemma TrimIsSlice(s: string)
    ensures LeadingTrimmable(s) + |Trim(s)| <= |s|
    ensures Trim(s) == s[LeadingTrimmable(s)..LeadingTrimmable(s) + |Trim(s)|]
    ensures Trim(s) != [] ==> !IsTrimmable(Trim(s)[0]) && !IsTrimmable(Trim(s)[|Trim(s)| - 1])
  {
    var k := LeadingTrimmable(s);
    var m := TrailingStart(s);
    if k < m {
      assert Trim(s) == s[k..m];
    } else {
      assert Trim(s) == [];
    }
  }

  /** Everything `trim()` drops is at or below U+0020. */
  lemma TrimDropsOnlyTrimmable(s: string)
    ensures forall i :: 0 <= i < LeadingTrimmable(s) ==> IsTrimmable(s[i])
    ensures forall i :: LeadingTrimmable(s) + |Trim(s)| <= i < |s| ==> IsTrimmable(s[i])
  {
    var k := LeadingTrimmable(s);
    var m := TrailingStart(s);
    if k >= m {
      assert Trim(s) == [];
    }
  }

  /** `trim()` gives the empty text exactly when every character is at or below U+0020. */
  lemma TrimBlank(s: string)
    ensures Trim(s) == [] <==> forall i :: 0 <= i < |s| ==> IsTrimmable(s[i])
  {
    TrimIsSlice(s);
    TrimDropsOnlyTrimmable(s);
    if Trim(s) != [] {
      assert s[LeadingTrimmable(s)] == Trim(s)[0];
    }
  }

  /** `trim()` adds no character and keeps neighbouring `\s` apart. */
  lemma TrimKeepsCharacters(s: string)
    ensures forall c :: c in Trim(s) ==> c in s
    ensures NoAdjacentSpaces(s) ==> NoAdjacentSpaces(Trim(s))
  {
    TrimIsSlice(s);
    var r := Trim(s);
    var k := LeadingTrimmable(s);
    forall c | c in r ensures c in s {
      var i :| 0 <= i < |r| && r[i] == c;
      assert s[k + i] == c;
    }
    if NoAdjacentSpaces(s) {
      forall i | 0 < i < |r| ensures !IsSpace(r[i - 1]) || !IsSpace(r[i]) {
        assert r[i - 1] == s[k + i - 1] && r[i] == s[k + i];
      }
    }
  }

  /** A text that neither begins nor ends with a character at or below U+0020 is left as it is. */
  lemma TrimKeepsTrimmed(s: string)
    requires s != [] ==> !IsTrimmable(s[0]) && !IsTrimmable(s[|s| - 1])
    ensures Trim(s) == s
  {
    assert s[0..|s|] == s;
  }

  // ---------------------------------------------------------------------
  // The pipeline
  // ---------------------------------------------------------------------

  /** What every cleaned text is like. */
  predicate IsSpeakable(s: string) {
    && (s != [] ==> !IsTrimmable(s[0]) && !IsTrimmable(s[|s| - 1]))
    && NoAdjacentSpaces(s)
    && (forall i :: 0 <= i < |s| ==> !IsUnspoken(s[i]))
  }

  /** The twelve steps of `cleanForSpeech` on a non-null text, in the source's order. */
  function CleanText(text: string, symbolic: char -> bool): string {
    Trim(CollapseSpaces(
      MapHeartAndFire(MapSadFaces(MapHappyFaces(
        DeleteDecorations(RemoveFences(RemoveUrls(DeleteMarkup(
          DeleteSymbols(NormalizeDoubleQuotes(NormalizeSingleQuotes(text)), symbolic))))))))))
  }

  /**
   * `cleanForSpeech`: null gives the empty text; anything else is trimmed,
   * has no two neighbouring `\s`, and keeps none of the quote, markup and
   * decorative characters the steps delete.
   */
  function CleanForSpeech(text: Option<string>, symbolic: char -> bool): (r: string)
    ensures text.None? ==> r == ""
    ensures IsSpeakable(r)
    ensures forall i :: 0 <= i < |r| ==> r[i] <= '\U{7F}' || !symbolic(r[i])
  {
    match text
    case None => ""
    case Some(t) => CleanTextIsSpeakable(t, symbolic); CleanText(t, symbolic)
  }

  /** Steps 1 to 7 leave no quote, markup, decorative or symbolic character. */
  lemma DeletionStepsLeaveNoUnspoken(t: string, symbolic: char -> bool)
    ensures var s7 := DeleteDecorations(RemoveFences(RemoveUrls(DeleteMarkup(
              DeleteSymbols(NormalizeDoubleQuotes(NormalizeSingleQuotes(t)), symbolic)))));
            forall c :: c in s7 ==> !IsUnspoken(c) && !symbolic(c)
  {
    var s1 := NormalizeSingleQuotes(t);
    ReplaceCharsLemma(t, SingleQuoteLike, '\'');
    var s2 := NormalizeDoubleQuotes(s1);
    ReplaceCharsLemma(s1, DoubleQuoteLike, '"');
    var s3 := DeleteSymbols(s2, symbolic);
    DeleteCharsLemma(s2, symbolic);
    var s4 := DeleteMarkup(s3);
    DeleteCharsLemma(s3, IsMarkup);
    var s5 := RemoveUrls(s4);
    RemoveUrlsKeepsCharacters(s4);
    var s6 := RemoveFences(s5);
    RemoveFencesLemma(s5);
    DeleteCharsLemma(s6, IsDecorative);
  }

  /** The characters of the replacement words " happy ", " sad " and " heart ". */
  const WordChars: set<char> := {' ', 'h', 'a', 'p', 'y', 's', 'd', 'e', 'r', 't'}

  /** The replacement words are plain ASCII and contain no unspoken character. */
  lemma WordCharIsSpoken(c: char)
    requires c in WordChars
    ensures !IsUnspoken(c) && c <= '\U{7F}'
  {
  }

  /** Every character of `w` is in `WordChars`. */
  lemma WordIsInWordChars(w: string)
    requires w in {" happy ", " sad ", " heart "}
    ensures forall c :: c in w ==> c in WordChars
  {
    forall c | c in w ensures c in WordChars {
      var i :| 0 <= i < |w| && w[i] == c;
    }
  }

  /** Steps 8 to 10 add nothing but the letters and spaces of their replacement words. */
  lemma EmojiStepsAddOnlyWords(s: string)
    ensures forall c :: c in MapHeartAndFire(MapSadFaces(MapHappyFaces(s))) ==> c in s || c in WordChars
  {
    WordIsInWordChars(" happy ");
    WordIsInWordChars(" sad ");
    WordIsInWordChars(" heart ");
    var s8 := MapHappyFaces(s);
    ReplaceAlternativesLemma(s, HappyFaces, " happy ");
    var s9 := MapSadFaces(s8);
    ReplaceAlternativesLemma(s8, SadFaces, " sad ");
    ReplaceAlternativesLemma(s9, HeartAndFire, " heart ");
  }

  /** Steps 11 and 12 give a trimmed text without neighbouring `\s`. */
  lemma LayoutStepsShape(s: string)
    ensures var r := Trim(CollapseSpaces(s));
            && (r != [] ==> !IsTrimmable(r[0]) && !IsTrimmable(r[|r| - 1]))
            && NoAdjacentSpaces(r)
  {
    CollapseSpacesLemma(s);
    TrimIsSlice(CollapseSpaces(s));
    TrimKeepsCharacters(CollapseSpaces(s));
  }

  /** Steps 11 and 12 add no character but the space. */
  lemma LayoutStepsKeepCharacters(s: string)
    ensures forall c :: c in Trim(CollapseSpaces(s)) ==> c in s || c == ' '
  {
    CollapseSpacesLemma(s);
    TrimKeepsCharacters(CollapseSpaces(s));
  }

  /** Steps 11 and 12 give a speakable text whenever their input has no unspoken character. */
  lemma LayoutStepsAreSpeakable(s: string)
    requires forall c :: c in s ==> !IsUnspoken(c)
    ensures IsSpeakable(Trim(CollapseSpaces(s)))
  {
    var r := Trim(CollapseSpaces(s));
    LayoutStepsShape(s);
    LayoutStepsKeepCharacters(s);
    WordCharIsSpoken(' ');
    forall i | 0 <= i < |r| ensures !IsUnspoken(r[i]) {
      assert r[i] in r;
    }
  }

  /** The text the whole pipeline produces is speakable, and every character it adds is ASCII. */
  lemma CleanTextIsSpeakable(t: string, symbolic: char -> bool)
    ensures IsSpeakable(CleanText(t, symbolic))
    ensures forall i :: 0 <= i < |CleanText(t, symbolic)| ==>
              CleanText(t, symbolic)[i] <= '\U{7F}' || !symbolic(CleanText(t, symbolic)[i])
  {
    var s7 := DeleteDecorations(RemoveFences(RemoveUrls(DeleteMarkup(
      DeleteSymbols(NormalizeDoubleQuotes(NormalizeSingleQuotes(t)), symbolic)))));
    DeletionStepsLeaveNoUnspoken(t, symbolic);
    var s10 := MapHeartAndFire(MapSadFaces(MapHappyFaces(s7)));
    EmojiStepsAddOnlyWords(s7);
    forall c | c in WordChars ensures !IsUnspoken(c) && c <= '\U{7F}' {
      WordCharIsSpoken(c);
    }
    assert forall c :: c in s10 ==> !IsUnspoken(c) && (c <= '\U{7F}' || !symbolic(c));
    LayoutStepsAreSpeakable(s10);
    LayoutStepsKeepCharacters(s10);
    var r := Trim(CollapseSpaces(s10));
    assert CleanText(t, symbolic) == r;
    forall i | 0 <= i < |r| ensures r[i] <= '\U{7F}' || !symbolic(r[i]) {
      assert r[i] in r;
    }
  }

  // ---------------------------------------------------------------------
  // The quote escaping for the synthesis script
  // ---------------------------------------------------------------------

  /** `text.replace("\"", "`\"")`: each double quote gets a PowerShell backtick escape. */
  function EscapeQuotes(s: string): (r: string)
    ensures forall i :: 0 <= i < |r| && r[i] == '"' ==> 0 < i && r[i - 1] == '`'
    ensures r != [] ==> r[0] != '"'
    ensures r == [] <==> s == []
  {
    if s == [] then []
    else if s[0] == '"' then "`\"" + EscapeQuotes(s[1..])
    else [s[0]] + EscapeQuotes(s[1..])
  }

  /**
   * How a PowerShell double-quoted literal reads an escaped double quote:
   * the two characters `` `" `` stand for one `"`. This is the only escape
   * read: PowerShell's other backtick escapes, `$` expansion and its curly
   * double-quote delimiters are not modelled.
   */
  function ReadEscapedQuotes(s: string): string
    decreases |s|
  {
    if s == [] then []
    else if StartsWith(s, "`\"") then "\"" + ReadEscapedQuotes(s[2..])
    else [s[0]] + ReadEscapedQuotes(s[1..])
  }

  /** Reading `` `" `` back as `"` gives the text that was escaped. */
  lemma {:induction false} EscapeQuotesRoundTrip(s: string)
    ensures ReadEscapedQuotes(EscapeQuotes(s)) == s
  {
    if s != [] {
      var rest := EscapeQuotes(s[1..]);
      EscapeQuotesRoundTrip(s[1..]);
      if s[0] == '"' {
        assert EscapeQuotes(s) == "`\"" + rest;
        assert StartsWith("`\"" + rest, "`\"");
        assert ("`\"" + rest)[2..] == rest;
      } else {
        assert EscapeQuotes(s) == [s[0]] + rest;
        assert |[s[0]] + rest| < 2 || ([s[0]] + rest)[1] != '"';
        assert ([s[0]] + rest)[1..] == rest;
      }
    }
  }

  /** The escaping only inserts backticks: with them deleted, the text is unchanged. */
  lemma {:induction false} EscapeQuotesOnlyAddsBackticks(s: string)
    requires '`' !in s
    ensures DeleteChars(EscapeQuotes(s), IsBacktick) == s
  {
    if s != [] {
      EscapeQuotesOnlyAddsBackticks(s[1..]);
      var rest := EscapeQuotes(s[1..]);
      if s[0] == '"' {
        assert EscapeQuotes(s) == ['`'] + (['"'] + rest);
        assert (['`'] + (['"'] + rest))[1..] == ['"'] + rest;
        assert (['"'] + rest)[1..] == rest;
      } else {
        assert ([s[0]] + rest)[1..] == rest;
      }
    }
  }

  /** The PowerShell escape character. */
  predicate IsBacktick(c: char) {
    c == '`'
  }

  // ---------------------------------------------------------------------
  // What the pipeline does as written
  // ---------------------------------------------------------------------

  /** Steps 1 to 7 leave no character that begins an emoji of steps 8 to 10, and no backtick. */
  lemma NoEmojiAfterDeletions(t: string, symbolic: char -> bool)
    requires UnicodeFacts(symbolic)
    ensures var s5 := RemoveUrls(DeleteMarkup(DeleteSymbols(NormalizeDoubleQuotes(NormalizeSingleQuotes(t)), symbolic)));
            && '`' !in s5
            && forall c :: c in DeleteDecorations(s5) ==>
                 c !in Heads(HappyFaces) && c !in Heads(SadFaces) && c !in Heads(HeartAndFire)
  {
    var s1 := NormalizeSingleQuotes(t);
    ReplaceCharsLemma(t, SingleQuoteLike, '\'');
    var s2 := NormalizeDoubleQuotes(s1);
    ReplaceCharsLemma(s1, DoubleQuoteLike, '"');
    var s3 := DeleteSymbols(s2, symbolic);
    DeleteCharsLemma(s2, symbolic);
    var s4 := DeleteMarkup(s3);
    DeleteCharsLemma(s3, IsMarkup);
    var s5 := RemoveUrls(s4);
    RemoveUrlsKeepsCharacters(s4);
    DeleteCharsLemma(s5, IsDecorative);
  }

  /**
   * As written, the fence removal (step 6) and the three emoji mappings
   * (steps 8 to 10) never change the text: backticks are already rewritten
   * by step 1, and every emoji they look for begins with a character in
   * `[\p{So}\p{Cn}]`, which step 3 has deleted.
   */
  lemma EmojiAndFenceStepsNeverFire(t: string, symbolic: char -> bool)
    requires UnicodeFacts(symbolic)
    ensures CleanText(t, symbolic)
         == Trim(CollapseSpaces(DeleteDecorations(RemoveUrls(DeleteMarkup(
              DeleteSymbols(NormalizeDoubleQuotes(NormalizeSingleQuotes(t)), symbolic))))))
  {
    var s5 := RemoveUrls(DeleteMarkup(DeleteSymbols(NormalizeDoubleQuotes(NormalizeSingleQuotes(t)), symbolic)));
    NoEmojiAfterDeletions(t, symbolic);
    RemoveFencesLemma(s5);
    var s7 := DeleteDecorations(s5);
    ReplaceAlternativesLemma(s7, HappyFaces, " happy ");
    ReplaceAlternativesLemma(s7, SadFaces, " sad ");
    ReplaceAlternativesLemma(s7, HeartAndFire, " heart ");
  }

  /** A text in which none of the twelve steps finds anything to change. */
  lemma CleanTextKeepsCleanText(s: string, symbolic: char -> bool)
    requires UnicodeFacts(symbolic)
    requires IsSpeakable(s)
    requires forall i :: 0 <= i < |s| ==> !symbolic(s[i])
    requires !ContainsUrl(s)
    ensures CleanText(s, symbolic) == s
  {
    assert forall c :: c in s ==> !IsUnspoken(c) && !symbolic(c);
    ReplaceCharsLemma(s, SingleQuoteLike, '\'');
    ReplaceCharsLemma(s, DoubleQuoteLike, '"');
    DeleteCharsLemma(s, symbolic);
    DeleteCharsLemma(s, IsMarkup);
    RemoveUrlsWithoutLinks(s);
    RemoveFencesLemma(s);
    DeleteCharsLemma(s, IsDecorative);
    ReplaceAlternativesLemma(s, HappyFaces, " happy ");
    ReplaceAlternativesLemma(s, SadFaces, " sad ");
    ReplaceAlternativesLemma(s, HeartAndFire, " heart ");
    CollapseSpacesLemma(s);
    TrimKeepsTrimmed(s);
  }

  /**
   * Cleaning a cleaned text changes nothing, provided no link is left in it.
   * The proviso is needed: see `CleaningCanUncoverALink`.
   */
  lemma CleanForSpeechIdempotentWithoutLinks(text: Option<string>, symbolic: char -> bool)
    requires UnicodeFacts(symbolic)
    requires !ContainsUrl(CleanForSpeech(text, symbolic))
    ensures CleanForSpeech(Some(CleanForSpeech(text, symbolic)), symbolic) == CleanForSpeech(text, symbolic)
  {
    var r := CleanForSpeech(text, symbolic);
    CleanTextKeepsCleanText(r, symbolic);
  }

  /** A character that steps 1 to 4 leave alone: ASCII, and neither quote-like nor markup. */
  predicate IsPlain(c: char) {
    c <= '\U{7F}' && c !in SingleQuoteLike && c !in DoubleQuoteLike && !IsMarkup(c)
  }

  /** Steps 1 to 4 leave a text of plain characters as it is. */
  lemma FirstStepsKeepPlainText(s: string, symbolic: char -> bool)
    requires UnicodeFacts(symbolic)
    requires forall i :: 0 <= i < |s| ==> IsPlain(s[i])
    ensures DeleteMarkup(DeleteSymbols(NormalizeDoubleQuotes(NormalizeSingleQuotes(s)), symbolic)) == s
  {
    ReplaceCharsLemma(s, SingleQuoteLike, '\'');
    ReplaceCharsLemma(s, DoubleQuoteLike, '"');
    DeleteCharsLemma(s, symbolic);
    DeleteCharsLemma(s, IsMarkup);
  }

  /** A link begins with `http`, followed by `:` or `s`, and is at least eight characters long. */
  lemma UrlShape(s: string)
    ensures UrlLength(s) > 0 ==> 8 <= |s| && s[0] == 'h' && (s[4] == ':' || s[4] == 's')
  {
    if UrlLength(s) > 0 {
      if StartsWith(s, "https://") {
        assert s[..8][0] == 'h' && s[..8][4] == 's';
      } else {
        assert StartsWith(s, "http://");
        assert s[..7][0] == 'h' && s[..7][4] == ':';
      }
    }
  }

  /** Deleting distributes over concatenation. */
  lemma {:induction false} DeleteCharsAppend(a: string, b: string, drop: char -> bool)
    ensures DeleteChars(a + b, drop) == DeleteChars(a, drop) + DeleteChars(b, drop)
  {
    if a == [] {
      assert a + b == b;
    } else {
      var ab := a + b;
      assert ab[0] == a[0];
      assert ab[1..] == a[1..] + b;
      DeleteCharsAppend(a[1..], b, drop);
      if drop(a[0]) {
        assert DeleteChars(ab, drop) == DeleteChars(a[1..] + b, drop);
      } else {
        assert DeleteChars(ab, drop) == [a[0]] + DeleteChars(a[1..] + b, drop);
      }
    }
  }


  /** The characters of `http@://x` are plain. */
  lemma BrokenLinkIsPlain()
    ensures forall i :: 0 <= i < |"http@://x"| ==> IsPlain("http@://x"[i])
  {
  }

  /** No link matches in `http@://x`. */
  lemma BrokenLinkHasNoLink()
    ensures !ContainsUrl("http@://x")
  {
    var s := "http@://x";
    forall i | 0 <= i < |s| ensures UrlLength(s[i..]) == 0 {
      UrlShape(s[i..]);
      if i <= 1 {
        assert s[i..][0] == s[i] && s[i..][4] == s[i + 4];
      }
    }
  }

  /** Step 7 keeps a text without decorative characters. */
  lemma DecorationStepKeeps(s: string)
    requires forall i :: 0 <= i < |s| ==> !IsDecorative(s[i])
    ensures DeleteDecorations(s) == s
  {
    DeleteCharsLemma(s, IsDecorative);
  }

  /** What step 7 does to the three parts of `http@://x`. */
  lemma DecorationStepOnParts()
    ensures DeleteDecorations("http") == "http"
    ensures DeleteDecorations("@") == []
    ensures DeleteDecorations("://x") == "://x"
  {
    DecorationStepKeeps("http");
    DecorationStepKeeps("://x");
  }

  /** Step 7 deletes the `@` of `http@://x`. */
  lemma DecorationStepJoinsTheLink()
    ensures DeleteDecorations("http@://x") == "http://x"
  {
    assert "http@://x" == "http" + ("@" + "://x");
    DeleteCharsAppend("http", "@" + "://x", IsDecorative);
    DeleteCharsAppend("@", "://x", IsDecorative);
    DecorationStepOnParts();
    assert "http" + "://x" == "http://x";
  }

  /** The characters of `http://x` are plain. */
  lemma WholeLinkIsPlain()
    ensures forall i :: 0 <= i < |"http://x"| ==> IsPlain("http://x"[i])
  {
  }

  /** Step 5 deletes all of `http://x`. */
  lemma WholeLinkIsRemoved()
    ensures RemoveUrls("http://x") == []
  {
    var s := "http://x";
    assert !StartsWith(s, "https://") by {
      assert s[..8][4] == ':';
    }
    assert StartsWith(s, "http://");
    assert s[7..] == "x";
    assert NonSpaceRun("x") == 1;
    assert UrlLength(s) == 8;
  }

  /** `http://x` has no `\s` and ends in letters, so steps 11 and 12 leave it as it is. */
  lemma LinkKeepsItsLayout()
    ensures Trim(CollapseSpaces("http://x")) == "http://x"
  {
    var s := "http://x";
    assert forall i :: 0 <= i < |s| ==> !IsSpace(s[i]);
    CollapseSpacesLemma(s);
    TrimKeepsTrimmed(s);
  }

  /** The first cleaning of `http@://x` keeps the link it completes. */
  lemma CleaningDeletesTheAt(symbolic: char -> bool)
    requires UnicodeFacts(symbolic)
    ensures CleanText("http@://x", symbolic) == "http://x"
  {
    EmojiAndFenceStepsNeverFire("http@://x", symbolic);
    BrokenLinkIsPlain();
    BrokenLinkHasNoLink();
    FirstStepsKeepPlainText("http@://x", symbolic);
    RemoveUrlsWithoutLinks("http@://x");
    DecorationStepJoinsTheLink();
    LinkKeepsItsLayout();
  }

  /** Cleaning `http://x` deletes all of it. */
  lemma CleaningDeletesTheLink(symbolic: char -> bool)
    requires UnicodeFacts(symbolic)
    ensures CleanText("http://x", symbolic) == ""
  {
    EmojiAndFenceStepsNeverFire("http://x", symbolic);
    WholeLinkIsPlain();
    WholeLinkIsRemoved();
    FirstStepsKeepPlainText("http://x", symbolic);
    assert Trim(CollapseSpaces(DeleteDecorations([]))) == [];
  }

  /**
   * Cleaning is not idempotent as written: the decorative `@` is deleted
   * (step 7) after links have been removed (step 5), so deleting it can
   * complete a link that a second cleaning then removes.
   */
  lemma CleaningCanUncoverALink(symbolic: char -> bool)
    requires UnicodeFacts(symbolic)
    ensures CleanForSpeech(Some("http@://x"), symbolic) == "http://x"
    ensures CleanForSpeech(Some(CleanForSpeech(Some("http@://x"), symbolic)), symbolic) == ""
  {
    CleaningDeletesTheAt(symbolic);
    CleaningDeletesTheLink(symbolic);
  }
}
