/** `utils/helpers.py`: the supported languages, the health keyword lists,
    `sanitize_text` and `validate_translation`. */
module Helpers {
  import opened Options
  import opened Text

  /** One entry of the language table: the name shown on the language
      buttons and the locale handed to speech recognition. */
  datatype Language = Language(name: string, speechCode: string)

  /** The supported languages, keyed by ISO 639-1 code. */
  const LanguageMap: map<string, Language> := map[
      "en" := Language("English", "en-US"),
      "hi" := Language("\U{0939}\U{093F}\U{0928}\U{094D}\U{0926}\U{0940}", "hi-IN"),
      "ta" := Language("\U{0BA4}\U{0BAE}\U{0BBF}\U{0BB4}\U{0BCD}", "ta-IN"),
      "te" := Language("\U{0C24}\U{0C46}\U{0C32}\U{0C41}\U{0C17}\U{0C41}", "te-IN"),
      "ml" := Language("\U{0D2E}\U{0D32}\U{0D2F}\U{0D3E}\U{0D33}\U{0D02}", "ml-IN"),
      "bn" := Language("\U{09AC}\U{09BE}\U{0982}\U{09B2}\U{09BE}", "bn-IN"),
      "kn" := Language("\U{0C95}\U{0CA8}\U{0CCD}\U{0CA8}\U{0CA1}", "kn-IN")
    ]

  /** Health terms per language; the English list decides whether a text is
      health related at all. */
  const HealthKeywords: map<string, seq<string>> := map[
      "en" := EnglishHealthKeywords,
      "hi" := ["\U{0938}\U{094D}\U{0935}\U{093E}\U{0938}\U{094D}\U{0925}\U{094D}\U{092F}", "\U{092C}\U{0941}\U{0916}\U{093E}\U{0930}", "\U{0938}\U{093F}\U{0930}\U{0926}\U{0930}\U{094D}\U{0926}", "\U{092E}\U{0927}\U{0941}\U{092E}\U{0947}\U{0939}", "\U{0916}\U{093E}\U{0902}\U{0938}\U{0940}", "\U{0926}\U{0930}\U{094D}\U{0926}", "\U{090F}\U{0932}\U{0930}\U{094D}\U{091C}\U{0940}", "\U{0930}\U{0915}\U{094D}\U{0924}", "\U{0939}\U{0943}\U{0926}\U{092F}", "\U{0938}\U{0902}\U{0915}\U{094D}\U{0930}\U{092E}\U{0923}"],
      "ta" := ["\U{0B86}\U{0BB0}\U{0BCB}\U{0B95}\U{0BCD}\U{0B95}\U{0BBF}\U{0BAF}\U{0BAE}\U{0BCD}", "\U{0B95}\U{0BBE}\U{0BAF}\U{0BCD}\U{0B9A}\U{0BCD}\U{0B9A}\U{0BB2}\U{0BCD}", "\U{0BA4}\U{0BB2}\U{0BC8}\U{0BB5}\U{0BB2}\U{0BBF}", "\U{0BA8}\U{0BC0}\U{0BB0}\U{0BBF}\U{0BB4}\U{0BBF}\U{0BB5}\U{0BC1}", "\U{0B87}\U{0BB0}\U{0BC1}\U{0BAE}\U{0BB2}\U{0BCD}", "\U{0BB5}\U{0BB2}\U{0BBF}", "\U{0B92}\U{0BB5}\U{0BCD}\U{0BB5}\U{0BBE}\U{0BAE}\U{0BC8}", "\U{0B87}\U{0BB0}\U{0BA4}\U{0BCD}\U{0BA4}\U{0BAE}\U{0BCD}", "\U{0B87}\U{0BA4}\U{0BAF}\U{0BAE}\U{0BCD}", "\U{0BA4}\U{0BCA}\U{0BB1}\U{0BCD}\U{0BB1}\U{0BC1}"],
      "te" := ["\U{0C06}\U{0C30}\U{0C4B}\U{0C17}\U{0C4D}\U{0C2F}\U{0C02}", "\U{0C1C}\U{0C4D}\U{0C35}\U{0C30}\U{0C02}", "\U{0C24}\U{0C32}\U{0C28}\U{0C4A}\U{0C2A}\U{0C4D}\U{0C2A}\U{0C3F}", "\U{0C21}\U{0C2F}\U{0C3E}\U{0C2C}\U{0C46}\U{0C1F}\U{0C3F}\U{0C38}\U{0C4D}", "\U{0C26}\U{0C17}\U{0C4D}\U{0C17}\U{0C41}", "\U{0C28}\U{0C4A}\U{0C2A}\U{0C4D}\U{0C2A}\U{0C3F}", "\U{0C05}\U{0C32}\U{0C46}\U{0C30}\U{0C4D}\U{0C1C}\U{0C40}", "\U{0C30}\U{0C15}\U{0C4D}\U{0C24}\U{0C02}", "\U{0C17}\U{0C41}\U{0C02}\U{0C21}\U{0C46}", "\U{0C38}\U{0C02}\U{0C15}\U{0C4D}\U{0C30}\U{0C2E}\U{0C23}\U{0C02}"],
      "ml" := ["\U{0D06}\U{0D30}\U{0D4B}\U{0D17}\U{0D4D}\U{0D2F}\U{0D02}", "\U{0D2A}\U{0D28}\U{0D3F}", "\U{0D24}\U{0D32}\U{0D35}\U{0D47}\U{0D26}\U{0D28}", "\U{0D2A}\U{0D4D}\U{0D30}\U{0D2E}\U{0D47}\U{0D39}\U{0D02}", "\U{0D15}\U{0D2B}\U{0D02}", "\U{0D35}\U{0D47}\U{0D26}\U{0D28}", "\U{0D05}\U{0D32}\U{0D7C}\U{0D1C}\U{0D3F}", "\U{0D30}\U{0D15}\U{0D4D}\U{0D24}\U{0D02}", "\U{0D39}\U{0D43}\U{0D26}\U{0D2F}\U{0D02}", "\U{0D05}\U{0D23}\U{0D41}\U{0D2C}\U{0D3E}\U{0D27}"],
      "bn" := ["\U{09B8}\U{09CD}\U{09AC}\U{09BE}\U{09B8}\U{09CD}\U{09A5}\U{09CD}\U{09AF}", "\U{099C}\U{09CD}\U{09AC}\U{09B0}", "\U{09AE}\U{09BE}\U{09A5}\U{09BE}\U{09AC}\U{09CD}\U{09AF}\U{09A5}\U{09BE}", "\U{09A1}\U{09BE}\U{09AF}\U{09BC}\U{09BE}\U{09AC}\U{09C7}\U{099F}\U{09BF}\U{09B8}", "\U{0995}\U{09BE}\U{09B6}\U{09BF}", "\U{09AC}\U{09CD}\U{09AF}\U{09A5}\U{09BE}", "\U{0985}\U{09CD}\U{09AF}\U{09BE}\U{09B2}\U{09BE}\U{09B0}\U{09CD}\U{099C}\U{09BF}", "\U{09B0}\U{0995}\U{09CD}\U{09A4}", "\U{09B9}\U{09C3}\U{09A6}\U{09AF}\U{09BC}", "\U{09B8}\U{0982}\U{0995}\U{09CD}\U{09B0}\U{09AE}\U{09A3}"],
      "kn" := ["\U{0C86}\U{0CB0}\U{0CCB}\U{0C97}\U{0CCD}\U{0CAF}", "\U{0C9C}\U{0CCD}\U{0CB5}\U{0CB0}", "\U{0CA4}\U{0CB2}\U{0CC6}\U{0CA8}\U{0CCB}\U{0CB5}\U{0CC1}", "\U{0CAE}\U{0CA7}\U{0CC1}\U{0CAE}\U{0CC7}\U{0CB9}", "\U{0C95}\U{0CC6}\U{0CAE}\U{0CCD}\U{0CAE}\U{0CC1}", "\U{0CA8}\U{0CCB}\U{0CB5}\U{0CC1}", "\U{0C85}\U{0CB2}\U{0CB0}\U{0CCD}\U{0C9C}\U{0CBF}", "\U{0CB0}\U{0C95}\U{0CCD}\U{0CA4}", "\U{0CB9}\U{0CC3}\U{0CA6}\U{0CAF}", "\U{0CB8}\U{0CCB}\U{0C82}\U{0C95}\U{0CC1}"]
    ]

  const EnglishHealthKeywords: seq<string> :=
    ["health", "fever", "headache", "diabetes", "cough", "pain", "allergy", "blood", "heart", "infection"]

  /** Phrases marking the profile set-up prompts, which skip the keyword check. */
  const SetupPrompts: seq<string> := ["name", "age", "set up", "ready", "provide"]

  /** Both tables cover the same seven languages. */
  lemma LanguageTables()
    ensures LanguageMap.Keys == HealthKeywords.Keys == {"en", "hi", "ta", "te", "ml", "bn", "kn"}
  {
  }

  /** Every language code is a two-letter code. */
  lemma LanguageCodeLength(code: string)
    requires code in LanguageMap
    ensures |code| == 2
  {
    LanguageTables();
  }

  /** Every language but English is recognised with its Indian locale. */
  lemma SpeechCodes(code: string)
    requires code in LanguageMap
    ensures LanguageMap[code].speechCode == code + (if code == "en" then "-US" else "-IN")
  {
  }

  // --------------------------------------------------------- sanitize_text

  /** `re.sub(r'[^\w\s]', '', text)`: every character that is neither a word
      character nor whitespace is deleted. The word class is a parameter. */
  function KeepWordsAndSpaces(text: string, isWord: char -> bool): (r: string)
    ensures |r| <= |text|
    ensures forall i :: 0 <= i < |r| ==> isWord(r[i]) || IsSpace(r[i])
  {
    if text == [] then []
    else
      var c := text[0];
      (if isWord(c) || IsSpace(c) then [c] else []) + KeepWordsAndSpaces(text[1..], isWord)
  }

  /** The substitution works character by character: on two pieces of text
      it keeps what it keeps of each, in order, and a single character is
      kept exactly when it is a word character or whitespace. */
  lemma {:induction false} KeepPerCharacter(a: string, b: string, c: char, isWord: char -> bool)
    ensures KeepWordsAndSpaces(a + b, isWord) == KeepWordsAndSpaces(a, isWord) + KeepWordsAndSpaces(b, isWord)
    ensures KeepWordsAndSpaces([c], isWord) == if isWord(c) || IsSpace(c) then [c] else []
    decreases |a|
  {
    assert KeepWordsAndSpaces([c], isWord) == (if isWord(c) || IsSpace(c) then [c] else []) + KeepWordsAndSpaces([], isWord);
    if a != [] {
      assert (a + b)[0] == a[0] && (a + b)[1..] == a[1..] + b;
      KeepPerCharacter(a[1..], b, c, isWord);
    } else {
      assert a + b == b;
    }
  }

  /** `sanitize_text`: punctuation removed, then surrounding whitespace. */
  function Sanitize(text: string, isWord: char -> bool): (r: string)
    ensures IsStripped(r) && |r| <= |text|
    ensures forall i :: 0 <= i < |r| ==> isWord(r[i]) || IsSpace(r[i])
  {
    var kept := KeepWordsAndSpaces(text, isWord);
    StripTrims(kept);
    Strip(kept)
  }

  /** `r` is `s` with some of its characters deleted, order kept. */
  predicate IsSubsequence(r: string, s: string)
    decreases |s|
  {
    if r == [] then true
    else if s == [] then false
    else if r[0] == s[0] then IsSubsequence(r[1..], s[1..])
    else IsSubsequence(r, s[1..])
  }

  lemma {:induction false} SubsequenceOfItself(s: string)
    ensures IsSubsequence(s, s)
    decreases |s|
  {
    if s != [] {
      SubsequenceOfItself(s[1..]);
    }
  }

  /** Deleting the first character keeps a subsequence a subsequence. */
  lemma {:induction false} SubsequenceDropFirst(r: string, s: string)
    requires r != [] && IsSubsequence(r, s)
    ensures IsSubsequence(r[1..], s)
    decreases |s|, 0
  {
    if r[0] != s[0] {
      SubsequenceDropFirst(r, s[1..]);
    }
    assert [s[0]] + s[1..] == s;
    SubsequenceOfLonger(r[1..], s[1..], s[0]);
  }

  /** Putting a character in front of `s` keeps every subsequence of `s`. */
  lemma {:induction false} SubsequenceOfLonger(r: string, s: string, c: char)
    requires IsSubsequence(r, s)
    ensures IsSubsequence(r, [c] + s)
    decreases |s|, 1
  {
    var cs := [c] + s;
    assert cs[1..] == s;
    if r != [] && r[0] == c {
      SubsequenceDropFirst(r, s);
    }
  }

  lemma {:induction false} SubsequenceTransitive(a: string, b: string, c: string)
    requires IsSubsequence(a, b) && IsSubsequence(b, c)
    ensures IsSubsequence(a, c)
    decreases |c|
  {
    if a != [] {
      if b[0] == c[0] {
        if a[0] == b[0] {
          SubsequenceTransitive(a[1..], b[1..], c[1..]);
        } else {
          SubsequenceTransitive(a, b[1..], c[1..]);
        }
      } else {
        SubsequenceTransitive(a, b, c[1..]);
        assert [c[0]] + c[1..] == c;
        SubsequenceOfLonger(a, c[1..], c[0]);
      }
    }
  }

  /** A slice of the tail is a slice of the whole, shifted by one. */
  lemma SliceOfTail(s: string, a: nat, b: nat)
    requires a < b <= |s|
    ensures a > 0 ==> s[1..][a - 1..b - 1] == s[a..b]
    ensures a == 0 ==> s[1..][0..b - 1] == s[a..b][1..]
  {
  }

  /** A slice is a subsequence. */
  lemma {:induction false} SliceIsSubsequence(s: string, a: nat, b: nat)
    requires a <= b <= |s|
    ensures IsSubsequence(s[a..b], s)
    decreases |s|
  {
    if a < b {
      if a == 0 {
        var r := s[a..b];
        var t := s[1..];
        SliceIsSubsequence(t, 0, b - 1);
        SliceOfTail(s, 0, b);
        assert r[0] == s[0] && r[1..] == t[0..b - 1];
      } else {
        SliceIsSubsequence(s[1..], a - 1, b - 1);
        SliceOfTail(s, a, b);
        assert [s[0]] + s[1..] == s;
        SubsequenceOfLonger(s[a..b], s[1..], s[0]);
      }
    }
  }

  lemma {:induction false} KeptIsSubsequence(text: string, isWord: char -> bool)
    ensures IsSubsequence(KeepWordsAndSpaces(text, isWord), text)
    decreases |text|
  {
    if text != [] {
      var rest := KeepWordsAndSpaces(text[1..], isWord);
      KeptIsSubsequence(text[1..], isWord);
      if isWord(text[0]) || IsSpace(text[0]) {
        assert KeepWordsAndSpaces(text, isWord)[1..] == rest;
      } else {
        assert KeepWordsAndSpaces(text, isWord) == rest;
        assert [text[0]] + text[1..] == text;
        SubsequenceOfLonger(rest, text[1..], text[0]);
      }
    }
  }

  /** Sanitising only deletes characters: what is left appears in the input
      in the same order. */
  lemma SanitizeDeletesOnly(text: string, isWord: char -> bool)
    ensures IsSubsequence(Sanitize(text, isWord), text)
  {
    var kept := KeepWordsAndSpaces(text, isWord);
    StripTrims(kept);
    var a, b :| 0 <= a <= b <= |kept| && Strip(kept) == kept[a..b]
      && AllSpace(kept[..a]) && AllSpace(kept[b..]);
    SliceIsSubsequence(kept, a, b);
    KeptIsSubsequence(text, isWord);
    SubsequenceTransitive(Strip(kept), kept, text);
  }

  /** No word or whitespace character of the input is lost: the one at
      position `i` stands in the result right after what is kept of the
      text before it. */
  lemma KeepsEveryWordCharacter(text: string, isWord: char -> bool, i: nat)
    requires i < |text| && (isWord(text[i]) || IsSpace(text[i]))
    ensures var k := |KeepWordsAndSpaces(text[..i], isWord)|;
      k < |KeepWordsAndSpaces(text, isWord)| && KeepWordsAndSpaces(text, isWord)[k] == text[i]
  {
    var c := text[i];
    assert text[..i] + text[i..] == text;
    assert text[i..] == [c] + text[i + 1..];
    KeepPerCharacter(text[..i], text[i..], c, isWord);
    KeepPerCharacter([c], text[i + 1..], c, isWord);
    var before := KeepWordsAndSpaces(text[..i], isWord);
    assert KeepWordsAndSpaces(text, isWord) == before + ([c] + KeepWordsAndSpaces(text[i + 1..], isWord));
  }

  /** Text with only word characters and whitespace passes unchanged
      through the substitution. */
  lemma {:induction false} KeepAll(text: string, isWord: char -> bool)
    requires forall i :: 0 <= i < |text| ==> isWord(text[i]) || IsSpace(text[i])
    ensures KeepWordsAndSpaces(text, isWord) == text
    decreases |text|
  {
    if text != [] {
      KeepAll(text[1..], isWord);
    }
  }

  /** Sanitising twice is sanitising once. */
  lemma SanitizeIdempotent(text: string, isWord: char -> bool)
    ensures Sanitize(Sanitize(text, isWord), isWord) == Sanitize(text, isWord)
  {
    var r := Sanitize(text, isWord);
    KeepAll(r, isWord);
    StripOfStripped(r);
  }

  // --------------------------------------------------- validate_translation

  /** The Unicode block whose characters a translation into `lang` must use,
      for the six Indian languages. */
  function ScriptBlock(lang: string): (r: Option<(int, int)>)
    ensures r.Some? <==> lang in LanguageMap && lang != "en"
    ensures r.Some? ==> 0 <= r.value.0 < r.value.1
  {
    if lang == "hi" then Some((0x0900, 0x097F))
    else if lang == "ta" then Some((0x0B80, 0x0BFF))
    else if lang == "te" then Some((0x0C00, 0x0C7F))
    else if lang == "ml" then Some((0x0D00, 0x0D7F))
    else if lang == "bn" then Some((0x0980, 0x09FF))
    else if lang == "kn" then Some((0x0C80, 0x0CFF))
    else None
  }

  /** Some character of `text` has a code point in `[lo, hi]`. */
  predicate HasCharIn(text: string, lo: int, hi: int) {
    exists i :: 0 <= i < |text| && lo <= text[i] as int <= hi
  }

  /** The script test: a non-English text must use its language's block. */
  predicate ScriptOk(text: string, lang: string) {
    lang != "en" ==>
      match ScriptBlock(lang)
      case None => true
      case Some(block) => HasCharIn(text, block.0, block.1)
  }

  /** The text talks about health in English terms (any case) but uses none
      of the target language's health terms (exact case). */
  predicate MissesHealthTerms(text: string, lang: string) {
    lang in HealthKeywords
    && ContainsAny(Lower(text), EnglishHealthKeywords)
    && !ContainsAny(text, HealthKeywords[lang])
  }

  /** `validate_translation(text, lang)`. */
  function ValidateTranslation(text: string, lang: string): (ok: bool)
    ensures ok ==> |Strip(text)| >= 2 && ScriptOk(text, lang)
    ensures ok && !ContainsAny(Lower(text), SetupPrompts) ==> !MissesHealthTerms(text, lang)
  {
    if |Strip(text)| < 2 then false
    else if ContainsAny(Lower(text), SetupPrompts) then ScriptOk(text, lang)
    else if MissesHealthTerms(text, lang) then false
    else ScriptOk(text, lang)
  }

  /** The three tests, stated together: long enough, in the right script,
      and (unless it is a set-up prompt) not missing the health terms. */
  lemma ValidateTranslationMeaning(text: string, lang: string)
    ensures ValidateTranslation(text, lang) <==>
      |Strip(text)| >= 2 && ScriptOk(text, lang)
      && (ContainsAny(Lower(text), SetupPrompts) || !MissesHealthTerms(text, lang))
  {
  }

  /** A code outside the table is accepted as soon as the text is long enough. */
  lemma UnknownLanguageAccepted(text: string, lang: string)
    requires lang !in LanguageMap
    ensures ValidateTranslation(text, lang) <==> |Strip(text)| >= 2
  {
    LanguageTables();
  }

  /** For one of the six Indian languages the text must contain a character
      of that language's block. */
  lemma ScriptRequired(text: string, lang: string)
    requires lang in LanguageMap && lang != "en"
    requires ValidateTranslation(text, lang)
    ensures HasCharIn(text, ScriptBlock(lang).value.0, ScriptBlock(lang).value.1)
  {
  }

  /** A set-up prompt is checked only for length and script. */
  lemma SetupPromptSkipsKeywords(text: string, lang: string)
    requires |Strip(text)| >= 2 && ContainsAny(Lower(text), SetupPrompts)
    ensures ValidateTranslation(text, lang) == ScriptOk(text, lang)
  {
  }

  lemma EnglishEntry()
    ensures HealthKeywords["en"] == EnglishHealthKeywords
  {
  }

  /** Every English health term starts with a lower-case letter. */
  lemma EnglishTermsLowerCase()
    ensures forall k :: 0 <= k < |EnglishHealthKeywords| ==>
      |EnglishHealthKeywords[k]| > 0 && 'a' <= EnglishHealthKeywords[k][0] <= 'z'
  {
  }

  /** A text without lower-case ASCII letters contains no English health term. */
  lemma {:induction false} NoEnglishTermsWithoutLowerCase(text: string)
    requires forall i :: 0 <= i < |text| ==> !('a' <= text[i] <= 'z')
    ensures !ContainsAny(text, EnglishHealthKeywords)
  {
    if ContainsAny(text, EnglishHealthKeywords) {
      var k :| 0 <= k < |EnglishHealthKeywords| && Contains(text, EnglishHealthKeywords[k]);
      var w := EnglishHealthKeywords[k];
      var i :| OccursAt(text, w, i);
      assert text[i] == w[0];
      EnglishTermsLowerCase();
    }
  }

  /** Text written wholly in the target language's block is accepted: it
      cannot spell an English health term, so only the script test applies. */
  lemma ScriptTextAccepted(text: string, lang: string)
    requires ScriptBlock(lang).Some? && |text| >= 2
    requires forall i :: 0 <= i < |text| ==>
      ScriptBlock(lang).value.0 <= text[i] as int <= ScriptBlock(lang).value.1
    ensures ValidateTranslation(text, lang)
  {
    var block := ScriptBlock(lang).value;
    assert !IsSpace(text[0]) && !IsSpace(text[|text| - 1]);
    StripOfStripped(text);
    assert HasCharIn(text, block.0, block.1) by {
      assert block.0 <= text[0] as int <= block.1;
    }
    var lower := Lower(text);
    assert forall i :: 0 <= i < |lower| ==> !('a' <= lower[i] <= 'z') by {
      forall i | 0 <= i < |lower| ensures !('a' <= lower[i] <= 'z') {
        assert lower[i] == ToLower(text[i]);
      }
    }
    NoEnglishTermsWithoutLowerCase(lower);
  }

  /** For English, text already in lower case passes as soon as it is long
      enough: every English term found in it is found as written. */
  lemma LowerCaseEnglishAccepted(text: string)
    requires IsLowerCase(text) && |Strip(text)| >= 2
    ensures ValidateTranslation(text, "en")
  {
    LowerOfLowerCase(text);
    EnglishEntry();
  }

  /** The keyword test looks for the target language's terms in the text as
      it is, not lower-cased: for English, health text without lower-case
      letters (such as "FEVER") is rejected unless it is a set-up prompt. */
  lemma UpperCaseEnglishRejected(text: string)
    requires forall i :: 0 <= i < |text| ==> !('a' <= text[i] <= 'z')
    requires ContainsAny(Lower(text), EnglishHealthKeywords)
    requires !ContainsAny(Lower(text), SetupPrompts)
    ensures !ValidateTranslation(text, "en")
  {
    EnglishEntry();
    NoEnglishTermsWithoutLowerCase(text);
  }
}
