/** The placeholder check of scripts/control-ui-i18n.ts: `{name}` must survive translation. */
module Placeholders {
  import opened Prelude
  import opened Sorting

  /** `\w` */
  predicate IsWord(c: char) {
    'a' <= c <= 'z' || 'A' <= c <= 'Z' || IsDigit(c) || c == '_'
  }

  /** The length of the run of word characters at the start. */
  function NameLength(text: string): (n: nat)
    ensures n <= |text|
    ensures forall i | 0 <= i < n :: IsWord(text[i])
    ensures n < |text| ==> !IsWord(text[n])
  {
    if text == "" || !IsWord(text[0]) then 0 else 1 + NameLength(text[1..])
  }

  predicate StartsPlaceholder(text: string) {
    && text != "" && text[0] == '{'
    && var n := NameLength(text[1..]);
    n > 0 && n + 1 < |text| && text[n + 1] == '}'
  }

  /** The captures of `text.matchAll(/\{(\w+)\}/g)`, from left to right. */
  function Matches(text: string): seq<string>
    decreases |text|
  {
    if text == "" then []
    else if StartsPlaceholder(text) then
      var n := NameLength(text[1..]);
      [text[1..n + 1]] + Matches(text[n + 2..])
    else Matches(text[1..])
  }

  /** extractTranslationPlaceholders. A capture is never empty, so `filter(Boolean)` drops nothing. */
  function ExtractPlaceholders(text: string, le: Order): seq<string> {
    SortedSet(Matches(text), le)
  }

  /** An ASCII letter, a digit or an underscore, by its code. */
  ghost predicate HasWordCode(c: char) {
    var code := c as int;
    48 <= code <= 57 || 65 <= code <= 90 || 97 <= code <= 122 || code == 95
  }

  lemma WordsAreByCode(c: char)
    ensures IsWord(c) <==> HasWordCode(c)
  {
  }

  ghost predicate IsName(name: string) {
    name != "" && forall i | 0 <= i < |name| :: IsWord(name[i])
  }

  /** `{name}` stands in the text at position i. */
  ghost predicate OccursAt(text: string, name: string, i: nat) {
    i <= |text| && "{" + name + "}" <= text[i..]
  }

  ghost predicate Mentions(text: string, name: string) {
    IsName(name) && exists i: nat :: OccursAt(text, name, i)
  }

  lemma {:induction false} NameLengthOf(name: string, after: string)
    requires forall i | 0 <= i < |name| :: IsWord(name[i])
    requires after != "" && !IsWord(after[0])
    ensures NameLength(name + after) == |name|
  {
    if name == "" {
      assert name + after == after;
    } else {
      NameLengthOf(name[1..], after);
      assert (name + after)[1..] == name[1..] + after;
    }
  }

  /** At the start of a text there is a placeholder exactly when one is mentioned there. */
  lemma MentionAtStart(text: string, name: string)
    requires IsName(name)
    ensures OccursAt(text, name, 0) <==> StartsPlaceholder(text) && text[1..NameLength(text[1..]) + 1] == name
  {
    if OccursAt(text, name, 0) {
      var whole := "{" + name + "}";
      assert text[0..] == text;
      assert text[1..] == name + ("}" + text[|whole|..]) by {
        assert text == whole + text[|whole|..];
      }
      NameLengthOf(name, "}" + text[|whole|..]);
    }
    if StartsPlaceholder(text) && text[1..NameLength(text[1..]) + 1] == name {
      var n := |name|;
      assert text[..n + 2] == "{" + name + "}";
      assert text[0..] == text;
    }
  }

  lemma OccursLater(text: string, name: string, k: nat, i: nat)
    requires k <= |text|
    ensures OccursAt(text[k..], name, i) <==> OccursAt(text, name, k + i)
  {
    if k + i <= |text| {
      assert text[k..][i..] == text[k + i..];
    }
  }

  /**
   * The scan finds exactly the names that stand in braces somewhere in the text. Matches do not
   * overlap, so taking them from left to right misses none.
   */
  lemma {:induction false} MatchesAreMentions(text: string, name: string)
    ensures name in Matches(text) <==> Mentions(text, name)
    decreases |text|
  {
    if text == "" {
      forall i: nat ensures !OccursAt(text, name, i) {
      }
    } else {
      var n := NameLength(text[1..]);
      var skip := if StartsPlaceholder(text) then n + 2 else 1;
      MatchesAreMentions(text[skip..], name);
      if IsName(name) {
        MentionAtStart(text, name);
        assert forall k | 1 <= k < skip :: text[k] == text[1..][k - 1] != '{';
        forall i: nat | OccursAt(text, name, i) && i > 0 ensures i >= skip && OccursAt(text[skip..], name, i - skip) {
          assert text[i] == '{';
          OccursLater(text, name, skip, i - skip);
        }
        forall i: nat | OccursAt(text[skip..], name, i) ensures OccursAt(text, name, skip + i) {
          OccursLater(text, name, skip, i);
        }
      } else if StartsPlaceholder(text) {
        assert IsName(text[1..n + 1]);
      }
    }
  }

  /** The source's two texts agree: they mention the same placeholders. */
  ghost predicate Parity(source: string, translated: string) {
    forall name :: Mentions(source, name) <==> Mentions(translated, name)
  }

  datatype Mismatch = Mismatch(key: string, sourcePlaceholders: seq<string>, translatedPlaceholders: seq<string>)

  function TranslatedText(translated: map<string, string>, key: string): string {
    if key in translated then translated[key] else ""
  }

  lemma ExtractionDecidesParity(source: string, translated: string, le: Order)
    requires IsTotal(le)
    ensures ExtractPlaceholders(source, le) == ExtractPlaceholders(translated, le) <==> Parity(source, translated)
    ensures forall name :: name in ExtractPlaceholders(source, le) <==> Mentions(source, name)
  {
    SortedSetIsCanonical(Matches(source), Matches(translated), le);
    forall name
      ensures name in Matches(source) <==> Mentions(source, name)
      ensures name in Matches(translated) <==> Mentions(translated, name)
    {
      MatchesAreMentions(source, name);
      MatchesAreMentions(translated, name);
    }
  }

  /** What findPlaceholderMismatches reports, in source order. */
  function MismatchesOf(source: seq<(string, string)>, translated: map<string, string>, le: Order): seq<Mismatch> {
    if source == [] then []
    else
      var (key, text) := source[|source| - 1];
      var before := MismatchesOf(source[..|source| - 1], translated, le);
      var sourcePlaceholders := ExtractPlaceholders(text, le);
      var translatedPlaceholders := ExtractPlaceholders(TranslatedText(translated, key), le);
      if sourcePlaceholders == translatedPlaceholders then before
      else before + [Mismatch(key, sourcePlaceholders, translatedPlaceholders)]
  }

  method FindPlaceholderMismatches(source: seq<(string, string)>, translated: map<string, string>, le: Order)
    returns (mismatches: seq<Mismatch>)
    ensures mismatches == MismatchesOf(source, translated, le)
  {
    mismatches := [];
    for i := 0 to |source|
      invariant mismatches == MismatchesOf(source[..i], translated, le)
    {
      var (key, sourceText) := source[i];
      var sourcePlaceholders := ExtractPlaceholders(sourceText, le);
      var translatedPlaceholders := ExtractPlaceholders(TranslatedText(translated, key), le);
      if sourcePlaceholders != translatedPlaceholders {
        mismatches := mismatches + [Mismatch(key, sourcePlaceholders, translatedPlaceholders)];
      }
      assert source[..i + 1][..i] == source[..i];
    }
    assert source[..|source|] == source;
  }

  ghost predicate Reported(mismatches: seq<Mismatch>, key: string) {
    exists mismatch | mismatch in mismatches :: mismatch.key == key
  }

  /** The key occurs with an English text whose placeholders its translation does not mention alike. */
  ghost predicate Differs(source: seq<(string, string)>, translated: map<string, string>, key: string) {
    exists entry | entry in source :: entry.0 == key && !Parity(entry.1, TranslatedText(translated, key))
  }

  lemma ReportedOfLonger(before: seq<Mismatch>, more: seq<Mismatch>, key: string)
    ensures Reported(before + more, key) <==> Reported(before, key) || Reported(more, key)
  {
    assert forall mismatch :: mismatch in before + more <==> mismatch in before || mismatch in more;
  }

  lemma DiffersOfLonger(before: seq<(string, string)>, entry: (string, string), translated: map<string, string>, key: string)
    ensures Differs(before + [entry], translated, key)
      <==> Differs(before, translated, key) || (entry.0 == key && !Parity(entry.1, TranslatedText(translated, key)))
  {
    assert forall other :: other in before + [entry] <==> other in before || other == entry;
  }

  /** What the last entry adds to the report. */
  lemma LastMismatch(source: seq<(string, string)>, translated: map<string, string>, le: Order, key: string) returns (more: seq<Mismatch>)
    requires IsTotal(le) && source != []
    ensures var entry := source[|source| - 1];
            && MismatchesOf(source, translated, le) == MismatchesOf(source[..|source| - 1], translated, le) + more
            && (Reported(more, key) <==> entry.0 == key && !Parity(entry.1, TranslatedText(translated, key)))
  {
    var (k, text) := source[|source| - 1];
    ExtractionDecidesParity(text, TranslatedText(translated, k), le);
    var expected, found := ExtractPlaceholders(text, le), ExtractPlaceholders(TranslatedText(translated, k), le);
    more := if expected == found then [] else [Mismatch(k, expected, found)];
    assert more != [] ==> more[0] in more;
  }

  /**
   * The report names exactly the keys whose translation mentions other placeholders than the
   * English text; a missing translation counts as an empty one.
   */
  lemma {:induction false} MismatchesAreExact(source: seq<(string, string)>, translated: map<string, string>, le: Order, key: string)
    requires IsTotal(le)
    ensures Reported(MismatchesOf(source, translated, le), key) <==> Differs(source, translated, key)
  {
    if source == [] {
    } else {
      var before, entry := source[..|source| - 1], source[|source| - 1];
      MismatchesAreExact(before, translated, le, key);
      var more := LastMismatch(source, translated, le, key);
      ReportedOfLonger(MismatchesOf(before, translated, le), more, key);
      assert source == before + [entry];
      DiffersOfLonger(before, entry, translated, key);
    }
  }
}
