/** Small vocabulary shared by the models. */
module Prelude {

  /** A value that may be missing: `null` and `undefined` in the source. */
  datatype Option<+T> = None | Some(value: T)

  /** A returned value, or the error that was thrown instead. */
  datatype Result<+T, +E> = Ok(value: T) | Err(error: E)

  /** The characters JavaScript's `trim` removes and its `\s` matches. */
  predicate IsSpace(c: char) {
    || '\t' <= c <= '\r'
    || c == ' '
    || c == '\U{A0}'
    || c == '\U{1680}'
    || '\U{2000}' <= c <= '\U{200A}'
    || c == '\U{2028}'
    || c == '\U{2029}'
    || c == '\U{202F}'
    || c == '\U{205F}'
    || c == '\U{3000}'
    || c == '\U{FEFF}'
  }

  /** `!s.trim()`: nothing but white space. */
  predicate Blank(s: string) {
    forall i | 0 <= i < |s| :: IsSpace(s[i])
  }

  function TrimStart(s: string): string {
    if s != "" && IsSpace(s[0]) then TrimStart(s[1..]) else s
  }

  function TrimEnd(s: string): string {
    if s != "" && IsSpace(s[|s| - 1]) then TrimEnd(s[..|s| - 1]) else s
  }

  function Trim(s: string): string {
    TrimEnd(TrimStart(s))
  }

  predicate IsDigit(c: char) {
    '0' <= c <= '9'
  }

  /** The characters a regular expression's `.` does not match. */
  predicate IsLineTerminator(c: char) {
    c == '\n' || c == '\r' || c == '\U{2028}' || c == '\U{2029}'
  }

  function LowerChar(c: char): char {
    if 'A' <= c <= 'Z' then (c as int + 32) as char
    else if c == '\U{212A}' then 'k' // the Kelvin sign
    else c
  }

  /**
   * Lower case, as far as texts of ASCII characters are looked for in the result: the capital letters and
   * the Kelvin sign are the only characters that lower to an ASCII letter alone. A capital I with a dot
   * lowers to an i followed by a combining dot, which occurs in no such text; it is left as it is.
   */
  function Lower(s: string): (r: string)
    ensures |r| == |s|
  {
    seq(|s|, i requires 0 <= i < |s| => LowerChar(s[i]))
  }

  predicate Contains(s: string, part: string) {
    part <= s || (s != "" && Contains(s[1..], part))
  }

  /** The part stands somewhere in the text. */
  lemma {:induction false} ContainsMeans(s: string, part: string)
    ensures Contains(s, part) <==> exists i | 0 <= i <= |s| :: part <= s[i..]
  {
    assert s[0..] == s;
    if s != "" && !(part <= s) {
      ContainsMeans(s[1..], part);
      assert forall i | 0 <= i <= |s[1..]| :: s[1..][i..] == s[i + 1..];
      if i :| 0 <= i <= |s| && part <= s[i..] {
        assert s[1..][i - 1..] == s[i..];
      }
    }
  }

  lemma {:induction false} TrimStartMeans(s: string) returns (before: string)
    ensures s == before + TrimStart(s) && Blank(before)
    ensures TrimStart(s) == "" || !IsSpace(TrimStart(s)[0])
  {
    if s != "" && IsSpace(s[0]) {
      before := TrimStartMeans(s[1..]);
      before := [s[0]] + before;
    } else {
      before := "";
    }
  }

  lemma {:induction false} TrimEndMeans(s: string) returns (after: string)
    ensures s == TrimEnd(s) + after && Blank(after)
    ensures TrimEnd(s) == "" || !IsSpace(TrimEnd(s)[|TrimEnd(s)| - 1])
  {
    if s != "" && IsSpace(s[|s| - 1]) {
      after := TrimEndMeans(s[..|s| - 1]);
      after := after + [s[|s| - 1]];
    } else {
      after := "";
    }
  }

  /** Trimming takes white space off both ends, and all that is there. */
  lemma TrimMeans(s: string) returns (before: string, after: string)
    ensures s == before + Trim(s) + after && Blank(before) && Blank(after)
    ensures Trim(s) != "" ==> !IsSpace(Trim(s)[0]) && !IsSpace(Trim(s)[|Trim(s)| - 1])
  {
    before := TrimStartMeans(s);
    after := TrimEndMeans(TrimStart(s));
    if Trim(s) != "" {
      assert TrimStart(s)[0] == Trim(s)[0];
    }
  }

  lemma {:induction false} TrimStartOfBlank(blank: string, text: string)
    requires Blank(blank) && (text == "" || !IsSpace(text[0]))
    ensures TrimStart(blank + text) == text
  {
    if blank == "" {
      assert blank + text == text;
    } else {
      TrimStartOfBlank(blank[1..], text);
      assert (blank + text)[1..] == blank[1..] + text;
    }
  }

  lemma {:induction false} TrimEndOfBlank(text: string, blank: string)
    requires Blank(blank) && (text == "" || !IsSpace(text[|text| - 1]))
    ensures TrimEnd(text + blank) == text
  {
    if blank == "" {
      assert text + blank == text;
    } else {
      TrimEndOfBlank(text, blank[..|blank| - 1]);
      assert (text + blank)[..|text + blank| - 1] == text + blank[..|blank| - 1];
    }
  }

  /** Nothing but the white space at both ends is taken off. */
  lemma TrimOf(before: string, text: string, after: string)
    requires Blank(before) && Blank(after)
    requires text == "" || (!IsSpace(text[0]) && !IsSpace(text[|text| - 1]))
    ensures Trim(before + text + after) == text
  {
    if text == "" {
      assert before + text + after == (before + after) + "";
      TrimStartOfBlank(before + after, "");
    } else {
      assert before + text + after == before + (text + after);
      TrimStartOfBlank(before, text + after);
      TrimEndOfBlank(text, after);
    }
  }
}
