/**
 * The quote-aware scanners of scripts/check-temp-path-guardrails.ts: findMatchingParen, which finds
 * the end of a call, and splitTopLevelArguments, which separates its arguments.
 */
module ArgumentScanner {
  import opened Prelude

  datatype QuoteState = QuoteState(quote: Option<char>, escaped: bool)

  const UNQUOTED := QuoteState(None, false)

  predicate IsQuote(ch: char) {
    ch == '\'' || ch == '"' || ch == '`'
  }

  /** consumeQuotedChar, when a quote is open. */
  function ConsumeQuoted(state: QuoteState, ch: char): QuoteState
    requires state.quote.Some?
  {
    if state.escaped then state.(escaped := false)
    else if ch == '\\' then state.(escaped := true)
    else if ch == state.quote.value then state.(quote := None)
    else state
  }

  // ---------------------------------------------------------------- findMatchingParen

  /** The index of the paren that closes depth `depth`, scanning from `i`; -1 when there is none. */
  function MatchFrom(source: string, i: nat, depth: nat, state: QuoteState): int
    requires i <= |source|
    decreases |source| - i
  {
    if i == |source| then -1
    else
      var ch := source[i];
      if state.quote.Some? then MatchFrom(source, i + 1, depth, ConsumeQuoted(state, ch))
      else if IsQuote(ch) then MatchFrom(source, i + 1, depth, state.(quote := Some(ch)))
      else if ch == '(' then MatchFrom(source, i + 1, depth + 1, state)
      else if ch == ')' then (if depth <= 1 then i else MatchFrom(source, i + 1, depth - 1, state))
      else MatchFrom(source, i + 1, depth, state)
  }

  method FindMatchingParen(source: string, openIndex: nat) returns (index: int)
    requires openIndex < |source|
    ensures index == MatchFrom(source, openIndex + 1, 1, UNQUOTED)
    ensures IsFirstClosing(source, openIndex + 1, index)
  {
    FinderFindsTheFirst(source, openIndex);
    var depth := 1;
    var quote: Option<char>, escaped := None, false;
    var i := openIndex + 1;
    while i < |source|
      invariant openIndex < i <= |source| && depth >= 1
      invariant MatchFrom(source, i, depth, QuoteState(quote, escaped)) == MatchFrom(source, openIndex + 1, 1, UNQUOTED)
    {
      var ch := source[i];
      if quote.Some? {
        if escaped {
          escaped := false;
        } else if ch == '\\' {
          escaped := true;
        } else if ch == quote.value {
          quote := None;
        }
      } else if ch == '\'' || ch == '"' || ch == '`' {
        quote := Some(ch);
      } else if ch == '(' {
        depth := depth + 1;
      } else if ch == ')' {
        depth := depth - 1;
        if depth == 0 {
          return i;
        }
      }
      i := i + 1;
    }
    index := -1;
  }

  // ---------------------------------------------------------------- splitTopLevelArguments

  datatype Splitter = Splitter(out: seq<string>, current: string, parens: nat, brackets: nat, braces: nat, state: QuoteState)

  function Less(depth: nat): nat {
    if depth > 0 then depth - 1 else depth
  }

  function Feed(s: Splitter, ch: char): Splitter {
    var kept := s.(current := s.current + [ch]);
    if s.state.quote.Some? then kept.(state := ConsumeQuoted(s.state, ch))
    else if IsQuote(ch) then kept.(state := s.state.(quote := Some(ch)))
    else if ch == '(' then kept.(parens := s.parens + 1)
    else if ch == ')' then kept.(parens := Less(s.parens))
    else if ch == '[' then kept.(brackets := s.brackets + 1)
    else if ch == ']' then kept.(brackets := Less(s.brackets))
    else if ch == '{' then kept.(braces := s.braces + 1)
    else if ch == '}' then kept.(braces := Less(s.braces))
    else if ch == ',' && s.parens == 0 && s.brackets == 0 && s.braces == 0 then
      s.(out := s.out + [Trim(s.current)], current := "")
    else kept
  }

  function FeedAll(s: Splitter, source: string): Splitter
    decreases |source|
  {
    if source == "" then s else FeedAll(Feed(s, source[0]), source[1..])
  }

  function Close(s: Splitter): seq<string> {
    if Trim(s.current) != "" then s.out + [Trim(s.current)] else s.out
  }

  const EMPTY := Splitter([], "", 0, 0, 0, UNQUOTED)

  lemma NextIsFed(s: Splitter, source: string, i: nat)
    requires i < |source|
    ensures FeedAll(s, source[i..]) == FeedAll(Feed(s, source[i]), source[i + 1..])
  {
    assert source[i..][0] == source[i] && source[i..][1..] == source[i + 1..];
  }

  method SplitTopLevelArguments(source: string) returns (out: seq<string>)
    ensures out == Close(FeedAll(EMPTY, source))
  {
    out := [];
    var current := "";
    var parenDepth: nat, bracketDepth: nat, braceDepth: nat := 0, 0, 0;
    var quote: Option<char>, escaped := None, false;
    assert source[0..] == source;
    for i := 0 to |source|
      invariant FeedAll(Splitter(out, current, parenDepth, bracketDepth, braceDepth, QuoteState(quote, escaped)), source[i..])
             == FeedAll(EMPTY, source)
    {
      var ch := source[i];
      ghost var s := Splitter(out, current, parenDepth, bracketDepth, braceDepth, QuoteState(quote, escaped));
      NextIsFed(s, source, i);
      if quote.Some? {
        current := current + [ch];
        if escaped {
          escaped := false;
        } else if ch == '\\' {
          escaped := true;
        } else if ch == quote.value {
          quote := None;
        }
        assert Splitter(out, current, parenDepth, bracketDepth, braceDepth, QuoteState(quote, escaped)) == Feed(s, ch);
        continue;
      }
      if ch == '\'' || ch == '"' || ch == '`' {
        quote := Some(ch);
        current := current + [ch];
        assert Splitter(out, current, parenDepth, bracketDepth, braceDepth, QuoteState(quote, escaped)) == Feed(s, ch);
        continue;
      }
      if ch == ',' && parenDepth == 0 && bracketDepth == 0 && braceDepth == 0 {
        out := out + [Trim(current)];
        current := "";
        assert Splitter(out, current, parenDepth, bracketDepth, braceDepth, QuoteState(quote, escaped)) == Feed(s, ch);
        continue;
      }
      if ch == '(' {
        parenDepth := parenDepth + 1;
      } else if ch == ')' {
        if parenDepth > 0 { parenDepth := parenDepth - 1; }
      } else if ch == '[' {
        bracketDepth := bracketDepth + 1;
      } else if ch == ']' {
        if bracketDepth > 0 { bracketDepth := bracketDepth - 1; }
      } else if ch == '{' {
        braceDepth := braceDepth + 1;
      } else if ch == '}' {
        if braceDepth > 0 { braceDepth := braceDepth - 1; }
      }
      current := current + [ch];
      assert Splitter(out, current, parenDepth, bracketDepth, braceDepth, QuoteState(quote, escaped)) == Feed(s, ch);
    }
    if Trim(current) != "" {
      out := out + [Trim(current)];
    }
  }

  // ---------------------------------------------------------------- arguments

  /** How deep a position is inside quotes and brackets; a closing bracket without an opening one counts below zero. */
  datatype Depth = Depth(parens: int, brackets: int, braces: int, state: QuoteState)

  const TOP := Depth(0, 0, 0, UNQUOTED)

  function Advance(d: Depth, ch: char): Depth {
    if d.state.quote.Some? then d.(state := ConsumeQuoted(d.state, ch))
    else if IsQuote(ch) then d.(state := d.state.(quote := Some(ch)))
    else if ch == '(' then d.(parens := d.parens + 1)
    else if ch == ')' then d.(parens := d.parens - 1)
    else if ch == '[' then d.(brackets := d.brackets + 1)
    else if ch == ']' then d.(brackets := d.brackets - 1)
    else if ch == '{' then d.(braces := d.braces + 1)
    else if ch == '}' then d.(braces := d.braces - 1)
    else d
  }

  function After(d: Depth, text: string): Depth
    decreases |text|
  {
    if text == "" then d else After(Advance(d, text[0]), text[1..])
  }

  /** No bracket closes that was not opened, and every comma is inside quotes or brackets. */
  ghost predicate Inside(d: Depth, text: string)
    decreases |text|
  {
    && d.parens >= 0 && d.brackets >= 0 && d.braces >= 0
    && (text != "" ==>
          && !(text[0] == ',' && d.state.quote.None? && d.parens == 0 && d.brackets == 0 && d.braces == 0)
          && Inside(Advance(d, text[0]), text[1..]))
  }

  /** Quotes closed, brackets balanced, no comma at the top. */
  ghost predicate Balanced(text: string) {
    Inside(TOP, text) && After(TOP, text) == TOP
  }

  /** An argument as it is written: white space, the text, white space. */
  datatype Argument = Argument(before: string, text: string, after: string)

  ghost predicate GoodArgument(argument: Argument) {
    && Blank(argument.before) && Blank(argument.after)
    && (argument.text != "" ==> !IsSpace(argument.text[0]) && !IsSpace(argument.text[|argument.text| - 1]))
    && Balanced(argument.text)
  }

  /** Any of the arguments may be empty, but not the last: what stands behind the last comma counts only if it is not blank. */
  ghost predicate GoodArguments(arguments: seq<Argument>) {
    && (forall k | 0 <= k < |arguments| :: GoodArgument(arguments[k]))
    && (arguments != [] ==> arguments[|arguments| - 1].text != "")
  }

  function Print(argument: Argument): string {
    argument.before + argument.text + argument.after
  }

  /** The arguments with commas between them. */
  function Join(arguments: seq<Argument>): string {
    if |arguments| == 0 then ""
    else if |arguments| == 1 then Print(arguments[0])
    else Print(arguments[0]) + "," + Join(arguments[1..])
  }

  function Texts(arguments: seq<Argument>): seq<string> {
    seq(|arguments|, i requires 0 <= i < |arguments| => arguments[i].text)
  }

  // ---------------------------------------------------------------- what the finder finds

  /** At position j a closing paren, outside quotes, closes the one in front of position `from`. */
  ghost predicate ClosesAt(source: string, from: nat, j: nat)
    requires from <= j < |source|
  {
    var d := After(TOP, source[from..j]);
    source[j] == ')' && d.state.quote.None? && d.parens == 0
  }

  lemma {:induction false} AfterOneMore(d: Depth, text: string, ch: char)
    ensures After(d, text + [ch]) == Advance(After(d, text), ch)
    decreases |text|
  {
    if text == "" {
      assert ("" + [ch])[1..] == "";
    } else {
      assert (text + [ch])[1..] == text[1..] + [ch];
      AfterOneMore(Advance(d, text[0]), text[1..], ch);
    }
  }

  /** The finder's counters at position i are those of the text scanned so far. */
  lemma {:induction false} FinderMeans(source: string, from: nat, i: nat, d: Depth)
    requires from <= i <= |source| && d == After(TOP, source[from..i]) && d.parens >= 0
    ensures var r := MatchFrom(source, i, 1 + d.parens, d.state);
            && (r == -1 || i <= r < |source|)
            && (r >= 0 ==> ClosesAt(source, from, r))
            && (forall j | i <= j < |source| && (r == -1 || j < r) :: !ClosesAt(source, from, j))
    decreases |source| - i
  {
    if i == |source| {
    } else {
      var next := Advance(d, source[i]);
      AfterOneMore(TOP, source[from..i], source[i]);
      assert source[from..i + 1] == source[from..i] + [source[i]];
      if next.parens >= 0 {
        FinderMeans(source, from, i + 1, next);
      }
    }
  }

  /** The first position from `from` on at which the call is closed, or -1 when there is none. */
  ghost predicate IsFirstClosing(source: string, from: nat, index: int) {
    && (index == -1 || from <= index < |source|)
    && (index >= 0 ==> ClosesAt(source, from, index))
    && (forall j | from <= j < |source| && (index == -1 || j < index) :: !ClosesAt(source, from, j))
  }

  /**
   * The finder returns the first position at which a closing paren outside quotes brings the depth back
   * to that in front of the call, and -1 exactly when there is none.
   */
  lemma FinderFindsTheFirst(source: string, openIndex: nat)
    requires openIndex < |source|
    ensures IsFirstClosing(source, openIndex + 1, MatchFrom(source, openIndex + 1, 1, UNQUOTED))
  {
    assert source[openIndex + 1..openIndex + 1] == "";
    FinderMeans(source, openIndex + 1, openIndex + 1, TOP);
  }

  // ---------------------------------------------------------------- where the splitter cuts

  function Min(a: int, b: int): int {
    if a <= b then a else b
  }

  /** The lowest depths that any beginning of the text has, per kind of bracket. */
  ghost function Lowest(text: string): Depth
    decreases |text|
  {
    if text == "" then TOP
    else
      var before, d := Lowest(text[..|text| - 1]), After(TOP, text);
      Depth(Min(before.parens, d.parens), Min(before.brackets, d.brackets), Min(before.braces, d.braces), d.state)
  }

  /** No beginning is lower than this, and one is this low. */
  lemma {:induction false} LowestIsLowest(text: string, k: nat)
    requires k <= |text|
    ensures var low, d := Lowest(text), After(TOP, text[..k]);
            low.parens <= d.parens && low.brackets <= d.brackets && low.braces <= d.braces
    decreases |text|
  {
    if k == |text| {
      assert text[..k] == text;
    } else {
      LowestIsLowest(text[..|text| - 1], k);
      assert text[..|text| - 1][..k] == text[..k];
    }
  }

  /**
   * Behind this text no quote and no bracket is open: no beginning of it is less deep, in any kind of
   * bracket. So a closing bracket that nothing opened does not make up for one that is opened later.
   */
  ghost predicate AtTop(text: string) {
    var d := After(TOP, text);
    && d.state.quote.None?
    && forall k | 0 <= k <= |text| ::
         var e := After(TOP, text[..k]);
         d.parens <= e.parens && d.brackets <= e.brackets && d.braces <= e.braces
  }

  lemma {:induction false} FeedAllSnoc(s: Splitter, text: string, ch: char)
    ensures FeedAll(s, text + [ch]) == Feed(FeedAll(s, text), ch)
    decreases |text|
  {
    if text == "" {
      assert ("" + [ch])[1..] == "";
    } else {
      assert (text + [ch])[1..] == text[1..] + [ch];
      FeedAllSnoc(Feed(s, text[0]), text[1..], ch);
    }
  }

  /** The splitter's counters stand this much above the lowest depth. */
  ghost predicate CountsAbove(s: Splitter, d: Depth, low: Depth) {
    && s.state == d.state
    && s.parens == d.parens - low.parens && s.brackets == d.brackets - low.brackets && s.braces == d.braces - low.braces
  }

  lemma FeedCounts(s: Splitter, d: Depth, low: Depth, ch: char)
    requires CountsAbove(s, d, low)
    ensures var next := Advance(d, ch);
            CountsAbove(Feed(s, ch), next,
                        Depth(Min(low.parens, next.parens), Min(low.brackets, next.brackets), Min(low.braces, next.braces), next.state))
  {
  }

  lemma {:induction false} SplitterCounts(text: string)
    ensures CountsAbove(FeedAll(EMPTY, text), After(TOP, text), Lowest(text))
    decreases |text|
  {
    if text == "" {
    } else {
      var before, ch := text[..|text| - 1], text[|text| - 1];
      assert text == before + [ch];
      SplitterCounts(before);
      FeedCounts(FeedAll(EMPTY, before), After(TOP, before), Lowest(before), ch);
      FeedAllSnoc(EMPTY, before, ch);
      AfterOneMore(TOP, before, ch);
    }
  }

  lemma {:induction false} LowestIsReached(text: string)
    ensures exists k | 0 <= k <= |text| :: After(TOP, text[..k]).parens == Lowest(text).parens
    ensures exists k | 0 <= k <= |text| :: After(TOP, text[..k]).brackets == Lowest(text).brackets
    ensures exists k | 0 <= k <= |text| :: After(TOP, text[..k]).braces == Lowest(text).braces
    decreases |text|
  {
    if text == "" {
      assert text[..0] == "";
    } else {
      var before := text[..|text| - 1];
      LowestIsReached(before);
      assert text[..|text|] == text;
      assert forall k | 0 <= k <= |before| :: before[..k] == text[..k];
    }
  }

  /** The splitter takes a comma for a separator exactly at the top. */
  lemma CutsAtTop(text: string)
    ensures var s := FeedAll(EMPTY, text);
            s.state.quote.None? && s.parens == 0 && s.brackets == 0 && s.braces == 0 <==> AtTop(text)
  {
    SplitterCounts(text);
    LowestIsReached(text);
    forall k | 0 <= k <= |text|
      ensures var low, d := Lowest(text), After(TOP, text[..k]);
              low.parens <= d.parens && low.brackets <= d.brackets && low.braces <= d.braces
    {
      LowestIsLowest(text, k);
    }
    assert text[..|text|] == text;
  }

  /** The stretches of a text between the commas that stand at the top. */
  ghost function Stretches(text: string): (stretches: seq<string>)
    ensures stretches != []
    decreases |text|
  {
    if text == "" then [""]
    else
      var before, ch := text[..|text| - 1], text[|text| - 1];
      var stretches := Stretches(before);
      if ch == ',' && AtTop(before) then stretches + [""]
      else stretches[|stretches| - 1 := stretches[|stretches| - 1] + [ch]]
  }

  function Glue(stretches: seq<string>): string
    requires stretches != []
  {
    if |stretches| == 1 then stretches[0] else Glue(stretches[..|stretches| - 1]) + "," + stretches[|stretches| - 1]
  }

  /** The stretches and the commas between them are the text. */
  lemma {:induction false} StretchesAreTheText(text: string)
    ensures Glue(Stretches(text)) == text
    decreases |text|
  {
    if text == "" {
    } else {
      var before, ch := text[..|text| - 1], text[|text| - 1];
      var stretches := Stretches(before);
      var n := |stretches| - 1;
      StretchesAreTheText(before);
      assert text == before + [ch];
      if ch == ',' && AtTop(before) {
        assert (stretches + [""])[..n + 1] == stretches;
        assert Glue(stretches + [""]) == before + "," + "";
      } else {
        var longer := stretches[n := stretches[n] + [ch]];
        assert longer[..n] == stretches[..n];
        assert Glue(longer) == Glue(stretches) + [ch];
      }
    }
  }

  ghost function Trimmed(texts: seq<string>): seq<string> {
    if texts == [] then [] else Trimmed(texts[..|texts| - 1]) + [Trim(texts[|texts| - 1])]
  }

  /** What has been fed is held as stretches: all but the last one done. */
  ghost predicate Holds(s: Splitter, stretches: seq<string>) {
    stretches != [] && s.current == stretches[|stretches| - 1] && s.out == Trimmed(stretches[..|stretches| - 1])
  }

  lemma FeedHolds(s: Splitter, stretches: seq<string>, ch: char)
    requires Holds(s, stretches)
    ensures var n := |stretches| - 1;
            Holds(Feed(s, ch),
                  if ch == ',' && s.state.quote.None? && s.parens == 0 && s.brackets == 0 && s.braces == 0 then stretches + [""]
                  else stretches[n := stretches[n] + [ch]])
  {
    var n := |stretches| - 1;
    assert (stretches + [""])[..n + 1] == stretches;
    assert stretches[n := stretches[n] + [ch]][..n] == stretches[..n];
  }

  lemma {:induction false} SplitterHoldsStretches(text: string)
    ensures Holds(FeedAll(EMPTY, text), Stretches(text))
    decreases |text|
  {
    if text == "" {
      assert [""][..0] == [];
    } else {
      var before, ch := text[..|text| - 1], text[|text| - 1];
      assert text == before + [ch];
      SplitterHoldsStretches(before);
      FeedAllSnoc(EMPTY, before, ch);
      CutsAtTop(before);
      FeedHolds(FeedAll(EMPTY, before), Stretches(before), ch);
    }
  }

  /**
   * On every text the splitter returns the trimmed stretches between the commas at the top, in order; only
   * a last one that is blank is dropped.
   */
  lemma SplitterCutsAtTheTop(text: string)
    ensures var stretches := Stretches(text);
            var n := |stretches| - 1;
            Close(FeedAll(EMPTY, text)) == Trimmed(if Trim(stretches[n]) == "" then stretches[..n] else stretches)
  {
    SplitterHoldsStretches(text);
  }

  // ---------------------------------------------------------------- white space around an argument

  lemma {:induction false} InsideConcat(d: Depth, a: string, b: string)
    ensures After(d, a + b) == After(After(d, a), b)
    ensures Inside(d, a + b) <==> Inside(d, a) && Inside(After(d, a), b)
    decreases |a|
  {
    if a == "" {
      assert a + b == b;
    } else {
      InsideConcat(Advance(d, a[0]), a[1..], b);
      assert (a + b)[1..] == a[1..] + b;
    }
  }

  lemma {:induction false} BlankIsBalanced(text: string)
    requires Blank(text)
    ensures Balanced(text)
  {
    if text == "" {
    } else {
      BlankIsBalanced(text[1..]);
    }
  }

  lemma PrintIsBalanced(argument: Argument)
    requires GoodArgument(argument)
    ensures Balanced(Print(argument))
  {
    BlankIsBalanced(argument.before);
    BlankIsBalanced(argument.after);
    InsideConcat(TOP, argument.before, argument.text);
    InsideConcat(TOP, argument.before + argument.text, argument.after);
  }

  lemma TrimPrint(argument: Argument)
    requires GoodArgument(argument)
    ensures Trim(Print(argument)) == argument.text
  {
    TrimOf(argument.before, argument.text, argument.after);
  }

  // ---------------------------------------------------------------- the scanners on balanced text

  /** The paren finder passes over balanced text. */
  lemma {:induction false} MatchSkips(source: string, i: nat, d: Depth, text: string)
    requires i + |text| <= |source| && source[i..i + |text|] == text
    requires Inside(d, text)
    ensures After(d, text).parens >= 0
    ensures MatchFrom(source, i, 1 + d.parens, d.state)
         == MatchFrom(source, i + |text|, 1 + After(d, text).parens, After(d, text).state)
    decreases |text|
  {
    if text == "" {
    } else {
      assert source[i] == source[i..i + |text|][0] == text[0];
      assert source[i + 1..i + |text|] == source[i..i + |text|][1..] == text[1..];
      MatchSkips(source, i + 1, Advance(d, text[0]), text[1..]);
    }
  }

  /** The splitter is where the text is: its depth counters agree. */
  ghost predicate Tracks(s: Splitter, d: Depth) {
    s.parens == d.parens && s.brackets == d.brackets && s.braces == d.braces && s.state == d.state
  }

  lemma FeedKeepsTrack(s: Splitter, d: Depth, ch: char)
    requires Tracks(s, d) && Inside(Advance(d, ch), "")
    requires !(ch == ',' && d.state.quote.None? && d.parens == 0 && d.brackets == 0 && d.braces == 0)
    ensures Tracks(Feed(s, ch), Advance(d, ch)) && Feed(s, ch).out == s.out && Feed(s, ch).current == s.current + [ch]
  {
  }

  lemma FeedAllOfMore(s: Splitter, text: string, more: string)
    requires text != ""
    ensures FeedAll(s, text + more) == FeedAll(Feed(s, text[0]), text[1..] + more)
  {
    assert (text + more)[1..] == text[1..] + more;
  }

  /** The splitter gathers balanced text into the current argument. */
  lemma {:induction false} FeedGathers(s: Splitter, d: Depth, text: string, more: string) returns (t: Splitter)
    requires Tracks(s, d) && Inside(d, text)
    ensures Tracks(t, After(d, text)) && t.out == s.out && t.current == s.current + text
    ensures FeedAll(s, text + more) == FeedAll(t, more)
    decreases |text|
  {
    if text == "" {
      assert text + more == more;
      t := s;
    } else {
      FeedKeepsTrack(s, d, text[0]);
      FeedAllOfMore(s, text, more);
      t := FeedGathers(Feed(s, text[0]), Advance(d, text[0]), text[1..], more);
      assert s.current + [text[0]] + text[1..] == s.current + text;
    }
  }

  lemma Slice(source: string, i: nat, text: string, a: nat, b: nat)
    requires i + |text| <= |source| && source[i..i + |text|] == text
    requires a <= b <= |text|
    ensures source[i + a..i + b] == text[a..b]
  {
    forall k | 0 <= k < b - a ensures source[i + a..i + b][k] == text[a..b][k] {
      assert source[i + a + k] == source[i..i + |text|][a + k];
    }
  }

  /** `text` stands in the source at position i. */
  ghost predicate StandsAt(source: string, i: nat, text: string) {
    i + |text| <= |source| && source[i..i + |text|] == text
  }

  /** Wherever the text stands, the finder passes over it. */
  ghost predicate Skippable(text: string) {
    forall source, i: nat | StandsAt(source, i, text) ::
      MatchFrom(source, i, 1, UNQUOTED) == MatchFrom(source, i + |text|, 1, UNQUOTED)
  }

  lemma PrintIsPassed(argument: Argument)
    requires GoodArgument(argument)
    ensures Skippable(Print(argument))
  {
    PrintIsBalanced(argument);
    forall source, i: nat | StandsAt(source, i, Print(argument))
      ensures MatchFrom(source, i, 1, UNQUOTED) == MatchFrom(source, i + |Print(argument)|, 1, UNQUOTED)
    {
      MatchSkips(source, i, TOP, Print(argument));
    }
  }

  lemma StandsAtParts(source: string, i: nat, a: string, b: string)
    requires StandsAt(source, i, a + b)
    ensures StandsAt(source, i, a) && StandsAt(source, i + |a|, b)
  {
    Slice(source, i, a + b, 0, |a|);
    Slice(source, i, a + b, |a|, |a + b|);
  }

  lemma CommaIsPassed(source: string, i: nat)
    requires i < |source| && source[i] == ','
    ensures MatchFrom(source, i, 1, UNQUOTED) == MatchFrom(source, i + 1, 1, UNQUOTED)
  {
  }

  lemma FirstAndRestStand(source: string, i: nat, first: string, rest: string)
    requires StandsAt(source, i, first + ("," + rest))
    ensures StandsAt(source, i, first) && i + |first| < |source| && source[i + |first|] == ','
    ensures StandsAt(source, i + |first| + 1, rest)
  {
    StandsAtParts(source, i, first, "," + rest);
    StandsAtParts(source, i + |first|, ",", rest);
    assert source[i + |first|] == source[i + |first|..i + |first| + 1][0];
  }

  lemma PairIsPassed(first: string, rest: string)
    requires Skippable(first) && Skippable(rest)
    ensures Skippable(first + ("," + rest))
  {
    var both := first + ("," + rest);
    forall source, i: nat | StandsAt(source, i, both)
      ensures MatchFrom(source, i, 1, UNQUOTED) == MatchFrom(source, i + |both|, 1, UNQUOTED)
    {
      FirstAndRestStand(source, i, first, rest);
      CommaIsPassed(source, i + |first|);
    }
  }

  lemma {:induction false} JoinIsPassed(arguments: seq<Argument>)
    requires forall k | 0 <= k < |arguments| :: Skippable(Print(arguments[k]))
    ensures Skippable(Join(arguments))
    decreases |arguments|
  {
    if |arguments| == 0 {
    } else if |arguments| == 1 {
      assert Skippable(Print(arguments[0]));
    } else {
      var first, rest := Print(arguments[0]), Join(arguments[1..]);
      JoinIsPassed(arguments[1..]);
      assert Join(arguments) == first + ("," + rest);
      PairIsPassed(first, rest);
    }
  }

  lemma CloserIsFound(source: string, i: nat)
    requires i < |source| && source[i] == ')'
    ensures MatchFrom(source, i, 1, UNQUOTED) == i
  {
  }

  lemma FirstIsSplit(s: Splitter, argument: Argument, more: string) returns (t: Splitter)
    requires GoodArgument(argument) && Tracks(s, TOP) && s.current == ""
    ensures Tracks(t, TOP) && t.out == s.out && Trim(t.current) == argument.text
    ensures FeedAll(s, Print(argument) + more) == FeedAll(t, more)
  {
    PrintIsBalanced(argument);
    TrimPrint(argument);
    t := FeedGathers(s, TOP, Print(argument), more);
    assert t.current == Print(argument);
  }

  lemma CommaIsSplit(t: Splitter, more: string)
    requires Tracks(t, TOP)
    ensures FeedAll(t, "," + more) == FeedAll(Feed(t, ','), more)
    ensures var u := Feed(t, ','); Tracks(u, TOP) && u.current == "" && u.out == t.out + [Trim(t.current)]
  {
    assert ("," + more)[1..] == more;
  }

  /** From the top, with nothing gathered, the splitter makes these arguments of the text. */
  ghost predicate SplitsInto(text: string, texts: seq<string>) {
    forall s: Splitter | Tracks(s, TOP) && s.current == "" :: Close(FeedAll(s, text)) == s.out + texts
  }

  lemma OneIsSplit(argument: Argument)
    requires GoodArgument(argument) && argument.text != ""
    ensures SplitsInto(Print(argument), [argument.text])
  {
    forall s: Splitter | Tracks(s, TOP) && s.current == "" ensures Close(FeedAll(s, Print(argument))) == s.out + [argument.text] {
      var t := FirstIsSplit(s, argument, "");
      assert Print(argument) + "" == Print(argument);
    }
  }

  lemma ThenIsSplit(t: Splitter, rest: string, texts: seq<string>)
    requires Tracks(t, TOP) && SplitsInto(rest, texts)
    ensures Close(FeedAll(t, "," + rest)) == t.out + [Trim(t.current)] + texts
  {
    CommaIsSplit(t, rest);
  }

  lemma MoreIsSplit(argument: Argument, rest: string, texts: seq<string>)
    requires GoodArgument(argument) && SplitsInto(rest, texts)
    ensures SplitsInto(Print(argument) + ("," + rest), [argument.text] + texts)
  {
    forall s: Splitter | Tracks(s, TOP) && s.current == ""
      ensures Close(FeedAll(s, Print(argument) + ("," + rest))) == s.out + ([argument.text] + texts)
    {
      var t := FirstIsSplit(s, argument, "," + rest);
      ThenIsSplit(t, rest, texts);
    }
  }

  lemma NoneIsSplit()
    ensures SplitsInto("", [])
  {
    assert Trim("") == "";
  }

  lemma TailIsGood(arguments: seq<Argument>)
    requires GoodArguments(arguments) && |arguments| > 1
    ensures GoodArguments(arguments[1..])
  {
    assert forall k | 0 <= k < |arguments[1..]| :: arguments[1..][k] == arguments[k + 1];
  }

  lemma TextsOfMore(arguments: seq<Argument>)
    requires arguments != []
    ensures Texts(arguments) == [arguments[0].text] + Texts(arguments[1..])
  {
  }

  lemma {:induction false} JoinIsSplit(arguments: seq<Argument>)
    requires GoodArguments(arguments)
    ensures SplitsInto(Join(arguments), Texts(arguments))
    decreases |arguments|
  {
    if |arguments| == 0 {
      NoneIsSplit();
    } else if |arguments| == 1 {
      OneIsSplit(arguments[0]);
      TextsOfMore(arguments);
    } else {
      var rest := arguments[1..];
      TailIsGood(arguments);
      JoinIsSplit(rest);
      MoreIsSplit(arguments[0], Join(rest), Texts(rest));
      TextsOfMore(arguments);
      assert Print(arguments[0]) + ("," + Join(rest)) == Join(arguments);
    }
  }

  lemma CallIsReadBack(source: string, i: nat, arguments: seq<Argument>)
    requires GoodArguments(arguments)
    requires StandsAt(source, i, Join(arguments))
    requires i + |Join(arguments)| < |source| && source[i + |Join(arguments)|] == ')'
    ensures MatchFrom(source, i, 1, UNQUOTED) == i + |Join(arguments)|
    ensures Close(FeedAll(EMPTY, source[i..i + |Join(arguments)|])) == Texts(arguments)
  {
    forall k | 0 <= k < |arguments| ensures Skippable(Print(arguments[k])) {
      PrintIsPassed(arguments[k]);
    }
    JoinIsPassed(arguments);
    CloserIsFound(source, i + |Join(arguments)|);
    JoinIsSplit(arguments);
    assert Tracks(EMPTY, TOP);
    assert [] + Texts(arguments) == Texts(arguments);
  }

  /** A call as it is printed, between what stands before and behind it. */
  function PrintCall(prefix: string, arguments: seq<Argument>, suffix: string): string {
    prefix + "(" + Join(arguments) + ")" + suffix
  }

  lemma JoinedStands(prefix: string, joined: string, suffix: string)
    ensures var source := prefix + "(" + joined + ")" + suffix;
            && StandsAt(source, |prefix| + 1, joined)
            && |prefix| + 1 + |joined| < |source| && source[|prefix| + 1 + |joined|] == ')'
  {
  }

  /**
   * A call printed with its arguments is read back: whatever stands before the opening paren and
   * behind the closing one, the finder returns that closing paren and the splitter, on what is
   * between the two, returns exactly the arguments.
   */
  lemma PrintedCallIsReadBack(prefix: string, arguments: seq<Argument>, suffix: string)
    requires GoodArguments(arguments)
    ensures var source := PrintCall(prefix, arguments, suffix);
            var closing := |prefix| + 1 + |Join(arguments)|;
            && MatchFrom(source, |prefix| + 1, 1, UNQUOTED) == closing
            && Close(FeedAll(EMPTY, source[|prefix| + 1..closing])) == Texts(arguments)
  {
    JoinedStands(prefix, Join(arguments), suffix);
    CallIsReadBack(PrintCall(prefix, arguments, suffix), |prefix| + 1, arguments);
  }

  // ---------------------------------------------------------------- expressions give such arguments

  datatype Letter = Raw(ch: char) | Escaped(ch: char)

  datatype Kind = Parens | Brackets | Braces

  /** Source text as nested pieces. */
  datatype Piece =
    | Plain(ch: char)
    | Quoted(quote: char, body: seq<Letter>)
    | Group(kind: Kind, inside: Pieces)

  datatype Pieces = End | More(head: Piece, tail: Pieces)

  function Open(kind: Kind): char {
    match kind case Parens => '(' case Brackets => '[' case Braces => '{'
  }

  function Shut(kind: Kind): char {
    match kind case Parens => ')' case Brackets => ']' case Braces => '}'
  }

  function ShowBody(body: seq<Letter>): string {
    if body == [] then ""
    else (match body[0] case Raw(ch) => [ch] case Escaped(ch) => ['\\', ch]) + ShowBody(body[1..])
  }

  function Show(pieces: Pieces): string {
    match pieces
    case End => ""
    case More(Plain(ch), tail) => [ch] + Show(tail)
    case More(Quoted(quote, body), tail) => [quote] + ShowBody(body) + [quote] + Show(tail)
    case More(Group(kind, inside), tail) => [Open(kind)] + Show(inside) + [Shut(kind)] + Show(tail)
  }

  predicate IsBracket(ch: char) {
    ch == '(' || ch == ')' || ch == '[' || ch == ']' || ch == '{' || ch == '}'
  }

  /** What quotes in TypeScript. */
  predicate IsDelimiter(ch: char) {
    ch in {'\'', '"', '`'}
  }

  /** Plain characters are neither quotes nor brackets, and at the top no commas. */
  ghost predicate GoodPieces(pieces: Pieces, top: bool) {
    match pieces
    case End => true
    case More(Plain(ch), tail) => !IsDelimiter(ch) && !IsBracket(ch) && !(top && ch == ',') && GoodPieces(tail, top)
    case More(Quoted(quote, body), tail) =>
      && IsDelimiter(quote)
      && (forall i | 0 <= i < |body| && body[i].Raw? :: body[i].ch != quote && body[i].ch != '\\')
      && GoodPieces(tail, top)
    case More(Group(_, inside), tail) => GoodPieces(inside, false) && GoodPieces(tail, top)
  }

  ghost predicate AtDepth(d: Depth, top: bool) {
    && d.parens >= 0 && d.brackets >= 0 && d.braces >= 0
    && d.state == UNQUOTED
    && (top || d.parens + d.brackets + d.braces > 0)
  }

  lemma {:induction false} BodyStaysQuoted(d: Depth, quote: char, body: seq<Letter>)
    requires d.parens >= 0 && d.brackets >= 0 && d.braces >= 0 && d.state == QuoteState(Some(quote), false)
    requires forall i | 0 <= i < |body| && body[i].Raw? :: body[i].ch != quote && body[i].ch != '\\'
    ensures Inside(d, ShowBody(body)) && After(d, ShowBody(body)) == d
  {
    if body == [] {
    } else {
      var first := match body[0] case Raw(ch) => [ch] case Escaped(ch) => ['\\', ch];
      InsideConcat(d, first, ShowBody(body[1..]));
      assert first[1..] == if body[0].Raw? then "" else [body[0].ch];
      BodyStaysQuoted(d, quote, body[1..]);
    }
  }

  lemma Enclosed(d: Depth, open: char, body: string, shut: char, tail: string)
    requires open != ',' && d.parens >= 0 && d.brackets >= 0 && d.braces >= 0
    requires Inside(Advance(d, open), body) && After(Advance(d, open), body) == Advance(d, open)
    requires shut != ',' && Advance(Advance(d, open), shut) == d
    requires Inside(d, tail) && After(d, tail) == d
    ensures var text := [open] + body + [shut] + tail;
            Inside(d, text) && After(d, text) == d
  {
    var text := [open] + body + [shut] + tail;
    assert text == [open] + (body + ([shut] + tail));
    assert ([shut] + tail)[1..] == tail;
    InsideConcat(Advance(d, open), body, [shut] + tail);
    assert text[1..] == body + ([shut] + tail);
  }

  /** Every expression made of such pieces is balanced, however deep its groups are nested. */
  lemma {:induction false} ShownPiecesAreBalanced(d: Depth, pieces: Pieces, top: bool)
    requires GoodPieces(pieces, top) && AtDepth(d, top)
    ensures Inside(d, Show(pieces)) && After(d, Show(pieces)) == d
    decreases pieces
  {
    match pieces
    case End =>
    case More(Plain(ch), tail) =>
      InsideConcat(d, [ch], Show(tail));
      ShownPiecesAreBalanced(d, tail, top);
    case More(Quoted(quote, body), tail) =>
      var quoted := d.(state := QuoteState(Some(quote), false));
      assert Advance(d, quote) == quoted && Advance(quoted, quote) == d;
      ShownPiecesAreBalanced(d, tail, top);
      BodyStaysQuoted(quoted, quote, body);
      Enclosed(d, quote, ShowBody(body), quote, Show(tail));
    case More(Group(kind, inside), tail) =>
      ShownPiecesAreBalanced(d, tail, top);
      ShownPiecesAreBalanced(Advance(d, Open(kind)), inside, false);
      Enclosed(d, Open(kind), Show(inside), Shut(kind), Show(tail));
  }
}
