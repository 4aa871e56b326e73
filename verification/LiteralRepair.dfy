/**
 * restoreReplacementCorruptedStringLiterals of scripts/control-ui-i18n.ts: when the formatter has
 * damaged characters, the string literals of the unformatted source are put back by position.
 */
module LiteralRepair {
  import opened Prelude

  const REPLACEMENT := '\U{FFFD}'

  predicate Corrupted(text: string) {
    REPLACEMENT in text
  }

  /**
   * The rest of `"(?:\\.|[^"\\])*"` behind its opening quote, from position i: the position behind the
   * closing quote, or None when there is no match. The alternatives exclude each other, so a match is
   * never found by giving characters back.
   */
  function BodyEnd(text: string, i: nat): (end: Option<nat>)
    requires i <= |text|
    ensures end.Some? ==> i < end.value <= |text|
    decreases |text| - i
  {
    if i == |text| then None
    else if text[i] == '"' then Some(i + 1)
    else
      var skip := if text[i] == '\\' then 2 else 1;
      if i + skip > |text| || (skip == 2 && IsLineTerminator(text[i + 1])) then None
      else BodyEnd(text, i + skip)
  }

  /** The end of the literal that starts at position i, if one does. */
  function LiteralEnd(text: string, i: nat): (end: Option<nat>)
    ensures end.Some? ==> i + 2 <= end.value <= |text|
  {
    if i < |text| && text[i] == '"' then BodyEnd(text, i + 1) else None
  }

  ghost predicate IsLiteral(text: string) {
    LiteralEnd(text, 0) == Some(|text|)
  }

  /** Where the next literal starts, or the end of the text. */
  function NextLiteral(text: string, i: nat): (next: nat)
    requires i <= |text|
    ensures i <= next <= |text|
    ensures next < |text| ==> LiteralEnd(text, next).Some?
    decreases |text| - i
  {
    if i == |text| || LiteralEnd(text, i).Some? then i else NextLiteral(text, i + 1)
  }

  /** A text as the pattern sees it: literals, and what stands before, between and after them. */
  datatype Scanned = Tail(text: string) | Found(gap: string, literal: string, rest: Scanned)

  function Text(scanned: Scanned): string {
    match scanned
    case Tail(text) => text
    case Found(gap, literal, rest) => gap + literal + Text(rest)
  }

  /** The matches of the pattern from left to right, each behind the previous one. */
  function Scan(text: string, from: nat): (scanned: Scanned)
    requires from <= |text|
    ensures Text(scanned) == text[from..]
    decreases |text| - from
  {
    var start := NextLiteral(text, from);
    if start == |text| then Tail(text[from..])
    else
      var end := LiteralEnd(text, start).value;
      Found(text[from..start], text[start..end], Scan(text, end))
  }

  function Literals(scanned: Scanned): seq<string> {
    match scanned
    case Tail(_) => []
    case Found(_, literal, rest) => [literal] + Literals(rest)
  }

  function Gaps(scanned: Scanned): seq<string> {
    match scanned
    case Tail(text) => [text]
    case Found(gap, _, rest) => [gap] + Gaps(rest)
  }

  /** A match of `matchAll`: where it starts in the whole text, and what it matched. */
  datatype Match = Match(index: nat, text: string)

  /** `[...text.matchAll(stringLiteralPattern)]`, the text standing `offset` characters into the whole. */
  function Matches(scanned: Scanned, offset: nat): seq<Match> {
    match scanned
    case Tail(_) => []
    case Found(gap, literal, rest) =>
      [Match(offset + |gap|, literal)] + Matches(rest, offset + |gap| + |literal|)
  }

  function MatchAll(text: string): seq<Match> {
    Matches(Scan(text, 0), 0)
  }

  /** What the loop puts in the place of a literal. */
  function Mend(literal: string, replacement: string): string {
    if Corrupted(literal) && !Corrupted(replacement) then replacement else literal
  }

  /** The literals mended by position; both texts have equally many. */
  function MendAll(formatted: Scanned, source: Scanned): Scanned {
    match formatted
    case Tail(_) => formatted
    case Found(gap, literal, rest) =>
      if source.Tail? then formatted else Found(gap, Mend(literal, source.literal), MendAll(rest, source.rest))
  }

  /** The repair as a substitution of literals. */
  function Repaired(source: string, formatted: string): string {
    if !Corrupted(formatted) || Corrupted(source) then formatted
    else if |Literals(Scan(source, 0))| != |Literals(Scan(formatted, 0))| then formatted
    else Text(MendAll(Scan(formatted, 0), Scan(source, 0)))
  }

  lemma {:induction false} MatchesOf(scanned: Scanned, offset: nat)
    ensures |Matches(scanned, offset)| == |Literals(scanned)|
  {
    if scanned.Tail? {
    } else {
      MatchesOf(scanned.rest, offset + |scanned.gap| + |scanned.literal|);
    }
  }

  lemma MendedPiece(output: string, formatted: Scanned, source: Scanned)
    requires formatted.Found? && source.Found?
    ensures output + formatted.gap + Mend(formatted.literal, source.literal) + Text(MendAll(formatted.rest, source.rest))
         == output + Text(MendAll(formatted, source))
  {
  }

  /** The loop has used `index` matches of both texts; from `cursor` on, the formatted text is `left`. */
  ghost predicate Ahead(formatted: string, formattedLiterals: seq<Match>, sourceLiterals: seq<Match>,
                        index: nat, cursor: nat, left: Scanned, other: Scanned, otherOffset: nat) {
    && cursor <= |formatted| && Text(left) == formatted[cursor..]
    && index <= |formattedLiterals| == |sourceLiterals|
    && formattedLiterals[index..] == Matches(left, cursor)
    && sourceLiterals[index..] == Matches(other, otherOffset)
  }

  /** The next match of a scan of which `index` matches have been used. */
  lemma NextMatch(matches: seq<Match>, index: nat, scanned: Scanned, offset: nat)
    requires index < |matches| && matches[index..] == Matches(scanned, offset)
    ensures scanned.Found? && matches[index] == Match(offset + |scanned.gap|, scanned.literal)
    ensures matches[index + 1..] == Matches(scanned.rest, offset + |scanned.gap| + |scanned.literal|)
  {
    assert matches[index..][0] == matches[index];
    assert matches[index + 1..] == matches[index..][1..];
  }

  lemma NextPiece(text: string, cursor: nat, scanned: Scanned)
    requires cursor <= |text| && scanned.Found? && Text(scanned) == text[cursor..]
    ensures var start := cursor + |scanned.gap|;
            && start + |scanned.literal| <= |text|
            && text[cursor..start] == scanned.gap && text[start + |scanned.literal|..] == Text(scanned.rest)
  {
    var start := cursor + |scanned.gap|;
    assert text[cursor..start] == text[cursor..][..|scanned.gap|];
    assert text[start + |scanned.literal|..] == text[cursor..][|scanned.gap| + |scanned.literal|..];
  }

  lemma NextAhead(formatted: string, formattedLiterals: seq<Match>, sourceLiterals: seq<Match>,
                  index: nat, cursor: nat, left: Scanned, other: Scanned, otherOffset: nat)
    requires Ahead(formatted, formattedLiterals, sourceLiterals, index, cursor, left, other, otherOffset)
    requires index < |formattedLiterals|
    ensures left.Found? && other.Found?
    ensures formattedLiterals[index] == Match(cursor + |left.gap|, left.literal)
    ensures sourceLiterals[index].text == other.literal
    ensures cursor + |left.gap| <= |formatted| && formatted[cursor..cursor + |left.gap|] == left.gap
    ensures Ahead(formatted, formattedLiterals, sourceLiterals, index + 1, cursor + |left.gap| + |left.literal|,
                  left.rest, other.rest, otherOffset + |other.gap| + |other.literal|)
  {
    NextMatch(formattedLiterals, index, left, cursor);
    NextMatch(sourceLiterals, index, other, otherOffset);
    NextPiece(formatted, cursor, left);
  }

  lemma NothingAhead(formatted: string, formattedLiterals: seq<Match>, sourceLiterals: seq<Match>,
                     cursor: nat, left: Scanned, other: Scanned, otherOffset: nat)
    requires Ahead(formatted, formattedLiterals, sourceLiterals, |formattedLiterals|, cursor, left, other, otherOffset)
    ensures Text(MendAll(left, other)) == formatted[cursor..]
  {
    assert formattedLiterals[|formattedLiterals|..] == [];
  }

  /** The loop over the literals of the formatted text. */
  method Substitute(formatted: string, formattedLiterals: seq<Match>, sourceLiterals: seq<Match>,
                    ghost scanned: Scanned, ghost source: Scanned) returns (restored: string)
    requires Ahead(formatted, formattedLiterals, sourceLiterals, 0, 0, scanned, source, 0)
    ensures restored == Text(MendAll(scanned, source))
  {
    var output := "";
    var cursor: nat := 0;
    ghost var left, other := scanned, source;  // what is not scanned yet of the two texts
    ghost var otherOffset: nat := 0;
    for index := 0 to |formattedLiterals|
      invariant Ahead(formatted, formattedLiterals, sourceLiterals, index, cursor, left, other, otherOffset)
      invariant output + Text(MendAll(left, other)) == Text(MendAll(scanned, source))
    {
      NextAhead(formatted, formattedLiterals, sourceLiterals, index, cursor, left, other, otherOffset);
      MendedPiece(output, left, other);
      var replacement := sourceLiterals[index].text;
      var literal := formattedLiterals[index].text;
      var start := formattedLiterals[index].index;
      output := output + formatted[cursor..start];
      var mended := if REPLACEMENT in literal && REPLACEMENT !in replacement then replacement else literal;
      output := output + mended;
      cursor := start + |literal|;
      otherOffset := otherOffset + |other.gap| + |other.literal|;
      left, other := left.rest, other.rest;
    }
    NothingAhead(formatted, formattedLiterals, sourceLiterals, cursor, left, other, otherOffset);
    restored := output + formatted[cursor..];
  }

  method RestoreReplacementCorruptedStringLiterals(source: string, formatted: string) returns (restored: string)
    ensures restored == Repaired(source, formatted)
  {
    if REPLACEMENT !in formatted || REPLACEMENT in source {
      return formatted;
    }
    var sourceLiterals := MatchAll(source);
    var formattedLiterals := MatchAll(formatted);
    MatchesOf(Scan(source, 0), 0);
    MatchesOf(Scan(formatted, 0), 0);
    if |sourceLiterals| != |formattedLiterals| {
      return formatted;
    }
    restored := Substitute(formatted, formattedLiterals, sourceLiterals, Scan(formatted, 0), Scan(source, 0));
  }

  // ---------------------------------------------------------------- what a literal is

  /** A character of a literal's body: one that is neither a quote nor a backslash, or a backslash and any other. */
  datatype Letter = Plain(ch: char) | Escape(ch: char)

  ghost predicate GoodLetter(letter: Letter) {
    match letter
    case Plain(ch) => ch != '"' && ch != '\\'
    case Escape(ch) => ch != '\n' && ch != '\r' && ch != '\U{2028}' && ch != '\U{2029}'
  }

  ghost function Spell(body: seq<Letter>): string {
    if body == [] then ""
    else (match body[0] case Plain(ch) => [ch] case Escape(ch) => ['\\', ch]) + Spell(body[1..])
  }

  /** The text is a quote, a body of such characters, and a quote. */
  ghost predicate Quotes(text: string, body: seq<Letter>) {
    (forall i | 0 <= i < |body| :: GoodLetter(body[i])) && text == "\"" + Spell(body) + "\""
  }

  lemma {:induction false} BodyIsSpelled(text: string, i: nat) returns (body: seq<Letter>)
    requires i <= |text| && BodyEnd(text, i).Some?
    ensures forall k | 0 <= k < |body| :: GoodLetter(body[k])
    ensures text[i..BodyEnd(text, i).value] == Spell(body) + "\""
    decreases |text| - i
  {
    var end := BodyEnd(text, i).value;
    if text[i] == '"' {
      body := [];
    } else {
      var skip := if text[i] == '\\' then 2 else 1;
      var rest := BodyIsSpelled(text, i + skip);
      var letter := if skip == 2 then Escape(text[i + 1]) else Plain(text[i]);
      body := [letter] + rest;
      assert body[1..] == rest;
      assert text[i..end] == text[i..i + skip] + text[i + skip..end];
      assert text[i..i + skip] == if skip == 2 then ['\\', text[i + 1]] else [text[i]];
    }
  }

  lemma {:induction false} SpelledBodyEnds(text: string, i: nat, body: seq<Letter>)
    requires forall k | 0 <= k < |body| :: GoodLetter(body[k])
    requires i + |Spell(body)| < |text| && text[i..i + |Spell(body)| + 1] == Spell(body) + "\""
    ensures BodyEnd(text, i) == Some(i + |Spell(body)| + 1)
    decreases |body|
  {
    var n := |Spell(body)|;
    var here := text[i..i + n + 1];
    assert forall k | 0 <= k <= n :: here[k] == text[i + k];
    if body == [] {
      assert here[0] == '"';
    } else {
      var first := match body[0] case Plain(ch) => [ch] case Escape(ch) => ['\\', ch];
      assert Spell(body) == first + Spell(body[1..]);
      assert here[0] == first[0] && (|first| == 2 ==> here[1] == first[1]);
      assert text[i + |first|..i + n + 1] == here[|first|..] == Spell(body[1..]) + "\"";
      SpelledBodyEnds(text, i + |first|, body[1..]);
    }
  }

  /** The pattern matches at a position, up to an end, exactly when what stands there is a quoted body. */
  lemma LiteralsAreQuotedBodies(text: string, i: nat, end: nat)
    requires i <= end <= |text|
    ensures LiteralEnd(text, i) == Some(end) <==> exists body :: Quotes(text[i..end], body)
  {
    if LiteralEnd(text, i) == Some(end) {
      var body := BodyIsSpelled(text, i + 1);
      assert text[i..end] == [text[i]] + text[i + 1..end];
      assert Quotes(text[i..end], body);
    }
    forall body | Quotes(text[i..end], body) ensures LiteralEnd(text, i) == Some(end) {
      assert text[i] == text[i..end][0];
      assert text[i + 1..end] == text[i..end][1..] == Spell(body) + "\"";
      SpelledBodyEnds(text, i + 1, body);
    }
  }

  /** A quoted body stands at this position, up to some end. */
  ghost predicate StartsLiteral(text: string, i: nat) {
    exists end, body | i <= end <= |text| :: Quotes(text[i..end], body)
  }

  /**
   * The text from a position on, read from left to right: a gap in which no literal starts, a literal,
   * and so on behind it.
   */
  ghost predicate IsReading(text: string, from: nat, scanned: Scanned)
    requires from <= |text|
    decreases scanned
  {
    match scanned
    case Tail(rest) => text[from..] == rest && forall k | from <= k <= |text| :: !StartsLiteral(text, k)
    case Found(gap, literal, rest) =>
      var start := from + |gap|;
      var end := start + |literal|;
      && end <= |text| && text[from..start] == gap && text[start..end] == literal
      && (forall k | from <= k < start :: !StartsLiteral(text, k))
      && (exists body :: Quotes(literal, body))
      && IsReading(text, end, rest)
  }

  lemma NoLiteralHere(text: string, i: nat)
    requires i <= |text| && LiteralEnd(text, i).None?
    ensures !StartsLiteral(text, i)
  {
    forall end, body | i <= end <= |text| ensures !Quotes(text[i..end], body) {
      LiteralsAreQuotedBodies(text, i, end);
    }
  }

  lemma {:induction false} NextLiteralIsFirst(text: string, i: nat)
    requires i <= |text|
    ensures forall k | i <= k < NextLiteral(text, i) :: !StartsLiteral(text, k)
    ensures NextLiteral(text, i) == |text| ==> !StartsLiteral(text, |text|)
    decreases |text| - i
  {
    if i < |text| && LiteralEnd(text, i).None? {
      NoLiteralHere(text, i);
      NextLiteralIsFirst(text, i + 1);
    } else if i == |text| {
      NoLiteralHere(text, i);
    }
  }

  /** The scan finds the literals of a text as they are read from left to right. */
  lemma {:induction false} ScanIsReading(text: string, from: nat)
    requires from <= |text|
    ensures IsReading(text, from, Scan(text, from))
    decreases |text| - from
  {
    NextLiteralIsFirst(text, from);
    var start := NextLiteral(text, from);
    if start < |text| {
      var end := LiteralEnd(text, start).value;
      LiteralsAreQuotedBodies(text, start, end);
      ScanIsReading(text, end);
    }
  }

  // ---------------------------------------------------------------- how matches depend on context

  /** The n characters of t from i on are those of u from j on. */
  ghost predicate Agree(t: string, i: nat, u: string, j: nat, n: nat) {
    i + n <= |t| && j + n <= |u| && t[i..i + n] == u[j..j + n]
  }

  lemma AgreeAt(t: string, i: nat, u: string, j: nat, n: nat, k: nat)
    requires Agree(t, i, u, j, n) && k < n
    ensures t[i + k] == u[j + k]
  {
    assert t[i + k] == t[i..i + n][k] && u[j + k] == u[j..j + n][k];
  }

  lemma AgreeStep(t: string, i: nat, u: string, j: nat, n: nat, k: nat)
    requires Agree(t, i, u, j, n) && k <= n
    ensures Agree(t, i + k, u, j + k, n - k) && Agree(t, i, u, j, k)
  {
    assert t[i + k..i + n] == t[i..i + n][k..] && u[j + k..j + n] == u[j..j + n][k..];
    assert t[i..i + k] == t[i..i + n][..k] && u[j..j + k] == u[j..j + n][..k];
  }

  /** A body that matches does so wherever its characters stand. */
  lemma {:induction false} BodyMatchIsLocal(t: string, i: nat, u: string, j: nat, n: nat)
    requires i <= |t| && BodyEnd(t, i) == Some(i + n) && Agree(t, i, u, j, n)
    ensures BodyEnd(u, j) == Some(j + n)
    decreases n
  {
    AgreeAt(t, i, u, j, n, 0);
    if t[i] != '"' {
      var skip := if t[i] == '\\' then 2 else 1;
      AgreeAt(t, i, u, j, n, skip - 1);
      AgreeStep(t, i, u, j, n, skip);
      BodyMatchIsLocal(t, i + skip, u, j + skip, n - skip);
    }
  }

  lemma LiteralMatchIsLocal(t: string, i: nat, u: string, j: nat, n: nat)
    requires LiteralEnd(t, i) == Some(i + n) && Agree(t, i, u, j, n)
    ensures LiteralEnd(u, j) == Some(j + n)
  {
    AgreeAt(t, i, u, j, n, 0);
    AgreeStep(t, i, u, j, n, 1);
    BodyMatchIsLocal(t, i + 1, u, j + 1, n - 1);
  }

  /**
   * Whether a body that starts before a literal fails is settled in front of it: one that gets to the
   * quote of the literal, as its own closing quote or just behind a backslash, matches.
   */
  lemma {:induction false} BodyFailureIsLocal(t: string, i: nat, u: string, j: nat, n: nat)
    requires Agree(t, i, u, j, n) && LiteralEnd(t, i + n).Some? && j + n < |u| && u[j + n] == '"'
    requires BodyEnd(u, j).Some?
    ensures BodyEnd(t, i).Some?
    decreases n
  {
    if n == 0 {
    } else {
      AgreeAt(t, i, u, j, n, 0);
      var skip := if t[i] == '\\' then 2 else 1;
      if t[i] != '"' && skip <= n {
        AgreeAt(t, i, u, j, n, skip - 1);
        AgreeStep(t, i, u, j, n, skip);
        BodyFailureIsLocal(t, i + skip, u, j + skip, n - skip);
      }
    }
  }

  lemma NoMatchIsLocal(t: string, i: nat, u: string, j: nat, n: nat)
    requires n > 0 && Agree(t, i, u, j, n) && LiteralEnd(t, i).None?
    requires LiteralEnd(t, i + n).Some? && LiteralEnd(u, j + n).Some?
    ensures LiteralEnd(u, j).None?
  {
    AgreeAt(t, i, u, j, n, 0);
    AgreeStep(t, i, u, j, n, 1);
    if t[i] == '"' && BodyEnd(u, j + 1).Some? {
      BodyFailureIsLocal(t, i + 1, u, j + 1, n - 1);
    }
  }

  /** What stands before a literal has no match in it, whatever literal that is. */
  lemma {:induction false} GapIsLocal(t: string, i: nat, u: string, j: nat, n: nat)
    requires Agree(t, i, u, j, n) && NextLiteral(t, i) == i + n < |t| && LiteralEnd(u, j + n).Some?
    ensures NextLiteral(u, j) == j + n
    decreases n
  {
    if n == 0 {
    } else {
      NoMatchIsLocal(t, i, u, j, n);
      AgreeStep(t, i, u, j, n, 1);
      GapIsLocal(t, i + 1, u, j + 1, n - 1);
    }
  }

  /** A text without a match has none wherever it stands at the end. */
  lemma {:induction false} TailIsLocal(t: string, i: nat, u: string, j: nat)
    requires i <= |t| && j <= |u| && |t| - i == |u| - j && Agree(t, i, u, j, |t| - i) && NextLiteral(t, i) == |t|
    ensures NextLiteral(u, j) == |u|
    decreases |t| - i
  {
    if i < |t| {
      AgreeAt(t, i, u, j, |t| - i, 0);
      AgreeStep(t, i, u, j, |t| - i, 1);
      if LiteralEnd(u, j).Some? {
        var n := LiteralEnd(u, j).value - j;
        AgreeStep(t, i, u, j, |t| - i, n);
        LiteralMatchIsLocal(u, j, t, i, n);
      }
      TailIsLocal(t, i + 1, u, j + 1);
    }
  }

  ghost predicate AllLiterals(scanned: Scanned) {
    scanned.Found? ==> IsLiteral(scanned.literal) && AllLiterals(scanned.rest)
  }

  lemma {:induction false} ScansFindLiterals(text: string, from: nat)
    requires from <= |text|
    ensures AllLiterals(Scan(text, from))
    decreases |text| - from
  {
    var start := NextLiteral(text, from);
    if start < |text| {
      var end := LiteralEnd(text, start).value;
      LiteralMatchIsLocal(text, start, text[start..end], 0, end - start);
      ScansFindLiterals(text, end);
    }
  }

  /** Where the parts of a text stand in it. */
  lemma PartsStand(u: string, j: nat, gap: string, literal: string, rest: string)
    requires j <= |u| && u[j..] == gap + literal + rest
    ensures var start := j + |gap|;
            var end := start + |literal|;
            && end <= |u| && u[j..start] == gap && u[start..end] == literal && u[end..] == rest
  {
    assert u[j..j + |gap|] == u[j..][..|gap|];
    assert u[j + |gap|..j + |gap| + |literal|] == u[j..][|gap|..|gap| + |literal|];
    assert u[j + |gap| + |literal|..] == u[j..][|gap| + |literal|..];
  }

  lemma MendOfFound(formatted: Scanned, source: Scanned)
    requires formatted.Found? && |Literals(formatted)| == |Literals(source)|
    ensures source.Found? && |Literals(formatted.rest)| == |Literals(source.rest)|
    ensures MendAll(formatted, source)
         == Found(formatted.gap, Mend(formatted.literal, source.literal), MendAll(formatted.rest, source.rest))
  {
  }

  lemma ScanOfFound(u: string, j: nat, start: nat, end: nat)
    requires j <= |u| && NextLiteral(u, j) == start < |u| && LiteralEnd(u, start) == Some(end)
    ensures Scan(u, j) == Found(u[j..start], u[start..end], Scan(u, end))
  {
  }

  lemma MendedIsLiteral(t: string, start: nat, end: nat, replacement: string)
    requires LiteralEnd(t, start) == Some(end) && IsLiteral(replacement)
    ensures IsLiteral(Mend(t[start..end], replacement))
  {
    LiteralMatchIsLocal(t, start, t[start..end], 0, end - start);
  }

  lemma LiteralStands(u: string, begin: nat, end: nat, literal: string)
    requires begin <= end <= |u| && u[begin..end] == literal && IsLiteral(literal)
    ensures LiteralEnd(u, begin) == Some(end)
  {
    assert Agree(literal, 0, u, begin, |literal|);
    LiteralMatchIsLocal(literal, 0, u, begin, |literal|);
  }

  lemma MendedPieceIsScanned(t: string, i: nat, start: nat, u: string, j: nat, literal: string, rest: string)
    returns (next: nat)
    requires i <= |t| && j <= |u| && NextLiteral(t, i) == start < |t| && IsLiteral(literal)
    requires u[j..] == t[i..start] + literal + rest
    ensures next <= |u| && u[next..] == rest && Scan(u, j) == Found(t[i..start], literal, Scan(u, next))
  {
    PartsStand(u, j, t[i..start], literal, rest);
    var begin := j + (start - i);
    next := begin + |literal|;
    LiteralStands(u, begin, next, literal);
    GapIsLocal(t, i, u, j, start - i);
    ScanOfFound(u, j, begin, next);
  }

  /** Mending keeps a scan a scan: the gaps do not notice what literals stand between them. */
  lemma {:induction false} MendedIsScanned(t: string, i: nat, u: string, j: nat, source: Scanned)
    requires i <= |t| && j <= |u| && u[j..] == Text(MendAll(Scan(t, i), source))
    requires AllLiterals(source) && |Literals(source)| == |Literals(Scan(t, i))|
    ensures Scan(u, j) == MendAll(Scan(t, i), source)
    decreases |t| - i
  {
    if NextLiteral(t, i) == |t| {
      assert Agree(t, i, u, j, |t| - i);
      TailIsLocal(t, i, u, j);
    } else {
      var start := NextLiteral(t, i);
      var end := LiteralEnd(t, start).value;
      ScanOfFound(t, i, start, end);
      MendOfFound(Scan(t, i), source);
      MendedIsLiteral(t, start, end, source.literal);
      var next := MendedPieceIsScanned(t, i, start, u, j, Mend(t[start..end], source.literal), Text(MendAll(Scan(t, end), source.rest)));
      MendedIsScanned(t, end, u, next, source.rest);
    }
  }

  lemma {:induction false} MendKeepsGaps(formatted: Scanned, source: Scanned)
    ensures Gaps(MendAll(formatted, source)) == Gaps(formatted)
    ensures |Literals(MendAll(formatted, source))| == |Literals(formatted)|
  {
    if formatted.Found? && source.Found? {
      MendKeepsGaps(formatted.rest, source.rest);
    }
  }

  // ---------------------------------------------------------------- the repair

  lemma {:induction false} MendAllAt(formatted: Scanned, source: Scanned, i: nat)
    requires |Literals(formatted)| == |Literals(source)| && i < |Literals(source)|
    requires |Literals(MendAll(formatted, source))| == |Literals(formatted)|
    ensures Literals(MendAll(formatted, source))[i] == Mend(Literals(formatted)[i], Literals(source)[i])
  {
    if i == 0 {
    } else {
      MendAllAt(formatted.rest, source.rest, i - 1);
    }
  }

  lemma {:induction false} LiteralsAreTaken(scanned: Scanned, i: nat)
    requires i < |Literals(scanned)|
    ensures forall c | c in Literals(scanned)[i] :: c in Text(scanned)
  {
    if i == 0 {
    } else {
      LiteralsAreTaken(scanned.rest, i - 1);
    }
  }

  /** The same about scans: mending with the literals of a clean text. */
  lemma MendSubstitutes(formatted: Scanned, source: Scanned)
    requires |Literals(formatted)| == |Literals(source)| && !Corrupted(Text(source))
    ensures var mended, before := Literals(MendAll(formatted, source)), Literals(formatted);
            && Gaps(MendAll(formatted, source)) == Gaps(formatted)
            && |mended| == |before|
            && forall i | 0 <= i < |mended| ::
                 && mended[i] == (if Corrupted(before[i]) then Literals(source)[i] else before[i])
                 && !Corrupted(mended[i])
  {
    MendKeepsGaps(formatted, source);
    forall i | 0 <= i < |Literals(formatted)|
      ensures Literals(MendAll(formatted, source))[i] == Mend(Literals(formatted)[i], Literals(source)[i])
      ensures !Corrupted(Literals(source)[i])
    {
      MendAllAt(formatted, source, i);
      LiteralsAreTaken(source, i);
    }
  }

  ghost predicate Applies(source: string, formatted: string) {
    Corrupted(formatted) && !Corrupted(source) && |Literals(Scan(source, 0))| == |Literals(Scan(formatted, 0))|
  }

  /**
   * The repair is a substitution of literals: the text between literals is unchanged, scanning the
   * output finds as many literals, in order, each the formatted one or the source's, and when the
   * repair applies none of them is corrupted. It needs no condition on stray quotes.
   */
  lemma RepairSubstitutesLiterals(source: string, formatted: string)
    ensures var literals, before := Literals(Scan(Repaired(source, formatted), 0)), Literals(Scan(formatted, 0));
            && Gaps(Scan(Repaired(source, formatted), 0)) == Gaps(Scan(formatted, 0))
            && |literals| == |before|
            && (Applies(source, formatted) ==> forall i | 0 <= i < |literals| ::
                  && literals[i] == (if Corrupted(before[i]) then Literals(Scan(source, 0))[i] else before[i])
                  && !Corrupted(literals[i]))
            && (!Applies(source, formatted) ==> Repaired(source, formatted) == formatted)
  {
    if Applies(source, formatted) {
      ScansFindLiterals(source, 0);
      MendSubstitutes(Scan(formatted, 0), Scan(source, 0));
      MendedIsScanned(formatted, 0, Repaired(source, formatted), 0, Scan(source, 0));
    }
  }

  lemma {:induction false} MendOfClean(formatted: Scanned, source: Scanned)
    requires forall i | 0 <= i < |Literals(formatted)| :: !Corrupted(Literals(formatted)[i])
    ensures MendAll(formatted, source) == formatted
  {
    if formatted.Found? && source.Found? {
      assert Literals(formatted)[0] == formatted.literal;
      forall i | 0 <= i < |Literals(formatted.rest)| ensures !Corrupted(Literals(formatted.rest)[i]) {
        assert Literals(formatted)[i + 1] == Literals(formatted.rest)[i];
      }
      MendOfClean(formatted.rest, source.rest);
    }
  }

  /** A second repair changes nothing. */
  lemma RepairIsIdempotent(source: string, formatted: string)
    ensures Repaired(source, Repaired(source, formatted)) == Repaired(source, formatted)
  {
    RepairSubstitutesLiterals(source, formatted);
    if Applies(source, formatted) {
      MendOfClean(Scan(Repaired(source, formatted), 0), Scan(source, 0));
    }
  }
}
