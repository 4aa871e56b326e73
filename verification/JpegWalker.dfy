/**
 * readJpegDimensions of scripts/update-clawtributors.ts: it walks the marker segments of a JPEG
 * file up to the first frame header and returns the size recorded there. Markers and segments are
 * those of ITU-T T.81, sections B.1.1.2 to B.1.1.4; the frame header is that of section B.2.2.
 */
module JpegWalker {
  import opened Prelude

  type Byte = b: int | 0 <= b < 256

  datatype Size = Size(height: nat, width: nat)

  /** Two bytes, the more significant one first. */
  datatype Word = Word(high: Byte, low: Byte) {
    function Value(): nat {
      var h: int, l: int := high, low;
      h * 256 + l
    }
  }

  function ReadUInt16BE(bytes: seq<Byte>, i: nat): nat
    requires i + 2 <= |bytes|
  {
    Word(bytes[i], bytes[i + 1]).Value()
  }

  predicate IsStandalone(marker: Byte) {
    marker == 0xd8 || marker == 0xd9 || marker == 0x01 || 0xd0 <= marker <= 0xd7
  }

  predicate IsFrameMarker(marker: Byte) {
    || 0xc0 <= marker <= 0xc3
    || 0xc5 <= marker <= 0xc7
    || 0xc9 <= marker <= 0xcb
    || 0xcd <= marker <= 0xcf
  }

  /** The walk over what is left of the buffer. */
  function Walk(bytes: seq<Byte>): Option<Size>
    decreases |bytes|
  {
    if |bytes| <= 9 then None
    else if bytes[0] != 0xff then Walk(bytes[1..])
    else
      var marker := bytes[1];
      if IsStandalone(marker) then Walk(bytes[2..])
      else
        var length := ReadUInt16BE(bytes, 2);
        if length < 2 || 2 + length > |bytes| then None
        else if IsFrameMarker(marker) then
          if length < 7 then None else Some(Size(ReadUInt16BE(bytes, 5), ReadUInt16BE(bytes, 7)))
        else Walk(bytes[2 + length..])
  }

  /** What the walk makes of a whole buffer: it skips the two bytes of the SOI marker unread. */
  function Dimensions(buffer: seq<Byte>): Option<Size> {
    if |buffer| < 2 then None else Walk(buffer[2..])
  }

  method ReadJpegDimensions(buffer: seq<Byte>) returns (size: Option<Size>)
    ensures size == Dimensions(buffer)
  {
    var offset := 2;
    while offset + 9 < |buffer|
      invariant 2 <= offset
      invariant |buffer| >= 2 ==> offset <= |buffer| && Walk(buffer[offset..]) == Dimensions(buffer)
    {
      ghost var left := buffer[offset..];
      if buffer[offset] != 0xff {
        offset := offset + 1;
        assert left[1..] == buffer[offset..];
        continue;
      }
      var marker := buffer[offset + 1];
      offset := offset + 2;
      assert left[2..] == buffer[offset..];
      if marker == 0xd8 || marker == 0xd9 {
        continue;
      }
      if marker == 0x01 || 0xd0 <= marker <= 0xd7 {
        continue;
      }
      if offset + 2 > |buffer| {
        return None;
      }
      var length := ReadUInt16BE(buffer, offset);
      if length < 2 || offset + length > |buffer| {
        return None;
      }
      if || 0xc0 <= marker <= 0xc3
         || 0xc5 <= marker <= 0xc7
         || 0xc9 <= marker <= 0xcb
         || 0xcd <= marker <= 0xcf {
        if length < 7 {
          return None;
        }
        return Some(Size(ReadUInt16BE(buffer, offset + 3), ReadUInt16BE(buffer, offset + 5)));
      }
      offset := offset + length;
      assert left[2 + length..] == buffer[offset..];
    }
    size := None;
  }

  // ---------------------------------------------------------------- the file format

  /** The markers of table B.1 without a segment: TEM, RST0 to RST7, SOI and EOI. */
  ghost predicate HasNoSegment(marker: Byte) {
    marker in {0x01, 0xd0, 0xd1, 0xd2, 0xd3, 0xd4, 0xd5, 0xd6, 0xd7, 0xd8, 0xd9}
  }

  /** Those that start a frame: SOF0 to SOF15, in which range DHT, JPG and DAC have the numbers 4, 8 and 12. */
  ghost predicate StartsFrame(marker: Byte) {
    marker in {0xc0, 0xc1, 0xc2, 0xc3, 0xc5, 0xc6, 0xc7, 0xc9, 0xca, 0xcb, 0xcd, 0xce, 0xcf}
  }

  lemma MarkersAreThose(marker: Byte)
    ensures IsStandalone(marker) <==> HasNoSegment(marker)
    ensures IsFrameMarker(marker) <==> StartsFrame(marker)
  {
  }

  /** A number in two bytes, as the format writes it: 256 times the first one and the second one. */
  ghost predicate Writes(word: Word, n: nat) {
    n / 256 == word.high && n % 256 == word.low
  }

  lemma WordsAreRead(word: Word, n: nat)
    ensures Writes(word, n) <==> n == word.Value()
  {
    var h: int, l: int := word.high, word.low;
    assert (h * 256 + l) / 256 == h && (h * 256 + l) % 256 == l;
  }

  /** What may stand before a frame header. */
  datatype Piece =
    | Stray(byte: Byte)                           // a byte between segments that is not 0xff
    | Standalone(marker: Byte)
    | Segment(marker: Byte, length: Word, payload: seq<Byte>)  // any marker segment but a frame header

  /** A frame header: `tail` is the number of components and their parameters. */
  datatype Frame = Frame(marker: Byte, length: Word, precision: Byte, height: Word, width: Word, tail: seq<Byte>)

  ghost predicate GoodPiece(piece: Piece) {
    match piece
    case Stray(byte) => byte != 0xff
    case Standalone(marker) => HasNoSegment(marker)
    case Segment(marker, length, payload) =>
      !HasNoSegment(marker) && !StartsFrame(marker) && Writes(length, |payload| + 2)
  }

  ghost predicate GoodFrame(frame: Frame) {
    StartsFrame(frame.marker) && Writes(frame.length, |frame.tail| + 7)
  }

  ghost predicate HasSize(frame: Frame, size: Size) {
    Writes(frame.height, size.height) && Writes(frame.width, size.width)
  }

  ghost function EncodePiece(piece: Piece): seq<Byte>
    requires GoodPiece(piece)
  {
    match piece
    case Stray(byte) => [byte]
    case Standalone(marker) => [0xff, marker]
    case Segment(marker, length, payload) => [0xff, marker, length.high, length.low] + payload
  }

  ghost function EncodePieces(pieces: seq<Piece>): seq<Byte>
    requires forall i | 0 <= i < |pieces| :: GoodPiece(pieces[i])
  {
    if pieces == [] then [] else EncodePiece(pieces[0]) + EncodePieces(pieces[1..])
  }

  ghost function EncodeFrame(frame: Frame): seq<Byte>
    requires GoodFrame(frame)
  {
    [0xff, frame.marker, frame.length.high, frame.length.low, frame.precision,
     frame.height.high, frame.height.low, frame.width.high, frame.width.low] + frame.tail
  }

  /**
   * The bytes are pieces, then a frame header of that size. The walk needs one byte beyond the
   * width; in a well-formed header the number of components is that byte.
   */
  ghost predicate HasFrame(bytes: seq<Byte>, pieces: seq<Piece>, frame: Frame, rest: seq<Byte>) {
    && (forall i | 0 <= i < |pieces| :: GoodPiece(pieces[i]))
    && GoodFrame(frame)
    && bytes == EncodePieces(pieces) + EncodeFrame(frame) + rest
    && |frame.tail| + |rest| > 0
  }

  lemma WalkSkipsPiece(piece: Piece, rest: seq<Byte>)
    requires GoodPiece(piece) && |rest| > 9
    ensures Walk(EncodePiece(piece) + rest) == Walk(rest)
  {
    var bytes := EncodePiece(piece) + rest;
    if piece.Standalone? || piece.Segment? {
      MarkersAreThose(piece.marker);
    }
    match piece
    case Stray(_) => assert bytes[1..] == rest;
    case Standalone(_) => assert bytes[2..] == rest;
    case Segment(_, length, payload) =>
      WordsAreRead(length, |payload| + 2);
      assert ReadUInt16BE(bytes, 2) == |payload| + 2;
      assert bytes[2 + |payload| + 2..] == rest;
  }

  lemma FrameBytes(frame: Frame, rest: seq<Byte>)
    requires GoodFrame(frame) && |frame.tail| + |rest| > 0
    ensures var bytes := EncodeFrame(frame) + rest;
            && |bytes| > 9 && bytes[0] == 0xff && bytes[1] == frame.marker
            && ReadUInt16BE(bytes, 2) == |frame.tail| + 7 <= |bytes| - 2
            && ReadUInt16BE(bytes, 5) == frame.height.Value()
            && ReadUInt16BE(bytes, 7) == frame.width.Value()
  {
    WordsAreRead(frame.length, |frame.tail| + 7);
  }

  lemma WalkAtFrame(bytes: seq<Byte>)
    requires |bytes| > 9 && bytes[0] == 0xff && IsFrameMarker(bytes[1])
    requires 7 <= ReadUInt16BE(bytes, 2) <= |bytes| - 2
    ensures Walk(bytes) == Some(Size(ReadUInt16BE(bytes, 5), ReadUInt16BE(bytes, 7)))
  {
  }

  lemma WalkReadsFrame(frame: Frame, rest: seq<Byte>, size: Size)
    requires GoodFrame(frame) && HasSize(frame, size) && |frame.tail| + |rest| > 0
    ensures Walk(EncodeFrame(frame) + rest) == Some(size)
  {
    FrameBytes(frame, rest);
    MarkersAreThose(frame.marker);
    WalkAtFrame(EncodeFrame(frame) + rest);
    WordsAreRead(frame.height, size.height);
    WordsAreRead(frame.width, size.width);
  }

  lemma SplitFirstPiece(bytes: seq<Byte>, pieces: seq<Piece>, frame: Frame, rest: seq<Byte>) returns (after: seq<Byte>)
    requires HasFrame(bytes, pieces, frame, rest) && pieces != []
    ensures bytes == EncodePiece(pieces[0]) + after && |after| > 9
    ensures HasFrame(after, pieces[1..], frame, rest)
  {
    after := EncodePieces(pieces[1..]) + EncodeFrame(frame) + rest;
  }

  lemma {:induction false} WalkFindsFrame(bytes: seq<Byte>, pieces: seq<Piece>, frame: Frame, rest: seq<Byte>, size: Size)
    requires HasFrame(bytes, pieces, frame, rest) && HasSize(frame, size)
    ensures Walk(bytes) == Some(size)
    decreases |pieces|
  {
    if pieces == [] {
      assert bytes == EncodeFrame(frame) + rest;
      WalkReadsFrame(frame, rest, size);
    } else {
      var after := SplitFirstPiece(bytes, pieces, frame, rest);
      WalkSkipsPiece(pieces[0], after);
      WalkFindsFrame(after, pieces[1..], frame, rest, size);
    }
  }

  lemma FrameAtFront(bytes: seq<Byte>) returns (frame: Frame, rest: seq<Byte>)
    requires |bytes| > 9 && bytes[0] == 0xff && IsFrameMarker(bytes[1])
    requires 7 <= ReadUInt16BE(bytes, 2) <= |bytes| - 2
    ensures HasFrame(bytes, [], frame, rest)
    ensures HasSize(frame, Size(ReadUInt16BE(bytes, 5), ReadUInt16BE(bytes, 7)))
  {
    var length := ReadUInt16BE(bytes, 2);
    frame := Frame(bytes[1], Word(bytes[2], bytes[3]), bytes[4], Word(bytes[5], bytes[6]), Word(bytes[7], bytes[8]), bytes[9..2 + length]);
    rest := bytes[2 + length..];
    MarkersAreThose(bytes[1]);
    WordsAreRead(frame.length, length);
    WordsAreRead(frame.height, ReadUInt16BE(bytes, 5));
    WordsAreRead(frame.width, ReadUInt16BE(bytes, 7));
    assert EncodeFrame(frame)[..9] == bytes[..9];
    assert bytes == bytes[..9] + frame.tail + rest;
  }

  lemma PieceAtFront(bytes: seq<Byte>) returns (piece: Piece, after: seq<Byte>)
    requires Walk(bytes).Some?
    requires !(bytes[0] == 0xff && IsFrameMarker(bytes[1]) && !IsStandalone(bytes[1]))
    ensures GoodPiece(piece) && bytes == EncodePiece(piece) + after
    ensures |after| < |bytes| && Walk(after) == Walk(bytes)
  {
    MarkersAreThose(bytes[1]);
    if bytes[0] != 0xff {
      piece, after := Stray(bytes[0]), bytes[1..];
    } else if IsStandalone(bytes[1]) {
      piece, after := Standalone(bytes[1]), bytes[2..];
    } else {
      var length := ReadUInt16BE(bytes, 2);
      piece, after := Segment(bytes[1], Word(bytes[2], bytes[3]), bytes[4..2 + length]), bytes[2 + length..];
      WordsAreRead(Word(bytes[2], bytes[3]), length);
      assert bytes == [0xff, bytes[1], bytes[2], bytes[3]] + bytes[4..2 + length] + after;
    }
  }

  lemma PutPieceInFront(bytes: seq<Byte>, piece: Piece, after: seq<Byte>, pieces: seq<Piece>, frame: Frame, rest: seq<Byte>)
    requires GoodPiece(piece) && bytes == EncodePiece(piece) + after
    requires HasFrame(after, pieces, frame, rest)
    ensures HasFrame(bytes, [piece] + pieces, frame, rest)
  {
    assert ([piece] + pieces)[1..] == pieces;
  }

  lemma {:induction false} FrameBehindWalk(bytes: seq<Byte>) returns (pieces: seq<Piece>, frame: Frame, rest: seq<Byte>)
    requires Walk(bytes).Some?
    ensures HasFrame(bytes, pieces, frame, rest) && HasSize(frame, Walk(bytes).value)
    decreases |bytes|
  {
    if bytes[0] == 0xff && IsFrameMarker(bytes[1]) && !IsStandalone(bytes[1]) {
      frame, rest := FrameAtFront(bytes);
      pieces := [];
    } else {
      var piece, after := PieceAtFront(bytes);
      pieces, frame, rest := FrameBehindWalk(after);
      PutPieceInFront(bytes, piece, after, pieces, frame, rest);
      pieces := [piece] + pieces;
    }
  }

  /**
   * The walk returns a size exactly when behind the first two bytes the buffer is a list of stray
   * bytes, standalone markers and marker segments followed by a frame header of that size.
   */
  lemma DimensionsAreThoseOfTheFrame(buffer: seq<Byte>, size: Size)
    ensures Dimensions(buffer) == Some(size) <==>
            |buffer| >= 2 && exists pieces, frame, rest :: HasFrame(buffer[2..], pieces, frame, rest) && HasSize(frame, size)
  {
    if Dimensions(buffer) == Some(size) {
      var pieces, frame, rest := FrameBehindWalk(buffer[2..]);
    }
    if |buffer| >= 2 {
      forall pieces, frame, rest | HasFrame(buffer[2..], pieces, frame, rest) && HasSize(frame, size) ensures Dimensions(buffer) == Some(size) {
        WalkFindsFrame(buffer[2..], pieces, frame, rest, size);
      }
    }
  }
}
