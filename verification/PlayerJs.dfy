/** The "#2" playlist format: Base64 text cut at a separator character, long pieces scrambled. */
module PlayerJs {
  import opened Wrappers
  import opened Base64

  datatype PlaylistError = PrefixMissing | SeparatorMissing | DecodeFailed | NotAList

  /** What the UTF-8 and JSON readers make of the decoded bytes. */
  datatype Parsed<+T> = Unreadable | NoList | Items(items: T)

  // ----- decoding ------------------------------------------------------------------------------

  predicate IsDigit(ch: char) {
    '0' <= ch <= '9'
  }

  function DigitValue(ch: char): nat
    requires IsDigit(ch)
  {
    (ch - '0') as int
  }

  function Split(text: string, separator: char): (pieces: seq<string>)
    ensures |pieces| > 0
  {
    if text == "" then [""]
    else
      var rest := Split(text[1..], separator);
      if text[0] == separator then [""] + rest else [[text[0]] + rest[0]] + rest[1..]
  }

  /** What the decoder does to one piece between separators. */
  function Descramble(piece: string): string {
    if piece == "" || !IsDigit(piece[|piece| - 1]) || |piece| <= 32 then piece
    else
      var shift := DigitValue(piece[|piece| - 1]);
      piece[2 * shift..|piece| - shift - 1] + piece[..shift]
  }

  function Descrambled(pieces: seq<string>): string {
    if pieces == [] then "" else Descramble(pieces[0]) + Descrambled(pieces[1..])
  }

  lemma {:induction false} DescrambledSnoc(pieces: seq<string>, piece: string)
    ensures Descrambled(pieces + [piece]) == Descrambled(pieces) + Descramble(piece)
  {
    if pieces == [] {
      assert pieces + [piece] == [piece];
    } else {
      assert (pieces + [piece])[1..] == pieces[1..] + [piece];
      DescrambledSnoc(pieces[1..], piece);
    }
  }

  function Listed<T>(parsed: Parsed<T>): Result<T, PlaylistError> {
    match parsed
    case Unreadable => Err(DecodeFailed)
    case NoList => Err(NotAList)
    case Items(items) => Ok(items)
  }

  /** The whole decoding as one expression, with the UTF-8 and JSON readers as `parse`. */
  function Playlist<T>(token: string, parse: seq<Byte> -> Parsed<T>): Result<T, PlaylistError> {
    if !("#2" <= token) then Err(PrefixMissing)
    else if |token| < 6 || !IsDigit(token[2]) || !IsDigit(token[3]) then Err(SeparatorMissing)
    else ReadPayload(token[4..], (10 * DigitValue(token[2]) + DigitValue(token[3])) as char, parse)
  }

  function ReadPayload<T>(payload: string, separator: char, parse: seq<Byte> -> Parsed<T>): Result<T, PlaylistError> {
    match Decode(Repair(Descrambled(Split(payload, separator))))
    case None => Err(DecodeFailed)
    case Some(bytes) => Listed(parse(bytes))
  }

  lemma DescrambledTake(pieces: seq<string>, i: nat)
    requires i < |pieces|
    ensures Descrambled(pieces[..i + 1]) == Descrambled(pieces[..i]) + Descramble(pieces[i])
  {
    assert pieces[..i + 1] == pieces[..i] + [pieces[i]];
    DescrambledSnoc(pieces[..i], pieces[i]);
  }

  method DescramblePiece(wire: string) returns (piece: string)
    ensures piece == Descramble(wire)
  {
    piece := wire;
    if piece != "" && IsDigit(piece[|piece| - 1]) {
      var shift := DigitValue(piece[|piece| - 1]);
      if |piece| > 32 {
        var length := |piece| - 3 * shift - 1;
        piece := piece[2 * shift..2 * shift + length] + piece[..shift];
      }
    }
  }

  method JoinDescrambled(parts: seq<string>) returns (encoded: string)
    ensures encoded == Descrambled(parts)
  {
    encoded := "";
    for i := 0 to |parts|
      invariant encoded == Descrambled(parts[..i])
    {
      var piece := DescramblePiece(parts[i]);
      encoded := encoded + piece;
      DescrambledTake(parts, i);
    }
    assert parts[..|parts|] == parts;
  }

  method DecodePlaylist<T>(token: string, parse: seq<Byte> -> Parsed<T>) returns (r: Result<T, PlaylistError>)
    ensures r == Playlist(token, parse)
  {
    if !("#2" <= token) {
      return Err(PrefixMissing);
    }
    if |token| - 2 < 4 || !IsDigit(token[2]) || !IsDigit(token[3]) {
      return Err(SeparatorMissing);
    }
    var encoded := JoinDescrambled(Split(token[4..], (10 * DigitValue(token[2]) + DigitValue(token[3])) as char));
    var decoded := Decode(Repair(encoded));
    if decoded.None? {
      return Err(DecodeFailed);
    }
    var result := parse(decoded.value);
    if result.Unreadable? {
      return Err(DecodeFailed);
    }
    if result.NoList? {
      return Err(NotAList);
    }
    return Ok(result.items);
  }

  // ----- the sender ----------------------------------------------------------------------------

  /** A piece on the wire: as it is, or with its last `|head|` characters moved to the front, junk of
      that length on both sides of the rest, and the length as the last digit. */
  datatype Piece = Clear(text: string) | Mixed(head: string, junk1: string, body: string, junk2: string)

  function Chunk(p: Piece): string {
    match p
    case Clear(text) => text
    case Mixed(head, _, body, _) => body + head
  }

  function Digit(n: nat): char
    requires n < 10
  {
    '0' + n as char
  }

  function Wire(p: Piece): string
    requires p.Mixed? ==> |p.head| < 10
  {
    match p
    case Clear(text) => text
    case Mixed(head, junk1, body, junk2) => head + junk1 + body + junk2 + [Digit(|head|)]
  }

  predicate LooksScrambled(text: string) {
    |text| > 32 && IsDigit(text[|text| - 1])
  }

  predicate Sendable(p: Piece, separator: char) {
    && (p.Mixed? ==> |p.head| < 10 && |p.junk1| == |p.head| == |p.junk2|)
    && (p.Mixed? <==> LooksScrambled(Wire(p)))
    && separator !in Wire(p)
  }

  predicate AllSendable(ps: seq<Piece>, separator: char) {
    forall i | 0 <= i < |ps| :: Sendable(ps[i], separator)
  }

  function Chunks(ps: seq<Piece>): string {
    if ps == [] then "" else Chunk(ps[0]) + Chunks(ps[1..])
  }

  function Payload(ps: seq<Piece>, separator: char): string
    requires ps != [] && AllSendable(ps, separator)
  {
    if |ps| == 1 then Wire(ps[0]) else Wire(ps[0]) + [separator] + Payload(ps[1..], separator)
  }

  /** The separator's code in two decimal digits, after the format mark. */
  function Header(code: nat): string
    requires code < 100
  {
    "#2" + [Digit(code / 10), Digit(code % 10)]
  }

  function Token(code: nat, ps: seq<Piece>): string
    requires code < 100 && ps != [] && AllSendable(ps, code as char)
  {
    Header(code) + Payload(ps, code as char)
  }

  // ----- round trip ----------------------------------------------------------------------------

  lemma DescrambleUndoesWire(p: Piece, separator: char)
    requires Sendable(p, separator)
    ensures Descramble(Wire(p)) == Chunk(p)
  {
    if p.Mixed? {
      var w, t := Wire(p), |p.head|;
      assert w[|w| - 1] == Digit(t) && DigitValue(Digit(t)) == t;
      assert w[..t] == p.head;
      assert w[2 * t..|w| - t - 1] == p.body;
    }
  }

  /** A clear piece survives the descrambler exactly when it does not look scrambled. */
  lemma ClearPieceSurvives(text: string)
    ensures Descramble(text) == text <==> !LooksScrambled(text)
  {
    if LooksScrambled(text) {
      var t := DigitValue(text[|text| - 1]);
      assert |Descramble(text)| == |text| - 2 * t - 1;
    }
  }

  /** Every chunk free of the separator can be sent, so every encoding can. */
  lemma ChunkCanBeSent(chunk: string, separator: char) returns (p: Piece)
    requires separator !in chunk && separator != '0'
    ensures Sendable(p, separator) && Chunk(p) == chunk
  {
    if LooksScrambled(chunk) {
      p := Mixed("", "", chunk, "");
      assert Wire(p) == chunk + "0";
    } else {
      p := Clear(chunk);
    }
  }

  lemma {:induction false} SplitClean(text: string, separator: char)
    requires separator !in text
    ensures Split(text, separator) == [text]
  {
    if text != "" {
      SplitClean(text[1..], separator);
      assert [text[0]] + text[1..] == text;
    }
  }

  lemma {:induction false} SplitFirst(piece: string, separator: char, rest: string)
    requires separator !in piece
    ensures Split(piece + [separator] + rest, separator) == [piece] + Split(rest, separator)
  {
    var text := piece + [separator] + rest;
    if piece == "" {
      assert text[1..] == rest;
    } else {
      assert text[1..] == piece[1..] + [separator] + rest;
      SplitFirst(piece[1..], separator, rest);
      assert [piece[0]] + piece[1..] == piece;
    }
  }

  lemma {:induction false} PayloadDescrambles(ps: seq<Piece>, separator: char)
    requires ps != [] && AllSendable(ps, separator)
    ensures Descrambled(Split(Payload(ps, separator), separator)) == Chunks(ps)
  {
    DescrambleUndoesWire(ps[0], separator);
    if |ps| == 1 {
      SplitClean(Wire(ps[0]), separator);
      assert Split(Payload(ps, separator), separator)[1..] == [];
      assert ps[1..] == [];
    } else {
      SplitFirst(Wire(ps[0]), separator, Payload(ps[1..], separator));
      PayloadDescrambles(ps[1..], separator);
    }
  }

  /** For every byte string, every cut of its encoding (padding sent or not) into sendable pieces, and
      every two-digit separator: the decoder reads exactly these bytes, unless the payload is shorter than
      the two characters the decoder insists on, when it reports a missing separator. */
  lemma DecodeUndoesSend<T>(bytes: seq<Byte>, code: nat, ps: seq<Piece>, parse: seq<Byte> -> Parsed<T>)
    requires code < 100 && ps != [] && AllSendable(ps, code as char)
    requires Chunks(ps) == Encode(bytes) || Chunks(ps) == Repair(Encode(bytes))
    ensures Playlist(Token(code, ps), parse)
            == if |Payload(ps, code as char)| >= 2 then Listed(parse(bytes)) else Err(SeparatorMissing)
    ensures bytes != [] ==> Playlist(Token(code, ps), parse) == Listed(parse(bytes))
  {
    PayloadRead(bytes, code as char, ps, parse);
    TokenHeader(code, Payload(ps, code as char), parse);
  }

  lemma PayloadRead<T>(bytes: seq<Byte>, separator: char, ps: seq<Piece>, parse: seq<Byte> -> Parsed<T>)
    requires ps != [] && AllSendable(ps, separator)
    requires Chunks(ps) == Encode(bytes) || Chunks(ps) == Repair(Encode(bytes))
    ensures ReadPayload(Payload(ps, separator), separator, parse) == Listed(parse(bytes))
    ensures bytes != [] ==> |Payload(ps, separator)| >= 2
  {
    PayloadDescrambles(ps, separator);
    EncodeShape(bytes);
    DecodeUndoesEncode(bytes);
    RepairIsIdempotent(Encode(bytes));
    ChunksWithin(ps, separator);
  }

  lemma TokenHeader<T>(code: nat, payload: string, parse: seq<Byte> -> Parsed<T>)
    requires code < 100
    ensures Playlist(Header(code) + payload, parse)
            == if |payload| < 2 then Err(SeparatorMissing) else ReadPayload(payload, code as char, parse)
  {
    var token := Header(code) + payload;
    assert token[..2] == "#2";
    assert token[2] == Digit(code / 10) && token[3] == Digit(code % 10);
    assert DigitValue(Digit(code / 10)) == code / 10 && DigitValue(Digit(code % 10)) == code % 10;
    assert token[4..] == payload;
  }

  lemma {:induction false} ChunksWithin(ps: seq<Piece>, separator: char)
    requires ps != [] && AllSendable(ps, separator)
    ensures |Chunks(ps)| <= |Payload(ps, separator)|
  {
    if |ps| > 1 {
      ChunksWithin(ps[1..], separator);
    } else {
      assert ps[1..] == [];
    }
  }
}
