/** Base64 as defined in section 4 of RFC 4648, with the padding repair used by the playlist decoder. */
module Base64 {
  import opened Wrappers

  type Byte = b: int | 0 <= b < 256
  type Sextet = d: int | 0 <= d < 64

  // ----- bytes and sextets ---------------------------------------------------------------------

  function ToSextets(b: seq<Byte>): seq<Sextet> {
    if |b| == 0 then []
    else if |b| == 1 then [b[0] / 4, b[0] % 4 * 16]
    else if |b| == 2 then [b[0] / 4, b[0] % 4 * 16 + b[1] / 16, b[1] % 16 * 4]
    else [b[0] / 4, b[0] % 4 * 16 + b[1] / 16, b[1] % 16 * 4 + b[2] / 64, b[2] % 64] + ToSextets(b[3..])
  }

  function First(v0: Sextet, v1: Sextet): Byte {
    v0 * 4 + v1 / 16
  }

  function Second(v1: Sextet, v2: Sextet): Byte {
    v1 % 16 * 16 + v2 / 4
  }

  function Third(v2: Sextet, v3: Sextet): Byte {
    v2 % 4 * 64 + v3
  }

  function FromSextets(v: seq<Sextet>): seq<Byte> {
    if |v| < 2 then []
    else if |v| == 2 then [First(v[0], v[1])]
    else if |v| == 3 then [First(v[0], v[1]), Second(v[1], v[2])]
    else [First(v[0], v[1]), Second(v[1], v[2]), Third(v[2], v[3])] + FromSextets(v[4..])
  }

  lemma GroupInverse(b0: Byte, b1: Byte, b2: Byte)
    ensures First(b0 / 4, b0 % 4 * 16 + b1 / 16) == b0
    ensures Second(b0 % 4 * 16 + b1 / 16, b1 % 16 * 4 + b2 / 64) == b1
    ensures Third(b1 % 16 * 4 + b2 / 64, b2 % 64) == b2
  {
  }

  lemma {:induction false} FromSextetsInverse(b: seq<Byte>)
    ensures FromSextets(ToSextets(b)) == b
    decreases |b|
  {
    if |b| == 1 {
      GroupInverse(b[0], 0, 0);
    } else if |b| == 2 {
      GroupInverse(b[0], b[1], 0);
    } else if |b| > 2 {
      GroupInverse(b[0], b[1], b[2]);
      FromSextetsInverse(b[3..]);
      assert ToSextets(b)[4..] == ToSextets(b[3..]);
    }
  }

  lemma {:induction false} SextetCount(b: seq<Byte>)
    ensures |ToSextets(b)| % 4 != 1
    ensures |b| > 0 ==> |ToSextets(b)| >= 2
    decreases |b|
  {
    if |b| > 2 {
      SextetCount(b[3..]);
    }
  }

  // ----- the alphabet --------------------------------------------------------------------------

  function CharOf(d: Sextet): char {
    if d < 26 then 'A' + d as char
    else if d < 52 then 'a' + (d - 26) as char
    else if d < 62 then '0' + (d - 52) as char
    else if d == 62 then '+' else '/'
  }

  predicate InAlphabet(ch: char) {
    'A' <= ch <= 'Z' || 'a' <= ch <= 'z' || '0' <= ch <= '9' || ch == '+' || ch == '/'
  }

  function ValueOf(ch: char): Sextet
    requires InAlphabet(ch)
  {
    if 'A' <= ch <= 'Z' then (ch - 'A') as int
    else if 'a' <= ch <= 'z' then (ch - 'a') as int + 26
    else if '0' <= ch <= '9' then (ch - '0') as int + 52
    else if ch == '+' then 62 else 63
  }

  lemma CharOfInverse(d: Sextet)
    ensures InAlphabet(CharOf(d)) && ValueOf(CharOf(d)) == d
  {
  }

  predicate IsEncoded(text: string) {
    forall ch | ch in text :: InAlphabet(ch)
  }

  function Spell(v: seq<Sextet>): string {
    if v == [] then "" else [CharOf(v[0])] + Spell(v[1..])
  }

  function Read(text: string): seq<Sextet>
    requires IsEncoded(text)
  {
    if text == "" then [] else [ValueOf(text[0])] + Read(text[1..])
  }

  lemma {:induction false} ReadUndoesSpell(v: seq<Sextet>)
    ensures IsEncoded(Spell(v)) && Read(Spell(v)) == v && |Spell(v)| == |v|
  {
    if v != [] {
      CharOfInverse(v[0]);
      ReadUndoesSpell(v[1..]);
      assert Spell(v)[1..] == Spell(v[1..]);
    }
  }

  // ----- text ----------------------------------------------------------------------------------

  /** The encoding without its padding. */
  function Encode(b: seq<Byte>): string {
    Spell(ToSextets(b))
  }

  function Padding(n: nat): string {
    match (4 - n % 4) % 4
    case 0 => ""
    case 1 => "="
    case 2 => "=="
    case _ => "==="
  }

  /** The repair step: '=' signs up to a multiple of four characters. */
  function Repair(text: string): string {
    text + Padding(|text|)
  }

  /** The text before at most two closing '=' signs. */
  function Unpadded(text: string): string {
    var n := |text|;
    if n >= 2 && text[n - 2..] == "==" then text[..n - 2]
    else if n >= 1 && text[n - 1] == '=' then text[..n - 1]
    else text
  }

  /** Decoding as section 4 of RFC 4648 has it. */
  function Strict(text: string): Option<seq<Byte>> {
    if |text| % 4 != 0 || !IsEncoded(Unpadded(text)) then None
    else Some(FromSextets(Read(Unpadded(text))))
  }

  lemma NoPadInside(text: string)
    requires IsEncoded(text) && text != ""
    ensures text[|text| - 1] != '='
  {
    assert text[|text| - 1] in text;
  }

  lemma StripTwo(text: string)
    ensures Unpadded(text + "==") == text
  {
    var whole := text + "==";
    assert whole[|whole| - 2..] == "==" && whole[..|whole| - 2] == text;
  }

  lemma StripOne(text: string)
    requires text == "" || text[|text| - 1] != '='
    ensures Unpadded(text + "=") == text && Unpadded(text) == text
  {
    var whole := text + "=";
    assert whole[..|whole| - 1] == text;
    assert |whole| >= 2 ==> whole[|whole| - 2..][0] == text[|text| - 1];
    assert |text| >= 2 ==> text[|text| - 2..][1] == text[|text| - 1];
  }

  lemma PaddingIs(n: nat)
    requires n % 4 != 1
    ensures Padding(n) == if n % 4 == 2 then "==" else if n % 4 == 3 then "=" else ""
    ensures (n + |Padding(n)|) % 4 == 0
  {
  }

  lemma UnpaddedUndoesRepair(text: string)
    requires IsEncoded(text) && |text| % 4 != 1
    ensures |Repair(text)| % 4 == 0 && Unpadded(Repair(text)) == text
  {
    var pad := Padding(|text|);
    PaddingIs(|text|);
    if text != "" {
      NoPadInside(text);
    }
    if pad == "==" {
      StripTwo(text);
    } else if pad == "=" {
      StripOne(text);
    } else {
      assert pad == "";
      StripOne(text);
      assert Repair(text) == text;
    }
  }

  // ----- the forgiving decoder -------------------------------------------------------------------

  predicate IsAscii(text: string) {
    forall ch | ch in text :: ch < 128 as char
  }

  function Next(quad: nat): nat {
    if quad >= 3 then 0 else quad + 1
  }

  /** What the decoder makes of the rest of a text, `quad` characters into a group of four and after
      `pads` '=' signs: the values it takes, and whether it ends on a whole or padded group.  Characters
      outside the alphabet are discarded, and so are '=' signs that do not complete a group. */
  function Scan(text: string, quad: nat, pads: nat): (seq<Sextet>, bool)
    decreases |text|
  {
    if text == "" then ([], quad == 0)
    else if text[0] == '=' then
      if quad >= 2 && quad + pads + 1 >= 4 then ([], true)
      else Scan(text[1..], quad, if quad >= 2 then pads + 1 else pads)
    else if !InAlphabet(text[0]) then Scan(text[1..], quad, pads)
    else
      var (rest, ends) := Scan(text[1..], Next(quad), 0);
      ([ValueOf(text[0])] + rest, ends)
  }

  function Decode(text: string): Option<seq<Byte>> {
    var (values, ends) := Scan(text, 0, 0);
    if IsAscii(text) && ends then Some(FromSextets(values)) else None
  }

  function Advance(quad: nat, n: nat): nat
    decreases n
  {
    if n == 0 then quad else Advance(Next(quad), n - 1)
  }

  lemma {:induction false} AdvanceIs(quad: nat, n: nat)
    requires quad < 4
    ensures Advance(quad, n) == (quad + n) % 4
    decreases n
  {
    if n > 0 {
      AdvanceIs(Next(quad), n - 1);
    }
  }

  lemma ScanOne(ch: char, rest: string, quad: nat)
    requires InAlphabet(ch)
    ensures Scan([ch] + rest, quad, 0).0 == [ValueOf(ch)] + Scan(rest, Next(quad), 0).0
    ensures Scan([ch] + rest, quad, 0).1 == Scan(rest, Next(quad), 0).1
  {
    assert ([ch] + rest)[1..] == rest;
  }

  lemma EncodedParts(text: string)
    requires IsEncoded(text) && text != ""
    ensures InAlphabet(text[0]) && IsEncoded(text[1..])
  {
    assert text[0] in text;
  }

  /** Alphabet characters are read one by one. */
  lemma {:induction false} ScanReads(text: string, rest: string, quad: nat)
    requires IsEncoded(text)
    ensures Scan(text + rest, quad, 0).0 == Read(text) + Scan(rest, Advance(quad, |text|), 0).0
    ensures Scan(text + rest, quad, 0).1 == Scan(rest, Advance(quad, |text|), 0).1
    decreases |text|
  {
    if text == "" {
      assert text + rest == rest;
    } else {
      EncodedParts(text);
      ScanOne(text[0], text[1..] + rest, quad);
      ScanReads(text[1..], rest, Next(quad));
      assert text + rest == [text[0]] + (text[1..] + rest);
    }
  }

  /** The padding that completes a group of four. */
  predicate Completes(n: nat, pad: string) {
    (pad == "" && n % 4 == 0) || (pad == "=" && n % 4 == 3) || (pad == "==" && n % 4 == 2)
  }

  lemma ScanPad(n: nat, pad: string)
    requires Completes(n, pad)
    ensures Scan(pad, n % 4, 0) == ([], true)
  {
    if pad == "==" {
      assert pad[1..] == "=";
      assert Scan("=", 2, 1) == ([], true);
    }
  }

  lemma DecodeTail(core: string, tail: string)
    requires IsEncoded(core)
    ensures var (rest, ends) := Scan(tail, |core| % 4, 0);
            Decode(core + tail) == if IsAscii(tail) && ends then Some(FromSextets(Read(core) + rest)) else None
  {
    AdvanceIs(0, |core|);
    ScanReads(core, tail, 0);
    assert forall ch :: ch in core + tail <==> ch in core || ch in tail;
  }

  /** The padding a strict text ends with completes the last group. */
  lemma StrictShape(text: string)
    requires |text| % 4 == 0
    ensures var core := Unpadded(text);
            text == core + text[|core|..] && Completes(|core|, text[|core|..])
  {
  }

  /** The forgiving decoder agrees with the strict one wherever that accepts. */
  lemma DecodeExtendsStrict(text: string)
    requires Strict(text).Some?
    ensures Decode(text) == Strict(text)
  {
    var core := Unpadded(text);
    var pad := text[|core|..];
    StrictShape(text);
    ScanPad(|core|, pad);
    DecodeTail(core, pad);
    assert Read(core) + [] == Read(core);
  }

  lemma {:induction false} ScanSkips(before: string, junk: char, after: string, quad: nat, pads: nat)
    requires !InAlphabet(junk) && junk != '='
    ensures Scan(before + [junk] + after, quad, pads) == Scan(before + after, quad, pads)
    decreases |before|
  {
    var with, without := before + [junk] + after, before + after;
    if before == "" {
      assert with[1..] == after && without == after;
    } else {
      assert with[1..] == before[1..] + [junk] + after && without[1..] == before[1..] + after;
      ScanSkips(before[1..], junk, after, quad, if quad >= 2 then pads + 1 else pads);
      ScanSkips(before[1..], junk, after, quad, pads);
      ScanSkips(before[1..], junk, after, Next(quad), 0);
    }
  }

  /** An ASCII character outside the alphabet changes nothing, wherever it stands. */
  lemma JunkIsDiscarded(before: string, junk: char, after: string)
    requires !InAlphabet(junk) && junk != '=' && junk < 128 as char
    ensures Decode(before + [junk] + after) == Decode(before + after)
  {
    ScanSkips(before, junk, after, 0, 0);
    var with, without := before + [junk] + after, before + after;
    assert forall ch :: ch in with <==> ch in without || ch == junk;
  }

  lemma ScanEqual(after: string, quad: nat)
    requires quad < 4
    ensures quad == 3 ==> Scan("=" + after, quad, 0) == ([], true)
    ensures quad == 2 ==> Scan("==" + after, quad, 0) == ([], true)
    ensures quad < 3 && (after == "" || InAlphabet(after[0])) ==> Scan("=" + after, quad, 0) == Scan(after, quad, 0)
  {
    var one, two := "=" + after, "==" + after;
    assert one[1..] == after && two[1..] == one;
  }

  /** A '=' ends the text exactly when it completes a group: as the fourth character of one, or as the second '='
      after two; anything may follow it then.  Everywhere else an alphabet character or the end after it hides it. */
  lemma PaddingEnds(core: string, after: string)
    requires IsEncoded(core)
    ensures |core| % 4 == 3 && IsAscii(after) ==> Decode(core + "=" + after) == Some(FromSextets(Read(core)))
    ensures |core| % 4 == 2 && IsAscii(after) ==> Decode(core + "==" + after) == Some(FromSextets(Read(core)))
    ensures |core| % 4 < 3 && (after == "" || InAlphabet(after[0])) ==> Decode(core + "=" + after) == Decode(core + after)
  {
    ScanEqual(after, |core| % 4);
    DecodeTail(core, "=" + after);
    DecodeTail(core, "==" + after);
    DecodeTail(core, after);
    assert core + "=" + after == core + ("=" + after) && core + "==" + after == core + ("==" + after);
    assert forall ch :: ch in "=" + after <==> ch in after || ch == '=';
    assert forall ch :: ch in "==" + after <==> ch in after || ch == '=';
    assert Read(core) + [] == Read(core);
  }

  lemma DecodeRepaired(text: string)
    requires IsEncoded(text) && |text| % 4 != 1
    ensures Decode(Repair(text)) == Some(FromSextets(Read(text)))
  {
    UnpaddedUndoesRepair(text);
    DecodeExtendsStrict(Repair(text));
  }

  lemma RepairIsIdempotent(text: string)
    ensures Repair(Repair(text)) == Repair(text)
  {
    assert |Repair(text)| % 4 == 0;
  }

  lemma EncodeShape(b: seq<Byte>)
    ensures IsEncoded(Encode(b)) && |Encode(b)| % 4 != 1 && (|b| > 0 ==> |Encode(b)| >= 2)
    ensures FromSextets(Read(Encode(b))) == b
  {
    SextetCount(b);
    FromSextetsInverse(b);
    ReadUndoesSpell(ToSextets(b));
  }

  /** Decoding undoes encoding, for every byte string. */
  lemma DecodeUndoesEncode(b: seq<Byte>)
    ensures Decode(Repair(Encode(b))) == Some(b)
  {
    EncodeShape(b);
    DecodeRepaired(Encode(b));
  }
}
