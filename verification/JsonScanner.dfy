/** The balanced-value scanner of the page resolver: it cuts one JSON array or object out of a
    larger script text.  The scanner counts only the bracket kind it started on and skips quoted
    strings; that this is enough for every JSON text is the theorem `ScanReturnsRendering`. */
module JsonScanner {
  import opened Wrappers

  datatype ScanError = StartMissing | Unterminated

  // ----- the scanner -------------------------------------------------------------------------

  /** The loop's three variables.  `quote` is "" outside strings, else the one-character quote. */
  datatype Scan = Scan(depth: int, quote: string, escaped: bool)

  function Closer(opener: char): char {
    if opener == '[' then ']' else '}'
  }

  /** One loop iteration on character `ch`. */
  function Step(s: Scan, ch: char, opener: char): Scan {
    if s.quote != "" then
      if s.escaped then s.(escaped := false)
      else if ch == '\\' then s.(escaped := true)
      else if [ch] == s.quote then s.(quote := "")
      else s
    else if ch == '"' || ch == '\'' then s.(quote := [ch])
    else if ch == opener then s.(depth := s.depth + 1)
    else if ch == Closer(opener) then s.(depth := s.depth - 1)
    else s
  }

  function Run(s: Scan, text: string, opener: char): Scan
    decreases |text|
  {
    if text == "" then s else Run(Step(s, text[0], opener), text[1..], opener)
  }

  const START := Scan(0, "", false)

  /** Bracket depth after the whole of `text`, strings skipped. */
  function Depth(text: string, opener: char): int {
    Run(START, text, opener).depth
  }

  predicate IsOpener(ch: char) {
    ch == '[' || ch == '{'
  }

  /** `end` is the first position after `start` at which the depth is back to zero. */
  ghost predicate ClosesFirstAt(text: string, start: nat, end: nat)
    requires start < |text|
  {
    && start < end <= |text|
    && Depth(text[start..end], text[start]) == 0
    && forall e | start < e < end :: Depth(text[start..e], text[start]) != 0
  }

  method BalancedJsonValue(text: string, start: int) returns (r: Result<string, ScanError>)
    ensures if !(0 <= start < |text| && IsOpener(text[start])) then r == Err(StartMissing)
            else if exists e: nat :: ClosesFirstAt(text, start, e) then
              && r.Ok? && ClosesFirstAt(text, start, start + |r.value|)
              && r.value == text[start..start + |r.value|]
            else r == Err(Unterminated)
  {
    if start < 0 || start >= |text| || !IsOpener(text[start]) {
      return Err(StartMissing);
    }
    var opener := text[start];
    var closer := if opener == '[' then ']' else '}';
    var depth, quote, escaped := 0, "", false;
    for index := start to |text|
      invariant Scan(depth, quote, escaped) == Run(START, text[start..index], opener)
      invariant if index == start then depth == 0 && quote == "" else depth > 0
      invariant forall e | start < e <= index :: Depth(text[start..e], opener) != 0
    {
      var ch := text[index];
      assert text[start..index + 1] == text[start..index] + [ch];
      RunConcat(START, text[start..index], [ch], opener);
      assert Run(START, text[start..index + 1], opener) == Step(Scan(depth, quote, escaped), ch, opener);
      if quote != "" {
        if escaped {
          escaped := false;
        } else if ch == '\\' {
          escaped := true;
        } else if [ch] == quote {
          quote := "";
        }
      } else if ch == '"' || ch == '\'' {
        quote := [ch];
      } else if ch == opener {
        depth := depth + 1;
      } else if ch == closer {
        depth := depth - 1;
        if depth == 0 {
          assert ClosesFirstAt(text, start, index + 1);
          return Ok(text[start..index + 1]);
        }
      }
    }
    return Err(Unterminated);
  }

  // ----- JSON texts (RFC 8259, sections 2 to 7) ------------------------------------------------

  datatype StrItem = Plain(ch: char) | Escape(code: char) | Unicode(h0: char, h1: char, h2: char, h3: char)

  /** A JSON text with all its optional white space.  `Token` covers numbers, true, false, null. */
  datatype Json = Token(text: string) | Str(items: seq<StrItem>) | Arr(elems: Elems) | Obj(members: Members)
  datatype Elems =
    | NoElems(pad: string)
    | LastElem(before: string, value: Json, after: string)
    | Elem(before: string, value: Json, after: string, rest: Elems)
  datatype Members =
    | NoMembers(pad: string)
    | LastMember(before: string, key: seq<StrItem>, mid: string, gap: string, value: Json, after: string)
    | Member(before: string, key: seq<StrItem>, mid: string, gap: string, value: Json, after: string, rest: Members)

  function RenderItem(i: StrItem): string {
    match i
    case Plain(ch) => [ch]
    case Escape(code) => ['\\', code]
    case Unicode(h0, h1, h2, h3) => ['\\', 'u', h0, h1, h2, h3]
  }

  function RenderItems(items: seq<StrItem>): string {
    if items == [] then "" else RenderItem(items[0]) + RenderItems(items[1..])
  }

  function RenderStr(items: seq<StrItem>): string {
    "\"" + RenderItems(items) + "\""
  }

  function Render(v: Json): string {
    match v
    case Token(text) => text
    case Str(items) => RenderStr(items)
    case Arr(elems) => "[" + RenderElems(elems) + "]"
    case Obj(members) => "{" + RenderMembers(members) + "}"
  }

  function RenderElems(es: Elems): string {
    match es
    case NoElems(pad) => pad
    case LastElem(before, value, after) => before + Render(value) + after
    case Elem(before, value, after, rest) => before + Render(value) + after + "," + RenderElems(rest)
  }

  function RenderMembers(ms: Members): string {
    match ms
    case NoMembers(pad) => pad
    case LastMember(before, key, mid, gap, value, after) =>
      before + RenderStr(key) + mid + ":" + gap + Render(value) + after
    case Member(before, key, mid, gap, value, after, rest) =>
      before + RenderStr(key) + mid + ":" + gap + Render(value) + after + "," + RenderMembers(rest)
  }

  predicate IsSpace(text: string) {
    forall ch | ch in text :: ch in {' ', '\t', '\n', '\r'}
  }

  predicate IsHex(ch: char) {
    '0' <= ch <= '9' || 'a' <= ch <= 'f' || 'A' <= ch <= 'F'
  }

  /** Section 7: anything but the quote, the backslash and control characters; the nine escapes. */
  predicate ValidItem(i: StrItem) {
    match i
    case Plain(ch) => ch >= ' ' && ch != '"' && ch != '\\'
    case Escape(code) => code in {'"', '\\', '/', 'b', 'f', 'n', 'r', 't'}
    case Unicode(h0, h1, h2, h3) => IsHex(h0) && IsHex(h1) && IsHex(h2) && IsHex(h3)
  }

  predicate ValidItems(items: seq<StrItem>) {
    forall i | i in items :: ValidItem(i)
  }

  /** The characters of numbers and of the three literal names: more than sections 3 and 6 allow. */
  predicate ValidToken(text: string) {
    forall ch | ch in text :: '0' <= ch <= '9' || 'a' <= ch <= 'z' || ch in {'-', '+', '.', 'E'}
  }

  predicate Valid(v: Json) {
    match v
    case Token(text) => ValidToken(text)
    case Str(items) => ValidItems(items)
    case Arr(elems) => ValidElems(elems)
    case Obj(members) => ValidMembers(members)
  }

  predicate ValidElems(es: Elems) {
    match es
    case NoElems(pad) => IsSpace(pad)
    case LastElem(before, value, after) => IsSpace(before) && Valid(value) && IsSpace(after)
    case Elem(before, value, after, rest) =>
      IsSpace(before) && Valid(value) && IsSpace(after) && !rest.NoElems? && ValidElems(rest)
  }

  predicate ValidMembers(ms: Members) {
    match ms
    case NoMembers(pad) => IsSpace(pad)
    case LastMember(before, key, mid, gap, value, after) =>
      IsSpace(before) && ValidItems(key) && IsSpace(mid) && IsSpace(gap) && Valid(value) && IsSpace(after)
    case Member(before, key, mid, gap, value, after, rest) =>
      && IsSpace(before) && ValidItems(key) && IsSpace(mid) && IsSpace(gap) && Valid(value) && IsSpace(after)
      && !rest.NoMembers? && ValidMembers(rest)
  }

  // ----- runs over concatenations --------------------------------------------------------------

  /** No prefix of `text` takes the depth below `floor`. */
  predicate Stays(s: Scan, text: string, opener: char, floor: int)
    decreases |text|
  {
    s.depth >= floor && (text == "" || Stays(Step(s, text[0], opener), text[1..], opener, floor))
  }

  lemma {:induction false} RunConcat(s: Scan, a: string, b: string, opener: char)
    ensures Run(s, a + b, opener) == Run(Run(s, a, opener), b, opener)
    decreases |a|
  {
    if a == "" {
      assert a + b == b;
    } else {
      assert (a + b)[1..] == a[1..] + b;
      RunConcat(Step(s, a[0], opener), a[1..], b, opener);
    }
  }

  lemma {:induction false} StaysConcat(s: Scan, a: string, b: string, opener: char, floor: int)
    requires Stays(s, a, opener, floor)
    requires Stays(Run(s, a, opener), b, opener, floor)
    ensures Stays(s, a + b, opener, floor)
    decreases |a|
  {
    if a == "" {
      assert a + b == b;
    } else {
      assert (a + b)[1..] == a[1..] + b;
      StaysConcat(Step(s, a[0], opener), a[1..], b, opener, floor);
    }
  }

  lemma {:induction false} StaysAtPrefix(s: Scan, text: string, opener: char, floor: int, k: nat)
    requires Stays(s, text, opener, floor) && k <= |text|
    ensures Run(s, text[..k], opener).depth >= floor
    decreases k
  {
    if k > 0 {
      assert text[..k][1..] == text[1..][..k - 1];
      StaysAtPrefix(Step(s, text[0], opener), text[1..], opener, floor, k - 1);
    }
  }

  lemma {:induction false} StaysLower(s: Scan, text: string, opener: char, hi: int, lo: int)
    requires Stays(s, text, opener, hi) && lo <= hi
    ensures Stays(s, text, opener, lo)
    decreases |text|
  {
    if text != "" {
      StaysLower(Step(s, text[0], opener), text[1..], opener, hi, lo);
    }
  }

  /** Outside strings, `text` brings the scanner back to where it was and never below it. */
  ghost predicate Neutral(text: string, opener: char) {
    forall d: int :: Run(Scan(d, "", false), text, opener) == Scan(d, "", false)
                  && Stays(Scan(d, "", false), text, opener, d)
  }

  lemma NeutralConcat(a: string, b: string, opener: char)
    requires Neutral(a, opener) && Neutral(b, opener)
    ensures Neutral(a + b, opener)
  {
    forall d: int
      ensures Run(Scan(d, "", false), a + b, opener) == Scan(d, "", false)
           && Stays(Scan(d, "", false), a + b, opener, d)
    {
      RunConcat(Scan(d, "", false), a, b, opener);
      StaysConcat(Scan(d, "", false), a, b, opener, d);
    }
  }

  /** Characters outside strings that the scanner passes over. */
  predicate Quiet(text: string) {
    forall ch | ch in text :: ch !in {'"', '\'', '[', ']', '{', '}'}
  }

  lemma {:induction false} QuietStep(d: int, text: string, opener: char)
    requires Quiet(text) && IsOpener(opener)
    ensures Run(Scan(d, "", false), text, opener) == Scan(d, "", false)
    ensures Stays(Scan(d, "", false), text, opener, d)
  {
    if text != "" {
      assert text[0] in text;
      assert forall ch | ch in text[1..] :: ch in text;
      QuietStep(d, text[1..], opener);
    }
  }

  lemma QuietIsNeutral(text: string, opener: char)
    requires Quiet(text) && IsOpener(opener)
    ensures Neutral(text, opener)
  {
    forall d: int
      ensures Run(Scan(d, "", false), text, opener) == Scan(d, "", false)
           && Stays(Scan(d, "", false), text, opener, d)
    {
      QuietStep(d, text, opener);
    }
  }

  // ----- strings -------------------------------------------------------------------------------

  /** The item may stand in a string of either quote sign: it does not close it. */
  predicate Fits(i: StrItem, quote: char) {
    match i
    case Plain(ch) => ch != quote && ch != '\\'
    case Escape(code) => true
    case Unicode(h0, h1, h2, h3) => IsHex(h0) && IsHex(h1) && IsHex(h2) && IsHex(h3)
  }

  lemma {:induction false} InsideString(d: int, items: seq<StrItem>, quote: char, opener: char)
    requires quote in {'"', '\''} && forall i | i in items :: Fits(i, quote)
    ensures Run(Scan(d, [quote], false), RenderItems(items), opener) == Scan(d, [quote], false)
    ensures Stays(Scan(d, [quote], false), RenderItems(items), opener, d)
  {
    if items != [] {
      var s, i := Scan(d, [quote], false), RenderItem(items[0]);
      assert items[0] in items && forall x | x in items[1..] :: x in items;
      ItemKeepsQuote(d, items[0], quote, opener);
      InsideString(d, items[1..], quote, opener);
      RunConcat(s, i, RenderItems(items[1..]), opener);
      StaysConcat(s, i, RenderItems(items[1..]), opener, d);
    }
  }

  lemma ItemKeepsQuote(d: int, item: StrItem, quote: char, opener: char)
    requires quote in {'"', '\''} && Fits(item, quote)
    ensures Run(Scan(d, [quote], false), RenderItem(item), opener) == Scan(d, [quote], false)
    ensures Stays(Scan(d, [quote], false), RenderItem(item), opener, d)
  {
    var s, text := Scan(d, [quote], false), RenderItem(item);
    match item
    case Plain(ch) =>
      assert [ch] != [quote] by { assert [ch][0] != [quote][0]; }
      assert Step(s, ch, opener) == s;
    case Escape(code) =>
      assert text[1..] == [code] && text[1..][1..] == "";
      assert Step(Step(s, '\\', opener), code, opener) == s;
      assert Run(Step(s, '\\', opener), [code], opener) == s;
    case Unicode(h0, h1, h2, h3) =>
      assert text[1..] == ['u', h0, h1, h2, h3];
      HexKeepsQuote(d, [h0, h1, h2, h3], quote, opener);
      assert text[1..][1..] == [h0, h1, h2, h3];
  }

  lemma {:induction false} HexKeepsQuote(d: int, hex: string, quote: char, opener: char)
    requires quote in {'"', '\''} && forall h | h in hex :: IsHex(h)
    ensures Run(Scan(d, [quote], false), hex, opener) == Scan(d, [quote], false)
    ensures Stays(Scan(d, [quote], false), hex, opener, d)
  {
    if hex != "" {
      assert hex[0] in hex && forall h | h in hex[1..] :: h in hex;
      assert [hex[0]] != [quote] by { assert [hex[0]][0] != [quote][0]; }
      HexKeepsQuote(d, hex[1..], quote, opener);
    }
  }

  /** One step before and one step after a stretch of text. */
  lemma Wrapped(s: Scan, first: char, inner: string, last: char, opener: char, floor: int)
    requires var s1 := Step(s, first, opener); var s2 := Run(s1, inner, opener);
             s.depth >= floor && Stays(s1, inner, opener, floor) && Step(s2, last, opener).depth >= floor
    ensures Run(s, [first] + inner + [last], opener)
            == Step(Run(Step(s, first, opener), inner, opener), last, opener)
    ensures Stays(s, [first] + inner + [last], opener, floor)
  {
    var s1 := Step(s, first, opener);
    var whole := [first] + inner + [last];
    assert whole[1..] == inner + [last];
    RunConcat(s1, inner, [last], opener);
    StaysAtPrefix(s1, inner, opener, floor, |inner|);
    assert inner[..|inner|] == inner;
    StaysConcat(s1, inner, [last], opener, floor);
  }

  /** A string in either quote sign, as scripts have them, leaves the scanner as it found it, whatever
      brackets, escapes and signs of the other kind it holds. */
  lemma QuotedIsNeutral(items: seq<StrItem>, quote: char, opener: char)
    requires quote in {'"', '\''} && IsOpener(opener) && forall i | i in items :: Fits(i, quote)
    ensures Neutral([quote] + RenderItems(items) + [quote], opener)
  {
    var text := [quote] + RenderItems(items) + [quote];
    forall d: int
      ensures Run(Scan(d, "", false), text, opener) == Scan(d, "", false) && Stays(Scan(d, "", false), text, opener, d)
    {
      InsideString(d, items, quote, opener);
      Wrapped(Scan(d, "", false), quote, RenderItems(items), quote, opener, d);
    }
  }

  lemma StringIsNeutral(items: seq<StrItem>, opener: char)
    requires ValidItems(items) && IsOpener(opener)
    ensures Neutral(RenderStr(items), opener)
  {
    QuotedIsNeutral(items, '"', opener);
    assert "\"" == ['"'];
  }

  // ----- values --------------------------------------------------------------------------------

  lemma BracketsAreNeutral(open: char, inner: string, opener: char)
    requires IsOpener(open) && IsOpener(opener) && Neutral(inner, opener)
    ensures Neutral([open] + inner + [Closer(open)], opener)
  {
    forall d: int
      ensures Run(Scan(d, "", false), [open] + inner + [Closer(open)], opener) == Scan(d, "", false)
           && Stays(Scan(d, "", false), [open] + inner + [Closer(open)], opener, d)
    {
      var s1 := Step(Scan(d, "", false), open, opener);
      assert s1 == Scan(if open == opener then d + 1 else d, "", false);
      StaysLower(s1, inner, opener, s1.depth, d);
      Wrapped(Scan(d, "", false), open, inner, Closer(open), opener, d);
    }
  }

  lemma {:induction false} ValueIsNeutral(v: Json, opener: char)
    requires Valid(v) && IsOpener(opener)
    ensures Neutral(Render(v), opener)
  {
    match v
    case Token(text) => QuietIsNeutral(text, opener);
    case Str(items) => StringIsNeutral(items, opener);
    case Arr(elems) =>
      ElemsAreNeutral(elems, opener);
      BracketsAreNeutral('[', RenderElems(elems), opener);
    case Obj(members) =>
      MembersAreNeutral(members, opener);
      BracketsAreNeutral('{', RenderMembers(members), opener);
  }

  lemma PaddedIsNeutral(before: string, inner: string, after: string, opener: char)
    requires Quiet(before) && Quiet(after) && Neutral(inner, opener) && IsOpener(opener)
    ensures Neutral(before + inner + after, opener)
  {
    QuietIsNeutral(before, opener);
    QuietIsNeutral(after, opener);
    NeutralConcat(before, inner, opener);
    NeutralConcat(before + inner, after, opener);
  }

  lemma {:induction false} ElemsAreNeutral(es: Elems, opener: char)
    requires ValidElems(es) && IsOpener(opener)
    ensures Neutral(RenderElems(es), opener)
  {
    match es
    case NoElems(pad) => QuietIsNeutral(pad, opener);
    case LastElem(before, value, after) =>
      ValueIsNeutral(value, opener);
      PaddedIsNeutral(before, Render(value), after, opener);
    case Elem(before, value, after, rest) =>
      ValueIsNeutral(value, opener);
      PaddedIsNeutral(before, Render(value), after, opener);
      ElemsAreNeutral(rest, opener);
      PaddedIsNeutral("", before + Render(value) + after, ",", opener);
      assert "" + (before + Render(value) + after) + "," == before + Render(value) + after + ",";
      NeutralConcat(before + Render(value) + after + ",", RenderElems(rest), opener);
  }

  lemma {:induction false} MemberIsNeutral(before: string, key: seq<StrItem>, mid: string, gap: string, value: Json,
                                           after: string, opener: char)
    requires IsSpace(before) && ValidItems(key) && IsSpace(mid) && IsSpace(gap) && Valid(value) && IsSpace(after)
    requires IsOpener(opener) && Neutral(Render(value), opener)
    ensures Neutral(before + RenderStr(key) + mid + ":" + gap + Render(value) + after, opener)
  {
    var head := before + RenderStr(key) + mid + ":" + gap;
    StringIsNeutral(key, opener);
    PaddedIsNeutral(before, RenderStr(key), mid, opener);
    PaddedIsNeutral("", before + RenderStr(key) + mid, ":", opener);
    assert "" + (before + RenderStr(key) + mid) + ":" == before + RenderStr(key) + mid + ":";
    QuietIsNeutral(gap, opener);
    NeutralConcat(before + RenderStr(key) + mid + ":", gap, opener);
    NeutralConcat(head, Render(value), opener);
    QuietIsNeutral(after, opener);
    NeutralConcat(head + Render(value), after, opener);
  }

  lemma {:induction false} MembersAreNeutral(ms: Members, opener: char)
    requires ValidMembers(ms) && IsOpener(opener)
    ensures Neutral(RenderMembers(ms), opener)
  {
    match ms
    case NoMembers(pad) => QuietIsNeutral(pad, opener);
    case LastMember(before, key, mid, gap, value, after) =>
      ValueIsNeutral(value, opener);
      MemberIsNeutral(before, key, mid, gap, value, after, opener);
    case Member(before, key, mid, gap, value, after, rest) =>
      ValueIsNeutral(value, opener);
      MemberIsNeutral(before, key, mid, gap, value, after, opener);
      MembersAreNeutral(rest, opener);
      var one := before + RenderStr(key) + mid + ":" + gap + Render(value) + after;
      QuietIsNeutral(",", opener);
      NeutralConcat(one, ",", opener);
      NeutralConcat(one + ",", RenderMembers(rest), opener);
  }

  // ----- main results --------------------------------------------------------------------------

  /** On any array or object, white space included, followed by any text whatever and preceded by
      any text whatever, the scanner stops exactly at the end of the rendering. */
  lemma ScanReturnsRendering(head: string, v: Json, tail: string)
    requires Valid(v) && (v.Arr? || v.Obj?)
    ensures var text := head + Render(v) + tail;
            ClosesFirstAt(text, |head|, |head| + |Render(v)|)
  {
    var whole := Render(v);
    var text, start, end := head + whole + tail, |head|, |head| + |whole|;
    var opener := text[start];
    var inner := if v.Arr? then RenderElems(v.elems) else RenderMembers(v.members);
    assert whole == [opener] + inner + [Closer(opener)] && IsOpener(opener);
    if v.Arr? { ElemsAreNeutral(v.elems, opener); } else { MembersAreNeutral(v.members, opener); }
    ContainerDepths(opener, inner);
    forall e | start < e <= end
      ensures text[start..e] == whole[..e - start]
    {
    }
    assert whole[..|whole|] == whole;
  }

  /** Every proper non-empty prefix of a bracketed neutral text has positive depth. */
  lemma ContainerDepths(opener: char, inner: string)
    requires IsOpener(opener) && Neutral(inner, opener)
    ensures var whole := [opener] + inner + [Closer(opener)];
            Depth(whole, opener) == 0 && forall k | 0 < k < |whole| :: Depth(whole[..k], opener) > 0
  {
    var whole, s1 := [opener] + inner + [Closer(opener)], Scan(1, "", false);
    StaysLower(s1, inner, opener, 1, 0);
    Wrapped(START, opener, inner, Closer(opener), opener, 0);
    forall k | 0 < k < |whole|
      ensures Depth(whole[..k], opener) > 0
    {
      assert whole[..k] == [opener] + inner[..k - 1];
      RunConcat(START, [opener], inner[..k - 1], opener);
      StaysAtPrefix(s1, inner, opener, 1, k - 1);
    }
  }

  /** `BalancedJsonValue` has at most one answer, so on such a text it returns the rendering. */
  lemma ClosesFirstIsUnique(text: string, start: nat, e1: nat, e2: nat)
    requires start < |text| && ClosesFirstAt(text, start, e1) && ClosesFirstAt(text, start, e2)
    ensures e1 == e2
  {
  }

  method ScanRendering(head: string, v: Json, tail: string) returns (r: Result<string, ScanError>)
    requires Valid(v) && (v.Arr? || v.Obj?)
    ensures r == Ok(Render(v))
  {
    ScanReturnsRendering(head, v, tail);
    var text := head + Render(v) + tail;
    r := BalancedJsonValue(text, |head|);
    assert text[|head|..|head| + |Render(v)|] == Render(v);
    assert IsOpener(text[|head|]) by { assert text[|head|] == Render(v)[0]; }
    forall e: nat | ClosesFirstAt(text, |head|, e)
      ensures e == |head| + |Render(v)|
    {
      ClosesFirstIsUnique(text, |head|, e, |head| + |Render(v)|);
    }
  }
}
