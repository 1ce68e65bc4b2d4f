/** Subtitle timing: the time covered by a set of cues, and the merge of repeated cues.
    Times are whole milliseconds, the resolution of the subtitle formats. */
module CueCoverage {
  import opened Wrappers
  import opened StableSort

  // ----- measure of a union of spans -----------------------------------------------------------

  datatype Span = Span(lo: int, hi: int)

  predicate SpanLe(a: Span, b: Span) {
    a.lo < b.lo || (a.lo == b.lo && a.hi <= b.hi)
  }

  function Max(a: int, b: int): int {
    if a >= b then a else b
  }

  /** The milliseconds of [lo, hi); empty when the span is inverted. */
  ghost function Ticks(lo: int, hi: int): set<int> {
    set t | lo <= t < hi && Within(lo, t, hi)
  }

  predicate Within(lo: int, t: int, hi: int) {
    lo <= t < hi
  }

  /** Every millisecond that lies in at least one span. */
  ghost function Covered(spans: seq<Span>): set<int> {
    set s, t | s in spans && t in Ticks(s.lo, s.hi) :: t
  }

  lemma {:induction false} TickCount(lo: int, hi: int)
    ensures |Ticks(lo, hi)| == Max(0, hi - lo)
    decreases hi - lo
  {
    if lo < hi {
      TickCount(lo, hi - 1);
      assert Ticks(lo, hi) == Ticks(lo, hi - 1) + {hi - 1};
    } else {
      assert Ticks(lo, hi) == {};
    }
  }

  lemma CoveredCons(s: Span, spans: seq<Span>)
    ensures Covered([s] + spans) == Ticks(s.lo, s.hi) + Covered(spans)
  {
    forall t
      ensures t in Covered([s] + spans) <==> t in Ticks(s.lo, s.hi) + Covered(spans)
    {
      if t in Covered(spans) {
        var x :| x in spans && t in Ticks(x.lo, x.hi);
        assert x in [s] + spans;
      }
      if t in Ticks(s.lo, s.hi) {
        assert s in [s] + spans;
      }
    }
  }

  lemma TicksJoin(lo: int, hi: int, lo2: int, hi2: int)
    requires lo <= lo2 <= hi
    ensures Ticks(lo, hi) + Ticks(lo2, hi2) == Ticks(lo, Max(hi, hi2))
  {
  }

  predicate Ordered(spans: seq<Span>) {
    forall i, j | 0 <= i < j < |spans| :: spans[i].lo <= spans[j].lo
  }

  /** The sweep's answer from a given point on. */
  function SweepRest(total: int, lo: int, hi: int, rest: seq<Span>): int
    decreases |rest|
  {
    if rest == [] then total + Max(0, hi - lo)
    else if rest[0].lo <= hi then SweepRest(total, lo, Max(hi, rest[0].hi), rest[1..])
    else SweepRest(total + Max(0, hi - lo), rest[0].lo, rest[0].hi, rest[1..])
  }

  lemma BlockGrows(lo: int, hi: int, rest: seq<Span>)
    requires rest != [] && lo <= rest[0].lo <= hi
    ensures Ticks(lo, hi) + Covered(rest) == Ticks(lo, Max(hi, rest[0].hi)) + Covered(rest[1..])
  {
    var s := rest[0];
    CoveredCons(s, rest[1..]);
    assert [s] + rest[1..] == rest;
    TicksJoin(lo, hi, s.lo, s.hi);
  }

  lemma BlockCloses(lo: int, hi: int, rest: seq<Span>)
    requires rest != [] && Ordered(rest) && hi < rest[0].lo
    ensures |Ticks(lo, hi) + Covered(rest)| == Max(0, hi - lo) + |Covered(rest)|
  {
    TickCount(lo, hi);
    assert Ticks(lo, hi) !! Covered(rest) by {
      forall t | t in Covered(rest)
        ensures t !in Ticks(lo, hi)
      {
        var s :| s in rest && t in Ticks(s.lo, s.hi);
        assert rest[0].lo <= s.lo;
      }
    }
  }

  lemma FirstSpan(rest: seq<Span>)
    requires rest != []
    ensures Covered(rest) == Ticks(rest[0].lo, rest[0].hi) + Covered(rest[1..])
  {
    CoveredCons(rest[0], rest[1..]);
    assert [rest[0]] + rest[1..] == rest;
  }

  /** What is still to come, the open block [lo, hi) included, is measured exactly. */
  lemma {:induction false} SweepMeasures(total: int, lo: int, hi: int, rest: seq<Span>)
    requires Ordered(rest) && (rest != [] ==> lo <= rest[0].lo)
    ensures SweepRest(total, lo, hi, rest) == total + |Ticks(lo, hi) + Covered(rest)|
    decreases |rest|
  {
    if rest == [] {
      TickCount(lo, hi);
      assert Ticks(lo, hi) + Covered(rest) == Ticks(lo, hi);
    } else if rest[0].lo <= hi {
      BlockGrows(lo, hi, rest);
      SweepMeasures(total, lo, Max(hi, rest[0].hi), rest[1..]);
    } else {
      BlockCloses(lo, hi, rest);
      FirstSpan(rest);
      SweepMeasures(total + Max(0, hi - lo), rest[0].lo, rest[0].hi, rest[1..]);
    }
  }

  method Sweep(ordered: seq<Span>) returns (total: int)
    requires ordered != []
    ensures total == SweepRest(0, ordered[0].lo, ordered[0].hi, ordered[1..])
  {
    total := 0;
    var currentStart, currentEnd := ordered[0].lo, ordered[0].hi;
    var i := 1;
    while i < |ordered|
      invariant 1 <= i <= |ordered|
      invariant SweepRest(0, ordered[0].lo, ordered[0].hi, ordered[1..])
             == SweepRest(total, currentStart, currentEnd, ordered[i..])
    {
      var start, end := ordered[i].lo, ordered[i].hi;
      assert ordered[i..][0] == ordered[i] && ordered[i..][1..] == ordered[i + 1..];
      if start <= currentEnd {
        currentEnd := Max(currentEnd, end);
      } else {
        total := total + Max(0, currentEnd - currentStart);
        currentStart, currentEnd := start, end;
      }
      i := i + 1;
    }
    total := total + Max(0, currentEnd - currentStart);
  }

  lemma SortedSpans(ranges: seq<Span>)
    ensures Ordered(Sorted(ranges, SpanLe))
    ensures Covered(Sorted(ranges, SpanLe)) == Covered(ranges)
    ensures Sorted(ranges, SpanLe) == [] ==> Covered(ranges) == {}
  {
    SortedSorts(ranges, SpanLe);
    SortedKeeps(ranges, SpanLe);
    var ordered := Sorted(ranges, SpanLe);
    forall i, j | 0 <= i < j < |ordered|
      ensures ordered[i].lo <= ordered[j].lo
    {
      assert SpanLe(ordered[i], ordered[j]);
    }
  }

  /** The sort and the sweep compute the measure of the union, for any list of spans in any order,
      inverted spans included. */
  method UnionDuration(ranges: seq<Span>) returns (total: int)
    ensures total == |Covered(ranges)|
  {
    var ordered := Sorted(ranges, SpanLe);
    SortedSpans(ranges);
    if ordered == [] {
      return 0;
    }
    total := Sweep(ordered);
    SweepMeasures(0, ordered[0].lo, ordered[0].hi, ordered[1..]);
    FirstSpan(ordered);
  }

  /** Without a media duration the quality ratio divides by the largest end: it never exceeds one. */
  lemma CoverageWithinLargestEnd(spans: seq<Span>, largest: int)
    requires spans != []
    requires forall s | s in spans :: 0 <= s.lo <= s.hi <= largest
    ensures |Covered(spans)| <= largest
  {
    TickCount(0, largest);
    assert Covered(spans) <= Ticks(0, largest);
    Subset(Covered(spans), Ticks(0, largest));
    assert spans[0] in spans;
  }

  lemma {:induction false} Subset(a: set<int>, b: set<int>)
    requires a <= b
    ensures |a| <= |b|
  {
    assert b == a + (b - a);
  }

  // ----- merging repeated cues -----------------------------------------------------------------

  datatype Cue = Cue(start: int, end: int, text: string, language: string, provider: string,
                     confidence: Option<real>, provenance: string)

  /** The two library-dependent text functions: the clean-up the cue constructor runs on its text, and
      case folding. */
  datatype TextOps = TextOps(clean: string -> string, fold: string -> string)

  datatype TranscriptError = NotMonotonic | TextEmpty | SegmentTooLarge

  /** `next` repeats `last`: same folded text and origin, starting before `last` has ended. */
  predicate Repeats(last: Cue, next: Cue, ops: TextOps) {
    && ops.fold(next.text) == ops.fold(last.text)
    && next.language == last.language
    && next.provider == last.provider
    && next.provenance == last.provenance
    && next.start <= last.end
  }

  /** `last` extended to cover `next`; building the new cue cleans the text again. */
  function Extended(last: Cue, next: Cue, ops: TextOps): Result<Cue, TranscriptError> {
    var cleaned := ops.clean(last.text);
    if cleaned == "" then Err(TextEmpty)
    else if |cleaned| > 20_000 then Err(SegmentTooLarge)
    else Ok(last.(end := Max(last.end, next.end), text := cleaned))
  }

  function Accept(result: seq<Cue>, next: Cue, ops: TextOps): Result<seq<Cue>, TranscriptError> {
    var n := |result| - 1;
    if result != [] && next.start < result[n].start then Err(NotMonotonic)
    else if result != [] && Repeats(result[n], next, ops) then
      match Extended(result[n], next, ops)
      case Ok(cue) => Ok(result[..n] + [cue])
      case Err(e) => Err(e)
    else Ok(result + [next])
  }

  function Normalized(result: seq<Cue>, cues: seq<Cue>, ops: TextOps): Result<seq<Cue>, TranscriptError>
    decreases |cues|
  {
    if cues == [] then Ok(result)
    else match Accept(result, cues[0], ops)
      case Ok(more) => Normalized(more, cues[1..], ops)
      case Err(e) => Err(e)
  }

  method NormalizeSegments(segments: seq<Cue>, ops: TextOps) returns (r: Result<seq<Cue>, TranscriptError>)
    ensures r == Normalized([], segments, ops)
  {
    var result: seq<Cue> := [];
    var i := 0;
    while i < |segments|
      invariant 0 <= i <= |segments|
      invariant Normalized([], segments, ops) == Normalized(result, segments[i..], ops)
    {
      var segment := segments[i];
      assert segments[i..][0] == segment && segments[i..][1..] == segments[i + 1..];
      if result != [] && segment.start < result[|result| - 1].start {
        return Err(NotMonotonic);
      }
      if result != [] && Repeats(result[|result| - 1], segment, ops) {
        var previous := result[|result| - 1];
        var cleaned := ops.clean(previous.text);
        if cleaned == "" {
          return Err(TextEmpty);
        } else if |cleaned| > 20_000 {
          return Err(SegmentTooLarge);
        }
        result := result[..|result| - 1] + [previous.(end := Max(previous.end, segment.end), text := cleaned)];
      } else {
        result := result + [segment];
      }
      i := i + 1;
    }
    return Ok(result);
  }

  function Spans(cues: seq<Cue>): (spans: seq<Span>)
    ensures |spans| == |cues| && forall i | 0 <= i < |cues| :: spans[i] == Span(cues[i].start, cues[i].end)
  {
    seq(|cues|, i requires 0 <= i < |cues| => Span(cues[i].start, cues[i].end))
  }

  // ----- normal form ---------------------------------------------------------------------------

  predicate StartsInOrder(cues: seq<Cue>) {
    forall i, j | 0 <= i < j < |cues| :: cues[i].start <= cues[j].start
  }

  /** Where a cue comes from. */
  datatype Origin = Origin(language: string, provider: string, provenance: string)

  function OriginOf(c: Cue): Origin {
    Origin(c.language, c.provider, c.provenance)
  }

  /** The same words from the same source, starting before those before them have ended. */
  predicate SaysAgain(last: Cue, next: Cue, ops: TextOps) {
    ops.fold(next.text) == ops.fold(last.text) && OriginOf(next) == OriginOf(last) && next.start <= last.end
  }

  predicate NoRepeats(cues: seq<Cue>, ops: TextOps) {
    forall i | 0 < i < |cues| :: !SaysAgain(cues[i - 1], cues[i], ops)
  }

  predicate IsText(text: string) {
    0 < |text| <= 20_000
  }

  /** All texts of the list belong to the family. */
  ghost predicate TextsIn(cues: seq<Cue>, texts: iset<string>) {
    forall i | 0 <= i < |cues| :: cues[i].text in texts
  }

  /** Cleaning a text of the family gives one of the family, or no text at all. */
  ghost predicate CleanClosed(texts: iset<string>, ops: TextOps) {
    forall t | t in texts && IsText(ops.clean(t)) :: ops.clean(t) in texts
  }

  /** Cleaning a text of the family once more never changes what it folds to. */
  ghost predicate FoldStable(texts: iset<string>, ops: TextOps) {
    forall t | t in texts && IsText(ops.clean(t)) :: ops.fold(ops.clean(t)) == ops.fold(t)
  }

  lemma AcceptKeepsOrder(result: seq<Cue>, next: Cue, ops: TextOps)
    requires Accept(result, next, ops).Ok? && StartsInOrder(result)
    ensures StartsInOrder(Accept(result, next, ops).value)
  {
    if result != [] && !Repeats(result[|result| - 1], next, ops) {
      forall i | 0 <= i < |result|
        ensures result[i].start <= next.start
      {
        assert result[i].start <= result[|result| - 1].start;
      }
    }
  }

  /** Whatever the clean-up does, accepted output starts in order. */
  lemma {:induction false} NormalizedInOrder(result: seq<Cue>, cues: seq<Cue>, ops: TextOps)
    requires Normalized(result, cues, ops).Ok? && StartsInOrder(result)
    ensures StartsInOrder(Normalized(result, cues, ops).value)
    decreases |cues|
  {
    if cues != [] {
      AcceptKeepsOrder(result, cues[0], ops);
      NormalizedInOrder(Accept(result, cues[0], ops).value, cues[1..], ops);
    }
  }

  lemma AcceptKeepsNoRepeats(result: seq<Cue>, next: Cue, texts: iset<string>, ops: TextOps)
    requires Accept(result, next, ops).Ok? && NoRepeats(result, ops)
    requires CleanClosed(texts, ops) && FoldStable(texts, ops) && TextsIn(result, texts) && next.text in texts
    ensures NoRepeats(Accept(result, next, ops).value, ops) && TextsIn(Accept(result, next, ops).value, texts)
  {
    if result != [] {
      var last := result[|result| - 1];
      if Repeats(last, next, ops) {
        assert ops.clean(last.text) in texts;
        assert ops.fold(ops.clean(last.text)) == ops.fold(last.text);
      }
    }
  }

  lemma {:induction false} NormalizedNoRepeats(result: seq<Cue>, cues: seq<Cue>, texts: iset<string>, ops: TextOps)
    requires Normalized(result, cues, ops).Ok? && NoRepeats(result, ops)
    requires CleanClosed(texts, ops) && FoldStable(texts, ops) && TextsIn(result, texts) && TextsIn(cues, texts)
    ensures NoRepeats(Normalized(result, cues, ops).value, ops)
    decreases |cues|
  {
    if cues != [] {
      assert forall i | 0 <= i < |cues[1..]| :: cues[1..][i] == cues[i + 1];
      AcceptKeepsNoRepeats(result, cues[0], texts, ops);
      NormalizedNoRepeats(Accept(result, cues[0], ops).value, cues[1..], texts, ops);
    }
  }

  lemma {:induction false} NormalFormPasses(result: seq<Cue>, cues: seq<Cue>, ops: TextOps)
    requires StartsInOrder(result + cues) && NoRepeats(result + cues, ops)
    ensures Normalized(result, cues, ops) == Ok(result + cues)
    decreases |cues|
  {
    if cues == [] {
      assert result + cues == result;
    } else {
      var all, n := result + cues, |result|;
      assert all[n] == cues[0] && (n > 0 ==> all[n - 1] == result[n - 1]);
      assert n > 0 ==> all[n - 1].start <= all[n].start && !Repeats(all[n - 1], all[n], ops);
      assert Accept(result, cues[0], ops) == Ok(result + [cues[0]]);
      assert result + [cues[0]] + cues[1..] == all;
      NormalFormPasses(result + [cues[0]], cues[1..], ops);
    }
  }

  lemma {:induction false} NormalizedLength(result: seq<Cue>, cues: seq<Cue>, ops: TextOps)
    requires Normalized(result, cues, ops).Ok?
    ensures |Normalized(result, cues, ops).value| <= |result| + |cues|
    decreases |cues|
  {
    if cues != [] {
      NormalizedLength(Accept(result, cues[0], ops).value, cues[1..], ops);
    }
  }

  lemma {:induction false} UnmergedIsNormalForm(result: seq<Cue>, cues: seq<Cue>, ops: TextOps)
    requires Normalized(result, cues, ops).Ok?
    requires |Normalized(result, cues, ops).value| == |result| + |cues|
    requires StartsInOrder(result) && NoRepeats(result, ops)
    ensures StartsInOrder(result + cues) && NoRepeats(result + cues, ops)
    decreases |cues|
  {
    if cues == [] {
      assert result + cues == result;
    } else {
      var more := Accept(result, cues[0], ops).value;
      NormalizedLength(more, cues[1..], ops);
      assert more == result + [cues[0]];
      AcceptKeepsOrder(result, cues[0], ops);
      UnmergedIsNormalForm(more, cues[1..], ops);
      assert more + cues[1..] == result + cues;
    }
  }

  /** The fixed points: exactly the cue lists in order without an adjacent repetition. */
  lemma NormalizeFixedPoints(cues: seq<Cue>, ops: TextOps)
    ensures Normalized([], cues, ops) == Ok(cues) <==> StartsInOrder(cues) && NoRepeats(cues, ops)
  {
    assert [] + cues == cues;
    if StartsInOrder(cues) && NoRepeats(cues, ops) {
      NormalFormPasses([], cues, ops);
    }
    if Normalized([], cues, ops) == Ok(cues) {
      UnmergedIsNormalForm([], cues, ops);
    }
  }

  ghost predicate NormalizesOnce(cues: seq<Cue>, ops: TextOps) {
    Normalized([], cues, ops).Ok? ==>
      Normalized([], Normalized([], cues, ops).value, ops) == Normalized([], cues, ops)
  }

  /** Normalizing twice is normalizing once, for every list with texts of a family closed under cleaning,
      exactly when cleaning a text of the family again never changes its folding. */
  lemma NormalizeIdempotentIff(texts: iset<string>, ops: TextOps)
    requires CleanClosed(texts, ops)
    ensures FoldStable(texts, ops) <==> forall cues | TextsIn(cues, texts) :: NormalizesOnce(cues, ops)
  {
    if FoldStable(texts, ops) {
      forall cues | TextsIn(cues, texts)
        ensures NormalizesOnce(cues, ops)
      {
        StableNormalizesOnce(cues, texts, ops);
      }
    } else {
      var t :| t in texts && IsText(ops.clean(t)) && ops.fold(ops.clean(t)) != ops.fold(t);
      RecleanedTextBreaks(t, ops);
      var c := Plain(t);
      assert TextsIn([c.(text := ops.clean(t)), c, c], texts);
    }
  }

  lemma StableNormalizesOnce(cues: seq<Cue>, texts: iset<string>, ops: TextOps)
    requires CleanClosed(texts, ops) && FoldStable(texts, ops) && TextsIn(cues, texts)
    ensures NormalizesOnce(cues, ops)
  {
    if Normalized([], cues, ops).Ok? {
      NormalizedInOrder([], cues, ops);
      NormalizedNoRepeats([], cues, texts, ops);
      NormalizeFixedPoints(Normalized([], cues, ops).value, ops);
    }
  }

  function Plain(t: string): Cue {
    Cue(0, 10, t, "en", "p", None, "subtitle")
  }

  /** Every text whose folding changes has a failing list: a repetition of it next to its cleaned form.
      (Entities are decoded one level at a time, so there are such texts.) */
  lemma RecleanedTextBreaks(t: string, ops: TextOps)
    requires IsText(ops.clean(t)) && ops.fold(ops.clean(t)) != ops.fold(t)
    ensures !NormalizesOnce([Plain(t).(text := ops.clean(t)), Plain(t), Plain(t)], ops)
  {
    var c := Plain(t);
    var plain := c.(text := ops.clean(t));
    var out := [plain, plain];
    assert Accept([], plain, ops) == Ok([plain]) by { assert [] + [plain] == [plain]; }
    assert [plain] + [c] == [plain, c];
    assert Accept([plain], c, ops) == Ok([plain, c]);
    assert Accept([plain, c], c, ops) == Ok(out) by { assert [plain, c][..1] + [plain] == out; }
    NormalizedThree(plain, c, c, ops);
    assert Normalized([], [plain, c, c], ops) == Ok(out);
    assert SaysAgain(out[0], out[1], ops);
    NormalizeFixedPoints(out, ops);
  }

  /** A text cleaned `n` more times. */
  function Recleaned(t: string, n: nat, ops: TextOps): string {
    if n == 0 then t else ops.clean(Recleaned(t, n - 1, ops))
  }

  /** Everything that cleaning again and again makes of the list's own texts. */
  ghost function Recleanings(cues: seq<Cue>, ops: TextOps): iset<string> {
    iset i, n: nat | 0 <= i < |cues| :: Recleaned(cues[i].text, n, ops)
  }

  lemma RecleaningsAreClosed(cues: seq<Cue>, ops: TextOps)
    ensures CleanClosed(Recleanings(cues, ops), ops) && TextsIn(cues, Recleanings(cues, ops))
  {
    forall t | t in Recleanings(cues, ops)
      ensures ops.clean(t) in Recleanings(cues, ops)
    {
      var i, n: nat :| 0 <= i < |cues| && t == Recleaned(cues[i].text, n, ops);
      assert ops.clean(t) == Recleaned(cues[i].text, n + 1, ops);
    }
    forall i | 0 <= i < |cues|
      ensures cues[i].text in Recleanings(cues, ops)
    {
      assert cues[i].text == Recleaned(cues[i].text, 0, ops);
    }
  }

  /** For one list: when no re-cleaning of its own texts changes a folding, it normalizes once; and when
      one does, some list of such texts does not. */
  lemma ListNormalizesOnce(cues: seq<Cue>, ops: TextOps)
    ensures FoldStable(Recleanings(cues, ops), ops) ==> NormalizesOnce(cues, ops)
    ensures FoldStable(Recleanings(cues, ops), ops)
            <==> forall others | TextsIn(others, Recleanings(cues, ops)) :: NormalizesOnce(others, ops)
  {
    RecleaningsAreClosed(cues, ops);
    NormalizeIdempotentIff(Recleanings(cues, ops), ops);
  }

  lemma NormalizedThree(a: Cue, b: Cue, c: Cue, ops: TextOps)
    requires Accept([], a, ops).Ok? && Accept(Accept([], a, ops).value, b, ops).Ok?
    ensures Normalized([], [a, b, c], ops) == Accept(Accept(Accept([], a, ops).value, b, ops).value, c, ops)
  {
    var r1 := Accept([], a, ops).value;
    var r2 := Accept(r1, b, ops).value;
    assert [a, b, c][1..] == [b, c] && [b, c][1..] == [c] && [c][1..] == [];
    assert Normalized([], [a, b, c], ops) == Normalized(r1, [b, c], ops);
    assert Normalized(r1, [b, c], ops) == Normalized(r2, [c], ops);
    if Accept(r2, c, ops).Ok? {
      assert Normalized(r2, [c], ops) == Normalized(Accept(r2, c, ops).value, [], ops);
    }
  }

  // ----- what is merged ------------------------------------------------------------------------

  /** The milliseconds covered by the cues of one kind. */
  ghost function TimeWhere(cues: seq<Cue>, which: Cue -> bool): set<int> {
    set c, t | c in cues && which(c) && t in Ticks(c.start, c.end) :: t
  }

  lemma TimeWhereSnoc(cues: seq<Cue>, c: Cue, which: Cue -> bool)
    ensures TimeWhere(cues + [c], which) == TimeWhere(cues, which) + (if which(c) then Ticks(c.start, c.end) else {})
  {
    var all := cues + [c];
    forall t
      ensures t in TimeWhere(all, which)
              <==> t in TimeWhere(cues, which) + (if which(c) then Ticks(c.start, c.end) else {})
    {
      if t in TimeWhere(cues, which) {
        var x :| x in cues && which(x) && t in Ticks(x.start, x.end);
        assert x in all;
      }
      if which(c) && t in Ticks(c.start, c.end) {
        assert c in all;
      }
    }
  }

  /** Merging two cues of one kind into one of that kind keeps the time of every kind. */
  lemma AcceptKeepsWhere(result: seq<Cue>, next: Cue, ops: TextOps, which: Cue -> bool)
    requires Accept(result, next, ops).Ok?
    requires var n := |result| - 1;
             result != [] && Repeats(result[n], next, ops) ==>
               which(result[n]) == which(next) == which(Extended(result[n], next, ops).value)
    ensures TimeWhere(Accept(result, next, ops).value, which) == TimeWhere(result + [next], which)
  {
    var n := |result| - 1;
    TimeWhereSnoc(result, next, which);
    if result != [] && Repeats(result[n], next, ops) {
      var last := result[n];
      TimeWhereSnoc(result[..n], last, which);
      assert result[..n] + [last] == result;
      TimeWhereSnoc(result[..n], Extended(last, next, ops).value, which);
      TicksJoin(last.start, last.end, next.start, next.end);
    }
  }

  /** Merging repeated cues leaves the covered time exactly as it was, and hence its duration. */
  lemma NormalizePreservesCoverage(cues: seq<Cue>, ops: TextOps)
    requires Normalized([], cues, ops).Ok?
    ensures Covered(Spans(Normalized([], cues, ops).value)) == Covered(Spans(cues))
  {
    AnyCue(cues);
    AnyCue(Normalized([], cues, ops).value);
    NormalizeKeepsTime(cues, ops);
  }

  lemma AnyCue(cues: seq<Cue>)
    ensures Covered(Spans(cues)) == TimeWhere(cues, (c: Cue) => true)
  {
    var spans := Spans(cues);
    forall t
      ensures t in Covered(spans) <==> t in TimeWhere(cues, (c: Cue) => true)
    {
      if t in Covered(spans) {
        var s :| s in spans && t in Ticks(s.lo, s.hi);
        var i :| 0 <= i < |spans| && spans[i] == s;
        assert cues[i] in cues;
      }
      if t in TimeWhere(cues, (c: Cue) => true) {
        var c :| c in cues && t in Ticks(c.start, c.end);
        var i :| 0 <= i < |cues| && cues[i] == c;
        assert spans[i] in spans;
      }
    }
  }

  lemma {:induction false} NormalizeKeepsTime(cues: seq<Cue>, ops: TextOps)
    requires Normalized([], cues, ops).Ok?
    ensures TimeWhere(Normalized([], cues, ops).value, (c: Cue) => true) == TimeWhere(cues, (c: Cue) => true)
    decreases |cues|
  {
    var which := (c: Cue) => true;
    if cues != [] {
      var front, last := cues[..|cues| - 1], cues[|cues| - 1];
      assert cues == front + [last];
      NormalizedSnoc([], front, last, ops);
      NormalizeKeepsTime(front, ops);
      AcceptKeepsWhere(Normalized([], front, ops).value, last, ops, which);
      TimeWhereSnoc(Normalized([], front, ops).value, last, which);
      TimeWhereSnoc(front, last, which);
    }
  }

  /** For every origin, its cues cover the same time after the merge as before. */
  lemma {:induction false} NormalizeKeepsOrigins(cues: seq<Cue>, ops: TextOps, origin: Origin)
    requires Normalized([], cues, ops).Ok?
    ensures var which := (c: Cue) => OriginOf(c) == origin;
            TimeWhere(Normalized([], cues, ops).value, which) == TimeWhere(cues, which)
    decreases |cues|
  {
    var which := (c: Cue) => OriginOf(c) == origin;
    if cues != [] {
      var front, last := cues[..|cues| - 1], cues[|cues| - 1];
      assert cues == front + [last];
      NormalizedSnoc([], front, last, ops);
      NormalizeKeepsOrigins(front, ops, origin);
      AcceptKeepsWhere(Normalized([], front, ops).value, last, ops, which);
      TimeWhereSnoc(Normalized([], front, ops).value, last, which);
      TimeWhereSnoc(front, last, which);
    }
  }

  /** And for every folded text of every origin, where cleaning never changes a folding. */
  lemma {:induction false} NormalizeKeepsWords(cues: seq<Cue>, texts: iset<string>, ops: TextOps, origin: Origin,
                                               words: string)
    requires Normalized([], cues, ops).Ok? && CleanClosed(texts, ops) && FoldStable(texts, ops) && TextsIn(cues, texts)
    ensures var which := (c: Cue) => OriginOf(c) == origin && ops.fold(c.text) == words;
            TimeWhere(Normalized([], cues, ops).value, which) == TimeWhere(cues, which)
    ensures TextsIn(Normalized([], cues, ops).value, texts)
    decreases |cues|
  {
    var which := (c: Cue) => OriginOf(c) == origin && ops.fold(c.text) == words;
    if cues != [] {
      var front, last := cues[..|cues| - 1], cues[|cues| - 1];
      assert cues == front + [last];
      NormalizedSnoc([], front, last, ops);
      NormalizeKeepsWords(front, texts, ops, origin, words);
      var kept := Normalized([], front, ops).value;
      assert kept != [] ==> kept[|kept| - 1].text in texts;
      AcceptKeepsWhere(kept, last, ops, which);
      TimeWhereSnoc(kept, last, which);
      TimeWhereSnoc(front, last, which);
    }
  }

  /** `kept` is `c`, but for a later end and a text cleaned again. */
  predicate ComesFrom(kept: Cue, c: Cue) {
    kept == c.(end := kept.end, text := kept.text) && kept.end >= c.end
  }

  lemma AcceptedComeFrom(result: seq<Cue>, next: Cue, ops: TextOps)
    requires Accept(result, next, ops).Ok?
    ensures forall k | k in Accept(result, next, ops).value ::
              k in result || k == next || (result != [] && ComesFrom(k, result[|result| - 1]))
  {
  }

  /** Every kept cue is one of the list, but for its end and a text cleaned again. */
  lemma {:induction false} KeptAreCues(cues: seq<Cue>, ops: TextOps)
    requires Normalized([], cues, ops).Ok?
    ensures forall k | k in Normalized([], cues, ops).value :: exists c :: c in cues && ComesFrom(k, c)
    decreases |cues|
  {
    if cues != [] {
      var front, last := cues[..|cues| - 1], cues[|cues| - 1];
      assert cues == front + [last];
      NormalizedSnoc([], front, last, ops);
      KeptAreCues(front, ops);
      var kept := Normalized([], front, ops).value;
      AcceptedComeFrom(kept, last, ops);
      forall k | k in Normalized([], cues, ops).value
        ensures exists c :: c in cues && ComesFrom(k, c)
      {
        if k == last {
          assert last in cues && ComesFrom(k, last);
        } else {
          var held := if k in kept then k else kept[|kept| - 1];
          assert held in kept;
          var c :| c in front && ComesFrom(held, c);
          assert c in cues && ComesFrom(k, c);
        }
      }
    }
  }

  // ----- what is accepted ----------------------------------------------------------------------

  lemma {:induction false} SortedInputAccepted(result: seq<Cue>, cues: seq<Cue>, ops: TextOps)
    requires StartsInOrder(cues)
    requires result != [] && cues != [] ==> result[|result| - 1].start <= cues[0].start
    ensures Normalized(result, cues, ops) != Err(NotMonotonic)
    decreases |cues|
  {
    if cues != [] && Accept(result, cues[0], ops).Ok? {
      var more := Accept(result, cues[0], ops).value;
      assert more[|more| - 1].start <= cues[0].start;
      SortedInputAccepted(more, cues[1..], ops);
    }
  }

  /** Where no cue repeats the one before it, exactly the lists in order are accepted. */
  lemma UnrepeatedAcceptedIff(cues: seq<Cue>, ops: TextOps)
    requires NoRepeats(cues, ops)
    ensures Normalized([], cues, ops).Ok? <==> StartsInOrder(cues)
  {
    if Normalized([], cues, ops).Ok? {
      UnrepeatedKeepsAll([], cues, ops);
      UnmergedIsNormalForm([], cues, ops);
    } else if StartsInOrder(cues) {
      NormalizeFixedPoints(cues, ops);
    }
    assert [] + cues == cues;
  }

  lemma {:induction false} UnrepeatedKeepsAll(result: seq<Cue>, cues: seq<Cue>, ops: TextOps)
    requires Normalized(result, cues, ops).Ok? && NoRepeats(result + cues, ops)
    ensures |Normalized(result, cues, ops).value| == |result| + |cues|
    decreases |cues|
  {
    if cues != [] {
      var all, n := result + cues, |result|;
      assert all[n] == cues[0] && (n > 0 ==> all[n - 1] == result[n - 1]);
      assert n > 0 ==> !Repeats(all[n - 1], all[n], ops);
      assert result + [cues[0]] + cues[1..] == all;
      UnrepeatedKeepsAll(result + [cues[0]], cues[1..], ops);
    }
  }

  lemma {:induction false} NormalizedSnoc(result: seq<Cue>, cues: seq<Cue>, c: Cue, ops: TextOps)
    ensures Normalized(result, cues + [c], ops)
            == match Normalized(result, cues, ops)
               case Ok(kept) => Accept(kept, c, ops)
               case Err(e) => Err(e)
    decreases |cues|
  {
    if cues == [] {
      assert cues + [c] == [c] && [c][1..] == [];
      assert Normalized(result, [c], ops)
          == match Accept(result, c, ops) case Ok(more) => Normalized(more, [], ops) case Err(e) => Err(e);
    } else {
      assert (cues + [c])[1..] == cues[1..] + [c];
      if Accept(result, cues[0], ops).Ok? {
        NormalizedSnoc(Accept(result, cues[0], ops).value, cues[1..], c, ops);
      }
    }
  }

  /** The last kept cue starts no later than the last one read. */
  lemma {:induction false} LastKeptStarts(cues: seq<Cue>, ops: TextOps)
    requires cues != [] && Normalized([], cues, ops).Ok?
    ensures var kept := Normalized([], cues, ops).value;
            kept != [] && kept[|kept| - 1].start <= cues[|cues| - 1].start
  {
    var n := |cues| - 1;
    assert cues == cues[..n] + [cues[n]];
    NormalizedSnoc([], cues[..n], cues[n], ops);
  }

  /** A cue that stands apart from `last` whenever it starts. */
  function Apart(last: Cue, start: int): Cue {
    last.(start := start, end := start, language := last.language + "-")
  }

  /** What is accepted next starts no earlier than the last kept cue, and something that starts with it is. */
  lemma NextAccepted(cues: seq<Cue>, ops: TextOps)
    requires cues != [] && Normalized([], cues, ops).Ok? && Normalized([], cues, ops).value != []
    ensures var kept := Normalized([], cues, ops).value;
            var held := kept[|kept| - 1];
            && (forall c: Cue | Normalized([], cues + [c], ops).Ok? :: held.start <= c.start)
            && Normalized([], cues + [Apart(held, held.start)], ops).Ok?
  {
    var kept := Normalized([], cues, ops).value;
    var held := kept[|kept| - 1];
    var apart := Apart(held, held.start);
    forall c: Cue | Normalized([], cues + [c], ops).Ok?
      ensures held.start <= c.start
    {
      NormalizedSnoc([], cues, c, ops);
    }
    NormalizedSnoc([], cues, apart, ops);
    assert |apart.language| != |held.language|;
  }

  /** After an accepted list in order, some cue that steps back is still accepted, exactly when the last cue
      was merged into one that started strictly before it. */
  lemma HiddenStepIff(cues: seq<Cue>, ops: TextOps)
    requires cues != [] && StartsInOrder(cues) && Normalized([], cues, ops).Ok?
    ensures var kept := Normalized([], cues, ops).value;
            kept != [] && ((exists c :: Normalized([], cues + [c], ops).Ok? && !StartsInOrder(cues + [c]))
                           <==> kept[|kept| - 1].start < cues[|cues| - 1].start)
  {
    LastKeptStarts(cues, ops);
    NextAccepted(cues, ops);
    var kept, last := Normalized([], cues, ops).value, cues[|cues| - 1];
    var held := kept[|kept| - 1];
    if held.start < last.start {
      OneMoreInOrder(cues, Apart(held, held.start));
      assert !StartsInOrder(cues + [Apart(held, held.start)]);
    } else {
      forall c: Cue | Normalized([], cues + [c], ops).Ok?
        ensures StartsInOrder(cues + [c])
      {
        OneMoreInOrder(cues, c);
      }
    }
  }

  lemma OneMoreInOrder(cues: seq<Cue>, c: Cue)
    requires cues != [] && StartsInOrder(cues)
    ensures StartsInOrder(cues + [c]) <==> cues[|cues| - 1].start <= c.start
  {
    var all, n := cues + [c], |cues|;
    assert all[n - 1] == cues[n - 1] && all[n] == c;
    if cues[n - 1].start <= c.start {
      forall i, j | 0 <= i < j < |all|
        ensures all[i].start <= all[j].start
      {
        assert i < n - 1 ==> cues[i].start <= cues[n - 1].start;
      }
    }
  }

  /** For a cue and its repetition: a later step back behind the repetition can be accepted, exactly when the
      repetition started strictly later. */
  lemma MergeHidesIff(a: Cue, b: Cue, ops: TextOps)
    requires a.start <= b.start && SaysAgain(a, b, ops) && IsText(ops.clean(a.text))
    ensures a.start < b.start
            <==> exists c: Cue :: c.start < b.start && Normalized([], [a, b] + [c], ops).Ok?
  {
    var pair, merged := [a, b], Extended(a, b, ops).value;
    assert [] + [a] == [a] && [a][..0] + [merged] == [merged];
    assert pair[1..] == [b] && [b][1..] == [];
    assert Accept([], a, ops) == Ok([a]);
    assert Accept([a], b, ops) == Ok([merged]);
    assert Normalized([a], [b], ops) == Ok([merged]);
    assert Normalized([], pair, ops) == Ok([merged]);
    HiddenStepIff(pair, ops);
    forall c: Cue
      ensures StartsInOrder(pair + [c]) <==> b.start <= c.start
    {
      OneMoreInOrder(pair, c);
    }
  }

  /** In general the converse fails: a cue absorbed by its predecessor hides a later step back in time. */
  lemma AcceptedOutOfOrder()
    ensures exists cues, ops: TextOps :: Normalized([], cues, ops).Ok? && !StartsInOrder(cues)
  {
    var ops := TextOps((t: string) => t, (t: string) => t);
    var a := Cue(0, 10, "a", "en", "p", None, "subtitle");
    var late, early := a.(start := 8), a.(start := 3);
    var cues := [a, late, early];
    assert cues[1].start > cues[2].start;
    assert Accept([], a, ops) == Ok([a]) by { assert [] + [a] == [a]; }
    assert [a][..0] + [a] == [a];
    NormalizedThree(a, late, early, ops);
  }
}
