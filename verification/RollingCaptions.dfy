/** Compaction of rolling captions: consecutive automatic cues repeat a growing phrase, and only the
    new words are kept.  Text is a list of words; `fold` stands for the stripping and case folding
    that makes two words comparable (the empty token marks a word of punctuation only), and `clean`
    for the clean-up every new cue applies to its text, here as a function on words. */
module RollingCaptions {
  import opened Wrappers

  type Token = string

  /** Times in milliseconds. */
  datatype Cue = Cue(start: int, end: int, words: seq<string>, language: string, provider: string,
                     provenance: string)

  datatype Settings = Settings(fold: string -> Token, clean: seq<string> -> seq<string>, maxGap: int, lookback: int)

  datatype CompactError = GapOutOfRange | LookbackOutOfRange | TextEmpty | SegmentTooLarge

  const OVERLAP_MARK := ":rolling_overlap_removed"

  function Tokens(words: seq<string>, fold: string -> Token): (tokens: seq<Token>)
    ensures |tokens| == |words| && forall i | 0 <= i < |words| :: tokens[i] == fold(words[i])
  {
    seq(|words|, i requires 0 <= i < |words| => fold(words[i]))
  }

  // ----- overlap -------------------------------------------------------------------------------

  function Least(a: int, b: int): int {
    if a <= b then a else b
  }

  /** The first `count` tokens of the cue repeat the last `count` of the tail, all of them words. */
  predicate Admissible(tail: seq<Token>, tokens: seq<Token>, lookback: int, count: int) {
    && 2 <= count <= Least(Least(|tokens|, |tail|), lookback)
    && (forall i | 0 <= i < count :: tokens[i] != "")
    && tail[|tail| - count..] == tokens[..count]
  }

  /** The largest admissible overlap of at most `count` words, 0 if there is none. */
  function OverlapUpTo(tail: seq<Token>, tokens: seq<Token>, lookback: int, count: int): (overlap: nat)
    ensures overlap == 0 || (overlap <= count && Admissible(tail, tokens, lookback, overlap))
    ensures forall c | overlap < c <= count :: !Admissible(tail, tokens, lookback, c)
    decreases count
  {
    if count < 2 then 0
    else if Admissible(tail, tokens, lookback, count) then count
    else OverlapUpTo(tail, tokens, lookback, count - 1)
  }

  function Overlap(tail: seq<Token>, tokens: seq<Token>, lookback: int): (overlap: nat)
    ensures overlap == 0 || Admissible(tail, tokens, lookback, overlap)
    ensures forall c :: Admissible(tail, tokens, lookback, c) ==> c <= overlap
  {
    OverlapUpTo(tail, tokens, lookback, Least(Least(|tokens|, |tail|), lookback))
  }

  method FindOverlap(tail: seq<Token>, tokens: seq<Token>, lookback: int) returns (overlap: nat)
    ensures overlap == Overlap(tail, tokens, lookback)
  {
    overlap := 0;
    if |tokens| >= 2 && |tail| >= 2 {
      var count := Least(Least(|tokens|, |tail|), lookback);
      while count > 1
        invariant count <= Least(Least(|tokens|, |tail|), lookback)
        invariant Overlap(tail, tokens, lookback) == OverlapUpTo(tail, tokens, lookback, count)
      {
        if (forall i | 0 <= i < count :: tokens[i] != "") && tail[|tail| - count..] == tokens[..count] {
          return count;
        }
        count := count - 1;
      }
    }
  }

  // ----- the compactor -------------------------------------------------------------------------

  datatype State = State(output: seq<Cue>, tail: seq<Token>, previous: Option<Cue>)

  const START := State([], [], None)

  predicate Adjacent(previous: Option<Cue>, cue: Cue, p: Settings) {
    && previous.Some?
    && previous.value.start <= cue.start <= previous.value.end + p.maxGap
    && cue.language == previous.value.language
    && cue.provider == previous.value.provider
  }

  /** The tokens a cue is compared with. */
  function Context(st: State, cue: Cue, p: Settings): seq<Token> {
    if Adjacent(st.previous, cue, p) then st.tail else []
  }

  function Removed(st: State, cue: Cue, p: Settings): nat {
    Overlap(Context(st, cue, p), Tokens(cue.words, p.fold), p.lookback)
  }

  function Trimmed(cue: Cue, overlap: nat): Cue
    requires overlap <= |cue.words|
  {
    cue.(words := cue.words[overlap..],
         provenance := if overlap == 0 then cue.provenance else cue.provenance + OVERLAP_MARK)
  }

  function LastTokens(tokens: seq<Token>, bound: int): seq<Token> {
    if 0 < bound < |tokens| then tokens[|tokens| - bound..] else tokens
  }

  /** The line a cue asks for, before it is built: its words after the overlap. */
  function Select(st: State, cue: Cue, p: Settings): State {
    var tokens, overlap := Tokens(cue.words, p.fold), Removed(st, cue, p);
    if overlap < |cue.words| then
      State(st.output + [Trimmed(cue, overlap)],
            LastTokens(Context(st, cue, p) + tokens[overlap..], p.lookback),
            Some(cue))
    else State(st.output, Context(st, cue, p), Some(cue))
  }

  function Selected(cues: seq<Cue>, p: Settings): State {
    if cues == [] then START else Select(Selected(cues[..|cues| - 1], p), cues[|cues| - 1], p)
  }

  /** Characters of the words with single spaces between them. */
  function TextLength(words: seq<string>): nat {
    if words == [] then 0
    else if |words| == 1 then |words[0]|
    else |words[0]| + 1 + TextLength(words[1..])
  }

  /** Building the line cleans its text once more. */
  function Build(line: Cue, p: Settings): Result<Cue, CompactError> {
    var cleaned := p.clean(line.words);
    if TextLength(cleaned) == 0 then Err(TextEmpty)
    else if TextLength(cleaned) > 20_000 then Err(SegmentTooLarge)
    else Ok(line.(words := cleaned))
  }

  function Joined(words: seq<string>): string {
    if words == [] then ""
    else if |words| == 1 then words[0]
    else words[0] + " " + Joined(words[1..])
  }

  lemma {:induction false} LengthIs(words: seq<string>)
    ensures TextLength(words) == |Joined(words)|
  {
    if |words| > 1 {
      LengthIs(words[1..]);
    }
  }

  /** A line is built exactly from the words of a text that is not empty and not longer than twenty thousand. */
  lemma LineErrors(line: Cue, p: Settings)
    ensures var text := Joined(p.clean(line.words));
            && (Build(line, p) == Err(TextEmpty) <==> text == "")
            && (Build(line, p) == Err(SegmentTooLarge) <==> |text| > 20_000)
            && (Build(line, p).Ok? ==> Build(line, p).value == line.(words := p.clean(line.words)))
  {
    LengthIs(p.clean(line.words));
  }

  function Step(st: State, cue: Cue, p: Settings): Result<State, CompactError> {
    var next := Select(st, cue, p);
    if |next.output| == |st.output| then Ok(next)
    else match Build(next.output[|st.output|], p)
      case Ok(line) => Ok(next.(output := st.output + [line]))
      case Err(e) => Err(e)
  }

  function Run(cues: seq<Cue>, p: Settings): Result<State, CompactError> {
    if cues == [] then Ok(START)
    else match Run(cues[..|cues| - 1], p)
      case Ok(st) => Step(st, cues[|cues| - 1], p)
      case Err(e) => Err(e)
  }

  lemma RunTake(cues: seq<Cue>, p: Settings, i: nat)
    requires i < |cues|
    ensures Run(cues[..i + 1], p)
            == if Run(cues[..i], p).Ok? then Step(Run(cues[..i], p).value, cues[i], p) else Run(cues[..i], p)
  {
    assert cues[..i + 1][..i] == cues[..i];
  }

  /** An error ends the run. */
  lemma {:induction false} ErrorStays(cues: seq<Cue>, p: Settings, i: nat)
    requires i <= |cues| && Run(cues[..i], p).Err?
    ensures Run(cues, p) == Run(cues[..i], p)
    decreases |cues|
  {
    if i == |cues| {
      assert cues[..i] == cues;
    } else {
      var front := cues[..|cues| - 1];
      assert front[..i] == cues[..i];
      ErrorStays(front, p, i);
    }
  }

  /** The body of the loop. */
  method HandleCue(output: seq<Cue>, tail: seq<Token>, previous: Option<Cue>, segment: Cue, p: Settings)
    returns (r: Result<State, CompactError>)
    ensures r == Step(State(output, tail, previous), segment, p)
  {
    var newOutput, newTail := output, tail;
    var comparable := Tokens(segment.words, p.fold);
    if !Adjacent(previous, segment, p) {
      newTail := [];
    }
    var overlap := FindOverlap(newTail, comparable, p.lookback);
    if overlap < |segment.words| {
      var cleaned := p.clean(segment.words[overlap..]);
      if TextLength(cleaned) == 0 {
        return Err(TextEmpty);
      } else if TextLength(cleaned) > 20_000 {
        return Err(SegmentTooLarge);
      }
      newOutput := newOutput + [Trimmed(segment, overlap).(words := cleaned)];
      newTail := newTail + comparable[overlap..];
      if 0 < p.lookback < |newTail| {
        newTail := newTail[|newTail| - p.lookback..];
      }
    }
    return Ok(State(newOutput, newTail, Some(segment)));
  }

  function Compacted(segments: seq<Cue>, p: Settings): Result<seq<Cue>, CompactError> {
    if !(0 <= p.maxGap <= 30_000) then Err(GapOutOfRange)
    else if !(2 <= p.lookback <= 512) then Err(LookbackOutOfRange)
    else match Run(segments, p)
      case Ok(st) => Ok(st.output)
      case Err(e) => Err(e)
  }

  method CompactRollingCaptions(segments: seq<Cue>, p: Settings) returns (r: Result<seq<Cue>, CompactError>)
    ensures r == Compacted(segments, p)
    ensures p.maxGap < 0 || p.maxGap > 30_000 ==> r == Err(GapOutOfRange)
    ensures 0 <= p.maxGap <= 30_000 && (p.lookback < 2 || p.lookback > 512) ==> r == Err(LookbackOutOfRange)
    ensures 0 <= p.maxGap <= 30_000 && 2 <= p.lookback <= 512 ==>
              if Run(segments, p).Ok? then r == Ok(Run(segments, p).value.output) else r == Err(Run(segments, p).error)
  {
    if !(0 <= p.maxGap <= 30_000) {
      return Err(GapOutOfRange);
    }
    if !(2 <= p.lookback <= 512) {
      return Err(LookbackOutOfRange);
    }
    var output: seq<Cue>, tail: seq<Token>, previous: Option<Cue> := [], [], None;
    for i := 0 to |segments|
      invariant Run(segments[..i], p) == Ok(State(output, tail, previous))
    {
      RunTake(segments, p, i);
      var next := HandleCue(output, tail, previous, segments[i], p);
      if next.Err? {
        ErrorStays(segments, p, i + 1);
        return Err(next.error);
      }
      output, tail, previous := next.value.output, next.value.tail, next.value.previous;
    }
    assert segments[..|segments|] == segments;
    return Ok(output);
  }

  // ----- what is said --------------------------------------------------------------------------

  /** Everything emitted so far, as comparable tokens. */
  function Stream(output: seq<Cue>, fold: string -> Token): seq<Token> {
    if output == [] then []
    else Stream(output[..|output| - 1], fold) + Tokens(output[|output| - 1].words, fold)
  }

  predicate EndsWith(s: seq<Token>, end: seq<Token>) {
    |end| <= |s| && s[|s| - |end|..] == end
  }

  /** The tail is a bounded part of what was said last. */
  predicate TailOk(st: State, p: Settings) {
    EndsWith(Stream(st.output, p.fold), st.tail) && |st.tail| <= p.lookback
  }

  lemma TokensDrop(words: seq<string>, fold: string -> Token, k: nat)
    requires k <= |words|
    ensures Tokens(words[k..], fold) == Tokens(words, fold)[k..]
  {
  }

  lemma StreamSnoc(output: seq<Cue>, line: Cue, fold: string -> Token)
    ensures Stream(output + [line], fold) == Stream(output, fold) + Tokens(line.words, fold)
  {
    assert (output + [line])[..|output|] == output;
  }

  lemma EndsWithAppend(s: seq<Token>, end: seq<Token>, more: seq<Token>)
    requires EndsWith(s, end)
    ensures EndsWith(s + more, end + more)
  {
    assert s + more == s[..|s| - |end|] + (end + more);
  }

  lemma EndsWithTransitive(s: seq<Token>, mid: seq<Token>, end: seq<Token>)
    requires EndsWith(s, mid) && EndsWith(mid, end)
    ensures EndsWith(s, end)
  {
    assert s[|s| - |end|..] == mid[|mid| - |end|..];
  }

  /** Appending what follows an overlap completes the overlapping text. */
  lemma JoinAtOverlap(s: seq<Token>, context: seq<Token>, tokens: seq<Token>, k: nat)
    requires EndsWith(s, context) && k <= |tokens| && EndsWith(context, tokens[..k])
    ensures EndsWith(s + tokens[k..], tokens)
    ensures EndsWith(s + tokens[k..], context + tokens[k..])
  {
    EndsWithAppend(s, context, tokens[k..]);
    EndsWithTransitive(s, context, tokens[..k]);
    EndsWithAppend(s, tokens[..k], tokens[k..]);
    assert tokens[..k] + tokens[k..] == tokens;
  }

  lemma EndsWithLast(s: seq<Token>, end: seq<Token>, bound: int)
    requires EndsWith(s, end)
    ensures EndsWith(s, LastTokens(end, bound))
  {
  }

  lemma ContextSaid(st: State, cue: Cue, p: Settings)
    requires TailOk(st, p) && p.lookback >= 2
    ensures EndsWith(Stream(st.output, p.fold), Context(st, cue, p)) && |Context(st, cue, p)| <= p.lookback
    ensures Removed(st, cue, p) <= |cue.words|
    ensures EndsWith(Context(st, cue, p), Tokens(cue.words, p.fold)[..Removed(st, cue, p)])
  {
  }

  /** What one cue adds to the stream and to the tail, whether a line is emitted or not. */
  lemma SelectAdds(st: State, cue: Cue, p: Settings)
    requires |Context(st, cue, p)| <= p.lookback && Removed(st, cue, p) <= |cue.words|
    ensures var added := Tokens(cue.words, p.fold)[Removed(st, cue, p)..];
            && Stream(Select(st, cue, p).output, p.fold) == Stream(st.output, p.fold) + added
            && Select(st, cue, p).tail == LastTokens(Context(st, cue, p) + added, p.lookback)
  {
    var k := Removed(st, cue, p);
    if k < |cue.words| {
      StreamSnoc(st.output, Trimmed(cue, k), p.fold);
      TokensDrop(cue.words, p.fold, k);
    } else {
      assert Context(st, cue, p) + Tokens(cue.words, p.fold)[k..] == Context(st, cue, p);
    }
  }

  /** One cue: the tail stays sound, the stream only grows, and right after the cue it ends with the
      whole of what the cue says. */
  lemma SelectKeepsWords(st: State, cue: Cue, p: Settings)
    requires TailOk(st, p) && p.lookback >= 2
    ensures TailOk(Select(st, cue, p), p)
    ensures EndsWith(Stream(Select(st, cue, p).output, p.fold), Tokens(cue.words, p.fold))
    ensures Stream(st.output, p.fold) <= Stream(Select(st, cue, p).output, p.fold)
  {
    var tokens, k, context := Tokens(cue.words, p.fold), Removed(st, cue, p), Context(st, cue, p);
    var said := Stream(st.output, p.fold);
    ContextSaid(st, cue, p);
    SelectAdds(st, cue, p);
    JoinAtOverlap(said, context, tokens, k);
    EndsWithLast(said + tokens[k..], context + tokens[k..], p.lookback);
  }

  lemma {:induction false} SelectionKeepsTail(cues: seq<Cue>, p: Settings)
    requires p.lookback >= 2
    ensures TailOk(Selected(cues, p), p)
  {
    if cues != [] {
      SelectionKeepsTail(cues[..|cues| - 1], p);
      SelectKeepsWords(Selected(cues[..|cues| - 1], p), cues[|cues| - 1], p);
    }
  }

  lemma LastSelection(cues: seq<Cue>, p: Settings)
    requires p.lookback >= 2 && cues != []
    ensures EndsWith(Stream(Selected(cues, p).output, p.fold), Tokens(cues[|cues| - 1].words, p.fold))
    ensures Stream(Selected(cues[..|cues| - 1], p).output, p.fold) <= Stream(Selected(cues, p).output, p.fold)
  {
    SelectionKeepsTail(cues[..|cues| - 1], p);
    SelectKeepsWords(Selected(cues[..|cues| - 1], p), cues[|cues| - 1], p);
  }

  lemma {:induction false} SelectionOnlyGrows(cues: seq<Cue>, p: Settings, i: nat)
    requires p.lookback >= 2 && i <= |cues|
    ensures Stream(Selected(cues[..i], p).output, p.fold) <= Stream(Selected(cues, p).output, p.fold)
    decreases |cues|
  {
    if i == |cues| {
      assert cues[..i] == cues;
    } else {
      var front := cues[..|cues| - 1];
      LastSelection(cues, p);
      SelectionOnlyGrows(front, p, i);
      assert front[..i] == cues[..i];
    }
  }

  /** No speech is lost: whatever the cues, each one's whole token sequence stands in the final
      stream, ending where the stream ended right after that cue was handled. */
  lemma NoWordIsDropped(cues: seq<Cue>, p: Settings, i: nat)
    requires p.lookback >= 2 && i < |cues|
    ensures var now := Stream(Selected(cues[..i + 1], p).output, p.fold);
            EndsWith(now, Tokens(cues[i].words, p.fold)) && now <= Stream(Selected(cues, p).output, p.fold)
  {
    LastSelection(cues[..i + 1], p);
    SelectionOnlyGrows(cues, p, i + 1);
  }

  /** Each selected line is one source cue without a proper prefix of its words, the longest
      admissible overlap. */
  lemma {:induction false} LinesComeFromCues(cues: seq<Cue>, p: Settings, j: nat) returns (i: nat, k: nat)
    requires j < |Selected(cues, p).output|
    ensures i < |cues| && k < |cues[i].words| && Selected(cues, p).output[j] == Trimmed(cues[i], k)
    ensures k == Removed(Selected(cues[..i], p), cues[i], p)
    decreases |cues|
  {
    i := |cues| - 1;
    var front := cues[..i];
    if j < |Selected(front, p).output| {
      i, k := LinesComeFromCues(front, p, j);
      assert front[..i] == cues[..i] && front[i] == cues[i];
    } else {
      k := Removed(Selected(front, p), cues[i], p);
    }
  }

  // ----- lines as they are built -----------------------------------------------------------------

  /** A state whose lines are the built lines of the selection. */
  predicate BuiltFrom(st: State, selection: State, p: Settings) {
    && st.tail == selection.tail && st.previous == selection.previous
    && |st.output| == |selection.output|
    && forall j | 0 <= j < |st.output| :: Build(selection.output[j], p) == Ok(st.output[j])
  }

  lemma SelectAlike(st: State, selection: State, cue: Cue, p: Settings)
    requires BuiltFrom(st, selection, p)
    ensures var a, b, n := Select(st, cue, p), Select(selection, cue, p), |st.output|;
            && a.tail == b.tail && a.previous == b.previous && |a.output| == |b.output| <= n + 1
            && b.output[..n] == selection.output
            && (|a.output| > n ==> a.output[n] == b.output[n])
  {
  }

  /** The first of `lines` that cannot be built, with its error. */
  ghost predicate FirstFault(lines: seq<Cue>, j: int, e: CompactError, p: Settings) {
    && 0 <= j < |lines| && Build(lines[j], p) == Err(e)
    && forall i | 0 <= i < j :: Build(lines[i], p).Ok?
  }

  /** The run builds the selected lines one by one, and fails with the first that cannot be built. */
  lemma {:induction false} RunBuildsSelection(cues: seq<Cue>, p: Settings)
    ensures Run(cues, p).Ok? <==> forall line | line in Selected(cues, p).output :: Build(line, p).Ok?
    ensures Run(cues, p).Ok? ==> BuiltFrom(Run(cues, p).value, Selected(cues, p), p)
    ensures Run(cues, p).Err? ==> exists j :: FirstFault(Selected(cues, p).output, j, Run(cues, p).error, p)
    decreases |cues|
  {
    if cues != [] {
      var front, cue := cues[..|cues| - 1], cues[|cues| - 1];
      var before, after := Selected(front, p).output, Selected(cues, p).output;
      RunBuildsSelection(front, p);
      assert before <= after && |after| <= |before| + 1;
      if Run(front, p).Ok? {
        SelectAlike(Run(front, p).value, Selected(front, p), cue, p);
        if |after| > |before| {
          assert after[|before|] in after;
          assert Build(after[|before|], p).Err? ==> FirstFault(after, |before|, Run(cues, p).error, p);
        }
      } else {
        var j :| FirstFault(before, j, Run(front, p).error, p);
        assert FirstFault(after, j, Run(front, p).error, p) && after[j] in after;
      }
    }
  }

  /** Nothing is invented or retimed: each emitted line is one source cue whose words are the clean-up of
      what follows the removed ones, marked exactly when something was removed.  What is removed is the
      longest admissible overlap: never a single word, and never a word of punctuation only. */
  lemma EmittedLines(cues: seq<Cue>, p: Settings, j: nat) returns (i: nat, k: nat)
    requires Run(cues, p).Ok? && j < |Run(cues, p).value.output|
    ensures i < |cues| && k < |cues[i].words| && k == Removed(Selected(cues[..i], p), cues[i], p)
    ensures var c := cues[i];
            Run(cues, p).value.output[j]
            == Cue(c.start, c.end, p.clean(c.words[k..]), c.language, c.provider,
                   if k == 0 then c.provenance else c.provenance + ":rolling_overlap_removed")
    ensures k != 1 && k <= Least(|cues[i].words|, if p.lookback > 0 then p.lookback else 0)
    ensures forall m | 0 <= m < k :: p.fold(cues[i].words[m]) != ""
  {
    RunBuildsSelection(cues, p);
    i, k := LinesComeFromCues(cues, p, j);
    assert k > 0 ==> forall m | 0 <= m < k :: Tokens(cues[i].words, p.fold)[m] != "";
  }

  // ----- what is said again ----------------------------------------------------------------------

  /** The cue cannot continue the last one: it starts more than the gap after its end, or before its start,
      or is in another language or from another provider. */
  predicate StandsAlone(last: Cue, cue: Cue, p: Settings) {
    || cue.start > last.end + p.maxGap || cue.start < last.start
    || cue.language != last.language || cue.provider != last.provider
  }

  lemma {:induction false} LastIsPrevious(cues: seq<Cue>, p: Settings)
    requires cues != []
    ensures Selected(cues, p).previous == Some(cues[|cues| - 1])
  {
  }

  lemma AdjacentIff(last: Cue, cue: Cue, p: Settings)
    ensures Adjacent(Some(last), cue, p) <==> !StandsAlone(last, cue, p)
  {
  }

  lemma NothingBeforeNothingRemoved(st: State, cue: Cue, p: Settings)
    requires !Adjacent(st.previous, cue, p)
    ensures Removed(st, cue, p) == 0
  {
    assert Context(st, cue, p) == [];
  }

  lemma SelectsWhole(st: State, cue: Cue, p: Settings)
    requires cue.words != [] && Removed(st, cue, p) == 0
    ensures Select(st, cue, p).output == st.output + [cue]
  {
    assert cue.words[0..] == cue.words;
    assert Trimmed(cue, 0) == cue;
  }

  lemma SelectedWhole(cues: seq<Cue>, cue: Cue, p: Settings)
    requires cues != [] && cue.words != [] && StandsAlone(cues[|cues| - 1], cue, p)
    ensures Selected(cues + [cue], p).output == Selected(cues, p).output + [cue]
  {
    LastIsPrevious(cues, p);
    AdjacentIff(cues[|cues| - 1], cue, p);
    NothingBeforeNothingRemoved(Selected(cues, p), cue, p);
    SelectsWhole(Selected(cues, p), cue, p);
    assert (cues + [cue])[..|cues|] == cues;
  }

  lemma SelectedSnoc(cues: seq<Cue>, cue: Cue, p: Settings)
    ensures Selected(cues + [cue], p) == Select(Selected(cues, p), cue, p)
  {
    assert (cues + [cue])[..|cues|] == cues;
  }

  lemma AppendLast(a: seq<Cue>, b: seq<Cue>)
    requires b != []
    ensures a + b == a + b[..|b| - 1] + [b[|b| - 1]]
  {
  }

  /** `whole` is `part` after `before`. */
  predicate Continues(whole: State, before: seq<Cue>, part: State) {
    whole.output == before + part.output && whole.tail == part.tail && whole.previous == part.previous
  }

  lemma SelectContinues(whole: State, before: seq<Cue>, part: State, cue: Cue, p: Settings)
    requires Continues(whole, before, part)
    ensures Continues(Select(whole, cue, p), before, Select(part, cue, p))
  {
    SameSelection(whole, part, cue, p);
  }

  /** Where a cue stands alone nothing before it matters: what follows is compacted as if the list began there. */
  lemma {:induction false} BreakForgets(cues: seq<Cue>, cue: Cue, more: seq<Cue>, p: Settings)
    requires cues != [] && StandsAlone(cues[|cues| - 1], cue, p)
    ensures Continues(Selected(cues + [cue] + more, p), Selected(cues, p).output, Selected([cue] + more, p))
    decreases |more|
  {
    if more == [] {
      LastIsPrevious(cues, p);
      AdjacentIff(cues[|cues| - 1], cue, p);
      SelectedSnoc(cues, cue, p);
      SelectedSnoc([], cue, p);
      SameSelection(Selected(cues, p), START, cue, p);
      assert [] + [cue] == [cue] && cues + [cue] + [] == cues + [cue] && [cue] + [] == [cue];
    } else {
      var front, last := more[..|more| - 1], more[|more| - 1];
      BreakForgets(cues, cue, front, p);
      SelectContinues(Selected(cues + [cue] + front, p), Selected(cues, p).output, Selected([cue] + front, p), last, p);
      SelectedSnoc(cues + [cue] + front, last, p);
      SelectedSnoc([cue] + front, last, p);
      AppendLast(cues + [cue], more);
      AppendLast([cue], more);
    }
  }

  /** The same context selects the same line. */
  lemma SameSelection(a: State, b: State, cue: Cue, p: Settings)
    requires Context(a, cue, p) == Context(b, cue, p)
    ensures var x, y := Select(a, cue, p), Select(b, cue, p);
            && x.tail == y.tail && x.previous == y.previous
            && x.output == a.output + y.output[|b.output|..] && y.output == b.output + y.output[|b.output|..]
  {
  }

  /** A cue that stands alone is emitted whole, however often its words were said before: its line is the
      clean-up of all of them, unmarked. */
  lemma RepetitionIsKept(cues: seq<Cue>, cue: Cue, p: Settings)
    requires cues != [] && cue.words != [] && StandsAlone(cues[|cues| - 1], cue, p) && Run(cues, p).Ok?
    ensures Run(cues + [cue], p).Ok? <==> Build(cue, p).Ok?
    ensures Build(cue, p).Ok? ==>
              Run(cues + [cue], p).value.output == Run(cues, p).value.output + [cue.(words := p.clean(cue.words))]
  {
    SelectedWhole(cues, cue, p);
    RunBuildsSelection(cues, p);
    var st := Run(cues, p).value;
    SelectAlike(st, Selected(cues, p), cue, p);
    assert (cues + [cue])[..|cues|] == cues;
    assert Select(Selected(cues, p), cue, p) == Selected(cues + [cue], p);
    assert Select(st, cue, p).output[|st.output|] == cue;
  }

  // ----- no speech is lost -----------------------------------------------------------------------

  /** Cleaning these words once more leaves a text with the same tokens. */
  predicate Survives(words: seq<string>, p: Settings) {
    0 < TextLength(p.clean(words)) <= 20_000 && Tokens(p.clean(words), p.fold) == Tokens(words, p.fold)
  }

  /** Whatever overlap is removed, the rest survives. */
  predicate CleanStable(words: seq<string>, p: Settings) {
    forall k | 0 <= k < |words| :: Survives(words[k..], p)
  }

  lemma SelectedSurvive(cues: seq<Cue>, p: Settings, j: nat)
    requires forall c | c in cues :: CleanStable(c.words, p)
    requires j < |Selected(cues, p).output|
    ensures Survives(Selected(cues, p).output[j].words, p)
  {
    var i, k := LinesComeFromCues(cues, p, j);
    assert cues[i] in cues;
  }

  lemma {:induction false} SameStream(a: seq<Cue>, b: seq<Cue>, fold: string -> Token)
    requires |a| == |b|
    requires forall j | 0 <= j < |a| :: Tokens(a[j].words, fold) == Tokens(b[j].words, fold)
    ensures Stream(a, fold) == Stream(b, fold)
  {
    if a != [] {
      SameStream(a[..|a| - 1], b[..|a| - 1], fold);
    }
  }

  /** On clean-stable cues no line fails and the built lines say what the selected ones do. */
  lemma StableRuns(cues: seq<Cue>, p: Settings)
    requires forall c | c in cues :: CleanStable(c.words, p)
    ensures Run(cues, p).Ok?
    ensures Stream(Run(cues, p).value.output, p.fold) == Stream(Selected(cues, p).output, p.fold)
  {
    RunBuildsSelection(cues, p);
    var lines := Selected(cues, p).output;
    forall j | 0 <= j < |lines|
      ensures Survives(lines[j].words, p)
    {
      SelectedSurvive(cues, p, j);
    }
    assert forall line | line in lines :: Build(line, p).Ok?;
    SameStream(Run(cues, p).value.output, lines, p.fold);
  }

  /** Right after cue `i` the emitted stream ends with all the cue says. */
  ghost predicate IsKept(cues: seq<Cue>, p: Settings, i: nat)
    requires i < |cues|
  {
    && Run(cues[..i + 1], p).Ok?
    && EndsWith(Stream(Run(cues[..i + 1], p).value.output, p.fold), Tokens(cues[i].words, p.fold))
  }

  /** No speech is lost: when every cue is clean-stable, each one's whole token sequence stands in the
      final stream, ending where the stream ended right after that cue was handled. */
  lemma SpeechIsKept(cues: seq<Cue>, p: Settings, i: nat)
    requires p.lookback >= 2 && i < |cues|
    requires forall c | c in cues :: CleanStable(c.words, p)
    ensures Run(cues, p).Ok? && IsKept(cues, p, i)
    ensures Stream(Run(cues[..i + 1], p).value.output, p.fold) <= Stream(Run(cues, p).value.output, p.fold)
  {
    StableRuns(cues, p);
    StableRuns(cues[..i + 1], p);
    NoWordIsDropped(cues, p, i);
  }

  /** One cue: clean-stable words keep the tail sound and are all said. */
  lemma StepKeepsSpeech(st: State, cue: Cue, p: Settings)
    requires TailOk(st, p) && p.lookback >= 2 && CleanStable(cue.words, p)
    ensures var next := Step(st, cue, p);
            && next.Ok? && TailOk(next.value, p)
            && EndsWith(Stream(next.value.output, p.fold), Tokens(cue.words, p.fold))
            && Stream(st.output, p.fold) <= Stream(next.value.output, p.fold)
  {
    SelectKeepsWords(st, cue, p);
    var selected, k := Select(st, cue, p), Removed(st, cue, p);
    ContextSaid(st, cue, p);
    if k < |cue.words| {
      assert Survives(cue.words[k..], p);
      StreamSnoc(st.output, Trimmed(cue, k), p.fold);
      StreamSnoc(st.output, Step(st, cue, p).value.output[|st.output|], p.fold);
    }
  }

  /** The tail is a bounded suffix of the emitted stream. */
  lemma RunKeepsTail(cues: seq<Cue>, p: Settings)
    requires p.lookback >= 2
    requires forall c | c in cues :: CleanStable(c.words, p)
    ensures Run(cues, p).Ok? && TailOk(Run(cues, p).value, p)
  {
    SelectionKeepsTail(cues, p);
    StableRuns(cues, p);
    RunBuildsSelection(cues, p);
  }

  lemma LoneCue(cue: Cue, p: Settings)
    requires cue.words != []
    ensures Selected([cue], p).output == [cue]
    ensures Run([cue], p).Ok? <==> Build(cue, p).Ok?
    ensures Run([cue], p).Err? ==> Run([cue], p) == Err(Build(cue, p).error)
    ensures Run([cue], p).Ok? ==> Stream(Run([cue], p).value.output, p.fold) == Tokens(p.clean(cue.words), p.fold)
  {
    assert [cue][..0] == [];
    assert Removed(START, cue, p) == 0 && cue.words[0..] == cue.words;
    assert Selected([cue], p) == Select(START, cue, p);
    RunBuildsSelection([cue], p);
    if Run([cue], p).Ok? {
      StreamSnoc([], Run([cue], p).value.output[0], p.fold);
    }
  }

  /** A lone cue is kept exactly when cleaning it again leaves a text that ends with all its tokens. */
  lemma OneCueKeptIff(cue: Cue, p: Settings)
    requires cue.words != []
    ensures IsKept([cue], p, 0)
            <==> Build(cue, p).Ok? && EndsWith(Tokens(p.clean(cue.words), p.fold), Tokens(cue.words, p.fold))
  {
    LoneCue(cue, p);
    assert [cue][..1] == [cue];
  }

  /** Markup that was encoded once becomes words of the cue and is stripped from its line: a spoken word
      is lost, and a cue of nothing else stops the compaction. */
  lemma DecodedMarkupIsLost(cue: Cue, bare: Cue, p: Settings)
    requires cue.words == ["<div>", "element"] && p.clean(cue.words) == ["element"]
    requires bare.words == ["<div>"] && p.clean(bare.words) == []
    ensures Run([cue], p).Ok? && !IsKept([cue], p, 0)
    ensures Run([bare], p) == Err(TextEmpty)
  {
    LoneCue(cue, p);
    LoneCue(bare, p);
    OneCueKeptIff(cue, p);
  }

  ghost predicate SuffixClosed(texts: iset<seq<string>>) {
    forall w, k | w in texts && 0 <= k <= |w| :: w[k..] in texts
  }

  ghost predicate AllKept(cues: seq<Cue>, p: Settings) {
    Run(cues, p).Ok? && forall i | 0 <= i < |cues| :: IsKept(cues, p, i)
  }

  ghost predicate CuesFrom(cues: seq<Cue>, texts: iset<seq<string>>) {
    forall i | 0 <= i < |cues| :: cues[i].words in texts
  }

  ghost predicate AllSurvive(texts: iset<seq<string>>, p: Settings) {
    forall w | w in texts && w != [] :: Survives(w, p)
  }

  lemma SurvivingAreStable(cues: seq<Cue>, texts: iset<seq<string>>, p: Settings)
    requires SuffixClosed(texts) && AllSurvive(texts, p) && CuesFrom(cues, texts)
    ensures forall c | c in cues :: CleanStable(c.words, p)
  {
    forall c, k | c in cues && 0 <= k < |c.words|
      ensures Survives(c.words[k..], p)
    {
      assert c.words[k..] in texts;
    }
  }

  lemma SurvivingAreKept(cues: seq<Cue>, texts: iset<seq<string>>, p: Settings)
    requires p.lookback >= 2 && SuffixClosed(texts) && AllSurvive(texts, p) && CuesFrom(cues, texts)
    ensures AllKept(cues, p)
  {
    SurvivingAreStable(cues, texts, p);
    StableRuns(cues, p);
    forall i | 0 <= i < |cues|
      ensures IsKept(cues, p, i)
    {
      SpeechIsKept(cues, p, i);
    }
  }

  /** Cleaning does not leave all words standing and put others before them. */
  predicate AddsNoneBefore(w: seq<string>, p: Settings) {
    EndsWith(Tokens(p.clean(w), p.fold), Tokens(w, p.fold)) ==> |p.clean(w)| <= |w|
  }

  /** Kept alone, and with no words put before, a text survives. */
  lemma KeptAloneSurvives(w: seq<string>, p: Settings)
    requires w != [] && AddsNoneBefore(w, p) && AllKept([Cue(0, 0, w, "", "", "")], p)
    ensures Survives(w, p)
  {
    var cue := Cue(0, 0, w, "", "", "");
    assert IsKept([cue], p, 0);
    OneCueKeptIff(cue, p);
  }

  /** Over any family of texts closed under dropping leading words, where cleaning puts no words before kept
      ones: compaction keeps the speech of every list of cues exactly when each text survives. */
  lemma SpeechKeptIff(texts: iset<seq<string>>, p: Settings)
    requires p.lookback >= 2 && SuffixClosed(texts)
    requires forall w | w in texts :: AddsNoneBefore(w, p)
    ensures (forall cues | CuesFrom(cues, texts) :: AllKept(cues, p)) <==> AllSurvive(texts, p)
  {
    if AllSurvive(texts, p) {
      forall cues | CuesFrom(cues, texts)
        ensures AllKept(cues, p)
      {
        SurvivingAreKept(cues, texts, p);
      }
    } else {
      var w :| w in texts && w != [] && !Survives(w, p);
      var lone := [Cue(0, 0, w, "", "", "")];
      assert CuesFrom(lone, texts);
      if AllKept(lone, p) {
        KeptAloneSurvives(w, p);
      }
    }
  }

  // ----- the case the compaction is for ----------------------------------------------------------

  /** Consecutive cues each repeating the one before and adding words at the end. */
  predicate GrowingPhrase(cues: seq<Cue>, p: Settings) {
    && (forall i | 0 <= i < |cues| ::
          && 2 <= |cues[i].words| <= p.lookback
          && (forall w | w in cues[i].words :: p.fold(w) != ""))
    && (forall i | 0 < i < |cues| ::
          && !StandsAlone(cues[i - 1], cues[i], p)
          && Tokens(cues[i - 1].words, p.fold) <= Tokens(cues[i].words, p.fold))
  }

  lemma TailIsRemoved(st: State, cue: Cue, p: Settings)
    requires Adjacent(st.previous, cue, p)
    requires 2 <= |st.tail| <= |cue.words| <= p.lookback
    requires forall w | w in cue.words :: p.fold(w) != ""
    requires st.tail <= Tokens(cue.words, p.fold)
    ensures Removed(st, cue, p) == |st.tail|
  {
    var tokens, k := Tokens(cue.words, p.fold), |st.tail|;
    assert forall i | 0 <= i < |tokens| :: tokens[i] == p.fold(cue.words[i]) && cue.words[i] in cue.words;
    assert st.tail[|st.tail| - k..] == st.tail == tokens[..k];
    assert Admissible(st.tail, tokens, p.lookback, k);
  }

  lemma TailGrows(st: State, cue: Cue, p: Settings)
    requires Context(st, cue, p) == st.tail && Removed(st, cue, p) == |st.tail| <= |cue.words| <= p.lookback
    requires st.tail <= Tokens(cue.words, p.fold) && Stream(st.output, p.fold) == st.tail
    ensures var next := Select(st, cue, p);
            next.tail == Tokens(cue.words, p.fold) == Stream(next.output, p.fold)
  {
    var tokens := Tokens(cue.words, p.fold);
    SelectAdds(st, cue, p);
    PrefixAndRest(st.tail, tokens);
  }

  lemma PrefixAndRest(a: seq<Token>, b: seq<Token>)
    requires a <= b
    ensures a + b[|a|..] == b
  {
  }

  lemma SelectGrows(st: State, cue: Cue, p: Settings)
    requires Adjacent(st.previous, cue, p)
    requires 2 <= |st.tail| <= |cue.words| <= p.lookback
    requires forall w | w in cue.words :: p.fold(w) != ""
    requires st.tail <= Tokens(cue.words, p.fold) && Stream(st.output, p.fold) == st.tail
    ensures var next := Select(st, cue, p);
            next.tail == Tokens(cue.words, p.fold) == Stream(next.output, p.fold) && next.previous == Some(cue)
  {
    TailIsRemoved(st, cue, p);
    TailGrows(st, cue, p);
  }

  lemma GrowthStarts(cue: Cue, p: Settings)
    ensures var st := Select(START, cue, p);
            Stream(st.output, p.fold) == Tokens(cue.words, p.fold) && st.previous == Some(cue)
            && st.tail == LastTokens(Tokens(cue.words, p.fold), p.lookback)
  {
    assert Removed(START, cue, p) == 0;
    StreamSnoc([], Trimmed(cue, 0), p.fold);
    TokensDrop(cue.words, p.fold, 0);
    assert [] + Tokens(cue.words, p.fold)[0..] == Tokens(cue.words, p.fold);
    assert cue.words == [] ==> Tokens(cue.words, p.fold) == [];
  }

  lemma GrowingPhrasePrefix(cues: seq<Cue>, p: Settings, n: nat)
    requires GrowingPhrase(cues, p) && n <= |cues|
    ensures GrowingPhrase(cues[..n], p)
  {
    var front := cues[..n];
    forall i | 0 < i < |front|
      ensures !StandsAlone(front[i - 1], front[i], p)
           && Tokens(front[i - 1].words, p.fold) <= Tokens(front[i].words, p.fold)
    {
      assert front[i - 1] == cues[i - 1] && front[i] == cues[i];
    }
  }

  lemma {:induction false} GrowingPhraseState(cues: seq<Cue>, p: Settings)
    requires cues != [] && GrowingPhrase(cues, p)
    ensures var st, last := Selected(cues, p), cues[|cues| - 1];
            st.tail == Tokens(last.words, p.fold) == Stream(st.output, p.fold) && st.previous == Some(last)
    decreases |cues|
  {
    var n := |cues| - 1;
    if n == 0 {
      assert cues[..0] == [];
      GrowthStarts(cues[0], p);
    } else {
      var front := cues[..n];
      GrowingPhrasePrefix(cues, p, n);
      GrowingPhraseState(front, p);
      assert front[n - 1] == cues[n - 1] && Adjacent(Some(cues[n - 1]), cues[n], p);
      SelectGrows(Selected(front, p), cues[n], p);
    }
  }

  /** A growing phrase of clean-stable cues is said once: the whole output is the last cue's words. */
  lemma GrowingPhraseIsSaidOnce(cues: seq<Cue>, p: Settings)
    requires cues != [] && GrowingPhrase(cues, p)
    requires forall c | c in cues :: CleanStable(c.words, p)
    ensures Run(cues, p).Ok?
    ensures Stream(Run(cues, p).value.output, p.fold) == Tokens(cues[|cues| - 1].words, p.fold)
  {
    GrowingPhraseState(cues, p);
    StableRuns(cues, p);
  }
}
