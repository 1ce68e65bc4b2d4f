/** Choice of the moments at which frames are taken: an even grid plus scene and cue times, thinned to
    a limit.  Times are milliseconds; candidates are exact, chosen moments are whole milliseconds. */
module FrameSelection {
  import opened Wrappers
  import opened StableSort

  datatype Mode = Quick | Standard | Deep | Targeted | Archive

  datatype FrameError = DurationInvalid | FrameLimitInvalid

  function Min(a: int, b: int): int {
    if a <= b then a else b
  }

  function Max(a: int, b: int): int {
    if a >= b then a else b
  }

  predicate Le(a: int, b: int) {
    a <= b
  }

  // ----- rounding ------------------------------------------------------------------------------

  /** To the nearest integer, halves to the even one. */
  function RoundEven(x: real): int {
    var down := x.Floor;
    var part := x - down as real;
    if part < 0.5 then down
    else if part > 0.5 then down + 1
    else if down % 2 == 0 then down else down + 1
  }

  lemma RoundMonotone(x: real, y: real)
    requires x <= y
    ensures RoundEven(x) <= RoundEven(y)
  {
    if x.Floor == y.Floor {
    } else {
      assert x.Floor + 1 <= y.Floor;
    }
  }

  lemma RoundWhole(n: int)
    ensures RoundEven(n as real) == n
  {
    assert (n as real).Floor == n;
  }

  // ----- candidates ----------------------------------------------------------------------------

  function TargetCount(mode: Mode, duration: real, maxFrames: int): int {
    match mode
    case Quick => 0
    case Standard => Min(maxFrames, Max(6, RoundEven(duration / 90_000.0)))
    case Deep => Min(maxFrames, Max(12, RoundEven(duration / 45_000.0)))
    case Targeted => Min(maxFrames, Max(12, RoundEven(duration / 45_000.0)))
    case Archive => Min(maxFrames, Max(8, RoundEven(duration / 60_000.0)))
  }

  /** Adding to a set, kept as a list without repetition. */
  function Add(candidates: seq<real>, v: real): seq<real> {
    if v in candidates then candidates else candidates + [v]
  }

  function GridPoint(duration: real, count: int, index: int): real
    requires count >= 1
  {
    if count == 1 then duration / 2.0 else duration * index as real / (count - 1) as real
  }

  function AddGrid(candidates: seq<real>, duration: real, count: int, index: int): seq<real>
    requires count >= 1
    decreases count - index
  {
    if index >= count then candidates
    else AddGrid(Add(candidates, GridPoint(duration, count, index)), duration, count, index + 1)
  }

  function AddTimes(candidates: seq<real>, times: seq<real>, duration: real): seq<real>
    decreases |times|
  {
    if times == [] then candidates
    else AddTimes(if 0.0 <= times[0] <= duration then Add(candidates, times[0]) else candidates, times[1..], duration)
  }

  function Candidates(duration: real, count: int, times: seq<real>): seq<real>
    requires count >= 1
  {
    AddTimes(AddGrid([], duration, count, 0), times, duration)
  }

  function Tick(v: real, duration: real): int {
    RoundEven(if v < 0.0 then 0.0 else if v > duration then duration else v)
  }

  function Ticks(candidates: seq<real>, duration: real): (ticks: seq<int>)
    ensures |ticks| == |candidates| && forall i | 0 <= i < |candidates| :: ticks[i] == Tick(candidates[i], duration)
  {
    seq(|candidates|, i requires 0 <= i < |candidates| => Tick(candidates[i], duration))
  }

  /** All candidates as milliseconds in order; two candidates may share one. */
  function Ordered(candidates: seq<real>, duration: real): seq<int> {
    Sorted(Ticks(candidates, duration), Le)
  }

  function Priority(times: seq<real>): set<int> {
    set t | t in times :: RoundEven(t)
  }

  // ----- thinning ------------------------------------------------------------------------------

  function KeepIn(ordered: seq<int>, wanted: set<int>): seq<int> {
    if ordered == [] then []
    else if ordered[0] in wanted then [ordered[0]] + KeepIn(ordered[1..], wanted)
    else KeepIn(ordered[1..], wanted)
  }

  function KeepOut(ordered: seq<int>, unwanted: set<int>): seq<int> {
    if ordered == [] then []
    else if ordered[0] in unwanted then KeepOut(ordered[1..], unwanted)
    else [ordered[0]] + KeepOut(ordered[1..], unwanted)
  }

  function Members(s: seq<int>): set<int> {
    set x | x in s
  }

  /** Position of the `index`-th of `count` samples among `size` values. */
  function SampleIndex(size: nat, count: nat, index: nat): (k: nat)
    requires count > 0 && size > 0
    ensures k < size
  {
    Min(size - 1, index * size / count)
  }

  function SampleIndices(size: nat, count: nat): (indices: seq<nat>)
    requires size > 0
    ensures |indices| == count && forall i | 0 <= i < count :: indices[i] < size
  {
    seq(count, i requires 0 <= i < count => SampleIndex(size, count, i))
  }

  function PickAt(values: seq<int>, indices: seq<nat>): (picked: seq<int>)
    requires forall i | 0 <= i < |indices| :: indices[i] < |values|
    ensures |picked| == |indices| && forall i | 0 <= i < |indices| :: picked[i] == values[indices[i]]
  {
    seq(|indices|, i requires 0 <= i < |indices| => values[indices[i]])
  }

  /** `remaining` sampled at even distances. */
  function Samples(remaining: seq<int>, count: nat): seq<int>
    requires remaining != []
  {
    PickAt(remaining, SampleIndices(|remaining|, count))
  }

  /** The first priority values, topped up with samples of the rest. */
  function Chosen(ordered: seq<int>, priority: set<int>, maxFrames: nat): seq<int>
    requires |ordered| > maxFrames
  {
    var first := KeepIn(ordered, priority);
    if |first| >= maxFrames then first[..maxFrames]
    else
      KeptSizes(ordered, priority);
      first + Samples(KeepOut(ordered, Members(first)), maxFrames - |first|)
  }

  function Distinct(s: seq<int>): seq<int> {
    if s == [] then [] else if s[0] in s[1..] then Distinct(s[1..]) else [s[0]] + Distinct(s[1..])
  }

  function Selection(ordered: seq<int>, priority: set<int>, maxFrames: nat): seq<int> {
    if |ordered| <= maxFrames then ordered
    else Sorted(Distinct(Chosen(ordered, priority, maxFrames)), Le)
  }

  lemma {:induction false} KeepInMembers(ordered: seq<int>, wanted: set<int>)
    ensures forall x :: x in KeepIn(ordered, wanted) <==> x in ordered && x in wanted
  {
    if ordered != [] {
      KeepInMembers(ordered[1..], wanted);
      assert forall x :: x in ordered <==> x == ordered[0] || x in ordered[1..];
    }
  }

  lemma {:induction false} KeepOutMembers(ordered: seq<int>, unwanted: set<int>)
    ensures forall x :: x in KeepOut(ordered, unwanted) <==> x in ordered && x !in unwanted
  {
    if ordered != [] {
      KeepOutMembers(ordered[1..], unwanted);
      assert forall x :: x in ordered <==> x == ordered[0] || x in ordered[1..];
    }
  }

  lemma {:induction false} KeptSizesFor(ordered: seq<int>, wanted: set<int>, unwanted: set<int>)
    requires forall i | 0 <= i < |ordered| :: ordered[i] in wanted <==> ordered[i] in unwanted
    ensures |KeepIn(ordered, wanted)| + |KeepOut(ordered, unwanted)| == |ordered|
  {
    if ordered != [] {
      KeptSizesFor(ordered[1..], wanted, unwanted);
    }
  }

  lemma KeptAt(ordered: seq<int>, priority: set<int>, i: nat)
    requires i < |ordered|
    ensures ordered[i] in priority <==> ordered[i] in Members(KeepIn(ordered, priority))
  {
    var x, first := ordered[i], KeepIn(ordered, priority);
    KeepInMembers(ordered, priority);
    assert x in ordered;
    assert x in first <==> x in ordered && x in priority;
  }

  /** What is not a priority value is exactly the rest, repetitions counted. */
  lemma KeptSizes(ordered: seq<int>, priority: set<int>)
    ensures var first := KeepIn(ordered, priority);
            |first| + |KeepOut(ordered, Members(first))| == |ordered|
  {
    var first := KeepIn(ordered, priority);
    forall i | 0 <= i < |ordered|
      ensures ordered[i] in priority <==> ordered[i] in Members(first)
    {
      KeptAt(ordered, priority, i);
    }
    KeptSizesFor(ordered, priority, Members(first));
  }

  // ----- the method ----------------------------------------------------------------------------

  method CollectCandidates(duration: real, count: int, times: seq<real>) returns (candidates: seq<real>)
    requires count >= 1
    ensures candidates == Candidates(duration, count, times)
  {
    candidates := [];
    if count == 1 {
      candidates := Add(candidates, duration / 2.0);
      assert AddGrid([], duration, 1, 0) == AddGrid(candidates, duration, 1, 1);
    } else {
      var index := 0;
      while index < count
        invariant 0 <= index <= count
        invariant AddGrid([], duration, count, 0) == AddGrid(candidates, duration, count, index)
      {
        candidates := Add(candidates, GridPoint(duration, count, index));
        index := index + 1;
      }
    }
    var i := 0;
    while i < |times|
      invariant 0 <= i <= |times|
      invariant Candidates(duration, count, times) == AddTimes(candidates, times[i..], duration)
    {
      assert times[i..][0] == times[i] && times[i..][1..] == times[i + 1..];
      if 0.0 <= times[i] <= duration {
        candidates := Add(candidates, times[i]);
      }
      i := i + 1;
    }
  }

  method TakeSamples(remaining: seq<int>, count: nat) returns (samples: seq<int>)
    requires remaining != []
    ensures samples == Samples(remaining, count)
  {
    samples := [];
    var indices := SampleIndices(|remaining|, count);
    for index := 0 to count
      invariant |samples| == index && forall i | 0 <= i < index :: samples[i] == remaining[indices[i]]
    {
      samples := samples + [remaining[indices[index]]];
    }
  }

  method Thin(ordered: seq<int>, priority: set<int>, maxFrames: nat) returns (selected: seq<int>)
    requires |ordered| > maxFrames
    ensures selected == Chosen(ordered, priority, maxFrames)
  {
    var first := KeepIn(ordered, priority);
    if |first| >= maxFrames {
      return first[..maxFrames];
    }
    KeptSizes(ordered, priority);
    var samples := TakeSamples(KeepOut(ordered, Members(first)), maxFrames - |first|);
    selected := first + samples;
  }

  method SelectFrameTimestamps(duration: real, mode: Mode, times: seq<real>, maxFrames: int)
    returns (r: Result<seq<int>, FrameError>)
    ensures duration <= 0.0 ==> r == Err(DurationInvalid)
    ensures duration > 0.0 && maxFrames <= 0 ==> r == Err(FrameLimitInvalid)
    ensures duration > 0.0 && maxFrames > 0 ==>
              r == Ok(if mode.Quick? then [] else
                        var candidates := Candidates(duration, TargetCount(mode, duration, maxFrames), times);
                        Selection(Ordered(candidates, duration), Priority(times), maxFrames))
  {
    if duration <= 0.0 {
      return Err(DurationInvalid);
    }
    if maxFrames <= 0 {
      return Err(FrameLimitInvalid);
    }
    if mode.Quick? {
      return Ok([]);
    }
    var candidates := CollectCandidates(duration, TargetCount(mode, duration, maxFrames), times);
    var ordered := Ordered(candidates, duration);
    if |ordered| <= maxFrames {
      return Ok(ordered);
    }
    var selected := Thin(ordered, Priority(times), maxFrames);
    return Ok(Sorted(Distinct(selected), Le));
  }

  // ----- sampling ------------------------------------------------------------------------------

  /** When at least as many values remain as are sampled, the sampled positions are in range without
      the clamp and strictly increase: no value is sampled twice. */
  lemma SampleIndicesIncrease(size: nat, count: nat, i: nat, j: nat)
    requires 0 < count <= size && i < j < count
    ensures 0 <= SampleIndex(size, count, i) < SampleIndex(size, count, j) < size
    ensures SampleIndex(size, count, j) == j * size / count
  {
    InRange(size, count, i);
    InRange(size, count, j);
    StepUp(size, count, i, j);
  }

  lemma InRange(size: nat, count: nat, i: nat)
    requires 0 < count <= size && i < count
    ensures 0 <= i * size / count < size
  {
    assert i * size <= (count - 1) * size by {
      MulMonotone(i, count - 1, size);
    }
    assert (count - 1) * size == count * size - size;
    DivBelow(i * size, count, size);
  }

  lemma MulMonotone(a: nat, b: nat, c: nat)
    requires a <= b
    ensures a * c <= b * c
  {
  }

  lemma DivBelow(x: nat, count: nat, size: nat)
    requires count > 0 && x < count * size
    ensures x / count < size
  {
    if x / count >= size {
      MulMonotone(size, x / count, count);
    }
  }

  lemma StepUp(size: nat, count: nat, i: nat, j: nat)
    requires 0 < count <= size && i < j
    ensures i * size / count < j * size / count
  {
    MulMonotone(i + 1, j, size);
    assert (i + 1) * size == i * size + size;
    var q := i * size / count;
    assert (q + 1) * count <= i * size + count <= j * size;
    if j * size / count <= q {
      MulMonotone(j * size / count + 1, q + 1, count);
    }
  }

  // ----- what is selected ------------------------------------------------------------------------

  lemma PickAtMembers(values: seq<int>, indices: seq<nat>)
    requires forall i | 0 <= i < |indices| :: indices[i] < |values|
    ensures forall x | x in PickAt(values, indices) :: x in values
  {
  }

  lemma {:induction false} DistinctMembers(s: seq<int>)
    ensures forall x :: x in Distinct(s) <==> x in s
    ensures |Distinct(s)| <= |s|
    ensures forall i, j | 0 <= i < j < |Distinct(s)| :: Distinct(s)[i] != Distinct(s)[j]
  {
    if s != [] {
      DistinctMembers(s[1..]);
    }
  }

  lemma ChosenMembers(ordered: seq<int>, priority: set<int>, maxFrames: nat)
    requires |ordered| > maxFrames
    ensures |Chosen(ordered, priority, maxFrames)| == maxFrames
    ensures forall x | x in Chosen(ordered, priority, maxFrames) :: x in ordered
  {
    var first := KeepIn(ordered, priority);
    KeepInMembers(ordered, priority);
    if |first| < maxFrames {
      KeptSizes(ordered, priority);
      var remaining := KeepOut(ordered, Members(first));
      KeepOutMembers(ordered, Members(first));
      PickAtMembers(remaining, SampleIndices(|remaining|, maxFrames - |first|));
    }
  }

  predicate StrictlyIncreasing(s: seq<int>) {
    forall i, j | 0 <= i < j < |s| :: s[i] < s[j]
  }

  lemma LeIsTotal()
    ensures TotalPreorder(Le)
  {
  }

  /** A sorted list without repetitions keeps being one when sorted. */
  lemma SortedDistinct(s: seq<int>)
    ensures var r := Sorted(Distinct(s), Le);
            StrictlyIncreasing(r) && |r| <= |s| && forall x :: x in r <==> x in s
  {
    var d := Distinct(s);
    var r := Sorted(d, Le);
    LeIsTotal();
    DistinctMembers(s);
    SortedKeeps(d, Le);
    SortedSorts(d, Le);
    StayDifferent(d, r);
    forall i, j | 0 <= i < j < |r|
      ensures r[i] < r[j]
    {
      assert Le(r[i], r[j]);
    }
  }

  /** Whatever the candidates: the selection is in order, within the limit, and made of candidates; when
      thinning takes place, no moment is chosen twice. */
  lemma SelectionIsSound(ordered: seq<int>, priority: set<int>, maxFrames: nat)
    requires IsSorted(ordered, Le)
    ensures var s := Selection(ordered, priority, maxFrames);
            && IsSorted(s, Le) && |s| <= maxFrames && (forall x | x in s :: x in ordered)
            && (|ordered| > maxFrames ==> StrictlyIncreasing(s))
  {
    if |ordered| > maxFrames {
      ChosenMembers(ordered, priority, maxFrames);
      SortedDistinct(Chosen(ordered, priority, maxFrames));
      var s := Selection(ordered, priority, maxFrames);
      forall i, j | 0 <= i < j < |s|
        ensures Le(s[i], s[j])
      {
      }
    }
  }

  // ----- which priority moments survive ----------------------------------------------------------

  lemma {:induction false} KeepInSorted(ordered: seq<int>, wanted: set<int>)
    requires IsSorted(ordered, Le)
    ensures IsSorted(KeepIn(ordered, wanted), Le)
  {
    if ordered != [] {
      var rest := KeepIn(ordered[1..], wanted);
      assert IsSorted(ordered[1..], Le);
      KeepInSorted(ordered[1..], wanted);
      KeepInMembers(ordered[1..], wanted);
      forall k | 0 <= k < |rest|
        ensures Le(ordered[0], rest[k])
      {
        assert rest[k] in rest;
        var m :| 0 <= m < |ordered[1..]| && ordered[1..][m] == rest[k];
        assert Le(ordered[0], ordered[m + 1]);
      }
    }
  }

  /** The cut does not separate different moments: what is cut off repeats the last one kept. */
  predicate CutIsHarmless(first: seq<int>, maxFrames: nat) {
    |first| <= maxFrames || (maxFrames > 0 && first[maxFrames - 1] == first[|first| - 1])
  }

  lemma CutKeepsAll(first: seq<int>, maxFrames: nat)
    requires IsSorted(first, Le) && |first| > maxFrames
    ensures (forall x | x in first :: x in first[..maxFrames]) <==> CutIsHarmless(first, maxFrames)
  {
    var last := first[|first| - 1];
    if CutIsHarmless(first, maxFrames) {
      forall x | x in first
        ensures x in first[..maxFrames]
      {
        var i :| 0 <= i < |first| && first[i] == x;
        if i >= maxFrames {
          assert Le(first[maxFrames - 1], first[i]) || i == maxFrames - 1;
          assert i < |first| - 1 ==> Le(first[i], last);
          assert x == first[maxFrames - 1];
          assert first[..maxFrames][maxFrames - 1] == x;
        } else {
          assert first[..maxFrames][i] == x;
        }
      }
    } else {
      assert first[|first| - 1] in first;
      LastInCut(first, maxFrames);
    }
  }

  lemma LastInCut(first: seq<int>, maxFrames: nat)
    requires IsSorted(first, Le) && |first| > maxFrames
    ensures first[|first| - 1] in first[..maxFrames] ==> CutIsHarmless(first, maxFrames)
  {
    var last := first[|first| - 1];
    if last in first[..maxFrames] {
      var i :| 0 <= i < maxFrames && first[..maxFrames][i] == last;
      assert i < maxFrames - 1 ==> Le(first[i], first[maxFrames - 1]);
      assert Le(first[maxFrames - 1], last);
    }
  }

  /** Every scene or cue moment among the candidates is selected, exactly when nothing is thinned or the
      cut at the limit is harmless. */
  lemma PriorityKeptIff(ordered: seq<int>, priority: set<int>, maxFrames: nat)
    requires IsSorted(ordered, Le)
    ensures (forall x | x in ordered && x in priority :: x in Selection(ordered, priority, maxFrames))
            <==> |ordered| <= maxFrames || CutIsHarmless(KeepIn(ordered, priority), maxFrames)
  {
    var first := KeepIn(ordered, priority);
    KeepInMembers(ordered, priority);
    KeepInSorted(ordered, priority);
    if |ordered| > maxFrames {
      SortedDistinct(Chosen(ordered, priority, maxFrames));
      if |first| > maxFrames {
        CutKeepsAll(first, maxFrames);
      } else if |first| == maxFrames {
        assert first[..maxFrames] == first;
      }
    }
  }

  // ----- from scene and cue times to moments -----------------------------------------------------

  lemma {:induction false} GridWithin(candidates: seq<real>, duration: real, count: int, index: nat)
    requires count >= 1 && duration >= 0.0
    requires forall v | v in candidates :: 0.0 <= v <= duration
    ensures forall v | v in AddGrid(candidates, duration, count, index) :: 0.0 <= v <= duration
    decreases count - index
  {
    if index < count {
      GridPointWithin(duration, count, index);
      GridWithin(Add(candidates, GridPoint(duration, count, index)), duration, count, index + 1);
    }
  }

  lemma GridPointWithin(duration: real, count: int, index: nat)
    requires count >= 1 && duration >= 0.0 && index < count
    ensures 0.0 <= GridPoint(duration, count, index) <= duration
  {
    if count > 1 {
      var i, n := index as real, (count - 1) as real;
      assert 0.0 <= duration * i <= duration * n;
      ScaleDown(duration * i, duration, n);
    }
  }

  lemma ScaleDown(x: real, d: real, n: real)
    requires n > 0.0 && 0.0 <= x <= d * n
    ensures 0.0 <= x / n <= d
  {
    var q := x / n;
    assert q * n == x;
    ScaleOrder(d, q, n);
    ScaleOrder(q, 0.0, n);
  }

  lemma ScaleOrder(a: real, b: real, n: real)
    requires n > 0.0
    ensures a < b ==> a * n < b * n
  {
    assert (b - a) * n == b * n - a * n;
  }

  lemma {:induction false} TimesAdded(candidates: seq<real>, times: seq<real>, duration: real)
    ensures forall v :: v in AddTimes(candidates, times, duration)
                        <==> v in candidates || (v in times && 0.0 <= v <= duration)
    decreases |times|
  {
    if times != [] {
      var next := if 0.0 <= times[0] <= duration then Add(candidates, times[0]) else candidates;
      TimesAdded(next, times[1..], duration);
      assert forall v :: v in times <==> v == times[0] || v in times[1..];
    }
  }

  /** Candidates lie within the media and contain every in-range scene and cue time. */
  lemma CandidatesWithin(duration: real, count: int, times: seq<real>)
    requires count >= 1 && duration > 0.0
    ensures forall v | v in Candidates(duration, count, times) :: 0.0 <= v <= duration
    ensures forall v | v in times && 0.0 <= v <= duration :: v in Candidates(duration, count, times)
  {
    GridWithin([], duration, count, 0);
    TimesAdded(AddGrid([], duration, count, 0), times, duration);
  }

  lemma OrderedFacts(candidates: seq<real>, duration: real)
    ensures IsSorted(Ordered(candidates, duration), Le)
    ensures |Ordered(candidates, duration)| == |candidates|
    ensures forall v | v in candidates :: Tick(v, duration) in Ordered(candidates, duration)
    ensures forall t | t in Ordered(candidates, duration) :: exists v | v in candidates :: t == Tick(v, duration)
  {
    var ticks := Ticks(candidates, duration);
    LeIsTotal();
    SortedSorts(ticks, Le);
    SortedKeeps(ticks, Le);
    forall v | v in candidates
      ensures Tick(v, duration) in Ordered(candidates, duration)
    {
      var i :| 0 <= i < |candidates| && candidates[i] == v;
      assert ticks[i] == Tick(v, duration);
    }
    forall t | t in Ordered(candidates, duration)
      ensures exists v | v in candidates :: t == Tick(v, duration)
    {
      assert t in ticks;
      var i :| 0 <= i < |ticks| && ticks[i] == t;
      assert candidates[i] in candidates;
    }
  }

  /** The moments returned for any request. */
  function Frames(duration: real, mode: Mode, times: seq<real>, maxFrames: int): seq<int>
    requires maxFrames > 0
  {
    if mode.Quick? then []
    else Selection(Ordered(Candidates(duration, TargetCount(mode, duration, maxFrames), times), duration),
                   Priority(times), maxFrames)
  }

  /** For every request: in order, within the media rounded to a millisecond, at most the limit. */
  lemma FramesAreSound(duration: real, mode: Mode, times: seq<real>, maxFrames: int)
    requires duration > 0.0 && maxFrames > 0
    ensures var s := Frames(duration, mode, times, maxFrames);
            IsSorted(s, Le) && |s| <= maxFrames && forall t | t in s :: 0 <= t <= RoundEven(duration)
  {
    if !mode.Quick? {
      var candidates := Candidates(duration, TargetCount(mode, duration, maxFrames), times);
      var ordered := Ordered(candidates, duration);
      OrderedFacts(candidates, duration);
      SelectionIsSound(ordered, Priority(times), maxFrames);
      forall t | t in ordered
        ensures 0 <= t <= RoundEven(duration)
      {
        var v :| v in candidates && t == Tick(v, duration);
        RoundWhole(0);
        RoundMonotone(0.0, if v < 0.0 then 0.0 else if v > duration then duration else v);
        RoundMonotone(if v < 0.0 then 0.0 else if v > duration then duration else v, duration);
      }
    }
  }

  /** Where the `j`-th of `count` even steps through `size` places falls. */
  function EvenSpot(size: nat, count: nat, j: nat): int
    requires count > 0
  {
    j * size / count
  }

  lemma SampleSpot(size: nat, count: nat, j: nat)
    requires j < count <= size
    ensures EvenSpot(size, count, j) == SampleIndex(size, count, j) < size
  {
    InRange(size, count, j);
  }

  lemma TopUp(ordered: seq<int>, priority: set<int>, maxFrames: nat, j: nat)
    requires |KeepIn(ordered, priority)| < maxFrames < |ordered| && j < maxFrames - |KeepIn(ordered, priority)|
    ensures var rest, n := KeepOut(ordered, priority), maxFrames - |KeepIn(ordered, priority)|;
            n <= |rest| && rest[SampleIndex(|rest|, n, j)] in Chosen(ordered, priority, maxFrames)
  {
    var first := KeepIn(ordered, priority);
    KeptSizes(ordered, priority);
    forall i | 0 <= i < |ordered|
      ensures ordered[i] in priority <==> ordered[i] in Members(first)
    {
      KeptAt(ordered, priority, i);
    }
    SameOut(ordered, priority, Members(first));
    var samples := Samples(KeepOut(ordered, priority), maxFrames - |first|);
    assert samples[j] in samples;
    assert Chosen(ordered, priority, maxFrames) == first + samples;
  }

  /** Below the limit the priority moments are topped up with evenly spread moments of the rest. */
  lemma TopUpIsSpread(ordered: seq<int>, priority: set<int>, maxFrames: nat, j: nat)
    requires |KeepIn(ordered, priority)| < maxFrames < |ordered| && j < maxFrames - |KeepIn(ordered, priority)|
    ensures var rest, n := KeepOut(ordered, priority), maxFrames - |KeepIn(ordered, priority)|;
            0 <= EvenSpot(|rest|, n, j) < |rest|
            && rest[EvenSpot(|rest|, n, j)] in Selection(ordered, priority, maxFrames)
  {
    var rest, n := KeepOut(ordered, priority), maxFrames - |KeepIn(ordered, priority)|;
    TopUp(ordered, priority, maxFrames, j);
    SampleSpot(|rest|, n, j);
    ChosenAreSelected(ordered, priority, maxFrames, rest[SampleIndex(|rest|, n, j)]);
  }

  lemma ChosenAreSelected(ordered: seq<int>, priority: set<int>, maxFrames: nat, x: int)
    requires maxFrames < |ordered| && x in Chosen(ordered, priority, maxFrames)
    ensures x in Selection(ordered, priority, maxFrames)
  {
    SortedDistinct(Chosen(ordered, priority, maxFrames));
  }

  lemma {:induction false} SameOut(s: seq<int>, a: set<int>, b: set<int>)
    requires forall i | 0 <= i < |s| :: s[i] in a <==> s[i] in b
    ensures KeepOut(s, a) == KeepOut(s, b)
  {
    if s != [] {
      SameOut(s[1..], a, b);
    }
  }

  // ----- the grid ------------------------------------------------------------------------------

  /** Rounding goes to the nearest whole number, and from the middle between two to the even one. */
  lemma RoundsTo(x: real, n: int)
    ensures n == RoundEven(x)
            <==> -1.0 <= 2.0 * (n as real - x) <= 1.0
                 && (2.0 * (n as real - x) == 1.0 || 2.0 * (n as real - x) == -1.0 ==> n % 2 == 0)
  {
    var down := x.Floor;
    assert down as real <= x < (down + 1) as real;
    assert -1.0 <= 2.0 * (n as real - x) <= 1.0 ==> n == down || n == down + 1;
  }

  /** The grid has one point for every 90, 45, 45 and 60 seconds by mode, give or take half of one, but at
      least 6, 12, 12 and 8, and never more than the limit. */
  lemma GridSizes(mode: Mode, duration: real, maxFrames: int)
    requires duration > 0.0 && maxFrames > 0 && !mode.Quick?
    ensures var every := match mode case Standard => 90_000.0 case Archive => 60_000.0 case _ => 45_000.0;
            var least := match mode case Standard => 6 case Archive => 8 case _ => 12;
            var count := TargetCount(mode, duration, maxFrames);
            && 1 <= count <= maxFrames
            && (count < maxFrames ==> count >= least)
            && (count < maxFrames ==> count as real >= duration / every - 0.5)
            && (count > least ==> count as real <= duration / every + 0.5)
  {
    RoundsTo(duration / 90_000.0, RoundEven(duration / 90_000.0));
    RoundsTo(duration / 45_000.0, RoundEven(duration / 45_000.0));
    RoundsTo(duration / 60_000.0, RoundEven(duration / 60_000.0));
  }

  /** The grid runs from the beginning to the end in equal steps; a single point is the middle. */
  lemma GridIsEven(duration: real, count: int, i: nat)
    requires count >= 1 && i + 1 < count
    ensures GridPoint(duration, count, 0) == 0.0 && GridPoint(duration, count, count - 1) == duration
    ensures (GridPoint(duration, count, i + 1) - GridPoint(duration, count, i)) * (count - 1) as real == duration
    ensures GridPoint(duration, 1, 0) * 2.0 == duration
  {
    var n := (count - 1) as real;
    assert GridPoint(duration, count, i + 1) * n == duration * (i + 1) as real;
    assert GridPoint(duration, count, i) * n == duration * i as real;
    assert duration * (i + 1) as real == duration * i as real + duration;
    assert GridPoint(duration, count, 0) == 0.0 / n by { assert duration * 0.0 == 0.0; }
    assert GridPoint(duration, count, count - 1) == duration * n / n;
  }

  // ----- which times get a frame -----------------------------------------------------------------

  predicate AllTimesKept(times: seq<real>, duration: real, frames: seq<int>) {
    forall v | v in times && 0.0 <= v <= duration :: RoundEven(v) in frames
  }

  function Grid(duration: real, count: int): set<real>
    requires count >= 1
  {
    set i | 0 <= i < count :: GridPoint(duration, count, i)
  }

  function InRangeTimes(duration: real, times: seq<real>): set<real> {
    set v | v in times && 0.0 <= v <= duration
  }

  /** The grid points and the times within the media that take a millisecond some time asks for. */
  function Claimants(duration: real, count: int, times: seq<real>): set<real>
    requires count >= 1
  {
    set c | c in Grid(duration, count) + InRangeTimes(duration, times) && RoundEven(c) in Priority(times)
  }

  /** Those that come before the millisecond of `v`. */
  function Ahead(duration: real, count: int, times: seq<real>, v: real): set<real>
    requires count >= 1
  {
    set c | c in Claimants(duration, count, times) && RoundEven(c) < RoundEven(v)
  }

  lemma {:induction false} GridAdds(candidates: seq<real>, duration: real, count: int, index: nat)
    requires count >= 1 && AllDifferent(candidates)
    ensures AllDifferent(AddGrid(candidates, duration, count, index))
    ensures forall v :: v in AddGrid(candidates, duration, count, index)
                        <==> v in candidates || exists i | index <= i < count :: v == GridPoint(duration, count, i)
    decreases count - index
  {
    if index < count {
      var next := Add(candidates, GridPoint(duration, count, index));
      GridAdds(next, duration, count, index + 1);
      assert forall v :: v in next <==> v in candidates || v == GridPoint(duration, count, index);
    }
  }

  lemma {:induction false} TimesAddDifferent(candidates: seq<real>, times: seq<real>, duration: real)
    requires AllDifferent(candidates)
    ensures AllDifferent(AddTimes(candidates, times, duration))
    decreases |times|
  {
    if times != [] {
      TimesAddDifferent(if 0.0 <= times[0] <= duration then Add(candidates, times[0]) else candidates, times[1..],
                        duration);
    }
  }

  /** The candidates are the grid and the in-range times, each once. */
  lemma CandidateSet(duration: real, count: int, times: seq<real>)
    requires count >= 1
    ensures AllDifferent(Candidates(duration, count, times))
    ensures forall v :: v in Candidates(duration, count, times)
                        <==> v in Grid(duration, count) + InRangeTimes(duration, times)
  {
    GridAdds([], duration, count, 0);
    TimesAdded(AddGrid([], duration, count, 0), times, duration);
    TimesAddDifferent(AddGrid([], duration, count, 0), times, duration);
  }

  lemma {:induction false} SizeOfDifferent(s: seq<real>, all: set<real>)
    requires AllDifferent(s) && forall v :: v in s <==> v in all
    ensures |s| == |all|
    decreases |s|
  {
    if s == [] {
      forall v
        ensures v !in all
      {
        assert v in s <==> v in all;
      }
      assert all == {};
    } else {
      var rest := s[1..];
      assert forall k | 0 <= k < |rest| :: rest[k] == s[k + 1];
      assert s[0] in all && s[0] !in rest;
      assert forall v :: v in s <==> v == s[0] || v in rest;
      SizeOfDifferent(rest, all - {s[0]});
    }
  }

  // ----- counting the claimants of wanted milliseconds

  lemma {:induction false} KeepInCounts(s: seq<int>, wanted: set<int>, x: int)
    ensures multiset(KeepIn(s, wanted))[x] == if x in wanted then multiset(s)[x] else 0
  {
    if s != [] {
      KeepInCounts(s[1..], wanted, x);
      assert s == [s[0]] + s[1..];
    }
  }

  lemma KeepInRearranged(a: seq<int>, b: seq<int>, wanted: set<int>)
    requires multiset(a) == multiset(b)
    ensures |KeepIn(a, wanted)| == |KeepIn(b, wanted)|
  {
    forall x
      ensures multiset(KeepIn(a, wanted))[x] == multiset(KeepIn(b, wanted))[x]
    {
      KeepInCounts(a, wanted, x);
      KeepInCounts(b, wanted, x);
    }
    assert multiset(KeepIn(a, wanted)) == multiset(KeepIn(b, wanted));
    SameMembers(KeepIn(a, wanted), KeepIn(b, wanted));
  }

  lemma {:induction false} KeptTicks(candidates: seq<real>, duration: real, wanted: set<int>)
    requires AllDifferent(candidates)
    ensures |KeepIn(Ticks(candidates, duration), wanted)|
            == |set c | c in candidates && Tick(c, duration) in wanted|
    decreases |candidates|
  {
    var all := set c | c in candidates && Tick(c, duration) in wanted;
    if candidates == [] {
      assert all == {};
    } else {
      var c0, rest := candidates[0], candidates[1..];
      assert forall k | 0 <= k < |rest| :: rest[k] == candidates[k + 1];
      assert c0 !in rest && forall c :: c in candidates <==> c == c0 || c in rest;
      KeptTicks(rest, duration, wanted);
      assert Ticks(candidates, duration)[1..] == Ticks(rest, duration);
      var others := set c | c in rest && Tick(c, duration) in wanted;
      assert all == if Tick(c0, duration) in wanted then others + {c0} else others;
    }
  }

  lemma {:induction false} KeepInTwice(s: seq<int>, wanted: set<int>, fewer: set<int>)
    requires fewer <= wanted
    ensures KeepIn(KeepIn(s, wanted), fewer) == KeepIn(s, fewer)
  {
    if s != [] {
      KeepInTwice(s[1..], wanted, fewer);
      var rest := KeepIn(s[1..], wanted);
      assert s[0] in wanted ==> ([s[0]] + rest)[1..] == rest;
    }
  }

  /** In a sorted list the values below `m` come first. */
  lemma {:induction false} BelowFirst(first: seq<int>, below: set<int>, m: int)
    requires IsSorted(first, Le) && forall x | x in first :: x in below <==> x < m
    ensures var k := |KeepIn(first, below)|;
            k <= |first| && (forall i | 0 <= i < k :: first[i] < m) && (forall i | k <= i < |first| :: first[i] >= m)
    decreases |first|
  {
    if first != [] {
      var rest := first[1..];
      assert forall k | 0 <= k < |rest| :: rest[k] == first[k + 1];
      assert forall x | x in rest :: x in first;
      if first[0] in below {
        assert first[0] in first;
        BelowFirst(rest, below, m);
      } else {
        assert first[0] in first && first[0] >= m;
        forall i | 0 <= i < |first|
          ensures first[i] >= m && first[i] !in below
        {
          assert first[i] in first;
          assert i > 0 ==> Le(first[0], first[i]);
        }
        NothingKept(first, below);
      }
    }
  }

  lemma {:induction false} NothingKept(s: seq<int>, wanted: set<int>)
    requires forall i | 0 <= i < |s| :: s[i] !in wanted
    ensures KeepIn(s, wanted) == []
  {
    if s != [] {
      NothingKept(s[1..], wanted);
    }
  }

  /** A wanted moment survives the cut exactly when fewer than the limit are wanted before it. */
  lemma CutKeepsOne(first: seq<int>, below: set<int>, m: int, maxFrames: nat)
    requires IsSorted(first, Le) && maxFrames <= |first| && m in first
    requires forall x | x in first :: x in below <==> x < m
    ensures m in first[..maxFrames] <==> |KeepIn(first, below)| < maxFrames
  {
    var k := |KeepIn(first, below)|;
    BelowFirst(first, below, m);
    var i :| 0 <= i < |first| && first[i] == m;
    assert i >= k;
    assert k < i ==> Le(first[k], first[i]);
    assert first[k] == m;
    if k < maxFrames {
      assert first[..maxFrames][k] == m;
    } else {
      assert forall j | 0 <= j < maxFrames :: first[..maxFrames][j] == first[j] < m;
    }
  }

  /** How many wanted moments come before `m`, in terms of the candidates. */
  lemma WantedBefore(duration: real, count: int, times: seq<real>, v: real)
    requires count >= 1 && duration > 0.0
    ensures var below := set x | x in Priority(times) && x < RoundEven(v);
            |KeepIn(KeepIn(Ordered(Candidates(duration, count, times), duration), Priority(times)), below)|
            == |Ahead(duration, count, times, v)|
  {
    var candidates, priority := Candidates(duration, count, times), Priority(times);
    var below := set x | x in priority && x < RoundEven(v);
    CandidateSet(duration, count, times);
    CandidatesWithin(duration, count, times);
    KeepInTwice(Ordered(candidates, duration), priority, below);
    SortedMultiset(Ticks(candidates, duration), Le);
    KeepInRearranged(Ordered(candidates, duration), Ticks(candidates, duration), below);
    KeptTicks(candidates, duration, below);
    var counted := set c | c in candidates && Tick(c, duration) in below;
    assert forall c | c in candidates :: Tick(c, duration) == RoundEven(c);
    assert counted == Ahead(duration, count, times, v);
  }

  /** One in-range time gets a frame exactly when nothing is thinned or fewer than the limit claim an
      earlier millisecond. */
  lemma TimeKeptIff(duration: real, mode: Mode, times: seq<real>, maxFrames: int, v: real)
    requires duration > 0.0 && maxFrames > 0 && !mode.Quick? && v in times && 0.0 <= v <= duration
    ensures var count := TargetCount(mode, duration, maxFrames);
            RoundEven(v) in Frames(duration, mode, times, maxFrames)
            <==> |Candidates(duration, count, times)| <= maxFrames || |Ahead(duration, count, times, v)| < maxFrames
  {
    var count := TargetCount(mode, duration, maxFrames);
    var candidates, priority := Candidates(duration, count, times), Priority(times);
    var ordered, m := Ordered(candidates, duration), RoundEven(v);
    var first, below := KeepIn(ordered, priority), set x | x in priority && x < m;
    OrderedFacts(candidates, duration);
    CandidatesWithin(duration, count, times);
    assert Tick(v, duration) == m && m in ordered && m in priority;
    KeepInMembers(ordered, priority);
    KeepInSorted(ordered, priority);
    WantedBefore(duration, count, times, v);
    assert |KeepIn(first, below)| == |Ahead(duration, count, times, v)|;
    if |ordered| > maxFrames {
      SortedDistinct(Chosen(ordered, priority, maxFrames));
      if |first| >= maxFrames {
        CutKeepsOne(first, below, m, maxFrames);
      } else {
        BelowFirst(first, below, m);
      }
    }
  }

  /** Every in-range scene and cue time gets a frame exactly when the grid and the in-range times fit the
      limit, or before each such time fewer than the limit claim a millisecond that some time asks for.
      A grid point next to a time claims like a time. */
  lemma TimesKeptIff(duration: real, mode: Mode, times: seq<real>, maxFrames: int)
    requires duration > 0.0 && maxFrames > 0 && !mode.Quick?
    ensures var count := TargetCount(mode, duration, maxFrames);
            AllTimesKept(times, duration, Frames(duration, mode, times, maxFrames))
            <==> |Grid(duration, count) + InRangeTimes(duration, times)| <= maxFrames
                 || forall v | v in InRangeTimes(duration, times) :: |Ahead(duration, count, times, v)| < maxFrames
  {
    var count := TargetCount(mode, duration, maxFrames);
    CandidateSet(duration, count, times);
    SizeOfDifferent(Candidates(duration, count, times), Grid(duration, count) + InRangeTimes(duration, times));
    forall v | v in times && 0.0 <= v <= duration
      ensures RoundEven(v) in Frames(duration, mode, times, maxFrames)
              <==> |Candidates(duration, count, times)| <= maxFrames || |Ahead(duration, count, times, v)| < maxFrames
    {
      TimeKeptIff(duration, mode, times, maxFrames, v);
    }
  }

  /** So every in-range time gets a frame when those times, with the grid points that share a millisecond
      with one, are at most the limit. */
  lemma FewClaimantsAllKept(duration: real, mode: Mode, times: seq<real>, maxFrames: int)
    requires duration > 0.0 && maxFrames > 0 && !mode.Quick?
    requires |Claimants(duration, TargetCount(mode, duration, maxFrames), times)| <= maxFrames
    ensures AllTimesKept(times, duration, Frames(duration, mode, times, maxFrames))
  {
    var count := TargetCount(mode, duration, maxFrames);
    var claimants := Claimants(duration, count, times);
    forall v | v in InRangeTimes(duration, times)
      ensures |Ahead(duration, count, times, v)| < maxFrames
    {
      var ahead := Ahead(duration, count, times, v);
      assert v in claimants && v !in ahead && ahead <= claimants - {v};
      SmallerSet(ahead, claimants - {v});
    }
    TimesKeptIff(duration, mode, times, maxFrames);
  }

  lemma {:induction false} SmallerSet(a: set<real>, b: set<real>)
    requires a <= b
    ensures |a| <= |b|
  {
    assert b == a + (b - a);
  }

  /** Without a shared millisecond the limit is used up: thinning leaves exactly `maxFrames` moments. */
  lemma ThinningUsesTheLimit(ordered: seq<int>, priority: set<int>, maxFrames: nat)
    requires StrictlyIncreasing(ordered) && |ordered| > maxFrames
    ensures |Selection(ordered, priority, maxFrames)| == maxFrames
  {
    var chosen := Chosen(ordered, priority, maxFrames);
    ChosenMembers(ordered, priority, maxFrames);
    ChosenDistinct(ordered, priority, maxFrames);
    DistinctFixes(chosen);
    SortedKeeps(Distinct(chosen), Le);
  }

  lemma {:induction false} DistinctFixes(s: seq<int>)
    requires forall i, j | 0 <= i < j < |s| :: s[i] != s[j]
    ensures Distinct(s) == s
  {
    if s != [] {
      assert forall k | 0 <= k < |s[1..]| :: s[1..][k] == s[k + 1];
      assert s[0] !in s[1..];
      DistinctFixes(s[1..]);
      assert [s[0]] + s[1..] == s;
    }
  }

  lemma ConsIncreasing(x: int, s: seq<int>)
    requires StrictlyIncreasing(s) && forall y | y in s :: x < y
    ensures StrictlyIncreasing([x] + s)
  {
    forall j | 0 <= j < |s|
      ensures x < s[j]
    {
      assert s[j] in s;
    }
  }

  lemma {:induction false} KeptIncreasing(ordered: seq<int>, wanted: set<int>)
    requires StrictlyIncreasing(ordered)
    ensures StrictlyIncreasing(KeepIn(ordered, wanted)) && StrictlyIncreasing(KeepOut(ordered, wanted))
  {
    if ordered != [] {
      var x, rest := ordered[0], ordered[1..];
      assert StrictlyIncreasing(rest);
      KeptIncreasing(rest, wanted);
      KeepInMembers(rest, wanted);
      KeepOutMembers(rest, wanted);
      if x in wanted {
        ConsIncreasing(x, KeepIn(rest, wanted));
      } else {
        ConsIncreasing(x, KeepOut(rest, wanted));
      }
    }
  }

  lemma PickIncreasing(values: seq<int>, indices: seq<nat>)
    requires StrictlyIncreasing(values)
    requires forall i | 0 <= i < |indices| :: indices[i] < |values|
    requires forall i, j | 0 <= i < j < |indices| :: indices[i] < indices[j]
    ensures StrictlyIncreasing(PickAt(values, indices))
  {
  }

  lemma SamplesIncrease(remaining: seq<int>, count: nat)
    requires StrictlyIncreasing(remaining) && 0 < count <= |remaining|
    ensures StrictlyIncreasing(Samples(remaining, count))
  {
    var indices := SampleIndices(|remaining|, count);
    forall i, j | 0 <= i < j < count
      ensures indices[i] < indices[j]
    {
      SampleIndicesIncrease(|remaining|, count, i, j);
    }
    PickIncreasing(remaining, indices);
  }

  lemma TopUpDistinct(ordered: seq<int>, first: seq<int>, count: nat)
    requires StrictlyIncreasing(ordered) && StrictlyIncreasing(first)
    requires 0 < count <= |KeepOut(ordered, Members(first))|
    ensures var chosen := first + Samples(KeepOut(ordered, Members(first)), count);
            forall i, j | 0 <= i < j < |chosen| :: chosen[i] != chosen[j]
  {
    KeptIncreasing(ordered, Members(first));
    SamplesIncrease(KeepOut(ordered, Members(first)), count);
    SamplesOutside(ordered, Members(first), count);
    Apart(first, Samples(KeepOut(ordered, Members(first)), count));
  }

  lemma ChosenDistinct(ordered: seq<int>, priority: set<int>, maxFrames: nat)
    requires StrictlyIncreasing(ordered) && |ordered| > maxFrames
    ensures var chosen := Chosen(ordered, priority, maxFrames);
            forall i, j | 0 <= i < j < |chosen| :: chosen[i] != chosen[j]
  {
    var first, chosen := KeepIn(ordered, priority), Chosen(ordered, priority, maxFrames);
    KeptIncreasing(ordered, priority);
    if |first| >= maxFrames {
      assert chosen == first[..maxFrames];
    } else {
      KeptSizes(ordered, priority);
      assert chosen == first + Samples(KeepOut(ordered, Members(first)), maxFrames - |first|);
      TopUpDistinct(ordered, first, maxFrames - |first|);
    }
  }

  lemma SamplesOutside(ordered: seq<int>, unwanted: set<int>, count: nat)
    requires KeepOut(ordered, unwanted) != []
    ensures forall x | x in Samples(KeepOut(ordered, unwanted), count) :: x !in unwanted
  {
    KeepOutMembers(ordered, unwanted);
    PickAtMembers(KeepOut(ordered, unwanted), SampleIndices(|KeepOut(ordered, unwanted)|, count));
  }

  lemma Apart(a: seq<int>, b: seq<int>)
    requires StrictlyIncreasing(a) && StrictlyIncreasing(b) && forall x | x in b :: x !in Members(a)
    ensures forall i, j | 0 <= i < j < |a + b| :: (a + b)[i] != (a + b)[j]
  {
    forall i, j | 0 <= i < j < |a + b|
      ensures (a + b)[i] != (a + b)[j]
    {
      if i < |a| <= j {
        assert b[j - |a|] in b && a[i] in a;
      }
    }
  }
}
