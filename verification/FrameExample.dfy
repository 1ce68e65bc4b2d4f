/** A request on which the frame selection loses a cue although the limit would admit all of them. */
module FrameExample {
  import opened FrameSelection

  const CUES: seq<real> := [333.0, 667.0, 700.0]

  lemma GridIs()
    ensures 333.3 < GridPoint(1000.0, 4, 1) < 333.4 && 666.6 < GridPoint(1000.0, 4, 2) < 666.7
    ensures GridPoint(1000.0, 4, 0) == 0.0 && GridPoint(1000.0, 4, 3) == 1000.0
    ensures Grid(1000.0, 4) == {0.0, GridPoint(1000.0, 4, 1), GridPoint(1000.0, 4, 2), 1000.0}
  {
    assert GridPoint(1000.0, 4, 1) * 3.0 == 1000.0 && GridPoint(1000.0, 4, 2) * 3.0 == 2000.0;
  }

  lemma CuesAre()
    ensures InRangeTimes(1000.0, CUES) == {333.0, 667.0, 700.0}
    ensures Priority(CUES) == {333, 667, 700}
  {
    assert CUES[0] in CUES && CUES[1] in CUES && CUES[2] in CUES;
    assert RoundEven(333.0) == 333 && RoundEven(667.0) == 667 && RoundEven(700.0) == 700;
  }

  /** Two cues and the two grid points beside them come before the last cue. */
  lemma AheadOfTheLast()
    ensures Ahead(1000.0, 4, CUES, 700.0) == {333.0, 667.0, GridPoint(1000.0, 4, 1), GridPoint(1000.0, 4, 2)}
  {
    GridIs();
    CuesAre();
    var third, thirds := GridPoint(1000.0, 4, 1), GridPoint(1000.0, 4, 2);
    assert third.Floor == 333 && thirds.Floor == 666;
    assert RoundEven(third) == 333 && RoundEven(thirds) == 667 && RoundEven(0.0) == 0 && RoundEven(1000.0) == 1000;
    assert RoundEven(333.0) == 333 && RoundEven(667.0) == 667 && RoundEven(700.0) == 700;
  }

  lemma FourAreAhead()
    ensures |Ahead(1000.0, 4, CUES, 700.0)| == 4
  {
    GridIs();
    AheadOfTheLast();
    var some := {333.0, 667.0};
    assert Ahead(1000.0, 4, CUES, 700.0) == some + {GridPoint(1000.0, 4, 1)} + {GridPoint(1000.0, 4, 2)};
  }

  lemma MoreThanTheLimit()
    ensures |Grid(1000.0, 4) + InRangeTimes(1000.0, CUES)| > 4
  {
    GridIs();
    CuesAre();
    var all, some := Grid(1000.0, 4) + InRangeTimes(1000.0, CUES), {0.0, 333.0, 667.0, 700.0, 1000.0};
    assert some <= all;
    SmallerSet(some, all);
  }

  /** A cue next to a grid point of the same millisecond is counted twice and can push another cue out:
      three cues, a limit of four, and the last cue gets no frame. */
  lemma SharedMillisecondDropsCue()
    ensures !AllTimesKept(CUES, 1000.0, Frames(1000.0, Standard, CUES, 4))
  {
    CuesAre();
    FourAreAhead();
    MoreThanTheLimit();
    assert TargetCount(Standard, 1000.0, 4) == 4;
    TimesKeptIff(1000.0, Standard, CUES, 4);
  }
}
