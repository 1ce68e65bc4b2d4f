/** The release monitor of one title: one stored row, changed by set, automatic check, tick, ack and
    release of a claim.  Calls do not overlap. */
module ReleaseMonitor {
  import opened Wrappers

  /** A release key: absent, or the canonical text "SxxEyy" of a season and an episode, or other text. */
  datatype Key = NoKey | Episode(season: nat, episode: nat) | Other(text: string)

  /** An air date, if any, as a day number. */
  datatype Air = NoAir | On(day: int)

  datatype State = Monitored | Off | Waiting | ReleaseKnown | Available | Acknowledged

  datatype Row = Row(
    enabled: bool, overrideOn: bool, isTv: bool,
    baseline: Key, baselineSeason: nat, baselineEpisode: nat, baselineAir: Air,
    pending: Key, pendingSeason: nat, pendingEpisode: nat, pendingAir: Air,
    state: State, claim: Option<string>, notified: Key, lastCheck: int)

  /** The latest episode found on the series page; its pattern allows three and four digits. */
  datatype Snapshot = Snapshot(key: Key, season: nat, episode: nat, air: Air)

  predicate FromPage(s: Snapshot) {
    if s.key.NoKey? then s.season == 0 && s.episode == 0 && s.air.NoAir?
    else s.key == Episode(s.season, s.episode) && InRange(s.key)
  }

  type PageSnapshot = s: Snapshot | FromPage(s) witness Snapshot(NoKey, 0, 0, NoAir)

  /** A playable source of a job; absent numbers count as zero. */
  datatype Source = Source(trailer: bool, season: nat, episode: nat)

  datatype Job = Job(isTv: bool, sources: seq<Source>)

  // ----- keys ----------------------------------------------------------------------------------

  type Pair = (nat, nat)

  predicate Less(a: Pair, b: Pair) {
    a.0 < b.0 || (a.0 == b.0 && a.1 < b.1)
  }

  predicate InRange(k: Key) {
    k.Episode? && k.season < 1000 && k.episode < 10000
  }

  /** The order the tick compares by: keys that do not match the pattern count as (0, 0). */
  function ReleaseTuple(k: Key): Pair {
    if InRange(k) then (k.season, k.episode) else (0, 0)
  }

  /** The order that is meant. */
  predicate Earlier(a: Key, b: Key) {
    a.Episode? && b.Episode? && Less((a.season, a.episode), (b.season, b.episode))
  }

  // ----- sources -------------------------------------------------------------------------------

  function Best(best: Pair, sources: seq<Source>): Pair
    decreases |sources|
  {
    if sources == [] then best
    else
      var s := sources[0];
      Best(if !s.trailer && Less(best, (s.season, s.episode)) then (s.season, s.episode) else best, sources[1..])
  }

  method SourceMax(sources: seq<Source>) returns (best: Pair)
    ensures best == Best((0, 0), sources)
  {
    best := (0, 0);
    var i := 0;
    while i < |sources|
      invariant 0 <= i <= |sources|
      invariant Best((0, 0), sources) == Best(best, sources[i..])
    {
      var s := sources[i];
      assert sources[i..][0] == s && sources[i..][1..] == sources[i + 1..];
      if !s.trailer {
        var current := (s.season, s.episode);
        if Less(best, current) {
          best := current;
        }
      }
      i := i + 1;
    }
  }

  /** The loop finds the largest pair among the sources that are not trailers. */
  lemma {:induction false} BestIsLargest(best: Pair, sources: seq<Source>)
    ensures var r := Best(best, sources);
            && !Less(r, best)
            && (forall s | s in sources && !s.trailer :: !Less(r, (s.season, s.episode)))
            && (r == best || exists s | s in sources :: !s.trailer && r == (s.season, s.episode))
    decreases |sources|
  {
    if sources != [] {
      var s := sources[0];
      BestIsLargest(if !s.trailer && Less(best, (s.season, s.episode)) then (s.season, s.episode) else best, sources[1..]);
      assert s in sources && forall x | x in sources[1..] :: x in sources;
    }
  }

  predicate HasFullSource(job: Job) {
    exists s | s in job.sources :: !s.trailer
  }

  /** What the fallback takes from a job when the series page cannot be read. */
  function Fallback(job: Job): Snapshot {
    var best := Best((0, 0), job.sources);
    Snapshot(if best.0 > 0 && best.1 > 0 then Episode(best.0, best.1) else NoKey, best.0, best.1, NoAir)
  }

  // ----- the calls -----------------------------------------------------------------------------

  datatype Call =
    | Set(job: Job, enabled: bool, page: Option<PageSnapshot>)
    | Auto(job: Job, page: Option<PageSnapshot>)
    | Tick(occurrence: string, page: Option<PageSnapshot>, localized: bool, now: int, today: int)
    | Ack(key: Key, occurrence: string)
    | Free(occurrence: string)

  datatype Event =
    | Quiet
    | Notification(key: Key, season: nat, episode: nat, occurrence: string)
    | Acked(key: Key, occurrence: string)
    | Freed(occurrence: string)

  function ClaimText(row: Row): string {
    match row.claim
    case None => ""
    case Some(text) => text
  }

  /** Baseline columns as `set` computes them before it writes. */
  function BaselineFor(row: Option<Row>, job: Job, enabled: bool, page: Option<PageSnapshot>): Snapshot {
    var stored := if row.None? then Snapshot(NoKey, 0, 0, NoAir)
               else Snapshot(row.value.baseline, row.value.baselineSeason, row.value.baselineEpisode, row.value.baselineAir);
    if enabled && stored.key.NoKey? then
      match page
      case Some(s) => s
      case None => Fallback(job).(air := stored.air)
    else stored
  }

  /** The upsert: stored baseline columns survive, each column on its own. */
  function Upserted(row: Option<Row>, isTv: bool, enabled: bool, b: Snapshot): Row {
    match row
    case None =>
      Row(enabled, enabled, isTv, b.key, b.season, b.episode, b.air, NoKey, 0, 0, NoAir,
          if enabled then Monitored else Off, None, NoKey, 0)
    case Some(r) =>
      r.(enabled := enabled, overrideOn := enabled, isTv := isTv,
         baseline := if r.baseline.NoKey? then b.key else r.baseline,
         baselineSeason := if r.baselineSeason == 0 then b.season else r.baselineSeason,
         baselineEpisode := if r.baselineEpisode == 0 then b.episode else r.baselineEpisode,
         baselineAir := if r.baselineAir.NoAir? then b.air else r.baselineAir,
         state := if !enabled then Off else if !r.pending.NoKey? then r.state else Monitored)
  }

  function AfterSet(row: Option<Row>, job: Job, wanted: bool, page: Option<PageSnapshot>): Row {
    var enabled := wanted && job.isTv;
    var b := BaselineFor(row, job, enabled, page);
    var r := Upserted(row, job.isTv, enabled, b);
    if enabled && !HasFullSource(job) && r.pending.NoKey? && !b.key.NoKey? then
      r.(pending := b.key, pendingSeason := b.season, pendingEpisode := b.episode, pendingAir := b.air, state := Waiting)
    else r
  }

  function AfterAuto(row: Option<Row>, job: Job, page: Option<PageSnapshot>): Option<Row> {
    if row.None? then None
    else if row.value.overrideOn then
      if row.value.enabled && !HasFullSource(job) && row.value.pending.NoKey? then Some(AfterSet(row, job, true, page))
      else row
    else if row.value.enabled then Some(row.value.(enabled := false, state := Off))
    else row
  }

  predicate IsDue(air: Air, today: int) {
    air.NoAir? || air.day <= today
  }

  predicate Ticks(row: Row) {
    row.enabled && row.overrideOn && row.isTv
  }

  predicate CheckDue(row: Row, now: int) {
    row.lastCheck == 0 || now - row.lastCheck >= 20 * 3600
  }

  predicate AcceptsRelease(row: Row, s: Snapshot) {
    && !s.key.NoKey? && !row.baseline.NoKey? && row.pending.NoKey?
    && Less(ReleaseTuple(row.baseline), ReleaseTuple(s.key)) && s.key != row.notified
  }

  /** The release check of a tick. */
  function Checked(row: Row, page: Option<PageSnapshot>, now: int, today: int): Row {
    if !CheckDue(row, now) then row
    else
      var r := row.(lastCheck := now);
      match page
      case None => r
      case Some(s) =>
        if !s.key.NoKey? && row.baseline.NoKey? then
          r.(baseline := s.key, baselineSeason := s.season, baselineEpisode := s.episode, baselineAir := s.air,
             state := Monitored)
        else if AcceptsRelease(row, s) then
          r.(pending := s.key, pendingSeason := s.season, pendingEpisode := s.episode, pendingAir := s.air,
             state := if IsDue(s.air, today) then Waiting else ReleaseKnown)
        else r
  }

  predicate Claims(row: Row, localized: bool, today: int) {
    && !row.pending.NoKey? && IsDue(row.pendingAir, today) && localized
    && row.notified != row.pending && ClaimText(row) == ""
  }

  function AfterTick(row: Row, occurrence: string, page: Option<PageSnapshot>, localized: bool, now: int, today: int)
    : (Row, Event)
  {
    if !Ticks(row) then (row, Quiet)
    else
      var r := Checked(row, page, now, today);
      if Claims(r, localized, today) then
        (r.(state := Available, claim := Some(occurrence)),
         Notification(r.pending, r.pendingSeason, r.pendingEpisode, occurrence))
      else (r, Quiet)
  }

  predicate AckMatches(row: Row, key: Key, occurrence: string) {
    row.pending == key && ClaimText(row) == occurrence
  }

  function AfterAck(row: Row, key: Key): Row {
    row.(notified := key, baseline := key, baselineSeason := row.pendingSeason, baselineEpisode := row.pendingEpisode,
         baselineAir := row.pendingAir, pending := NoKey, pendingSeason := 0, pendingEpisode := 0, pendingAir := NoAir,
         state := Acknowledged, claim := None)
  }

  function AfterFree(row: Row): Row {
    row.(claim := None, state := if row.pending.NoKey? then row.state else Waiting)
  }

  /** One call on the stored row, if there is one. */
  function Step(row: Option<Row>, call: Call): (Option<Row>, Event) {
    match call
    case Set(job, enabled, page) => (Some(AfterSet(row, job, enabled, page)), Quiet)
    case Auto(job, page) => (AfterAuto(row, job, page), Quiet)
    case Tick(occurrence, page, localized, now, today) =>
      if row.None? then (None, Quiet)
      else
        var (r, e) := AfterTick(row.value, occurrence, page, localized, now, today);
        (Some(r), e)
    case Ack(key, occurrence) =>
      if row.Some? && AckMatches(row.value, key, occurrence) then (Some(AfterAck(row.value, key)), Acked(key, occurrence))
      else (row, Quiet)
    case Free(occurrence) =>
      if row.Some? && row.value.claim == Some(occurrence) then (Some(AfterFree(row.value)), Freed(occurrence))
      else (row, Quiet)
  }

  // ----- the stored row ------------------------------------------------------------------------

  class Monitor {
    var row: Option<Row>

    constructor ()
      ensures row == None
    {
      row := None;
    }

    method SetForJob(job: Job, wanted: bool, page: Option<PageSnapshot>)
      modifies this
      ensures row == Step(old(row), Set(job, wanted, page)).0
    {
      var enabled := wanted && job.isTv;
      var bkey, bs, be, ba := NoKey, 0, 0, NoAir;
      if row.Some? {
        bkey, bs, be, ba := row.value.baseline, row.value.baselineSeason, row.value.baselineEpisode, row.value.baselineAir;
      }
      if enabled && bkey.NoKey? {
        if page.Some? {
          bkey, bs, be, ba := page.value.key, page.value.season, page.value.episode, page.value.air;
        } else {
          var best := SourceMax(job.sources);
          bs, be := best.0, best.1;
          bkey := if bs != 0 && be != 0 then Episode(bs, be) else NoKey;
        }
      }
      row := Some(Upserted(row, job.isTv, enabled, Snapshot(bkey, bs, be, ba)));
      if enabled && !HasFullSource(job) && row.value.pending.NoKey? && !bkey.NoKey? {
        row := Some(row.value.(pending := bkey, pendingSeason := bs, pendingEpisode := be, pendingAir := ba,
                               state := Waiting));
      }
    }

    method EnsureAutoForJob(job: Job, page: Option<PageSnapshot>)
      modifies this
      ensures row == Step(old(row), Auto(job, page)).0
    {
      if row.Some? && row.value.overrideOn {
        if row.value.enabled && !HasFullSource(job) && row.value.pending.NoKey? {
          SetForJob(job, true, page);
        }
      } else if row.Some? && row.value.enabled {
        row := Some(row.value.(enabled := false, state := Off));
      }
    }

    method TickOnce(occurrence: string, page: Option<PageSnapshot>, localized: bool, now: int, today: int)
      returns (e: Event)
      modifies this
      ensures (row, e) == Step(old(row), Tick(occurrence, page, localized, now, today))
    {
      if row.None? || !row.value.enabled || !row.value.overrideOn || !row.value.isTv {
        return Quiet;
      }
      var r := row.value;
      if r.lastCheck == 0 || now - r.lastCheck >= 20 * 3600 {
        r := r.(lastCheck := now);
        if page.Some? {
          var latest := page.value;
          if !latest.key.NoKey? && r.baseline.NoKey? {
            r := r.(baseline := latest.key, baselineSeason := latest.season, baselineEpisode := latest.episode,
                    baselineAir := latest.air, state := Monitored);
          } else if !latest.key.NoKey? && r.pending.NoKey?
                    && Less(ReleaseTuple(r.baseline), ReleaseTuple(latest.key)) && latest.key != r.notified {
            r := r.(pending := latest.key, pendingSeason := latest.season, pendingEpisode := latest.episode,
                    pendingAir := latest.air, state := if IsDue(latest.air, today) then Waiting else ReleaseKnown);
          }
        }
        row := Some(r);
      }
      if !r.pending.NoKey? && IsDue(r.pendingAir, today) && localized {
        if r.notified == r.pending {
          return Quiet;
        }
        if ClaimText(r) != "" {
          return Quiet;
        }
        row := Some(r.(state := Available, claim := Some(occurrence)));
        return Notification(r.pending, r.pendingSeason, r.pendingEpisode, occurrence);
      }
      return Quiet;
    }

    method AckAlert(key: Key, occurrence: string) returns (e: Event)
      modifies this
      ensures (row, e) == Step(old(row), Ack(key, occurrence))
    {
      if row.None? || row.value.pending != key || ClaimText(row.value) != occurrence {
        return Quiet;
      }
      row := Some(AfterAck(row.value, key));
      return Acked(key, occurrence);
    }

    method ReleaseClaim(occurrence: string) returns (e: Event)
      modifies this
      ensures (row, e) == Step(old(row), Free(occurrence))
    {
      if row.Some? && row.value.claim == Some(occurrence) {
        row := Some(AfterFree(row.value));
        return Freed(occurrence);
      }
      return Quiet;
    }
  }

  // ----- runs ----------------------------------------------------------------------------------

  function RowAfter(calls: seq<Call>): Option<Row> {
    if calls == [] then None else Step(RowAfter(calls[..|calls| - 1]), calls[|calls| - 1]).0
  }

  /** One event per call. */
  function Events(calls: seq<Call>): seq<Event> {
    if calls == [] then []
    else Events(calls[..|calls| - 1]) + [Step(RowAfter(calls[..|calls| - 1]), calls[|calls| - 1]).1]
  }

  // ----- what every run keeps ------------------------------------------------------------------

  /** A claim stands for a pending release other than the last acknowledged one, which is the baseline. */
  predicate ClaimSound(r: Row) {
    && (r.claim.Some? ==> !r.pending.NoKey? && r.pending != r.notified)
    && (!r.pending.NoKey? ==> !r.baseline.NoKey?)
    && (!r.notified.NoKey? ==> r.notified == r.baseline)
  }

  predicate Sound(row: Option<Row>) {
    row.Some? ==> ClaimSound(row.value)
  }

  lemma StepKeepsSound(row: Option<Row>, call: Call)
    requires Sound(row)
    ensures Sound(Step(row, call).0)
  {
    match call
    case Set(job, enabled, page) => SetKeepsClaim(row, job, enabled, page);
    case Auto(job, page) => SetKeepsClaim(row, job, true, page);
    case _ =>
  }

  lemma SetKeepsClaim(row: Option<Row>, job: Job, wanted: bool, page: Option<PageSnapshot>)
    requires Sound(row)
    ensures var r := AfterSet(row, job, wanted, page);
            && ClaimSound(r)
            && r.claim == (if row.None? then None else row.value.claim)
            && r.notified == (if row.None? then NoKey else row.value.notified)
            && (row.Some? && !row.value.pending.NoKey? ==> r.pending == row.value.pending)
  {
  }

  /** What a job of a series contributes when the page cannot be read has no key, or one the pattern covers. */
  predicate FallbackOrdered(job: Job) {
    var k := Fallback(job).key;
    job.isTv ==> k.NoKey? || InRange(k)
  }

  predicate CallOrdered(call: Call) {
    match call
    case Set(job, _, _) => FallbackOrdered(job)
    case Auto(job, _) => FallbackOrdered(job)
    case _ => true
  }

  predicate AllOrdered(calls: seq<Call>) {
    forall i | 0 <= i < |calls| :: CallOrdered(calls[i])
  }

  /** Keys are within the pattern, and what is pending is not below the baseline. */
  predicate OrderSound(r: Row) {
    && (r.baseline.NoKey? || InRange(r.baseline))
    && (r.pending.NoKey? || InRange(r.pending))
    && !Earlier(r.pending, r.baseline)
  }

  predicate InOrder(row: Option<Row>) {
    row.Some? ==> OrderSound(row.value)
  }

  lemma SetKeepsOrder(row: Option<Row>, job: Job, wanted: bool, page: Option<PageSnapshot>)
    requires Sound(row) && InOrder(row) && FallbackOrdered(job)
    ensures OrderSound(AfterSet(row, job, wanted, page))
  {
  }

  lemma StepKeepsOrder(row: Option<Row>, call: Call)
    requires Sound(row) && InOrder(row) && CallOrdered(call)
    ensures InOrder(Step(row, call).0)
  {
    match call
    case Set(job, enabled, page) => SetKeepsOrder(row, job, enabled, page);
    case Auto(job, page) => SetKeepsOrder(row, job, true, page);
    case _ =>
  }

  /** In every run a claim stands for a pending release, not the one last acknowledged; and it is not below
      the baseline when every fallback key is within the pattern. */
  lemma {:induction false} RunsAreSound(calls: seq<Call>)
    ensures Sound(RowAfter(calls))
    ensures AllOrdered(calls) ==> InOrder(RowAfter(calls))
  {
    if calls != [] {
      var n := |calls| - 1;
      RunsAreSound(calls[..n]);
      StepKeepsSound(RowAfter(calls[..n]), calls[n]);
      if AllOrdered(calls) {
        StepKeepsOrder(RowAfter(calls[..n]), calls[n]);
      }
    }
  }

  // ----- the event trace -----------------------------------------------------------------------

  predicate Closes(e: Event, key: Key, occurrence: string) {
    e == Acked(key, occurrence) || e == Freed(occurrence)
  }

  /** Event i announced `key` under `occurrence` and nothing since has acknowledged or freed it. */
  predicate OpenAt(events: seq<Event>, i: int, key: Key, occurrence: string) {
    && 0 <= i < |events| && events[i].Notification? && events[i].key == key && events[i].occurrence == occurrence
    && forall k | i < k < |events| :: !Closes(events[k], key, occurrence)
  }

  predicate AcksIncrease(events: seq<Event>) {
    forall i, j | 0 <= i < j < |events| && events[i].Acked? && events[j].Acked? :: Earlier(events[i].key, events[j].key)
  }

  /** Between two notifications the earlier one is acknowledged or its claim released. */
  predicate NotificationsSeparated(events: seq<Event>) {
    forall i, j | 0 <= i < j < |events| && events[i].Notification? && events[j].Notification? ::
      exists k | i < k < j :: Closes(events[k], events[i].key, events[i].occurrence)
  }

  /** Every acknowledgement answers a notification of that key that was still open. */
  ghost predicate AcksAnswer(events: seq<Event>) {
    forall j | 0 <= j < |events| && events[j].Acked? ::
      exists i :: OpenAt(events[..j], i, events[j].key, events[j].occurrence)
  }

  /** A notification's season and episode are those of its key. */
  predicate NumbersMatch(events: seq<Event>) {
    forall i | 0 <= i < |events| && events[i].Notification? :: events[i].key == Episode(events[i].season, events[i].episode)
  }

  predicate ClosedLater(events: seq<Event>, i: nat)
    requires i < |events| && events[i].Notification?
  {
    exists k | i < k < |events| :: Closes(events[k], events[i].key, events[i].occurrence)
  }

  /** What one call can do, told by its event. */
  predicate Follows(row: Option<Row>, e: Event, row': Option<Row>) {
    match e
    case Quiet =>
      && (row.Some? ==> row'.Some? && row'.value.claim == row.value.claim && row'.value.notified == row.value.notified
                        && (row.value.claim.Some? ==> row'.value.pending == row.value.pending))
      && (row.None? && row'.Some? ==> row'.value.claim.None?)
    case Notification(key, _, _, occurrence) =>
      && row.Some? && row'.Some? && ClaimText(row.value) == "" && row'.value.claim == Some(occurrence)
      && row'.value.pending == key && row'.value.notified == row.value.notified
    case Acked(key, occurrence) =>
      && row.Some? && row'.Some? && ClaimText(row.value) == occurrence && row.value.pending == key
      && row'.value.claim.None? && row'.value.notified == key
    case Freed(occurrence) =>
      && row.Some? && row'.Some? && row.value.claim == Some(occurrence) && row'.value.claim.None?
      && row'.value.notified == row.value.notified
  }

  lemma StepFollows(row: Option<Row>, call: Call)
    requires Sound(row)
    ensures Follows(row, Step(row, call).1, Step(row, call).0)
  {
    match call
    case Set(job, enabled, page) => SetKeepsClaim(row, job, enabled, page);
    case Auto(job, page) => SetKeepsClaim(row, job, true, page);
    case _ =>
  }

  // ----- notifications are separated -------------------------------------------------------------

  /** Every tick of the run has an occurrence id that is not empty. */
  predicate TicksNamed(calls: seq<Call>) {
    forall i | 0 <= i < |calls| && calls[i].Tick? :: calls[i].occurrence != ""
  }

  /** Every notification not yet closed is the claim in the row. */
  predicate OpenIsClaim(row: Option<Row>, events: seq<Event>) {
    forall i | 0 <= i < |events| && events[i].Notification? ::
      && events[i].occurrence != ""
      && (ClosedLater(events, i)
          || (row.Some? && row.value.claim == Some(events[i].occurrence) && row.value.pending == events[i].key))
  }

  lemma ClosedStays(events: seq<Event>, e: Event, i: nat)
    requires i < |events| && events[i].Notification? && ClosedLater(events, i)
    ensures ClosedLater(events + [e], i)
  {
    var k :| i < k < |events| && Closes(events[k], events[i].key, events[i].occurrence);
    assert (events + [e])[k] == events[k];
  }

  lemma ClosesNow(events: seq<Event>, e: Event, i: nat)
    requires i < |events| && events[i].Notification? && Closes(e, events[i].key, events[i].occurrence)
    ensures ClosedLater(events + [e], i)
  {
    assert (events + [e])[|events|] == e;
  }

  lemma OpenGoesOn(row: Option<Row>, events: seq<Event>, e: Event, row': Option<Row>)
    requires Follows(row, e, row') && OpenIsClaim(row, events)
    requires e.Notification? ==> e.occurrence != ""
    ensures OpenIsClaim(row', events + [e])
  {
    var all := events + [e];
    forall i | 0 <= i < |all| && all[i].Notification?
      ensures all[i].occurrence != ""
      ensures ClosedLater(all, i)
           || (row'.Some? && row'.value.claim == Some(all[i].occurrence) && row'.value.pending == all[i].key)
    {
      if i < |events| {
        if ClosedLater(events, i) {
          ClosedStays(events, e, i);
        } else if e.Acked? || e.Freed? {
          ClosesNow(events, e, i);
        }
      }
    }
  }

  lemma SeparationGoesOn(row: Option<Row>, events: seq<Event>, e: Event, row': Option<Row>)
    requires Follows(row, e, row') && OpenIsClaim(row, events) && NotificationsSeparated(events)
    ensures NotificationsSeparated(events + [e])
  {
    var all := events + [e];
    forall i, j | 0 <= i < j < |all| && all[i].Notification? && all[j].Notification?
      ensures exists k | i < k < j :: Closes(all[k], all[i].key, all[i].occurrence)
    {
      if j < |events| {
        var k :| i < k < j && Closes(events[k], events[i].key, events[i].occurrence);
        assert all[k] == events[k];
      } else {
        assert ClosedLater(events, i);
        var k :| i < k < |events| && Closes(events[k], events[i].key, events[i].occurrence);
        assert all[k] == events[k];
      }
    }
  }

  lemma TickEvent(row: Option<Row>, call: Call)
    ensures Step(row, call).1.Notification? ==> call.Tick? && Step(row, call).1.occurrence == call.occurrence
    ensures Step(row, call).1.Acked? ==> call.Ack? && Step(row, call).1.occurrence == call.occurrence
  {
  }

  lemma {:induction false} RunsSeparate(calls: seq<Call>)
    requires TicksNamed(calls)
    ensures OpenIsClaim(RowAfter(calls), Events(calls)) && NotificationsSeparated(Events(calls))
  {
    if calls != [] {
      var n := |calls| - 1;
      var front, call := calls[..n], calls[n];
      var row, events := RowAfter(front), Events(front);
      var (row', e) := Step(row, call);
      RunsSeparate(front);
      RunsAreSound(front);
      StepFollows(row, call);
      TickEvent(row, call);
      OpenGoesOn(row, events, e, row');
      SeparationGoesOn(row, events, e, row');
    }
  }

  // ----- acknowledgements answer -----------------------------------------------------------------

  /** Every acknowledgement of the run has an occurrence id that is not empty. */
  predicate AcksNamed(calls: seq<Call>) {
    forall i | 0 <= i < |calls| && calls[i].Ack? :: calls[i].occurrence != ""
  }

  /** A claim under an id is the claim of an open notification. */
  ghost predicate ClaimIsOpen(row: Option<Row>, events: seq<Event>) {
    row.Some? && ClaimText(row.value) != "" ==> exists i :: OpenAt(events, i, row.value.pending, ClaimText(row.value))
  }

  lemma OpenStays(events: seq<Event>, e: Event, i: int, key: Key, occurrence: string)
    requires OpenAt(events, i, key, occurrence) && !Closes(e, key, occurrence)
    ensures OpenAt(events + [e], i, key, occurrence)
  {
  }

  lemma ClaimGoesOn(row: Option<Row>, events: seq<Event>, e: Event, row': Option<Row>)
    requires Follows(row, e, row') && ClaimIsOpen(row, events)
    ensures ClaimIsOpen(row', events + [e])
  {
    if e.Notification? {
      assert OpenAt(events + [e], |events|, e.key, e.occurrence);
    } else if e.Quiet? && row.Some? && ClaimText(row.value) != "" {
      var i :| OpenAt(events, i, row.value.pending, ClaimText(row.value));
      OpenStays(events, e, i, row.value.pending, ClaimText(row.value));
    }
  }

  lemma AnswersGoOn(row: Option<Row>, events: seq<Event>, e: Event, row': Option<Row>)
    requires Follows(row, e, row') && ClaimIsOpen(row, events) && AcksAnswer(events)
    requires e.Acked? ==> e.occurrence != ""
    ensures AcksAnswer(events + [e])
  {
    var all := events + [e];
    forall j | 0 <= j < |all| && all[j].Acked?
      ensures exists i :: OpenAt(all[..j], i, all[j].key, all[j].occurrence)
    {
      if j < |events| {
        assert all[..j] == events[..j] && all[j] == events[j];
      } else {
        assert all[..j] == events;
      }
    }
  }

  lemma {:induction false} RunsAnswer(calls: seq<Call>)
    requires AcksNamed(calls)
    ensures ClaimIsOpen(RowAfter(calls), Events(calls)) && AcksAnswer(Events(calls))
  {
    if calls != [] {
      var n := |calls| - 1;
      var front, call := calls[..n], calls[n];
      var row, events := RowAfter(front), Events(front);
      var (row', e) := Step(row, call);
      RunsAnswer(front);
      RunsAreSound(front);
      StepFollows(row, call);
      TickEvent(row, call);
      ClaimGoesOn(row, events, e, row');
      AnswersGoOn(row, events, e, row');
    }
  }

  // ----- acknowledged keys increase --------------------------------------------------------------

  /** Acknowledged keys do not exceed the last one the row remembers. */
  predicate AcksRemembered(row: Option<Row>, events: seq<Event>) {
    forall i | 0 <= i < |events| && events[i].Acked? ::
      row.Some? && !row.value.notified.NoKey? && (events[i].key == row.value.notified || Earlier(events[i].key, row.value.notified))
  }

  lemma EarlierTransitive(a: Key, b: Key, c: Key)
    requires Earlier(a, b) && Earlier(b, c)
    ensures Earlier(a, c)
  {
  }

  /** An acknowledgement under an id is of a key later than the last one. */
  lemma AckIsLater(row: Option<Row>, key: Key, occurrence: string)
    requires Sound(row) && InOrder(row) && occurrence != ""
    requires row.Some? && AckMatches(row.value, key, occurrence)
    ensures key.Episode? && (row.value.notified.NoKey? || Earlier(row.value.notified, key))
  {
  }

  lemma AcksGoOn(row: Option<Row>, events: seq<Event>, e: Event, row': Option<Row>)
    requires Follows(row, e, row') && AcksRemembered(row, events) && AcksIncrease(events)
    requires e.Acked? ==> e.key.Episode? && (row.value.notified.NoKey? || Earlier(row.value.notified, e.key))
    ensures AcksRemembered(row', events + [e]) && AcksIncrease(events + [e])
  {
    var all := events + [e];
    forall i | 0 <= i < |events| && events[i].Acked?
      ensures row'.Some? && !row'.value.notified.NoKey?
           && (events[i].key == row'.value.notified || Earlier(events[i].key, row'.value.notified))
      ensures e.Acked? ==> Earlier(events[i].key, e.key)
    {
      if e.Acked? && events[i].key != row.value.notified {
        EarlierTransitive(events[i].key, row.value.notified, e.key);
      }
    }
  }

  lemma {:induction false} RunsIncrease(calls: seq<Call>)
    requires AcksNamed(calls) && AllOrdered(calls)
    ensures AcksRemembered(RowAfter(calls), Events(calls)) && AcksIncrease(Events(calls))
  {
    if calls != [] {
      var n := |calls| - 1;
      var front, call := calls[..n], calls[n];
      var row, events := RowAfter(front), Events(front);
      var (row', e) := Step(row, call);
      RunsIncrease(front);
      RunsAreSound(front);
      StepFollows(row, call);
      TickEvent(row, call);
      if e.Acked? {
        AckIsLater(row, e.key, e.occurrence);
      }
      AcksGoOn(row, events, e, row');
    }
  }

  /** Over every run, each under its own condition: between two notifications the earlier one is acknowledged
      or released, when ticks have ids; every acknowledgement answers an open notification of its key,
      when acknowledgements have ids; acknowledged keys strictly increase in (season, episode), when
      moreover fallback keys are within the pattern; and a notification's numbers are its key's, when
      fallbacks without a key have no numbers. */
  lemma MonitorIsSafe(calls: seq<Call>)
    ensures var events := Events(calls);
            && (TicksNamed(calls) ==> NotificationsSeparated(events))
            && (AcksNamed(calls) ==> AcksAnswer(events))
            && (AcksNamed(calls) && AllOrdered(calls) ==> AcksIncrease(events))
            && ((forall i | 0 <= i < |calls| :: CallAgrees(calls[i])) ==> NumbersMatch(events))
  {
    if TicksNamed(calls) {
      RunsSeparate(calls);
    }
    if AcksNamed(calls) {
      RunsAnswer(calls);
      if AllOrdered(calls) {
        RunsIncrease(calls);
      }
    }
    if forall i | 0 <= i < |calls| :: CallAgrees(calls[i]) {
      RunsAgree(calls);
    }
  }

  // ----- what each call does, told by the row -----------------------------------------------------

  predicate IsWatched(r: Row) {
    r.enabled && r.overrideOn && r.isTv
  }

  /** Whether a call on `before` that leaves `after` has to notify. */
  predicate HasToNotify(before: Option<Row>, call: Call, after: Option<Row>) {
    && call.Tick? && call.localized && before.Some? && IsWatched(before.value)
    && (before.value.claim == None || before.value.claim == Some(""))
    && after.Some? && !after.value.pending.NoKey? && after.value.pending != after.value.notified
    && (after.value.pendingAir.NoAir? || after.value.pendingAir.day <= call.today)
  }

  lemma StepNotifies(before: Option<Row>, call: Call)
    ensures var (after, e) := Step(before, call);
            && (e.Notification? <==> HasToNotify(before, call, after))
            && (e.Notification? ==>
                  e == Notification(after.value.pending, after.value.pendingSeason, after.value.pendingEpisode, call.occurrence)
                  && after.value.claim == Some(call.occurrence) && after.value.state == Available)
  {
  }

  /** In every run call `i` notifies exactly when it is a tick on a watched title, its release is localized, and
      the release pending after its check is due, not notified and not claimed; the notification is of that
      release under the tick's id, which claims it. */
  lemma NotifiesIff(calls: seq<Call>, i: nat)
    requires i < |calls|
    ensures |Events(calls)| == |calls|
    ensures var before, after, call, e := RowAfter(calls[..i]), RowAfter(calls[..i + 1]), calls[i], Events(calls)[i];
            && (e.Notification? <==> HasToNotify(before, call, after))
            && (e.Notification? ==>
                  e == Notification(after.value.pending, after.value.pendingSeason, after.value.pendingEpisode, call.occurrence)
                  && after.value.claim == Some(call.occurrence) && after.value.state == Available)
  {
    OneMore(calls, i);
    StepNotifies(RowAfter(calls[..i]), calls[i]);
  }

  /** A watched title's page is looked at when it never was, or twenty hours after the last time: only then do
      baseline and pending release change.  A first page gives the baseline; with nothing pending, a release
      that is not the notified one becomes pending exactly when it is later than the baseline. */
  lemma TickLooks(row: Row, occurrence: string, page: Option<PageSnapshot>, localized: bool, now: int, today: int)
    ensures var (after, e) := AfterTick(row, occurrence, page, localized, now, today);
            var looks := IsWatched(row) && (row.lastCheck == 0 || now - row.lastCheck >= 72_000);
            var seen := if looks && page.Some? then page.value else Snapshot(NoKey, 0, 0, NoAir);
            && after.lastCheck == (if looks then now else row.lastCheck) && after.notified == row.notified
            && (row.baseline.NoKey? || seen.key.NoKey? ==> after.pending == row.pending)
            && after.baseline == (if row.baseline.NoKey? then seen.key else row.baseline)
            && after.baselineAir == (if row.baseline.NoKey? && !seen.key.NoKey? then seen.air else row.baselineAir)
            && (!row.pending.NoKey? || seen.key == row.notified ==> after.pending == row.pending)
            && (InRange(row.baseline) && !seen.key.NoKey? && row.pending.NoKey? && seen.key != row.notified ==>
                  after.pending == if Earlier(row.baseline, seen.key) then seen.key else NoKey)
            && (after.pending != row.pending ==> after.pendingAir == seen.air)
            && (e == Quiet ==>
                  after.state == if after.pending != row.pending
                                 then (if seen.air.NoAir? || seen.air.day <= today then Waiting else ReleaseKnown)
                                 else if after.baseline != row.baseline then Monitored else row.state)
  {
  }

  /** A job falls back to the largest pair of a full source, which is a key only when both numbers are positive. */
  lemma FallbackIs(job: Job)
    ensures var f := Fallback(job);
            && (forall s | s in job.sources && !s.trailer ::
                  s.season < f.season || (s.season == f.season && s.episode <= f.episode))
            && ((f.season, f.episode) != (0, 0) ==>
                  exists s | s in job.sources :: !s.trailer && s.season == f.season && s.episode == f.episode)
            && f.key == (if f.season > 0 && f.episode > 0 then Episode(f.season, f.episode) else NoKey) && f.air == NoAir
  {
    BestIsLargest((0, 0), job.sources);
  }

  /** What `set` leaves: monitoring is on for a series that was asked for, the baseline is the stored one or the
      page's or the fallback's, and it becomes pending when nothing is and the job has no full source. */
  lemma SetOutcome(row: Option<Row>, job: Job, wanted: bool, page: Option<PageSnapshot>)
    ensures var after, on := AfterSet(row, job, wanted, page), wanted && job.isTv;
            var stored := if row.None? then NoKey else row.value.baseline;
            var waiting := if row.None? then NoKey else row.value.pending;
            var full := exists s | s in job.sources :: !s.trailer;
            && after.enabled == on && after.overrideOn == on && after.isTv == job.isTv
            && after.baseline == (if !stored.NoKey? || !on then stored
                                  else if page.Some? then page.value.key else Fallback(job).key)
            && after.pending == (if !waiting.NoKey? then waiting else if on && !full then after.baseline else NoKey)
            && (!on ==> after.state == Off)
            && (on && waiting.NoKey? ==> after.state == if after.pending.NoKey? then Monitored else Waiting)
            && (row.Some? && on && !waiting.NoKey? ==> after.state == row.value.state)
            && (row.Some? ==> after.lastCheck == row.value.lastCheck && after.notified == row.value.notified
                              && after.claim == row.value.claim
                              && (!row.value.baselineAir.NoAir? ==> after.baselineAir == row.value.baselineAir))
  {
  }

  /** The automatic check never makes a row and never switches on: it repeats the explicit `set` of a title
      without a full source that waits for nothing, and switches off what was never switched on. */
  lemma AutoOutcome(row: Option<Row>, job: Job, page: Option<PageSnapshot>)
    ensures var after := AfterAuto(row, job, page);
            && (row.None? ==> after.None?)
            && (row.Some? ==> after.Some? && (after.value.enabled ==> row.value.enabled && row.value.overrideOn))
            && (row.Some? && row.value.overrideOn ==>
                  after == if row.value.enabled && row.value.pending.NoKey? && forall s | s in job.sources :: s.trailer
                           then Some(AfterSet(row, job, true, page)) else row)
            && (row.Some? && !row.value.overrideOn ==>
                  after.value == row.value.(enabled := false, state := if row.value.enabled then Off else row.value.state))
  {
  }

  /** The last `set` of a run, if any. */
  function LastSet(calls: seq<Call>): Option<Call> {
    if calls == [] then None
    else if calls[|calls| - 1].Set? then Some(calls[|calls| - 1])
    else LastSet(calls[..|calls| - 1])
  }

  /** In every run a title is monitored only when the last `set` asked for it, of a series. */
  lemma {:induction false} OnMeansAsked(calls: seq<Call>)
    ensures var row, last := RowAfter(calls), LastSet(calls);
            && (row.Some? && row.value.enabled ==> row.value.overrideOn)
            && (row.Some? && row.value.overrideOn ==> last.Some? && last.value.Set? && last.value.enabled && last.value.job.isTv)
  {
    if calls != [] {
      var n := |calls| - 1;
      OnMeansAsked(calls[..n]);
      var row := RowAfter(calls[..n]);
      match calls[n] {
        case Set(job, wanted, page) => SetOutcome(row, job, wanted, page);
        case Auto(job, page) =>
          AutoOutcome(row, job, page);
          SetOutcome(row, job, true, page);
        case _ =>
      }
    }
  }

  /** What closes a claim: an acknowledgement makes the pending release the baseline and the notified one and
      waits for nothing; a release of the claim leaves the rest as it was. */
  lemma CloseOutcome(row: Row, key: Key, occurrence: string)
    ensures var (after, e) := Step(Some(row), Ack(key, occurrence));
            var claimed := match row.claim case None => "" case Some(text) => text;
            if row.pending == key && claimed == occurrence then
              && e == Acked(key, occurrence) && after.Some? && after.value.claim.None? && after.value.pending.NoKey?
              && after.value.notified == key && after.value.baseline == key && after.value.state == Acknowledged
              && after.value.baselineAir == row.pendingAir
            else e == Quiet && after == Some(row)
    ensures var (after, e) := Step(Some(row), Free(occurrence));
            if row.claim == Some(occurrence) then
              e == Freed(occurrence)
              && after == Some(row.(claim := None, state := if row.pending.NoKey? then row.state else Waiting))
            else e == Quiet && after == Some(row)
  {
  }

  // ----- what the conditions are for -------------------------------------------------------------

  /** An acknowledged row accepts later releases only, exactly when its key is within the pattern. */
  lemma NextReleaseIsLater(row: Row)
    requires row.baseline.Episode? && row.notified == row.baseline && row.pending.NoKey?
    ensures (forall s: PageSnapshot | AcceptsRelease(row, s) :: Earlier(row.baseline, s.key)) <==> InRange(row.baseline)
  {
    if !InRange(row.baseline) {
      var s: PageSnapshot := Snapshot(Episode(0, 1), 0, 1, NoAir);
      assert AcceptsRelease(row, s) && !Earlier(row.baseline, s.key);
    }
  }

  /** An acknowledgement without a claim is accepted exactly when its occurrence id is empty. */
  lemma UnclaimedAck(row: Row, key: Key, occurrence: string)
    requires row.claim.None?
    ensures AckMatches(row, key, occurrence) <==> row.pending == key && occurrence == ""
  {
  }

  lemma {:induction false} EventsLength(calls: seq<Call>)
    ensures |Events(calls)| == |calls|
  {
    if calls != [] {
      EventsLength(calls[..|calls| - 1]);
    }
  }

  lemma {:induction false} EventAt(calls: seq<Call>, i: nat)
    requires i < |calls| == |Events(calls)|
    ensures Events(calls)[i] == Step(RowAfter(calls[..i]), calls[i]).1
    decreases |calls|
  {
    var front := calls[..|calls| - 1];
    EventsLength(front);
    if i < |front| {
      EventAt(front, i);
      assert front[..i] == calls[..i] && front[i] == calls[i];
      assert Events(calls)[i] == Events(front)[i];
    }
  }

  lemma OneMore(calls: seq<Call>, i: nat)
    requires i < |calls|
    ensures RowAfter(calls[..i + 1]) == Step(RowAfter(calls[..i]), calls[i]).0
    ensures |Events(calls)| == |calls| && Events(calls)[i] == Step(RowAfter(calls[..i]), calls[i]).1
  {
    EventsLength(calls);
    EventAt(calls, i);
    assert calls[..i + 1][..i] == calls[..i];
  }

  lemma ThreeCalls(calls: seq<Call>, r1: Row, r2: Row, r3: Row)
    requires |calls| >= 3
    requires Step(None, calls[0]).0 == Some(r1) && Step(Some(r1), calls[1]).0 == Some(r2)
    requires Step(Some(r2), calls[2]).0 == Some(r3)
    ensures |Events(calls)| == |calls| && RowAfter(calls[..3]) == Some(r3)
    ensures Events(calls)[0] == Step(None, calls[0]).1 && Events(calls)[1] == Step(Some(r1), calls[1]).1
    ensures Events(calls)[2] == Step(Some(r2), calls[2]).1
  {
    OneMore(calls, 0);
    OneMore(calls, 1);
    OneMore(calls, 2);
  }

  const SHOW := Job(true, [])

  // ----- when notifications are separated, and acknowledgements answer and increase --------------

  ghost predicate TickIdsIn(calls: seq<Call>, ids: iset<string>) {
    forall i | 0 <= i < |calls| && calls[i].Tick? :: calls[i].occurrence in ids
  }

  ghost predicate AckIdsIn(calls: seq<Call>, ids: iset<string>) {
    forall i | 0 <= i < |calls| && calls[i].Ack? :: calls[i].occurrence in ids
  }

  /** The row of a series without sources once monitoring is on and its page shows `page`. */
  function Waits(page: PageSnapshot): Row {
    Row(true, true, true, page.key, page.season, page.episode, page.air,
        page.key, page.season, page.episode, page.air, Waiting, None, NoKey, 0)
  }

  const FIRST: PageSnapshot := Snapshot(Episode(1, 1), 1, 1, NoAir)

  /** Two ticks with an empty id announce the same release twice. */
  function TwiceTold(): seq<Call> {
    [Set(SHOW, true, Some(FIRST)), Tick("", None, true, 1, 0), Tick("", None, true, 2, 0)]
  }

  lemma EmptyTickRepeats()
    ensures !NotificationsSeparated(Events(TwiceTold()))
  {
    var r1 := Waits(FIRST);
    var r2 := r1.(lastCheck := 1, state := Available, claim := Some(""));
    var told := Notification(FIRST.key, 1, 1, "");
    assert AfterSet(None, SHOW, true, Some(FIRST)) == r1;
    assert AfterTick(r1, "", None, true, 1, 0) == (r2, told);
    assert AfterTick(r2, "", None, true, 2, 0) == (r2, told);
    ThreeCalls(TwiceTold(), r1, r2, r2);
    var events := Events(TwiceTold());
    assert events == [Quiet, told, told];
    assert events[1].Notification? && events[2].Notification?;
  }

  /** Notifications are separated in every run whose ticks take their ids from `ids`, exactly when the empty
      id is not among them. */
  lemma SeparatedIff(ids: iset<string>)
    ensures "" !in ids <==> forall calls | TickIdsIn(calls, ids) :: NotificationsSeparated(Events(calls))
  {
    if "" !in ids {
      forall calls | TickIdsIn(calls, ids)
        ensures NotificationsSeparated(Events(calls))
      {
        RunsSeparate(calls);
      }
    } else {
      EmptyTickRepeats();
      assert TickIdsIn(TwiceTold(), ids);
    }
  }

  function RepeatedAcks(page: PageSnapshot): seq<Call> {
    [Set(SHOW, true, Some(page)), Ack(page.key, ""), Set(SHOW, true, None), Ack(page.key, "")]
  }

  /** With an empty occurrence id the same key is acknowledged twice, and no notification is answered. */
  lemma EmptyOccurrenceRepeatsAcks(page: PageSnapshot)
    requires !page.key.NoKey?
    ensures var events := Events(RepeatedAcks(page));
            && events == [Quiet, Acked(page.key, ""), Quiet, Acked(page.key, "")]
            && !AcksIncrease(events) && !AcksAnswer(events)
  {
    var k := page.key;
    var r1 := Waits(page);
    var r2 := AfterAck(r1, k);
    var r3 := r1.(notified := k);
    assert AfterSet(None, SHOW, true, Some(page)) == r1;
    assert AfterSet(Some(r2), SHOW, true, None) == r3;
    ThreeCalls(RepeatedAcks(page), r1, r2, r3);
    OneMore(RepeatedAcks(page), 3);
    var events := Events(RepeatedAcks(page));
    assert events[1] == Acked(k, "") && events[3] == Acked(k, "");
    assert forall i :: !OpenAt(events[..1], i, k, "");
  }

  /** Acknowledgements answer open notifications in every run that takes their ids from `ids`, exactly when
      the empty id is not among them. */
  lemma AcksAnswerIff(ids: iset<string>)
    ensures "" !in ids <==> forall calls | AckIdsIn(calls, ids) :: AcksAnswer(Events(calls))
  {
    if "" !in ids {
      forall calls | AckIdsIn(calls, ids)
        ensures AcksAnswer(Events(calls))
      {
        RunsAnswer(calls);
      }
    } else {
      EmptyOccurrenceRepeatsAcks(FIRST);
      assert AckIdsIn(RepeatedAcks(FIRST), ids);
    }
  }

  /** All jobs of the run have ordered fallbacks, but perhaps `job`. */
  predicate OthersOrdered(calls: seq<Call>, job: Job) {
    forall i | 0 <= i < |calls| ::
      CallOrdered(calls[i]) || (calls[i].Set? && calls[i].job == job) || (calls[i].Auto? && calls[i].job == job)
  }

  const SPECIAL: PageSnapshot := Snapshot(Episode(0, 1), 0, 1, NoAir)

  /** The fallback's key is announced and acknowledged; then the page's special counts as later. */
  function GoingBack(job: Job, id: string): seq<Call> {
    var k := Fallback(job).key;
    [Set(job, true, None), Set(SHOW, true, None), Tick(id, None, true, 1, 0), Ack(k, id),
     Tick(id, Some(SPECIAL), true, 100_000, 0), Ack(SPECIAL.key, id)]
  }

  /** A fallback beyond the pattern: the special is pending below the baseline, and acknowledged after it. */
  lemma AcksGoBack(job: Job, id: string)
    requires !FallbackOrdered(job) && id != ""
    ensures var calls, k := GoingBack(job, id), Fallback(job).key;
            && !AcksIncrease(Events(calls))
            && RowAfter(calls[..5]).Some?
            && Earlier(RowAfter(calls[..5]).value.pending, RowAfter(calls[..5]).value.baseline)
  {
    var f := Fallback(job);
    var k := f.key;
    var r1 := Row(true, true, true, k, f.season, f.episode, NoAir, NoKey, 0, 0, NoAir, Monitored, None, NoKey, 0);
    var r2 := r1.(pending := k, pendingSeason := f.season, pendingEpisode := f.episode, state := Waiting);
    var r3 := r2.(lastCheck := 1, state := Available, claim := Some(id));
    var r4 := AfterAck(r3, k);
    var r5 := r4.(lastCheck := 100_000, pending := SPECIAL.key, pendingSeason := 0, pendingEpisode := 1,
                  state := Available, claim := Some(id));
    FallbackHasSource(job);
    assert AfterSet(None, job, true, None) == r1;
    assert AfterSet(Some(r1), SHOW, true, None) == r2;
    assert AfterTick(r2, id, None, true, 1, 0).0 == r3;
    assert Step(Some(r3), Ack(k, id)) == (Some(r4), Acked(k, id));
    assert AfterTick(r4, id, Some(SPECIAL), true, 100_000, 0).0 == r5;
    var calls := GoingBack(job, id);
    ThreeCalls(calls, r1, r2, r3);
    OneMore(calls, 3);
    OneMore(calls, 4);
    OneMore(calls, 5);
    assert Events(calls)[3] == Acked(k, id) && Events(calls)[5] == Acked(SPECIAL.key, id);
  }

  /** A fallback with a key comes from a source. */
  lemma FallbackHasSource(job: Job)
    requires !Fallback(job).key.NoKey?
    ensures HasFullSource(job)
  {
    BestIsLargest((0, 0), job.sources);
  }

  /** Acknowledged keys increase in every run that takes acknowledgement ids from `ids` and whose jobs, but
      perhaps `job`, have ordered fallbacks, exactly when the empty id is not among them and the fallback
      of `job` is ordered too. */
  lemma AcksIncreaseIff(job: Job, ids: iset<string>)
    requires ids != iset{}
    ensures ("" !in ids && FallbackOrdered(job))
            <==> forall calls | OthersOrdered(calls, job) && AckIdsIn(calls, ids) :: AcksIncrease(Events(calls))
  {
    if "" in ids {
      EmptyOccurrenceRepeatsAcks(FIRST);
      ShowIsOrdered();
      assert OthersOrdered(RepeatedAcks(FIRST), job) && AckIdsIn(RepeatedAcks(FIRST), ids);
    } else if FallbackOrdered(job) {
      forall calls | OthersOrdered(calls, job) && AckIdsIn(calls, ids)
        ensures AcksIncrease(Events(calls))
      {
        RunsIncrease(calls);
      }
    } else {
      var id :| id in ids;
      AcksGoBack(job, id);
      ShowIsOrdered();
      assert OthersOrdered(GoingBack(job, id), job) && AckIdsIn(GoingBack(job, id), ids);
    }
  }

  predicate NotBelow(row: Option<Row>) {
    row.Some? ==> !Earlier(row.value.pending, row.value.baseline)
  }

  /** What is pending is never below the baseline, exactly when the fallback of `job` is ordered like the rest. */
  lemma NotBelowIff(job: Job)
    ensures FallbackOrdered(job) <==> forall calls | OthersOrdered(calls, job) :: NotBelow(RowAfter(calls))
  {
    if FallbackOrdered(job) {
      forall calls | OthersOrdered(calls, job)
        ensures NotBelow(RowAfter(calls))
      {
        RunsAreSound(calls);
      }
    } else {
      AcksGoBack(job, "a");
      ShowIsOrdered();
      assert OthersOrdered(GoingBack(job, "a")[..5], job);
    }
  }

  lemma ShowIsOrdered()
    ensures FallbackOrdered(SHOW)
  {
  }

  // ----- when numbers match keys -----------------------------------------------------------------

  /** A job of a series that falls back to no key brings no numbers either. */
  predicate FallbackAgrees(job: Job) {
    var f := Fallback(job);
    job.isTv && f.key.NoKey? ==> f.season == 0 && f.episode == 0
  }

  predicate ColumnsAgree(k: Key, season: nat, episode: nat) {
    if k.NoKey? then season == 0 && episode == 0 else k == Episode(season, episode)
  }

  predicate RowAgrees(row: Option<Row>) {
    row.Some? ==>
      && ColumnsAgree(row.value.baseline, row.value.baselineSeason, row.value.baselineEpisode)
      && ColumnsAgree(row.value.pending, row.value.pendingSeason, row.value.pendingEpisode)
  }

  predicate CallAgrees(call: Call) {
    match call
    case Set(job, _, _) => FallbackAgrees(job)
    case Auto(job, _) => FallbackAgrees(job)
    case _ => true
  }

  lemma SetKeepsAgreement(row: Option<Row>, job: Job, wanted: bool, page: Option<PageSnapshot>)
    requires RowAgrees(row) && FallbackAgrees(job)
    ensures RowAgrees(Some(AfterSet(row, job, wanted, page)))
  {
  }

  lemma StepKeepsAgreement(row: Option<Row>, call: Call)
    requires RowAgrees(row) && CallAgrees(call)
    ensures RowAgrees(Step(row, call).0)
    ensures var e := Step(row, call).1; e.Notification? ==> e.key == Episode(e.season, e.episode)
  {
    match call
    case Set(job, wanted, page) => SetKeepsAgreement(row, job, wanted, page);
    case Auto(job, page) => SetKeepsAgreement(row, job, true, page);
    case _ =>
  }

  lemma {:induction false} RunsAgree(calls: seq<Call>)
    requires forall i | 0 <= i < |calls| :: CallAgrees(calls[i])
    ensures RowAgrees(RowAfter(calls)) && NumbersMatch(Events(calls))
  {
    if calls != [] {
      var n := |calls| - 1;
      RunsAgree(calls[..n]);
      StepKeepsAgreement(RowAfter(calls[..n]), calls[n]);
    }
  }

  const FULL := Job(true, [Source(false, 2, 4)])

  /** The fallback stores its numbers, the page only its key, a job without sources makes it pending, and
      a tick announces it. */
  function StaleRun(half: Job, page: PageSnapshot, now: int, today: int): seq<Call> {
    [Set(half, true, None), Set(FULL, true, Some(page)), Set(SHOW, true, None), Tick("o", None, true, now, today)]
  }

  /** What is left in a column: the fallback's number if it found one, else the page's. */
  function Stale(fallback: nat, page: nat): nat {
    if fallback != 0 then fallback else page
  }

  /** For every series whose fallback has no key: the later release is announced with the fallback's
      numbers, so with numbers of its own exactly when those are zero or happen to be its own. */
  lemma StaleColumns(half: Job, page: PageSnapshot, now: int, today: int)
    requires half.isTv && Fallback(half).key.NoKey? && !page.key.NoKey? && IsDue(page.air, today)
    ensures var f := Fallback(half);
            var season, episode := Stale(f.season, page.season), Stale(f.episode, page.episode);
            && Events(StaleRun(half, page, now, today))
               == [Quiet, Quiet, Quiet, Notification(page.key, season, episode, "o")]
            && (NumbersMatch(Events(StaleRun(half, page, now, today)))
                <==> season == page.season && episode == page.episode)
  {
    var f := Fallback(half);
    var season, episode := Stale(f.season, page.season), Stale(f.episode, page.episode);
    var r1 := Row(true, true, true, NoKey, f.season, f.episode, NoAir, NoKey, 0, 0, NoAir, Monitored, None, NoKey, 0);
    var r2 := r1.(baseline := page.key, baselineSeason := season, baselineEpisode := episode, baselineAir := page.air);
    var r3 := r2.(pending := page.key, pendingSeason := season, pendingEpisode := episode, pendingAir := page.air,
                  state := Waiting);
    assert FULL.sources[0] in FULL.sources;
    assert AfterSet(None, half, true, None) == r1;
    assert AfterSet(Some(r1), FULL, true, Some(page)) == r2;
    assert AfterSet(Some(r2), SHOW, true, None) == r3;
    var tick := Tick("o", None, true, now, today);
    ThreeCalls(StaleRun(half, page, now, today), r1, r2, r3);
    OneMore(StaleRun(half, page, now, today), 3);
    var events := Events(StaleRun(half, page, now, today));
    assert events[3] == Notification(page.key, season, episode, "o");
  }

  lemma PlainJobsAgree()
    ensures FallbackAgrees(FULL) && FallbackAgrees(SHOW)
  {
    assert FULL.sources[1..] == [];
    assert Best((0, 0), FULL.sources) == Best((2, 4), FULL.sources[1..]) == (2, 4);
  }

  /** All jobs of the run agree, but perhaps `job`. */
  predicate OthersAgree(calls: seq<Call>, job: Job) {
    forall i | 0 <= i < |calls| ::
      CallAgrees(calls[i]) || (calls[i].Set? && calls[i].job == job) || (calls[i].Auto? && calls[i].job == job)
  }

  /** In every run every notification's numbers are those of its key, exactly when the fallback of every
      job in it agrees: one job of a series with a number and no key suffices to break it. */
  lemma NumbersMatchIff(job: Job)
    ensures FallbackAgrees(job) <==> forall calls | OthersAgree(calls, job) :: NumbersMatch(Events(calls))
  {
    if FallbackAgrees(job) {
      forall calls | OthersAgree(calls, job)
        ensures NumbersMatch(Events(calls))
      {
        RunsAgree(calls);
      }
    } else {
      var f := Fallback(job);
      var page: PageSnapshot := Snapshot(Episode(if f.season == 1 then 2 else 1, if f.episode == 1 then 2 else 1),
                                         if f.season == 1 then 2 else 1, if f.episode == 1 then 2 else 1, NoAir);
      StaleColumns(job, page, 0, 0);
      PlainJobsAgree();
      assert OthersAgree(StaleRun(job, page, 0, 0), job);
    }
  }
}
