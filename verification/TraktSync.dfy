/**
 * The Trakt outbox: one pending row a content key, filled by the player and drained by `flush`.
 *
 * A flush reads its rows first, then for each row posts and only afterwards writes the outcome, so
 * the player may replace a row between the two.  The first write opens a transaction that lasts
 * until the commit; a flush that raises rolls back.  `World` holds all of that, and `After` runs
 * any interleaving of any number of flushes with the player.  `Outbox` is the code itself,
 * and `FlushIsARun` ties its loop to the steps of the protocol.
 */
module TraktSync {
  import opened Wrappers

  /** What a row tells Trakt. */
  datatype Update = Update(action: string, media: string, progress: real)

  datatype Entry = Entry(key: string, update: Update, stamp: int)

  datatype Row = Row(entry: Entry, attempts: nat, nextAt: int)

  type Table = map<string, Row>

  predicate Accepts(code: int) { 200 <= code < 300 }

  predicate Stops(code: int) { code == 401 || code == 403 }

  function Power(n: nat): (p: nat)
    ensures p >= 1
  {
    if n == 0 then 1 else 2 * Power(n - 1)
  }

  function Delay(attempts: nat): nat {
    var d := 30 * Power(if attempts < 6 then attempts else 6);
    if d < 3600 then d else 3600
  }

  /** Retries back off from one minute, doubling up to 32 minutes: the one-hour cap is never met. */
  lemma DelaysDouble(attempts: nat)
    ensures attempts < 6 ==> Delay(attempts + 1) == 2 * Delay(attempts)
    ensures attempts >= 6 ==> Delay(attempts) == 1920
    ensures attempts >= 1 ==> 60 <= Delay(attempts) <= 1920
  {
    assert Power(1) == 2 && Power(2) == 4 && Power(3) == 8;
    assert Power(4) == 16 && Power(5) == 32 && Power(6) == 64;
  }

  function Upserted(t: Table, e: Entry): Table {
    t[e.key := Row(e, 0, 0)]
  }

  /** The write after `row`, as read by the flush, was answered with `code`. */
  function Recorded(t: Table, row: Row, code: int, now: int): Table {
    var k := row.entry.key;
    if k !in t then t
    else if Accepts(code) then
      if t[k].entry.stamp == row.entry.stamp then t - {k} else t
    else
      var attempts := row.attempts + 1;
      t[k := t[k].(attempts := attempts, nextAt := now + Delay(attempts))]
  }

  ghost predicate Due(t: Table, k: string, now: int) {
    k in t && t[k].nextAt <= now
  }

  ghost predicate Selects(rows: seq<Row>, k: string) {
    exists i | 0 <= i < |rows| :: rows[i].entry.key == k
  }

  ghost predicate DistinctKeys(rows: seq<Row>) {
    forall i, j | 0 <= i < j < |rows| :: rows[i].entry.key != rows[j].entry.key
  }

  ghost predicate AreRowsOf(rows: seq<Row>, t: Table, now: int) {
    forall i | 0 <= i < |rows| :: Due(t, rows[i].entry.key, now) && rows[i] == t[rows[i].entry.key]
  }

  /** `rows` is an answer to the flush's query: the oldest due rows, at most `limit` of them. */
  ghost predicate IsSelection(rows: seq<Row>, t: Table, now: int, limit: nat) {
    && |rows| <= limit
    && DistinctKeys(rows)
    && AreRowsOf(rows, t, now)
    && (forall i, j | 0 <= i < j < |rows| :: rows[i].entry.stamp <= rows[j].entry.stamp)
    && (forall k, i | Due(t, k, now) && !Selects(rows, k) && 0 <= i < |rows| ::
          |rows| == limit && rows[i].entry.stamp <= t[k].entry.stamp)
    && (rows == [] && limit > 0 ==> forall k :: !Due(t, k, now))
  }

  // ---------------------------------------------------------------- the query

  /** The keys whose rows may be sent, and those of them queued before a moment, or not after it. */
  function DueKeys(t: Table, now: int): set<string> {
    set k | k in t && t[k].nextAt <= now
  }

  function Before(t: Table, now: int, stamp: int): set<string> {
    set k | k in t && t[k].nextAt <= now && t[k].entry.stamp < stamp
  }

  function UpTo(t: Table, now: int, stamp: int): set<string> {
    set k | k in t && t[k].nextAt <= now && t[k].entry.stamp <= stamp
  }

  function KeysOf(rows: seq<Row>): set<string> {
    set r | r in rows :: r.entry.key
  }

  lemma {:induction false} KeysCount(rows: seq<Row>)
    requires DistinctKeys(rows)
    ensures |KeysOf(rows)| == |rows|
    decreases |rows|
  {
    if rows != [] {
      var n := |rows| - 1;
      KeysCount(rows[..n]);
      assert rows == rows[..n] + [rows[n]];
      assert KeysOf(rows) == KeysOf(rows[..n]) + {rows[n].entry.key};
      assert rows[n].entry.key !in KeysOf(rows[..n]);
    }
  }

  lemma Fewer(a: set<string>, b: set<string>)
    requires a <= b
    ensures |a| <= |b| && (|a| == |b| ==> a == b)
  {
    assert b == a + (b - a);
  }

  /** Each row has its place: as many due rows are older at most, and more are no younger. */
  ghost predicate InPlace(rows: seq<Row>, t: Table, now: int) {
    forall i | 0 <= i < |rows| :: |Before(t, now, rows[i].entry.stamp)| <= i < |UpTo(t, now, rows[i].entry.stamp)|
  }

  ghost predicate AreDue(rows: seq<Row>, t: Table, now: int) {
    forall r | r in rows :: r.nextAt <= now && r.entry.key in t && r == t[r.entry.key]
  }

  lemma SelectedSize(rows: seq<Row>, t: Table, now: int, limit: nat)
    requires IsSelection(rows, t, now, limit)
    ensures |rows| == if |DueKeys(t, now)| <= limit then |DueKeys(t, now)| else limit
  {
    KeysCount(rows);
    Fewer(KeysOf(rows), DueKeys(t, now));
    if |rows| < limit {
      forall k | k in DueKeys(t, now)
        ensures k in KeysOf(rows)
      {
        assert Due(t, k, now) && Selects(rows, k);
      }
      assert KeysOf(rows) == DueKeys(t, now);
    }
  }

  lemma OlderAreAhead(rows: seq<Row>, t: Table, now: int, limit: nat, i: nat)
    requires IsSelection(rows, t, now, limit) && i < |rows|
    ensures |Before(t, now, rows[i].entry.stamp)| <= i
  {
    var stamp := rows[i].entry.stamp;
    KeysCount(rows[..i]);
    forall k | k in Before(t, now, stamp)
      ensures k in KeysOf(rows[..i])
    {
      assert Due(t, k, now) && Selects(rows, k);
      var j :| 0 <= j < |rows| && rows[j].entry.key == k;
      assert j < i;
      assert rows[..i][j] == rows[j];
    }
    Fewer(Before(t, now, stamp), KeysOf(rows[..i]));
  }

  lemma AheadAreOlder(rows: seq<Row>, t: Table, now: int, limit: nat, i: nat)
    requires IsSelection(rows, t, now, limit) && i < |rows|
    ensures i < |UpTo(t, now, rows[i].entry.stamp)|
  {
    var front := rows[..i + 1];
    KeysCount(front);
    forall k | k in KeysOf(front)
      ensures k in UpTo(t, now, rows[i].entry.stamp)
    {
      var j :| 0 <= j < i + 1 && rows[j].entry.key == k;
      assert Due(t, k, now);
    }
    Fewer(KeysOf(front), UpTo(t, now, rows[i].entry.stamp));
  }

  lemma PlacesAreSorted(rows: seq<Row>, t: Table, now: int, i: nat, j: nat)
    requires InPlace(rows, t, now) && i < j < |rows|
    ensures rows[i].entry.stamp <= rows[j].entry.stamp
  {
    if rows[j].entry.stamp < rows[i].entry.stamp {
      Fewer(UpTo(t, now, rows[j].entry.stamp), Before(t, now, rows[i].entry.stamp));
    }
  }

  /** The rows before a strictly younger one are strictly older than it. */
  lemma FrontIsOlder(rows: seq<Row>, t: Table, now: int, i: nat, x: string)
    requires AreDue(rows, t, now) && InPlace(rows, t, now) && i < |rows|
    requires i > 0 ==> rows[i - 1].entry.stamp != rows[i].entry.stamp
    requires x in KeysOf(rows[..i])
    ensures x in Before(t, now, rows[i].entry.stamp)
  {
    var j :| 0 <= j < i && rows[j].entry.key == x;
    if j < i - 1 {
      PlacesAreSorted(rows, t, now, j, i - 1);
    }
    PlacesAreSorted(rows, t, now, i - 1, i);
    assert rows[j] in rows;
  }

  /** A due row that stands back is no older than any row in its place. */
  lemma {:induction false} NoneOlder(rows: seq<Row>, t: Table, now: int, k: string, i: nat)
    requires DistinctKeys(rows) && AreDue(rows, t, now) && InPlace(rows, t, now)
    requires Due(t, k, now) && !Selects(rows, k) && i < |rows|
    ensures rows[i].entry.stamp <= t[k].entry.stamp
    decreases i
  {
    if i > 0 && rows[i - 1].entry.stamp == rows[i].entry.stamp {
      NoneOlder(rows, t, now, k, i - 1);
    } else if t[k].entry.stamp < rows[i].entry.stamp {
      var front := KeysOf(rows[..i]);
      KeysCount(rows[..i]);
      forall x | x in front
        ensures x in Before(t, now, rows[i].entry.stamp)
      {
        FrontIsOlder(rows, t, now, i, x);
      }
      assert k !in front;
      Fewer(front + {k}, Before(t, now, rows[i].entry.stamp));
    }
  }

  /** The flush sends as many due rows as the limit allows, the oldest, each once and in order. */
  lemma SelectionIff(rows: seq<Row>, t: Table, now: int, limit: nat)
    ensures IsSelection(rows, t, now, limit)
            <==> && DistinctKeys(rows) && AreDue(rows, t, now) && InPlace(rows, t, now)
                 && |rows| == if |DueKeys(t, now)| <= limit then |DueKeys(t, now)| else limit
  {
    if IsSelection(rows, t, now, limit) {
      SelectedSize(rows, t, now, limit);
      forall i | 0 <= i < |rows|
        ensures |Before(t, now, rows[i].entry.stamp)| <= i < |UpTo(t, now, rows[i].entry.stamp)|
      {
        OlderAreAhead(rows, t, now, limit, i);
        AheadAreOlder(rows, t, now, limit, i);
      }
    }
    if && DistinctKeys(rows) && AreDue(rows, t, now) && InPlace(rows, t, now)
       && |rows| == if |DueKeys(t, now)| <= limit then |DueKeys(t, now)| else limit
    {
      PlacedIsSelection(rows, t, now, limit);
    }
  }

  lemma PlacedIsSelection(rows: seq<Row>, t: Table, now: int, limit: nat)
    requires DistinctKeys(rows) && AreDue(rows, t, now) && InPlace(rows, t, now)
    requires |rows| == if |DueKeys(t, now)| <= limit then |DueKeys(t, now)| else limit
    ensures IsSelection(rows, t, now, limit)
  {
    forall i, j | 0 <= i < j < |rows|
      ensures rows[i].entry.stamp <= rows[j].entry.stamp
    {
      PlacesAreSorted(rows, t, now, i, j);
    }
    KeysCount(rows);
    Fewer(KeysOf(rows), DueKeys(t, now));
    forall k | Due(t, k, now) && !Selects(rows, k)
      ensures |rows| == limit
    {
      assert k in DueKeys(t, now) && k !in KeysOf(rows);
    }
    forall k, i | Due(t, k, now) && !Selects(rows, k) && 0 <= i < |rows|
      ensures |rows| == limit && rows[i].entry.stamp <= t[k].entry.stamp
    {
      NoneOlder(rows, t, now, k, i);
    }
  }

  // ---------------------------------------------------------------- the protocol

  /** A flush under way: the rows still to post, and the answer to the first if not yet written. */
  datatype Flush = Flush(now: int, rest: seq<Row>, reply: Option<int>)

  datatype Txn = Txn(owner: nat, view: Table)

  datatype World = World(
    disk: Table,
    txn: Option<Txn>,
    flushes: map<nat, Flush>,
    history: seq<Entry>,
    accepted: seq<Entry>)

  datatype Event =
    | Enqueue(entry: Entry)
    | Start(id: nat, now: int, rows: seq<Row>)
    | Answer(id: nat, code: int)
    | Write(id: nat)
    | Commit(id: nat)
    | Die(id: nat)

  /** Whether `id` may write: nobody else has a transaction open. */
  predicate MayWrite(w: World, id: nat) {
    w.txn.None? || w.txn.value.owner == id
  }

  function View(w: World): Table {
    if w.txn.None? then w.disk else w.txn.value.view
  }

  ghost predicate Enabled(w: World, e: Event) {
    match e
    case Enqueue(_) => w.txn.None?
    case Start(id, now, rows) => id !in w.flushes && exists limit: nat :: IsSelection(rows, w.disk, now, limit)
    case Answer(id, _) => id in w.flushes && w.flushes[id].rest != [] && w.flushes[id].reply.None?
    case Write(id) => id in w.flushes && w.flushes[id].rest != [] && w.flushes[id].reply.Some? && MayWrite(w, id)
    case Commit(id) => id in w.flushes && w.flushes[id].rest == []
    case Die(id) => id in w.flushes
  }

  /** A step that cannot be taken (a lock that times out, say) changes nothing. */
  ghost function Apply(w: World, e: Event): World {
    if !Enabled(w, e) then w
    else match e
      case Enqueue(entry) =>
        w.(disk := Upserted(w.disk, entry), history := w.history + [entry])
      case Start(id, now, rows) =>
        w.(flushes := w.flushes[id := Flush(now, rows, None)])
      case Answer(id, code) => Answered(w, id, code)
      case Write(id) => Written(w, id)
      case Commit(id) =>
        var mine := w.txn.Some? && w.txn.value.owner == id;
        w.(disk := if mine then w.txn.value.view else w.disk,
           txn := if mine then None else w.txn,
           flushes := w.flushes - {id})
      case Die(id) =>
        var mine := w.txn.Some? && w.txn.value.owner == id;
        w.(txn := if mine then None else w.txn, flushes := w.flushes - {id})
  }

  function Answered(w: World, id: nat, code: int): World
    requires id in w.flushes && w.flushes[id].rest != []
  {
    var f := w.flushes[id];
    w.(flushes := w.flushes[id := f.(reply := Some(code))],
       accepted := if Accepts(code) then w.accepted + [f.rest[0].entry] else w.accepted)
  }

  function Written(w: World, id: nat): World
    requires id in w.flushes && w.flushes[id].rest != [] && w.flushes[id].reply.Some?
  {
    var f := w.flushes[id];
    var code := f.reply.value;
    var rest := if Stops(code) then [] else f.rest[1..];
    w.(txn := Some(Txn(id, Recorded(View(w), f.rest[0], code, f.now))),
       flushes := w.flushes[id := Flush(f.now, rest, None)])
  }

  ghost function After(w: World, events: seq<Event>): World
    decreases |events|
  {
    if events == [] then w else After(Apply(w, events[0]), events[1..])
  }

  lemma {:induction false} AfterConcat(w: World, a: seq<Event>, b: seq<Event>)
    ensures After(w, a + b) == After(After(w, a), b)
    decreases |a|
  {
    if a == [] {
      assert a + b == b;
    } else {
      assert (a + b)[0] == a[0] && (a + b)[1..] == a[1..] + b;
      AfterConcat(Apply(w, a[0]), a[1..], b);
    }
  }

  lemma AfterTwo(w: World, a: Event, b: Event)
    ensures After(w, [a, b]) == Apply(Apply(w, a), b)
  {
    var events := [a, b];
    assert events[1..] == [b];
    assert After(Apply(Apply(w, a), b), []) == Apply(Apply(w, a), b);
    assert [b][1..] == [];
  }

  const Empty: World := World(map[], None, map[], [], [])

  // ---------------------------------------------------------------- what every run keeps

  /** The last entry queued under `key`. */
  function Latest(history: seq<Entry>, key: string): (e: Option<Entry>)
    ensures e.Some? ==> e.value in history && e.value.key == key
    ensures e.None? ==> forall i | 0 <= i < |history| :: history[i].key != key
  {
    if history == [] then None
    else if history[|history| - 1].key == key then Some(history[|history| - 1])
    else Latest(history[..|history| - 1], key)
  }

  lemma LatestSnoc(history: seq<Entry>, e: Entry, key: string)
    ensures Latest(history + [e], key) == if e.key == key then Some(e) else Latest(history, key)
  {
    assert (history + [e])[..|history|] == history;
  }

  /** Trakt has taken an entry with this key and stamp. */
  ghost predicate StampTaken(accepted: seq<Entry>, e: Entry) {
    exists a | a in accepted :: a.key == e.key && a.stamp == e.stamp
  }

  /** Every row pending in `t` is the latest of its key. */
  ghost predicate Current(t: Table, history: seq<Entry>) {
    forall k | k in t :: Latest(history, k) == Some(t[k].entry)
  }

  /** The latest entry of every key is pending in `t`, or its stamp was taken. */
  ghost predicate Kept(t: Table, history: seq<Entry>, accepted: seq<Entry>) {
    forall e | e in history && Latest(history, e.key) == Some(e) :: e.key in t || StampTaken(accepted, e)
  }

  ghost predicate FlushSound(f: Flush, history: seq<Entry>, accepted: seq<Entry>) {
    && (forall i | 0 <= i < |f.rest| :: f.rest[i].entry in history)
    && (f.reply.Some? && f.rest != [] && Accepts(f.reply.value) ==> f.rest[0].entry in accepted)
  }

  ghost predicate TableSound(t: Table, history: seq<Entry>, accepted: seq<Entry>) {
    Current(t, history) && Kept(t, history, accepted)
  }

  ghost predicate Sound(w: World) {
    && TableSound(w.disk, w.history, w.accepted)
    && (w.txn.Some? ==> w.txn.value.owner in w.flushes && TableSound(w.txn.value.view, w.history, w.accepted))
    && (forall id | id in w.flushes :: FlushSound(w.flushes[id], w.history, w.accepted))
    && (forall a | a in w.accepted :: a in w.history)
  }

  lemma MoreAccepted(t: Table, history: seq<Entry>, accepted: seq<Entry>, a: Entry)
    requires TableSound(t, history, accepted)
    ensures TableSound(t, history, accepted + [a])
  {
    forall e | e in history && Latest(history, e.key) == Some(e)
      ensures e.key in t || StampTaken(accepted + [a], e)
    {
      if e.key !in t {
        var b :| b in accepted && b.key == e.key && b.stamp == e.stamp;
        assert b in accepted + [a];
      }
    }
  }

  lemma EnqueueKeepsTable(t: Table, history: seq<Entry>, accepted: seq<Entry>, e: Entry)
    requires TableSound(t, history, accepted)
    ensures TableSound(Upserted(t, e), history + [e], accepted)
  {
    var t', h' := Upserted(t, e), history + [e];
    forall k | k in t'
      ensures Latest(h', k) == Some(t'[k].entry)
    {
      LatestSnoc(history, e, k);
    }
    forall d | d in h' && Latest(h', d.key) == Some(d)
      ensures d.key in t' || StampTaken(accepted, d)
    {
      LatestSnoc(history, e, d.key);
    }
  }

  lemma RecordKeepsTable(t: Table, history: seq<Entry>, accepted: seq<Entry>, row: Row, code: int, now: int)
    requires TableSound(t, history, accepted)
    requires Accepts(code) ==> row.entry in accepted
    ensures TableSound(Recorded(t, row, code, now), history, accepted)
  {
    var t' := Recorded(t, row, code, now);
    forall e | e in history && Latest(history, e.key) == Some(e)
      ensures e.key in t' || StampTaken(accepted, e)
    {
      if e.key in t && e.key !in t' {
        assert row.entry in accepted && t[e.key].entry == e;
      }
    }
  }

  lemma SelectedAreQueued(w: World, now: int, rows: seq<Row>)
    requires Sound(w) && AreRowsOf(rows, w.disk, now)
    ensures FlushSound(Flush(now, rows, None), w.history, w.accepted)
  {
    forall i | 0 <= i < |rows|
      ensures rows[i].entry in w.history
    {
      assert Latest(w.history, rows[i].entry.key) == Some(w.disk[rows[i].entry.key].entry);
    }
  }

  lemma StepKeepsSound(w: World, e: Event)
    requires Sound(w)
    ensures Sound(Apply(w, e))
  {
    var w' := Apply(w, e);
    if Enabled(w, e) {
      match e {
        case Enqueue(entry) =>
          EnqueueKeepsTable(w.disk, w.history, w.accepted, entry);
          assert forall a | a in w.history :: a in w'.history;
        case Start(id, now, rows) => SelectedAreQueued(w, now, rows);
        case Answer(id, code) => AnswerKeepsSound(w, id, code);
        case Write(id) =>
          RecordKeepsTable(View(w), w.history, w.accepted,
                           w.flushes[id].rest[0], w.flushes[id].reply.value, w.flushes[id].now);
        case Commit(id) =>
        case Die(id) =>
      }
    }
  }

  lemma AnswerKeepsSound(w: World, id: nat, code: int)
    requires Sound(w) && id in w.flushes && w.flushes[id].rest != []
    ensures Sound(Answered(w, id, code))
  {
    var w' := Answered(w, id, code);
    var row := w.flushes[id].rest[0];
    if Accepts(code) {
      MoreAccepted(w.disk, w.history, w.accepted, row.entry);
      if w.txn.Some? {
        MoreAccepted(w.txn.value.view, w.history, w.accepted, row.entry);
      }
      assert row.entry in w'.accepted;
      assert forall a | a in w.accepted :: a in w'.accepted;
    }
  }

  lemma {:induction false} RunKeepsSound(w: World, events: seq<Event>)
    requires Sound(w)
    ensures Sound(After(w, events))
    decreases |events|
  {
    if events != [] {
      StepKeepsSound(w, events[0]);
      RunKeepsSound(Apply(w, events[0]), events[1..]);
    }
  }

  /** What is pending, at any moment and whatever the stamps, is the latest update of its key. */
  lemma PendingIsLatest(events: seq<Event>, key: string)
    ensures var w := After(Empty, events);
            key in w.disk ==> Latest(w.history, key) == Some(w.disk[key].entry)
  {
    RunKeepsSound(Empty, events);
  }

  /** No two different updates of one key carry the same stamp. */
  ghost predicate DistinctStamps(history: seq<Entry>) {
    forall a, b | a in history && b in history && a.key == b.key && a.stamp == b.stamp :: a == b
  }

  /**
   * However flushes, failures, rollbacks and the player interleave, the latest update of a key is
   * pending or was taken by Trakt, provided stamps tell updates apart; and Trakt takes nothing
   * that was not queued.  Without that proviso, an update of the same key and stamp was taken.
   */
  lemma LatestIsKept(events: seq<Event>, key: string)
    ensures var w := After(Empty, events);
            var latest := Latest(w.history, key);
            && (latest.Some? && key !in w.disk ==>
                  && StampTaken(w.accepted, latest.value)
                  && (DistinctStamps(w.history) ==> latest.value in w.accepted))
            && forall a | a in w.accepted :: a in w.history
  {
    RunKeepsSound(Empty, events);
  }

  /** The stored table changes only when the player queues, which it cannot while a flush is writing, or when
      that flush commits; one that dies leaves it as it was, and the way free. */
  lemma DiskChanges(w: World, e: Event)
    ensures var next := Apply(w, e);
            && (e.Enqueue? ==>
                  if w.txn.None? then next.disk == w.disk[e.entry.key := Row(e.entry, 0, 0)] && next.history == w.history + [e.entry]
                  else next == w)
            && (!e.Enqueue? && !e.Commit? ==> next.disk == w.disk && next.history == w.history)
            && (e.Commit? ==> next.history == w.history)
            && (e.Commit? ==>
                  next.disk == if e.id in w.flushes && w.flushes[e.id].rest == [] && w.txn.Some? && w.txn.value.owner == e.id
                               then w.txn.value.view else w.disk)
            && (e.Write? && w.txn.Some? && w.txn.value.owner != e.id ==> next == w)
            && (e.Die? && e.id in w.flushes ==>
                  next.flushes == w.flushes - {e.id} && next.accepted == w.accepted
                  && next.txn == if w.txn.Some? && w.txn.value.owner == e.id then None else w.txn)
  {
  }

  // ---------------------------------------------------------------- stamps in whole seconds

  /** A flush posts `early`; before it writes the outcome the player queues `late` under the same key. */
  function Overtaken(early: Entry, late: Entry): seq<Event> {
    [Enqueue(early), Start(0, 0, [Row(early, 0, 0)]), Answer(0, 200), Enqueue(late), Write(0), Commit(0)]
  }

  lemma OneRowSelected(e: Entry)
    ensures IsSelection([Row(e, 0, 0)], map[e.key := Row(e, 0, 0)], 0, 1)
  {
    var rows := [Row(e, 0, 0)];
    assert rows[0].entry.key == e.key;
    assert Selects(rows, e.key);
  }

  /** The first three steps: `early` is queued, read by a flush and accepted, all before the delete. */
  lemma EarlyIsTaken(early: Entry)
    ensures var row := Row(early, 0, 0);
            After(Empty, Overtaken(early, early)[..3])
            == World(map[early.key := row], None, map[0 := Flush(0, [row], Some(200))], [early], [early])
  {
    var row := Row(early, 0, 0);
    var events := Overtaken(early, early)[..3];
    assert events == [Enqueue(early)] + [Start(0, 0, [row]), Answer(0, 200)];
    AfterConcat(Empty, [Enqueue(early)], [Start(0, 0, [row]), Answer(0, 200)]);
    var w1 := World(map[early.key := row], None, map[], [early], []);
    assert After(Empty, [Enqueue(early)]) == Apply(Empty, Enqueue(early)) == w1;
    OneRowSelected(early);
    assert Enabled(w1, Start(0, 0, [row]));
    AfterTwo(w1, Start(0, 0, [row]), Answer(0, 200));
  }

  /** The last two: the delete looks for the stamp the flush has read. */
  lemma DeleteByStamp(late: Entry, row: Row)
    requires row.entry.key == late.key
    ensures var t := map[late.key := Row(late, 0, 0)];
            var h := [row.entry, late];
            After(World(t, None, map[0 := Flush(0, [row], Some(200))], h, [row.entry]), [Write(0), Commit(0)])
            == World(if row.entry.stamp == late.stamp then map[] else t, None, map[], h, [row.entry])
  {
    var t := map[late.key := Row(late, 0, 0)];
    var w := World(t, None, map[0 := Flush(0, [row], Some(200))], [row.entry, late], [row.entry]);
    AfterTwo(w, Write(0), Commit(0));
    var t' := if row.entry.stamp == late.stamp then map[] else t;
    assert Recorded(t, row, 200, 0) == t';
    assert Apply(w, Write(0)).flushes == map[0 := Flush(0, [], None)];
  }

  /**
   * The later update survives this run, pending or taken, exactly when its stamp differs (or it is
   * the same update): two updates within one second can lose the second.
   */
  lemma OvertakenIsKeptIff(early: Entry, late: Entry)
    requires early.key == late.key
    ensures var w := After(Empty, Overtaken(early, late));
            && Latest(w.history, late.key) == Some(late)
            && ((late.key in w.disk || late in w.accepted) <==> (early.stamp != late.stamp || early == late))
  {
    var row := Row(early, 0, 0);
    var first, last := Overtaken(early, early)[..3], [Write(0), Commit(0)];
    assert Overtaken(early, late) == first + ([Enqueue(late)] + last);
    AfterConcat(Empty, first, [Enqueue(late)] + last);
    EarlyIsTaken(early);
    var w3 := After(Empty, first);
    AfterConcat(w3, [Enqueue(late)], last);
    var w4 := After(w3, [Enqueue(late)]);
    assert w4 == Apply(w3, Enqueue(late));
    assert w4.disk == map[late.key := Row(late, 0, 0)] && w4.history == [early, late];
    DeleteByStamp(late, row);
    LatestSnoc([early], late, late.key);
  }

  // ---------------------------------------------------------------- one flush at a time

  /** Along this run no flush starts while another is under way. */
  ghost predicate OneAtATime(w: World, events: seq<Event>)
    decreases |events|
  {
    events == [] ||
    ((events[0].Start? && Enabled(w, events[0]) ==> w.flushes == map[]) && OneAtATime(Apply(w, events[0]), events[1..]))
  }

  /** The stamps of every key grow. */
  ghost predicate Growing(log: seq<Entry>) {
    forall i, j | 0 <= i < j < |log| && log[i].key == log[j].key :: log[i].stamp < log[j].stamp
  }

  ghost predicate NeverBack(log: seq<Entry>) {
    forall i, j | 0 <= i < j < |log| && log[i].key == log[j].key :: log[i].stamp <= log[j].stamp
  }

  ghost predicate NotAhead(accepted: seq<Entry>, row: Row) {
    forall a | a in accepted && a.key == row.entry.key :: a.stamp <= row.entry.stamp
  }

  /** Nothing taken so far is newer than a row still to be posted. */
  ghost predicate FlushInOrder(f: Flush, accepted: seq<Entry>) {
    && DistinctKeys(f.rest)
    && forall i | (if f.reply.Some? then 1 else 0) <= i < |f.rest| :: NotAhead(accepted, f.rest[i])
  }

  ghost predicate InOrder(w: World) {
    && Sound(w)
    && (forall i, j | i in w.flushes && j in w.flushes :: i == j)
    && (forall id | id in w.flushes :: FlushInOrder(w.flushes[id], w.accepted))
    && NeverBack(w.accepted)
  }

  lemma {:induction false} LatestIsNewest(history: seq<Entry>, a: Entry)
    requires Growing(history) && a in history
    ensures Latest(history, a.key).Some? && a.stamp <= Latest(history, a.key).value.stamp
    ensures a.stamp == Latest(history, a.key).value.stamp ==> a == Latest(history, a.key).value
  {
    var i :| 0 <= i < |history| && history[i] == a;
    LatestIsLast(history, i);
  }

  lemma {:induction false} LatestIsLast(history: seq<Entry>, i: nat)
    requires Growing(history) && i < |history|
    ensures var l := Latest(history, history[i].key);
            l.Some? && (l.value == history[i] || history[i].stamp < l.value.stamp)
  {
    var n := |history| - 1;
    if history[n].key != history[i].key {
      assert history[..n][i] == history[i];
      LatestIsLast(history[..n], i);
    }
  }

  lemma StartInOrder(w: World, now: int, rows: seq<Row>)
    requires Sound(w) && Growing(w.history) && DistinctKeys(rows) && AreRowsOf(rows, w.disk, now)
    ensures FlushInOrder(Flush(now, rows, None), w.accepted)
  {
    forall i | 0 <= i < |rows|
      ensures NotAhead(w.accepted, rows[i])
    {
      assert Latest(w.history, rows[i].entry.key) == Some(w.disk[rows[i].entry.key].entry);
      forall a | a in w.accepted && a.key == rows[i].entry.key
        ensures a.stamp <= rows[i].entry.stamp
      {
        LatestIsNewest(w.history, a);
      }
    }
  }

  lemma AnswerInOrder(w: World, id: nat, code: int)
    requires InOrder(w) && Enabled(w, Answer(id, code))
    ensures InOrder(Answered(w, id, code))
  {
    AnswerKeepsSound(w, id, code);
    var w' := Answered(w, id, code);
    var f := w.flushes[id];
    assert NotAhead(w.accepted, f.rest[0]);
    forall i | 1 <= i < |f.rest|
      ensures NotAhead(w'.accepted, f.rest[i])
    {
      assert NotAhead(w.accepted, f.rest[i]) && f.rest[0].entry.key != f.rest[i].entry.key;
    }
    assert FlushInOrder(w'.flushes[id], w'.accepted);
    assert forall i | 0 <= i < |w.accepted| :: w.accepted[i] in w.accepted;
  }

  lemma WriteInOrder(w: World, id: nat)
    requires InOrder(w) && Enabled(w, Write(id))
    ensures InOrder(Apply(w, Write(id)))
  {
    StepKeepsSound(w, Write(id));
    var f, w' := w.flushes[id], Apply(w, Write(id));
    if !Stops(f.reply.value) {
      forall i | 0 <= i < |f.rest| - 1
        ensures NotAhead(w.accepted, f.rest[1..][i])
      {
        assert f.rest[1..][i] == f.rest[i + 1];
      }
    }
    assert FlushInOrder(w'.flushes[id], w'.accepted);
  }

  lemma StepInOrder(w: World, e: Event)
    requires InOrder(w) && Growing(w.history)
    requires e.Start? && Enabled(w, e) ==> w.flushes == map[]
    ensures InOrder(Apply(w, e))
  {
    StepKeepsSound(w, e);
    if Enabled(w, e) {
      match e {
        case Enqueue(_) =>
        case Start(id, now, rows) => StartInOrder(w, now, rows);
        case Answer(id, code) => AnswerInOrder(w, id, code);
        case Write(id) => WriteInOrder(w, id);
        case Commit(id) =>
        case Die(id) =>
      }
    }
  }

  lemma HistoryGrows(w: World, e: Event)
    ensures w.history <= Apply(w, e).history
  {
  }

  lemma {:induction false} HistoryIsPrefix(w: World, events: seq<Event>)
    ensures w.history <= After(w, events).history
    decreases |events|
  {
    if events != [] {
      HistoryGrows(w, events[0]);
      HistoryIsPrefix(Apply(w, events[0]), events[1..]);
    }
  }

  lemma {:induction false} RunInOrder(w: World, events: seq<Event>)
    requires InOrder(w) && OneAtATime(w, events) && Growing(After(w, events).history)
    ensures InOrder(After(w, events))
    decreases |events|
  {
    if events != [] {
      HistoryIsPrefix(w, events);
      StepInOrder(w, events[0]);
      RunInOrder(Apply(w, events[0]), events[1..]);
    }
  }

  lemma {:induction false} LastTakenIsNewest(accepted: seq<Entry>, e: Entry)
    requires NeverBack(accepted) && e in accepted
    ensures Latest(accepted, e.key).Some? && e.stamp <= Latest(accepted, e.key).value.stamp
  {
    var n := |accepted| - 1;
    if accepted[n].key != e.key {
      var i :| 0 <= i < |accepted| && accepted[i] == e;
      assert accepted[..n][i] == e;
      LastTakenIsNewest(accepted[..n], e);
    }
  }

  /**
   * When flushes do not overlap and stamps grow, Trakt takes the updates of a key in order, and
   * once nothing is pending for a key the last thing Trakt took for it is the latest update.
   */
  lemma DrainedMeansUpToDate(events: seq<Event>, key: string)
    requires OneAtATime(Empty, events) && Growing(After(Empty, events).history)
    ensures var w := After(Empty, events);
            && NeverBack(w.accepted)
            && (key !in w.disk ==> Latest(w.accepted, key) == Latest(w.history, key))
  {
    var w := After(Empty, events);
    RunInOrder(Empty, events);
    if key !in w.disk {
      var latest := Latest(w.history, key);
      if latest.Some? {
        var a :| a in w.accepted && a.key == key && a.stamp == latest.value.stamp;
        LatestIsNewest(w.history, a);
        LastTakenIsNewest(w.accepted, a);
        LatestIsNewest(w.history, Latest(w.accepted, key).value);
      }
    }
  }

  // ---------------------------------------------------------------- the code

  /** What the player knows when it reports; `identity` is absent when the media cannot be named. */
  datatype Report = Report(
    live: bool,
    key: string,
    identity: Option<string>,
    position: real,
    duration: real,
    completed: bool,
    paused: bool,
    stopping: bool)

  function Clamp(p: real): real {
    if p < 0.0 then 0.0 else if p > 100.0 then 100.0 else p
  }

  function Progress(r: Report): (p: real)
    ensures 0.0 <= p <= 100.0
  {
    if r.completed then 100.0
    else if r.duration > 0.0 then Clamp(r.position / r.duration * 100.0)
    else 0.0
  }

  function Action(r: Report): string {
    if r.completed then "history"
    else if r.stopping then "stop"
    else if r.paused then "pause"
    else "start"
  }

  predicate Reportable(r: Report) {
    !r.live && r.identity.Some? && r.key != ""
  }

  function EntryOf(r: Report, now: int): Entry
    requires Reportable(r)
  {
    Entry(r.key, Update(Action(r), r.identity.value, Progress(r)), now)
  }

  /** What is queued: completed media go to the history with full progress; else the action follows from how
      playback ended or stands, and progress is the position in percent of the duration, within 0 and 100. */
  lemma EntryIs(r: Report, now: int)
    requires Reportable(r)
    ensures var e := EntryOf(r, now);
            && e.key == r.key && e.stamp == now && e.update.media == r.identity.value
            && (r.completed ==> e.update.action == "history" && e.update.progress == 100.0)
            && (!r.completed && r.stopping ==> e.update.action == "stop")
            && (!r.completed && !r.stopping ==> e.update.action == if r.paused then "pause" else "start")
            && (!r.completed && r.duration <= 0.0 ==> e.update.progress == 0.0)
            && (!r.completed && r.duration > 0.0 ==>
                  && (r.position <= 0.0 ==> e.update.progress == 0.0)
                  && (r.position >= r.duration ==> e.update.progress == 100.0)
                  && (0.0 <= r.position <= r.duration ==> e.update.progress * r.duration == 100.0 * r.position))
  {
    if !r.completed && r.duration > 0.0 {
      Percent(r.position, r.duration);
    }
  }

  lemma Percent(position: real, duration: real)
    requires duration > 0.0
    ensures var p := position / duration * 100.0;
            && p * duration == 100.0 * position
            && (position <= 0.0 ==> p <= 0.0) && (position >= duration ==> p >= 100.0)
            && (0.0 <= position <= duration ==> 0.0 <= p <= 100.0)
  {
    var q := position / duration;
    var p := q * 100.0;
    assert q * duration == position;
    assert p * duration == 100.0 * position by {
      assert p * duration == 100.0 * (q * duration);
    }
    Ratio(p, 0.0, duration, 100.0 * position, 0.0);
    Ratio(p, 100.0, duration, 100.0 * position, 100.0 * duration);
  }

  /** Products by a positive number compare as their factors. */
  lemma Ratio(a: real, b: real, d: real, ad: real, bd: real)
    requires d > 0.0 && ad == a * d && bd == b * d
    ensures a <= b <==> ad <= bd
    ensures b <= a <==> bd <= ad
  {
    assert (a - b) * d == ad - bd;
  }

  /** A queued update may be sent at once, with all its attempts before it; other keys are untouched. */
  lemma QueuedIsDue(t: Table, e: Entry, now: int)
    requires now >= 0
    ensures var t' := Upserted(t, e);
            && e.key in DueKeys(t', now) && t'[e.key].entry == e && t'[e.key].attempts == 0
            && forall k | k != e.key :: (k in t' <==> k in t) && (k in t ==> t'[k] == t[k])
  {
  }

  /** The table, what was posted with success, and whether the loop went on, after answers `codes` to `rows`. */
  function Flushed(t: Table, rows: seq<Row>, codes: seq<int>, now: int): (r: (Table, seq<Entry>))
    requires |rows| == |codes|
    decreases |rows|
  {
    if rows == [] then (t, [])
    else
      var t' := Recorded(t, rows[0], codes[0], now);
      var taken := if Accepts(codes[0]) then [rows[0].entry] else [];
      if Stops(codes[0]) then (t', taken)
      else
        var r := Flushed(t', rows[1..], codes[1..], now);
        (r.0, taken + r.1)
  }

  /** The loop stands before row `i` and will end with `goal`. */
  ghost predicate GoesOn(goal: (Table, seq<Entry>), t: Table, taken: seq<Entry>, rows: seq<Row>, codes: seq<int>,
                         now: int, i: nat)
  {
    && |rows| == |codes| && i <= |rows|
    && goal.0 == Flushed(t, rows[i..], codes[i..], now).0
    && goal.1 == taken + Flushed(t, rows[i..], codes[i..], now).1
  }

  /** One turn of the loop, at row `i`. */
  lemma FlushedTurn(goal: (Table, seq<Entry>), t: Table, taken: seq<Entry>, rows: seq<Row>, codes: seq<int>,
                    now: int, i: nat)
    requires GoesOn(goal, t, taken, rows, codes, now, i) && i < |rows|
    ensures var t' := Recorded(t, rows[i], codes[i], now);
            var taken' := if Accepts(codes[i]) then taken + [rows[i].entry] else taken;
            if Stops(codes[i]) then goal == (t', taken') else GoesOn(goal, t', taken', rows, codes, now, i + 1)
  {
    assert rows[i..][1..] == rows[i + 1..] && codes[i..][1..] == codes[i + 1..];
    var posted := if Accepts(codes[i]) then [rows[i].entry] else [];
    var later := Flushed(Recorded(t, rows[i], codes[i], now), rows[i + 1..], codes[i + 1..], now).1;
    assert taken + (posted + later) == taken + posted + later;
    assert taken + [] == taken;
  }

  lemma FlushStarts(t: Table, rows: seq<Row>, codes: seq<int>, now: int)
    requires |rows| == |codes|
    ensures GoesOn(Flushed(t, rows, codes, now), t, [], rows, codes, now, 0)
  {
    assert rows[0..] == rows && codes[0..] == codes;
  }

  class Outbox {
    var pending: Table

    constructor ()
      ensures pending == map[]
    {
      pending := map[];
    }

    /** `enqueue_progress`: only a named recording is queued, replacing what was pending for its key. */
    method EnqueueProgress(r: Report, now: int) returns (queued: bool)
      modifies this
      ensures queued <==> !r.live && r.identity.Some? && r.key != ""
      ensures pending == if queued then Upserted(old(pending), EntryOf(r, now)) else old(pending)
    {
      if r.live {
        return false;
      }
      if r.identity.None? || r.key == "" {
        return false;
      }
      var progress := if r.duration > 0.0 then Clamp(r.position / r.duration * 100.0) else 0.0;
      var action;
      if r.completed {
        action := "history";
        progress := 100.0;
      } else if r.stopping {
        action := "stop";
      } else if r.paused {
        action := "pause";
      } else {
        action := "start";
      }
      var row := Row(Entry(r.key, Update(action, r.identity.value, progress), now), 0, 0);
      pending := pending[r.key := row];
      return true;
    }

    /** `flush` with nobody in between: `rows` is what its query returned, `codes` what Trakt would answer. */
    method Flush(ready: bool, rows: seq<Row>, codes: seq<int>, now: int) returns (sent: nat, taken: seq<Entry>)
      requires |rows| == |codes|
      modifies this
      ensures !ready ==> pending == old(pending) && taken == []
      ensures ready ==> pending == Flushed(old(pending), rows, codes, now).0
      ensures ready ==> taken == Flushed(old(pending), rows, codes, now).1
      ensures sent == |taken|
    {
      sent, taken := 0, [];
      if !ready {
        return;
      }
      var i := 0;
      ghost var goal := Flushed(pending, rows, codes, now);
      FlushStarts(pending, rows, codes, now);
      while i < |rows|
        invariant 0 <= i <= |rows| && sent == |taken|
        invariant GoesOn(goal, pending, taken, rows, codes, now, i)
      {
        FlushedTurn(goal, pending, taken, rows, codes, now, i);
        var row, code := rows[i], codes[i];
        var k := row.entry.key;
        ghost var next := Recorded(pending, row, code, now);
        if 200 <= code < 300 {
          if k in pending && pending[k].entry.stamp == row.entry.stamp {
            pending := pending - {k};
          }
          taken := taken + [row.entry];
          sent := sent + 1;
        } else {
          var attempts := row.attempts + 1;
          if k in pending {
            pending := pending[k := pending[k].(attempts := attempts, nextAt := now + Delay(attempts))];
          }
          if code == 401 || code == 403 {
            assert pending == next;
            break;
          }
        }
        assert pending == next;
        i := i + 1;
      }
    }
  }

  /** The steps of one flush left to itself. */
  function Steps(id: nat, codes: seq<int>): (s: seq<Event>)
  {
    if codes == [] then []
    else
      [Answer(id, codes[0]), Write(id)] + if Stops(codes[0]) then [] else Steps(id, codes[1..])
  }

  /** `w` once flush `id` has written `view`, taken `taken` and has `rest` left to post. */
  function Moved(w: World, id: nat, view: Table, taken: seq<Entry>, rest: seq<Row>): World
    requires id in w.flushes
  {
    w.(txn := Some(Txn(id, view)),
       flushes := w.flushes[id := Flush(w.flushes[id].now, rest, None)],
       accepted := w.accepted + taken)
  }

  lemma MovedTwice(w: World, id: nat, v: Table, a: seq<Entry>, r: seq<Row>, v': Table, b: seq<Entry>, r': seq<Row>)
    requires id in w.flushes
    ensures Moved(Moved(w, id, v, a, r), id, v', b, r') == Moved(w, id, v', a + b, r')
  {
    var m := w.flushes;
    var f, f' := Flush(m[id].now, r, None), Flush(m[id].now, r', None);
    assert m[id := f][id := f'] == m[id := f'];
    assert w.accepted + a + b == w.accepted + (a + b);
  }

  /** One turn of the loop is an answer and a write. */
  lemma TurnIsTwoSteps(w: World, id: nat, code: int)
    requires id in w.flushes && w.flushes[id].rest != [] && w.flushes[id].reply.None? && MayWrite(w, id)
    ensures var f := w.flushes[id];
            After(w, [Answer(id, code), Write(id)])
            == Moved(w, id, Recorded(View(w), f.rest[0], code, f.now),
                     if Accepts(code) then [f.rest[0].entry] else [],
                     if Stops(code) then [] else f.rest[1..])
  {
    AfterTwo(w, Answer(id, code), Write(id));
    var w1 := Apply(w, Answer(id, code));
    assert Enabled(w1, Write(id));
    var w2 := Apply(w1, Write(id));
    assert w2.flushes == w.flushes[id := w2.flushes[id]];
  }

  lemma {:induction false} LoopIsARun(w: World, id: nat, codes: seq<int>)
    requires id in w.flushes && w.flushes[id].reply.None? && MayWrite(w, id)
    requires |w.flushes[id].rest| == |codes| > 0
    ensures var f := w.flushes[id];
            var r := Flushed(View(w), f.rest, codes, f.now);
            After(w, Steps(id, codes)) == Moved(w, id, r.0, r.1, [])
    decreases |codes|
  {
    var f := w.flushes[id];
    var turn := [Answer(id, codes[0]), Write(id)];
    var t' := Recorded(View(w), f.rest[0], codes[0], f.now);
    var taken := if Accepts(codes[0]) then [f.rest[0].entry] else [];
    TurnIsTwoSteps(w, id, codes[0]);
    if Stops(codes[0]) || |codes| == 1 {
      assert Steps(id, codes) == turn;
      assert !Stops(codes[0]) ==> f.rest[1..] == [];
    } else {
      var w1 := Moved(w, id, t', taken, f.rest[1..]);
      var r := Flushed(t', f.rest[1..], codes[1..], f.now);
      AfterConcat(w, turn, Steps(id, codes[1..]));
      LoopIsARun(w1, id, codes[1..]);
      MovedTwice(w, id, t', taken, f.rest[1..], r.0, r.1, []);
    }
  }

  /** A flush that nobody interrupts is a run of the protocol, with the table and posts `Flushed` gives. */
  lemma FlushIsARun(w: World, id: nat, rows: seq<Row>, codes: seq<int>, now: int, limit: nat)
    requires id !in w.flushes && w.txn.None? && IsSelection(rows, w.disk, now, limit)
    requires |rows| == |codes|
    ensures var w' := After(w, [Start(id, now, rows)] + Steps(id, codes) + [Commit(id)]);
            var r := Flushed(w.disk, rows, codes, now);
            w' == w.(disk := r.0, accepted := w.accepted + r.1)
  {
    var start, loop, commit := [Start(id, now, rows)], Steps(id, codes), [Commit(id)];
    AfterConcat(w, start + loop, commit);
    AfterConcat(w, start, loop);
    var w1 := w.(flushes := w.flushes[id := Flush(now, rows, None)]);
    assert After(w, start) == Apply(w, Start(id, now, rows)) == w1;
    if codes != [] {
      LoopIsARun(w1, id, codes);
    }
    var w2 := After(w1, loop);
    assert After(w2, commit) == Apply(w2, Commit(id));
    assert w2.flushes - {id} == w.flushes;
  }

  /** Flush 0 reads `early`; the player queues `late`; flush 1 sends `late` before flush 0 sends `early`. */
  function Crossed(early: Entry, late: Entry): seq<Event> {
    [Enqueue(early), Start(0, 0, [Row(early, 0, 0)]), Enqueue(late)]
    + ([Start(1, 0, [Row(late, 0, 0)])] + Steps(1, [200]) + [Commit(1)])
    + (Steps(0, [200]) + [Commit(0)])
  }

  /** The world once `early` is read and `late` queued behind it. */
  lemma CrossedStart(early: Entry, late: Entry)
    requires early.key == late.key
    ensures After(Empty, [Enqueue(early), Start(0, 0, [Row(early, 0, 0)]), Enqueue(late)])
            == World(map[late.key := Row(late, 0, 0)], None,
                     map[0 := Flush(0, [Row(early, 0, 0)], None)], [early, late], [])
  {
    var row := Row(early, 0, 0);
    AfterConcat(Empty, [Enqueue(early)], [Start(0, 0, [row]), Enqueue(late)]);
    var w1 := World(map[early.key := row], None, map[], [early], []);
    assert After(Empty, [Enqueue(early)]) == Apply(Empty, Enqueue(early)) == w1;
    assert [Enqueue(early)] + [Start(0, 0, [row]), Enqueue(late)]
        == [Enqueue(early), Start(0, 0, [row]), Enqueue(late)];
    OneRowSelected(early);
    assert Enabled(w1, Start(0, 0, [row]));
    AfterTwo(w1, Start(0, 0, [row]), Enqueue(late));
    assert map[early.key := row][late.key := Row(late, 0, 0)] == map[late.key := Row(late, 0, 0)];
  }

  /** A flush holding one stale row posts it and, finding no row to delete, ends. */
  lemma StaleFlushPosts(row: Row, h: seq<Entry>, a: seq<Entry>)
    ensures After(World(map[], None, map[0 := Flush(0, [row], None)], h, a), Steps(0, [200]) + [Commit(0)])
            == World(map[], None, map[], h, a + [row.entry])
  {
    var w := World(map[], None, map[0 := Flush(0, [row], None)], h, a);
    AfterConcat(w, Steps(0, [200]), [Commit(0)]);
    LoopIsARun(w, 0, [200]);
    var w1 := After(w, Steps(0, [200]));
    assert After(w1, [Commit(0)]) == Apply(w1, Commit(0));
    assert w1.flushes - {0} == map[];
  }

  /** A flush that reads the only row and has it accepted leaves nothing pending. */
  lemma LateFlushPosts(w: World, late: Entry)
    requires w.disk == map[late.key := Row(late, 0, 0)] && w.txn.None? && 1 !in w.flushes
    ensures After(w, [Start(1, 0, [Row(late, 0, 0)])] + Steps(1, [200]) + [Commit(1)])
            == w.(disk := map[], accepted := w.accepted + [late])
  {
    var rows := [Row(late, 0, 0)];
    OneRowSelected(late);
    FlushIsARun(w, 1, rows, [200], 0, 1);
    assert Recorded(w.disk, rows[0], 200, 0) == map[];
    assert Flushed(map[], rows[1..], [200][1..], 0) == (map[], []);
  }

  /** Overlapping flushes can leave Trakt with the older update last, nothing pending, whatever the stamps. */
  lemma OverlapEndsStale(early: Entry, late: Entry)
    requires early.key == late.key
    ensures var w := After(Empty, Crossed(early, late));
            && w.disk == map[] && w.history == [early, late]
            && Latest(w.history, late.key) == Some(late)
            && Latest(w.accepted, late.key) == Some(early)
  {
    var first := [Enqueue(early), Start(0, 0, [Row(early, 0, 0)]), Enqueue(late)];
    var second := [Start(1, 0, [Row(late, 0, 0)])] + Steps(1, [200]) + [Commit(1)];
    var third := Steps(0, [200]) + [Commit(0)];
    assert Crossed(early, late) == first + second + third;
    AfterConcat(Empty, first + second, third);
    AfterConcat(Empty, first, second);
    CrossedStart(early, late);
    var w1 := After(Empty, first);
    LateFlushPosts(w1, late);
    var flushes := map[0 := Flush(0, [Row(early, 0, 0)], None)];
    assert w1.accepted + [late] == [late];
    assert After(w1, second) == World(map[], None, flushes, [early, late], [late]);
    StaleFlushPosts(Row(early, 0, 0), [early, late], [late]);
    assert [early] + [late] == [early, late] && [late] + [early] == [late, early];
    LatestSnoc([early], late, late.key);
    LatestSnoc([late], early, late.key);
  }

  // ---------------------------------------------------------------- how many flushes

  /** Along this run no more than `n` flushes are under way at any moment. */
  ghost predicate AtMost(w: World, events: seq<Event>, n: nat)
    decreases |events|
  {
    |w.flushes| <= n && (events != [] ==> AtMost(Apply(w, events[0]), events[1..], n))
  }

  lemma {:induction false} AtMostOneAtATime(w: World, events: seq<Event>)
    requires AtMost(w, events, 1)
    ensures OneAtATime(w, events)
    decreases |events|
  {
    if events != [] {
      var e := events[0];
      if e.Start? && Enabled(w, e) {
        assert Apply(w, e).flushes.Keys == w.flushes.Keys + {e.id};
        assert |Apply(w, e).flushes.Keys| == |w.flushes.Keys| + 1;
        assert |w.flushes| == 0;
      }
      AtMostOneAtATime(Apply(w, e), events[1..]);
    }
  }

  lemma {:induction false} FewerAtMost(w: World, events: seq<Event>, m: nat, n: nat)
    requires AtMost(w, events, m) && m <= n
    ensures AtMost(w, events, n)
    decreases |events|
  {
    if events != [] {
      FewerAtMost(Apply(w, events[0]), events[1..], m, n);
    }
  }

  /** Flushes are under way only under ids that were started. */
  lemma {:induction false} IdsBound(w: World, events: seq<Event>, ids: set<nat>)
    requires w.flushes.Keys <= ids && forall i | 0 <= i < |events| && events[i].Start? :: events[i].id in ids
    ensures AtMost(w, events, |ids|)
    decreases |events|
  {
    SizeOfSubset(w.flushes.Keys, ids);
    if events != [] {
      assert forall i | 0 <= i < |events[1..]| :: events[1..][i] == events[i + 1];
      IdsBound(Apply(w, events[0]), events[1..], ids);
    }
  }

  lemma SizeOfSubset(a: set<nat>, b: set<nat>)
    requires a <= b
    ensures |a| <= |b|
  {
    assert b == a + (b - a);
  }

  lemma CrossedIsTwo(early: Entry, late: Entry)
    ensures AtMost(Empty, Crossed(early, late), 2)
  {
    var events := Crossed(early, late);
    assert Steps(1, [200]) == [Answer(1, 200), Write(1)] && Steps(0, [200]) == [Answer(0, 200), Write(0)];
    assert events == [Enqueue(early), Start(0, 0, [Row(early, 0, 0)]), Enqueue(late), Start(1, 0, [Row(late, 0, 0)]),
                      Answer(1, 200), Write(1), Commit(1), Answer(0, 200), Write(0), Commit(0)];
    IdsBound(Empty, events, {0, 1});
  }

  /** Once nothing is pending for a key, Trakt ends on its latest update. */
  ghost predicate UpToDate(w: World, key: string) {
    key !in w.disk ==> Latest(w.accepted, key) == Latest(w.history, key)
  }

  /** Over all runs with growing stamps and at most `n` flushes under way, drained keys are up to date,
      exactly when `n` is at most one. */
  lemma UpToDateIff(n: nat)
    ensures n <= 1
            <==> forall events, key | AtMost(Empty, events, n) && Growing(After(Empty, events).history) ::
                   UpToDate(After(Empty, events), key)
  {
    if n <= 1 {
      forall events, key | AtMost(Empty, events, n) && Growing(After(Empty, events).history)
        ensures UpToDate(After(Empty, events), key)
      {
        FewerAtMost(Empty, events, n, 1);
        AtMostOneAtATime(Empty, events);
        DrainedMeansUpToDate(events, key);
      }
    } else {
      var early, late := Entry("k", Update("start", "m", 1.0), 1), Entry("k", Update("start", "m", 2.0), 2);
      var events := Crossed(early, late);
      CrossedIsTwo(early, late);
      FewerAtMost(Empty, events, 2, n);
      OverlapEndsStale(early, late);
      assert Growing(After(Empty, events).history);
      assert !UpToDate(After(Empty, events), "k");
    }
  }

  /** Row `i` is posted unless an earlier answer refused the credentials. */
  ghost predicate Reached(codes: seq<int>, i: nat) {
    forall j | 0 <= j < i && j < |codes| :: codes[j] != 401 && codes[j] != 403
  }

  lemma {:induction false} OthersUntouched(t: Table, rows: seq<Row>, codes: seq<int>, now: int, k: string)
    requires |rows| == |codes| && !Selects(rows, k)
    ensures var t' := Flushed(t, rows, codes, now).0;
            (k in t' <==> k in t) && (k in t ==> t'[k] == t[k])
    decreases |rows|
  {
    if rows != [] {
      assert rows[0].entry.key != k;
      if !Stops(codes[0]) {
        assert forall i | 0 <= i < |rows[1..]| :: rows[1..][i] == rows[i + 1];
        OthersUntouched(Recorded(t, rows[0], codes[0], now), rows[1..], codes[1..], now, k);
      }
    }
  }

  /**
   * What an uninterrupted flush leaves of each row it selected: accepted rows are gone, refused ones
   * wait longer with their update unchanged, and rows behind a refused credential are untouched.
   */
  lemma {:induction false} FlushOutcome(t: Table, rows: seq<Row>, codes: seq<int>, now: int, i: nat)
    requires |rows| == |codes| && i < |rows| && DistinctKeys(rows) && AreRowsOf(rows, t, now)
    ensures var t' := Flushed(t, rows, codes, now).0;
            var k := rows[i].entry.key;
            && (k in t' <==> !(Reached(codes, i) && 200 <= codes[i] < 300))
            && (k in t' ==>
                  t'[k] == if Reached(codes, i)
                           then Row(rows[i].entry, rows[i].attempts + 1, now + Delay(rows[i].attempts + 1))
                           else rows[i])
    decreases |rows|
  {
    var k := rows[i].entry.key;
    var t1 := Recorded(t, rows[0], codes[0], now);
    assert Due(t, rows[0].entry.key, now) && rows[0] == t[rows[0].entry.key];
    assert Due(t, k, now) && rows[i] == t[k];
    if i == 0 {
      assert !Selects(rows[1..], k);
      if !Stops(codes[0]) {
        OthersUntouched(t1, rows[1..], codes[1..], now, k);
      }
    } else {
      assert rows[0].entry.key != k;
      if Stops(codes[0]) {
        assert !Reached(codes, i);
      } else {
        forall j | 0 <= j < |rows[1..]|
          ensures Due(t1, rows[1..][j].entry.key, now) && rows[1..][j] == t1[rows[1..][j].entry.key]
        {
          assert rows[1..][j] == rows[j + 1] && rows[0].entry.key != rows[j + 1].entry.key;
          assert Due(t, rows[j + 1].entry.key, now);
        }
        FlushOutcome(t1, rows[1..], codes[1..], now, i - 1);
        ReachedTail(codes, i);
      }
    }
  }

  lemma ReachedTail(codes: seq<int>, i: nat)
    requires 0 < i < |codes| && !Stops(codes[0])
    ensures Reached(codes, i) <==> Reached(codes[1..], i - 1)
  {
    if Reached(codes[1..], i - 1) {
      forall j | 0 <= j < i
        ensures !Stops(codes[j])
      {
        assert j > 0 ==> codes[1..][j - 1] == codes[j];
      }
    }
  }
}
