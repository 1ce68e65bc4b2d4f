/** The bound on attempts is met: a record can be claimed `maxAttempts` times and once more for every lease
    that runs out. */
module QueueLimit {
  import opened Wrappers
  import opened JobFiles
  import opened JobQueue
  import opened QueueRuns
  import opened VideoWorker

  // ----- a queue of one record -------------------------------------------------------------------

  function Lone(d: Dir, id: Id, r: Record): Files {
    map[Path(d, id) := r]
  }

  lemma LoneIds(d: Dir, id: Id, r: Record)
    ensures SortedIds(Ids(Lone(d, id, r), d)) == [id]
    ensures forall other: Dir | other != d :: SortedIds(Ids(Lone(d, id, r), other)) == []
  {
    assert Ids(Lone(d, id, r), d) == {id};
    assert StrictlySorted([id]);
    SortedUnique(SortedIds({id}), [id]);
    forall other: Dir | other != d
      ensures SortedIds(Ids(Lone(d, id, r), other)) == []
    {
      assert Ids(Lone(d, id, r), other) == {};
    }
  }

  lemma LoneMove(d: Dir, r: Record, m: Move)
    requires Source(m.kind) == Some(d) && Target(m.kind) != d
    ensures ApplyMove(Lone(d, m.id, r), m) == Lone(Target(m.kind), m.id, m.record)
    ensures ApplyMoves(Lone(d, m.id, r), [m]) == Lone(Target(m.kind), m.id, m.record)
  {
    RunMove(Machine(Lone(d, m.id, r), 2, true), m);
    OneMove(m);
  }

  /** Claiming the only record when it is due. */
  lemma LonePendingTake(id: Id, r: Record, worker: string, until: real, now: real)
    requires r.availableAt <= now
    ensures var files, m := Lone(Pending, id, r), Move(Taken, id, TakenRecord(r, worker, until, now));
            && TakePlan(files, worker, until, now) == Plan([m], Returned(id, m.record))
            && RecoverPlan(files, now).moves == []
            && ApplyMoves(files, [m]) == Lone(Processing, id, m.record)
  {
    var files := Lone(Pending, id, r);
    LoneIds(Pending, id, r);
    LoneMove(Pending, r, Move(Taken, id, TakenRecord(r, worker, until, now)));
    assert FirstAvailable(files, [id], now) == Some(id);
  }

  /** Recovering the only record when its lease has run out. */
  lemma LoneRecovery(id: Id, r: Record, now: real)
    requires IsExpired(r, now)
    ensures var files, m := Lone(Processing, id, r), Move(Expired, id, ExpiredRecord(r, now));
            RecoverPlan(files, now).moves == [m] && ApplyMoves(files, [m]) == Lone(Pending, id, m.record)
  {
    var files, m := Lone(Processing, id, r), Move(Expired, id, ExpiredRecord(r, now));
    LoneIds(Processing, id, r);
    LoneMove(Processing, r, m);
    assert [id][1..] == [];
    assert RecoverMoves(files, [id], now) == [m] + RecoverMoves(ApplyMove(files, m), [], now);
  }

  // ----- runs that hold it -----------------------------------------------------------------------

  const WORKER: string := "w"
  const REASON: string := "R"

  lemma TokensAreValid()
    ensures IsToken(WORKER) && IsToken(REASON)
  {
    assert forall ch | ch in WORKER :: ch == 'w';
    assert forall ch | ch in REASON :: ch == 'R';
  }

  /** A crash-free run from the empty queue after which the only record is held with `attempts` attempts and
      has lost `expiries` leases. */
  ghost predicate Holds(evs: seq<Event>, config: Config, id: Id, r: Record, expiries: nat) {
    && CrashFree(map[], evs, config)
    && RunFrom(map[], evs, config) == Lone(Processing, id, r)
    && r.state == Processing && r.worker == Some(WORKER) && r.leaseUntil.Some?
    && Count(History(map[], evs, config), id, Expired) == expiries
  }

  /** One more call, carried out in full. */
  lemma OneMoreCall(evs: seq<Event>, call: Call, now: real, config: Config) returns (more: seq<Event>)
    requires CrashFree(map[], evs, config)
    ensures var files := RunFrom(map[], evs, config);
            var ms := Planned(files, call, now, config).moves;
            && CrashFree(map[], more, config)
            && RunFrom(map[], more, config) == ApplyMoves(files, ms)
            && History(map[], more, config) == History(map[], evs, config) + ms
  {
    var files := RunFrom(map[], evs, config);
    var ms := Planned(files, call, now, config).moves;
    var ev := Event(call, now, |AllEffects(ms)|);
    more := evs + [ev];
    CrashFreeSnoc(map[], evs, ev, config);
    RunFromSnoc(map[], evs, ev, config);
    CompleteRun(files, ev.power, ms);
    HistoryConcat(map[], evs, [ev], config);
    assert [ev][1..] == [] && ms + [] == ms;
    assert History(files, [ev], config) == ms + History(Exec(files, ev, config), [], config);
  }

  lemma CountMore(past: seq<Move>, ms: seq<Move>, id: Id, n: nat)
    requires Count(past, id, Expired) == n && forall m | m in ms :: m.kind != Expired
    ensures Count(past + ms, id, Expired) == n
  {
    CountConcat(past, ms, id, Expired);
    CountKindless(ms, id, Expired);
  }

  lemma Begins(job: Job, config: Config) returns (evs: seq<Event>, r: Record)
    requires IsIdempotencyKey(job.key) && IsToken(job.operation)
    ensures Holds(evs, config, config.idOf(job.key), r, 0) && r.attempts == 1
  {
    var id := config.idOf(job.key);
    var first := NewRecord(job, None, 0.0);
    var queued := OneMoreCall([], Call.Enqueue(job, None), 0.0, config);
    var m := Move(Created, id, first);
    NothingThere(id, STATES);
    assert EnqueuePlan(map[], job, None, 0.0, config) == Plan([m], Returned(id, first));
    RunMove(Machine(map[], 2, true), m);
    OneMove(m);
    assert RunFrom(map[], queued, config) == Lone(Pending, id, first);
    CountMore([], [m], id, 0);
    assert [] + [m] == [m];
    TokensAreValid();
    LonePendingTake(id, first, WORKER, 1.0, 0.0);
    r := TakenRecord(first, WORKER, 1.0, 0.0);
    evs := TakeMore(queued, id, first, 0.0, 0, config);
  }

  lemma {:induction false} NothingThere(id: Id, dirs: seq<Dir>)
    ensures Copies(map[], id, dirs) == []
  {
    if dirs != [] {
      NothingThere(id, dirs[1..]);
    }
  }

  /** A due record is claimed for one second. */
  lemma TakeMore(evs: seq<Event>, id: Id, r: Record, now: real, n: nat, config: Config) returns (more: seq<Event>)
    requires CrashFree(map[], evs, config) && RunFrom(map[], evs, config) == Lone(Pending, id, r)
    requires r.availableAt <= now && Count(History(map[], evs, config), id, Expired) == n
    ensures Holds(more, config, id, TakenRecord(r, WORKER, now + 1.0, now), n)
  {
    var files, m := Lone(Pending, id, r), Move(Taken, id, TakenRecord(r, WORKER, now + 1.0, now));
    TokensAreValid();
    LonePendingTake(id, r, WORKER, now + 1.0, now);
    assert ApplyMoves(files, []) == files;
    assert [] + [m] == [m];
    assert ClaimPlan(files, WORKER, Some(1), now, config) == RecoverThenTake(files, WORKER, now + 1.0, now);
    more := OneMoreCall(evs, Call.Claim(WORKER, Some(1)), now, config);
    CountMore(History(map[], evs, config), [m], id, n);
  }

  /** Below the limit: fail, wait, and claim again. */
  lemma RetryMore(evs: seq<Event>, id: Id, r: Record, n: nat, config: Config) returns (more: seq<Event>, next: Record)
    requires Holds(evs, config, id, r, n) && r.attempts < config.maxAttempts
    ensures Holds(more, config, id, next, n) && next.attempts == r.attempts + 1
  {
    var files, m := Lone(Processing, id, r), Move(Retried, id, RetriedRecord(r, REASON, 0.0));
    TokensAreValid();
    assert Owns(files, id, WORKER);
    assert FailPlan(files, id, WORKER, REASON, false, 0.0, config) == Plan([m], Returned(id, m.record));
    LoneMove(Processing, r, m);
    var failed := OneMoreCall(evs, Call.Fail(id, WORKER, REASON, false), 0.0, config);
    CountMore(History(map[], evs, config), [m], id, n);
    var now := m.record.availableAt;
    next := TakenRecord(m.record, WORKER, now + 1.0, now);
    more := TakeMore(failed, id, m.record, now, n, config);
  }

  /** At any number of attempts: let the lease run out, and claim again. */
  lemma ExpireMore(evs: seq<Event>, id: Id, r: Record, n: nat, config: Config) returns (more: seq<Event>, next: Record)
    requires Holds(evs, config, id, r, n)
    ensures Holds(more, config, id, next, n + 1) && next.attempts == r.attempts + 1
  {
    var now := r.leaseUntil.value;
    var m := Move(Expired, id, ExpiredRecord(r, now));
    LoneRecovery(id, r, now);
    var recovered := OneMoreCall(evs, Call.Recover, now, config);
    CountSnoc(History(map[], evs, config), m, id, Expired);
    next := TakenRecord(m.record, WORKER, now + 1.0, now);
    more := TakeMore(recovered, id, m.record, now, n + 1, config);
  }

  lemma {:induction false} ReachLimit(job: Job, config: Config, k: nat) returns (evs: seq<Event>, r: Record)
    requires IsIdempotencyKey(job.key) && IsToken(job.operation) && 1 <= k <= config.maxAttempts
    ensures Holds(evs, config, config.idOf(job.key), r, 0) && r.attempts == k
  {
    if k == 1 {
      evs, r := Begins(job, config);
    } else {
      var before, held := ReachLimit(job, config, k - 1);
      evs, r := RetryMore(before, config.idOf(job.key), held, 0, config);
    }
  }

  /** For every job and every number of expiries there is a crash-free run from the empty queue with that many
      and `maxAttempts` attempts more. */
  lemma {:induction false} BoundIsMet(job: Job, config: Config, n: nat) returns (evs: seq<Event>, r: Record)
    requires IsIdempotencyKey(job.key) && IsToken(job.operation) && config.maxAttempts >= 1
    ensures Holds(evs, config, config.idOf(job.key), r, n) && r.attempts == config.maxAttempts + n
  {
    if n == 0 {
      evs, r := ReachLimit(job, config, config.maxAttempts);
    } else {
      var before, held := BoundIsMet(job, config, n - 1);
      evs, r := ExpireMore(before, config.idOf(job.key), held, n - 1, config);
    }
  }
}
