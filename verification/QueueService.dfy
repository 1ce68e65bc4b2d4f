/** What the queue's clients see: which record a claim hands out, one record a key, and when a failed
    record returns. */
module QueueService {
  import opened Wrappers
  import opened JobFiles
  import opened JobQueue
  import opened QueueRuns

  /** Seconds a lease is asked for: none, or zero, means the configured length. */
  function Asked(lease: Option<int>, config: Config): real {
    match lease
    case None => config.leaseSeconds as real
    case Some(seconds) => (if seconds != 0 then seconds else config.leaseSeconds) as real
  }

  // ----- claiming --------------------------------------------------------------------------------

  predicate LeaseRanOut(files: Files, id: Id, now: real) {
    var p := Path(Processing, id);
    p in files && files[p].leaseUntil.Some? && files[p].leaseUntil.value <= now
  }

  /** Records a claim may hand out: pending and due, or held under a lease that has run out. */
  predicate IsReady(files: Files, id: Id, now: real) {
    (Path(Pending, id) in files && files[Path(Pending, id)].availableAt <= now) || LeaseRanOut(files, id, now)
  }

  /** One expired record goes back: it is due at once, and no other record is touched. */
  lemma ExpiredMove(files: Files, id: Id, now: real, other: Id)
    requires LeaseRanOut(files, id, now)
    ensures var after := ApplyMove(files, Move(Expired, id, ExpiredRecord(files[Path(Processing, id)], now)));
            && IsAvailable(after, id, now) && !LeaseRanOut(after, id, now)
            && (other != id ==> IsAvailable(after, other, now) == IsAvailable(files, other, now))
            && (other != id ==> LeaseRanOut(after, other, now) == LeaseRanOut(files, other, now))
  {
    RunMove(Machine(files, 2, true), Move(Expired, id, ExpiredRecord(files[Path(Processing, id)], now)));
  }

  lemma {:induction false} RecoveryMakesAvailable(files: Files, ids: seq<Id>, now: real, id: Id)
    ensures IsAvailable(ApplyMoves(files, RecoverMoves(files, ids, now)), id, now)
            <==> IsAvailable(files, id, now) || (id in ids && LeaseRanOut(files, id, now))
    decreases |ids|
  {
    if ids != [] {
      var rest := ids[1..];
      assert id in ids <==> id == ids[0] || id in rest;
      if LeaseRanOut(files, ids[0], now) {
        var m := Move(Expired, ids[0], ExpiredRecord(files[Path(Processing, ids[0])], now));
        var later := RecoverMoves(ApplyMove(files, m), rest, now);
        ApplyFirst(files, [m] + later);
        assert ([m] + later)[1..] == later;
        ExpiredMove(files, ids[0], now, id);
        RecoveryMakesAvailable(ApplyMove(files, m), rest, now, id);
      } else {
        RecoveryMakesAvailable(files, rest, now, id);
      }
    }
  }

  lemma ReadyIsAvailable(files: Files, now: real, id: Id)
    ensures IsAvailable(ApplyMoves(files, RecoverPlan(files, now).moves), id, now) <==> IsReady(files, id, now)
  {
    var ids := SortedIds(Ids(files, Processing));
    RecoveryMakesAvailable(files, ids, now, id);
    assert LeaseRanOut(files, id, now) ==> id in Ids(files, Processing);
  }

  lemma {:induction false} FirstIsLeast(files: Files, ids: seq<Id>, now: real)
    requires StrictlySorted(ids)
    ensures var r := FirstAvailable(files, ids, now);
            r.Some? ==> forall id | id in ids && IsAvailable(files, id, now) :: r.value <= id
    decreases |ids|
  {
    if ids != [] {
      assert forall i | 0 <= i < |ids[1..]| :: ids[1..][i] == ids[i + 1];
      FirstIsLeast(files, ids[1..], now);
      assert forall id | id in ids :: id == ids[0] || id in ids[1..];
    }
  }

  /** A take hands out the smallest due id, and nothing exactly when nothing is due. */
  lemma TakesFirstAvailable(files: Files, worker: string, until: real, now: real)
    ensures var reply := TakePlan(files, worker, until, now).reply;
            && (reply == Nothing <==> forall id: Id :: !IsAvailable(files, id, now))
            && (reply != Nothing ==>
                  && reply.Returned? && IsAvailable(files, reply.id, now)
                  && (forall id: Id | IsAvailable(files, id, now) :: reply.id <= id)
                  && reply.record.worker == Some(worker) && reply.record.leaseUntil == Some(until))
  {
    var ids := SortedIds(Ids(files, Pending));
    FirstIsLeast(files, ids, now);
    forall id: Id | IsAvailable(files, id, now)
      ensures id in ids
    {
      assert id in Ids(files, Pending);
    }
  }

  lemma ClaimTakesAvailable(files: Files, worker: string, lease: Option<int>, now: real, config: Config)
    requires IsToken(worker)
    ensures var after := ApplyMoves(files, RecoverPlan(files, now).moves);
            ClaimPlan(files, worker, lease, now, config).reply
            == TakePlan(after, worker, now + Asked(lease, config), now).reply
  {
    var until := now + LeaseLength(lease, config);
    assert ClaimPlan(files, worker, lease, now, config) == RecoverThenTake(files, worker, until, now);
  }

  /** A valid claim hands out the smallest ready id, expired leases included, to the claimant for the
      lease asked for; it hands out nothing exactly when nothing is ready. */
  lemma ClaimTakesFirstReady(files: Files, worker: string, lease: Option<int>, now: real, config: Config)
    requires IsToken(worker)
    ensures var reply := ClaimPlan(files, worker, lease, now, config).reply;
            && (reply == Nothing <==> forall id: Id :: !IsReady(files, id, now))
            && (reply != Nothing ==>
                  && reply.Returned? && IsReady(files, reply.id, now)
                  && (forall id: Id | IsReady(files, id, now) :: reply.id <= id)
                  && reply.record.worker == Some(worker)
                  && reply.record.leaseUntil == Some(now + Asked(lease, config)))
  {
    var after := ApplyMoves(files, RecoverPlan(files, now).moves);
    ClaimTakesAvailable(files, worker, lease, now, config);
    TakesFirstAvailable(after, worker, now + Asked(lease, config), now);
    forall id: Id
      ensures IsReady(files, id, now) <==> IsAvailable(after, id, now)
    {
      ReadyIsAvailable(files, now, id);
    }
  }

  /** A given record is what a valid claim hands out exactly when it is ready and no smaller id is. */
  lemma ClaimHandsOutIff(files: Files, worker: string, lease: Option<int>, now: real, config: Config, id: Id)
    requires IsToken(worker)
    ensures var reply := ClaimPlan(files, worker, lease, now, config).reply;
            (reply.Returned? && reply.id == id)
            <==> IsReady(files, id, now) && forall x: Id | x < id :: !IsReady(files, x, now)
  {
    ClaimTakesFirstReady(files, worker, lease, now, config);
    var reply := ClaimPlan(files, worker, lease, now, config).reply;
    if reply.Returned? && IsReady(files, id, now) {
      assert reply.id <= id;
    }
  }

  /** The pending copy recovery leaves. */
  lemma {:induction false} RecoveredCopy(files: Files, ids: seq<Id>, now: real, id: Id)
    requires LeaseRanOut(files, id, now) && id in ids
    ensures var after, p := ApplyMoves(files, RecoverMoves(files, ids, now)), Path(Pending, id);
            p in after && after[p] == ExpiredRecord(files[Path(Processing, id)], now)
    decreases |ids|
  {
    var rest := ids[1..];
    if LeaseRanOut(files, ids[0], now) {
      var m := Move(Expired, ids[0], ExpiredRecord(files[Path(Processing, ids[0])], now));
      var later := RecoverMoves(ApplyMove(files, m), rest, now);
      ApplyFirst(files, [m] + later);
      assert ([m] + later)[1..] == later;
      RunMove(Machine(files, 2, true), m);
      if id == ids[0] {
        PendingUntouched(ApplyMove(files, m), rest, now, id);
      } else {
        RecoveredCopy(ApplyMove(files, m), rest, now, id);
      }
    } else {
      RecoveredCopy(files, rest, now, id);
    }
  }

  lemma {:induction false} PendingUntouched(files: Files, ids: seq<Id>, now: real, id: Id)
    requires Path(Pending, id) in files && Path(Processing, id) !in files
    ensures var after, p := ApplyMoves(files, RecoverMoves(files, ids, now)), Path(Pending, id);
            p in after && after[p] == files[p]
    decreases |ids|
  {
    if ids != [] {
      var rest := ids[1..];
      if LeaseRanOut(files, ids[0], now) {
        var m := Move(Expired, ids[0], ExpiredRecord(files[Path(Processing, ids[0])], now));
        var later := RecoverMoves(ApplyMove(files, m), rest, now);
        ApplyFirst(files, [m] + later);
        assert ([m] + later)[1..] == later;
        RunMove(Machine(files, 2, true), m);
        PendingUntouched(ApplyMove(files, m), rest, now, id);
      } else {
        PendingUntouched(files, rest, now, id);
      }
    }
  }

  lemma TakenFromPending(files: Files, worker: string, until: real, now: real)
    ensures var reply := TakePlan(files, worker, until, now).reply;
            reply.Returned? ==> Path(Pending, reply.id) in files
                                && reply.record.attempts == files[Path(Pending, reply.id)].attempts + 1
  {
  }

  /** Expiry does not look at the limit: the smallest ready record, when its lease has run out, is handed
      out with one more attempt, however many it has used. */
  lemma ExpiryIgnoresLimit(files: Files, id: Id, worker: string, lease: Option<int>, now: real, config: Config)
    requires IsToken(worker) && LeaseRanOut(files, id, now)
    requires forall x: Id | x < id :: !IsReady(files, x, now)
    ensures var reply := ClaimPlan(files, worker, lease, now, config).reply;
            && reply.Returned? && reply.id == id
            && reply.record.attempts == files[Path(Processing, id)].attempts + 1
  {
    var until, after := now + LeaseLength(lease, config), ApplyMoves(files, RecoverPlan(files, now).moves);
    ClaimHandsOutIff(files, worker, lease, now, config, id);
    assert ClaimPlan(files, worker, lease, now, config).reply == TakePlan(after, worker, until, now).reply;
    TakenFromPending(after, worker, until, now);
    assert id in Ids(files, Processing);
    RecoveredCopy(files, SortedIds(Ids(files, Processing)), now, id);
  }

  /** In a crash-free run a done or quarantined record is never handed out again. */
  lemma {:induction false} FinalIsNeverClaimed(before: seq<Event>, since: seq<Event>, p: Path, worker: string, lease: Option<int>,
                            now: real, config: Config)
    requires config.maxAttempts >= 1 && CrashFree(map[], before + since, config)
    requires p in RunFrom(map[], before, config) && IsFinal(p.dir)
    ensures var reply := ClaimPlan(RunFrom(map[], before + since, config), worker, lease, now, config).reply;
            reply.Returned? ==> reply.id != p.id
  {
    var files := RunFrom(map[], before + since, config);
    RunFromConcat(map[], before, since, config);
    NoRecordIsLost(RunFrom(map[], before, config), since, config, p.id);
    RunsKeepOrder(map[], [], before + since, config);
    assert p in files && OneCopyEach(files);
    if IsToken(worker) {
      ClaimTakesFirstReady(files, worker, lease, now, config);
    }
  }

  // ----- one record a key ------------------------------------------------------------------------

  lemma {:induction false} CopyIsFound(files: Files, id: Id, dirs: seq<Dir>, d: Dir)
    requires d in dirs && Path(d, id) in files
    ensures Copies(files, id, dirs) != []
  {
    if dirs[0] != d {
      CopyIsFound(files, id, dirs[1..], d);
    }
  }

  lemma {:induction false} OnlyCopyIsFound(files: Files, p: Path, dirs: seq<Dir>)
    requires p in files && OneCopyEach(files)
    requires forall i, j | 0 <= i < j < |dirs| :: dirs[i] != dirs[j]
    ensures Copies(files, p.id, dirs) == if p.dir in dirs then [files[p]] else []
  {
    if dirs != [] {
      var rest := dirs[1..];
      assert forall i | 0 <= i < |rest| :: rest[i] == dirs[i + 1];
      OnlyCopyIsFound(files, p, rest);
      assert Path(dirs[0], p.id) in files <==> dirs[0] == p.dir;
      assert dirs[0] !in rest;
    }
  }

  /** Queueing a key again, in any state and at any time, returns the stored record and does nothing. */
  lemma EnqueueAgain(files: Files, p: Path, job: Job, availableAt: Option<real>, now: real, config: Config)
    requires OneCopyEach(files) && p in files && p.id == config.idOf(job.key)
    requires IsIdempotencyKey(job.key) && IsToken(job.operation)
    ensures EnqueuePlan(files, job, availableAt, now, config) == Plan([], Returned(p.id, files[p]))
  {
    OnlyCopyIsFound(files, p, STATES);
    EveryState(p.dir);
  }

  /** Once a key has a record, no later enqueue of it writes anything, after any run with any crashes. */
  lemma EnqueueWritesOnce(files: Files, evs: seq<Event>, job: Job, availableAt: Option<real>, now: real, config: Config)
    requires HasCopy(files, config.idOf(job.key))
    ensures EnqueuePlan(RunFrom(files, evs, config), job, availableAt, now, config).moves == []
  {
    var id, after := config.idOf(job.key), RunFrom(files, evs, config);
    NoRecordIsLost(files, evs, config, id);
    var d :| Path(d, id) in after;
    EveryState(d);
    CopyIsFound(after, id, STATES, d);
  }

  lemma {:induction false} FoundTwice(files: Files, id: Id, dirs: seq<Dir>, d: Dir, e: Dir)
    requires d in dirs && e in dirs && d != e && Path(d, id) in files && Path(e, id) in files
    ensures |Copies(files, id, dirs)| > 1
  {
    if dirs[0] == d {
      CopyIsFound(files, id, dirs[1..], e);
    } else if dirs[0] == e {
      CopyIsFound(files, id, dirs[1..], d);
    } else {
      FoundTwice(files, id, dirs[1..], d, e);
    }
  }

  /** Two copies of one record are an error, and nothing is written; one copy, or none, is not. */
  lemma TwoCopiesIff(files: Files, job: Job, availableAt: Option<real>, now: real, config: Config)
    requires IsIdempotencyKey(job.key) && IsToken(job.operation)
    ensures var plan, id := EnqueuePlan(files, job, availableAt, now, config), config.idOf(job.key);
            plan == Plan([], Raised(DuplicateState))
            <==> exists d, e: Dir :: d != e && Path(d, id) in files && Path(e, id) in files
  {
    var id := config.idOf(job.key);
    if d, e: Dir :| d != e && Path(d, id) in files && Path(e, id) in files {
      EveryState(d);
      EveryState(e);
      FoundTwice(files, id, STATES, d, e);
    } else if d: Dir :| Path(d, id) in files {
      EveryState(d);
      OneFound(files, id, STATES, d);
    } else {
      NoneFound(files, id, STATES);
    }
  }

  lemma {:induction false} OneFound(files: Files, id: Id, dirs: seq<Dir>, d: Dir)
    requires forall e: Dir | e != d :: Path(e, id) !in files
    requires forall i, j | 0 <= i < j < |dirs| :: dirs[i] != dirs[j]
    ensures |Copies(files, id, dirs)| <= 1
  {
    if dirs != [] {
      var rest := dirs[1..];
      assert forall i | 0 <= i < |rest| :: rest[i] == dirs[i + 1];
      if dirs[0] == d {
        assert d !in rest;
        NotFound(files, id, rest, d);
      } else {
        OneFound(files, id, rest, d);
      }
    }
  }

  lemma {:induction false} NotFound(files: Files, id: Id, dirs: seq<Dir>, d: Dir)
    requires forall e: Dir | e != d :: Path(e, id) !in files
    requires d !in dirs
    ensures Copies(files, id, dirs) == []
  {
    if dirs != [] {
      NotFound(files, id, dirs[1..], d);
    }
  }

  lemma Alphabetical(chars: string, ch: char)
    requires 0 < |chars| <= 26 && forall k | 0 <= k < |chars| :: chars[k] as int == chars[0] as int + k
    ensures ch in chars <==> chars[0] as int <= ch as int < chars[0] as int + |chars|
  {
    var k := ch as int - chars[0] as int;
    if 0 <= k < |chars| {
      assert chars[k] == ch;
    }
  }

  /** The characters of operations, workers and reasons, of which there are up to 128 and at least one. */
  lemma TokenIff(text: string)
    ensures var upper, lower, digits := "ABCDEFGHIJKLMNOPQRSTUVWXYZ", "abcdefghijklmnopqrstuvwxyz", "0123456789";
            IsToken(text) <==> text != "" && |text| <= 128
                               && forall ch | ch in text :: ch in upper || ch in lower || ch in digits || ch in "_.:-"
  {
    var upper, lower, digits := "ABCDEFGHIJKLMNOPQRSTUVWXYZ", "abcdefghijklmnopqrstuvwxyz", "0123456789";
    forall ch
      ensures IsTokenChar(ch) <==> ch in upper || ch in lower || ch in digits || ch in "_.:-"
    {
      Alphabetical(upper, ch);
      Alphabetical(lower, ch);
      Alphabetical(digits, ch);
    }
  }

  /** A call for a record that is not being processed is answered with one error, and one by another worker than
      the record's, or on a record marked otherwise, with another; neither changes anything. */
  lemma OnlyTheOwnerActs(files: Files, call: Call, now: real, config: Config)
    requires call.Heartbeat? || call.Complete? || (call.Fail? && IsToken(call.reason))
    ensures var p := Path(Processing, call.id);
            var plan := Planned(files, call, now, config);
            && (plan == Plan([], Raised(RecordNotFound)) <==> p !in files)
            && (plan == Plan([], Raised(OwnerMismatch))
                <==> p in files && (files[p].state != Processing || files[p].worker != Some(call.worker)))
            && (plan.reply.Returned? <==> p in files && files[p].state == Processing && files[p].worker == Some(call.worker))
  {
  }

  /** Ill-formed calls are answered with their error and change nothing. */
  lemma IllFormedCalls(files: Files, call: Call, now: real, config: Config)
    ensures call.Enqueue? && (call.job.key == "" || |call.job.key| > 4096) ==>
              Planned(files, call, now, config) == Plan([], Raised(IdempotencyInvalid))
    ensures call.Enqueue? && 0 < |call.job.key| <= 4096 && !IsToken(call.job.operation) ==>
              Planned(files, call, now, config) == Plan([], Raised(OperationInvalid))
    ensures call.Claim? && !IsToken(call.worker) ==>
              Planned(files, call, now, config) == Plan([], Raised(WorkerInvalid))
    ensures call.Fail? && !IsToken(call.reason) ==>
              Planned(files, call, now, config) == Plan([], Raised(ReasonInvalid))
  {
  }

  // ----- what the clock decides ------------------------------------------------------------------

  /** A plan of one move that is carried out in full. */
  lemma OneMoveCarried(files: Files, call: Call, now: real, config: Config, m: Move)
    requires Planned(files, call, now, config).moves == [m]
    ensures Exec(files, Event(call, now, 2), config) == Removed(Wrote(files, m), m)
  {
    OneMove(m);
    RunMove(Machine(files, 2, true), m);
  }

  /** A queued record is ready from the moment asked for, or at once. */
  lemma QueuedIsReadyFrom(files: Files, job: Job, availableAt: Option<real>, now: real, config: Config, t: real)
    requires IsIdempotencyKey(job.key) && IsToken(job.operation) && !HasCopy(files, config.idOf(job.key))
    ensures var id := config.idOf(job.key);
            var after := Exec(files, Event(Call.Enqueue(job, availableAt), now, 2), config);
            && (IsReady(after, id, t) <==> (match availableAt case Some(at) => at case None => now) <= t)
            && Path(Pending, id) in after && after[Path(Pending, id)].job == job
  {
    var id := config.idOf(job.key);
    NoneFound(files, id, STATES);
    OneMoveCarried(files, Call.Enqueue(job, availableAt), now, config, Move(Created, id, NewRecord(job, availableAt, now)));
  }

  lemma {:induction false} NoneFound(files: Files, id: Id, dirs: seq<Dir>)
    requires !HasCopy(files, id)
    ensures Copies(files, id, dirs) == []
  {
    if dirs != [] {
      NoneFound(files, id, dirs[1..]);
    }
  }

  /** A heartbeat makes the lease run out the asked time after it, and not before. */
  lemma HeartbeatRenews(files: Files, id: Id, worker: string, lease: Option<int>, now: real, config: Config, t: real)
    requires Owns(files, id, worker)
    ensures var after := Exec(files, Event(Call.Heartbeat(id, worker, lease), now, 2), config);
            Owns(after, id, worker) && (LeaseRanOut(after, id, t) <==> now + Asked(lease, config) <= t)
  {
    var r := RenewedRecord(files[Path(Processing, id)], now + LeaseLength(lease, config), now);
    OneMoveCarried(files, Call.Heartbeat(id, worker, lease), now, config, Move(Renewed, id, r));
  }

  /** A failure is final when permanent or at the limit; otherwise the record comes back, with its reason. */
  lemma FailEnds(files: Files, id: Id, worker: string, reason: string, permanent: bool, now: real, config: Config)
    requires Owns(files, id, worker) && IsToken(reason)
    ensures var r := files[Path(Processing, id)];
            var after := Exec(files, Event(Call.Fail(id, worker, reason, permanent), now, 2), config);
            var end := if permanent || r.attempts >= config.maxAttempts then Quarantined else Pending;
            var reply := FailPlan(files, id, worker, reason, permanent, now, config).reply;
            && Path(Processing, id) !in after && Path(end, id) in after
            && reply == Returned(id, after[Path(end, id)])
            && reply.record.state == end && reply.record.attempts == r.attempts && reply.record.job == r.job
            && reply.record.reason == Some(reason)
            && (end == Quarantined ==> reply.record.availableAt == now)
  {
    var m := FailPlan(files, id, worker, reason, permanent, now, config).moves[0];
    OneMoveCarried(files, Call.Fail(id, worker, reason, permanent), now, config, m);
  }

  /** A failed record below the limit is ready again after its delay, and not before: only then, and when no
      smaller id is ready, does a claim hand it out. */
  lemma RetryWaits(files: Files, id: Id, worker: string, reason: string, now: real, config: Config, t: real,
                   second: string, lease: Option<int>)
    requires Owns(files, id, worker) && IsToken(reason) && IsToken(second)
    requires files[Path(Processing, id)].attempts < config.maxAttempts
    ensures var after := Exec(files, Event(Call.Fail(id, worker, reason, false), now, 2), config);
            var due := now + RetryDelay(files[Path(Processing, id)].attempts);
            var reply := ClaimPlan(after, second, lease, t, config).reply;
            && (IsReady(after, id, t) <==> due <= t)
            && ((reply.Returned? && reply.id == id) <==> due <= t && forall x: Id | x < id :: !IsReady(after, x, t))
  {
    var r := files[Path(Processing, id)];
    var call := Call.Fail(id, worker, reason, false);
    OneMoveCarried(files, call, now, config, Move(Retried, id, RetriedRecord(r, reason, now)));
    ClaimHandsOutIff(Exec(files, Event(call, now, 2), config), second, lease, t, config, id);
  }

  // ----- trying again ----------------------------------------------------------------------------

  /** Waits double from half a minute up to an hour, which the eighth attempt reaches. */
  lemma RetryDelaysDouble(attempts: nat)
    ensures RetryDelay(0) == RetryDelay(1) == 30.0
    ensures attempts >= 1 ==>
              RetryDelay(attempts + 1) == if 2.0 * RetryDelay(attempts) <= 3600.0 then 2.0 * RetryDelay(attempts) else 3600.0
    ensures RetryDelay(attempts) == 3600.0 <==> attempts >= 8
  {
    if attempts >= 1 {
      PowersGrow(attempts - 1);
    }
    assert Pow2(6) == 64 && Pow2(7) == 128;
  }

  lemma {:induction false} PowersGrow(n: nat)
    ensures 1 <= Pow2(n)
    ensures n >= 7 ==> Pow2(n) >= 128
    ensures n <= 6 ==> Pow2(n) <= 64
  {
    if n > 0 {
      PowersGrow(n - 1);
    }
    assert Pow2(6) == 64;
  }
}
