/** The worker as a client of the queue: recover, claim one record, run it, complete or fail it. */
module VideoWorker {
  import opened Wrappers
  import opened JobFiles
  import opened JobQueue
  import opened QueueRuns
  import opened QueueService

  /** How the pipeline ended on a claimed record; any outcome is possible. */
  datatype Outcome = Processed | Refused(code: string) | Unexpected

  datatype Status = Idle | Completed | Retry | GivenUp | Broken(error: Error) | Died

  const PERMANENT_PREFIXES: seq<string> := [
    "INVALID_", "UNSAFE_", "UNSUPPORTED_", "URL_", "DIRECT_MEDIA_HOST_NOT_ALLOWED", "LOCAL_MEDIA_NOT_REGISTERED",
    "ARTIFACT_PATH_ESCAPE"
  ]

  predicate IsPermanent(code: string) {
    exists i | 0 <= i < |PERMANENT_PREFIXES| :: PERMANENT_PREFIXES[i] <= code
  }

  /** Which reason codes end a job at once. */
  lemma PermanentIff(code: string)
    ensures IsPermanent(code)
            <==> "INVALID_" <= code || "UNSAFE_" <= code || "UNSUPPORTED_" <= code || "URL_" <= code
                 || "DIRECT_MEDIA_HOST_NOT_ALLOWED" <= code || "LOCAL_MEDIA_NOT_REGISTERED" <= code
                 || "ARTIFACT_PATH_ESCAPE" <= code
  {
    var p := PERMANENT_PREFIXES;
    assert p[0] == "INVALID_" && p[1] == "UNSAFE_" && p[2] == "UNSUPPORTED_" && p[3] == "URL_";
    assert p[4] == "DIRECT_MEDIA_HOST_NOT_ALLOWED" && p[5] == "LOCAL_MEDIA_NOT_REGISTERED";
    assert p[6] == "ARTIFACT_PATH_ESCAPE" && |p| == 7;
  }

  function Ending(id: Id, worker: string, outcome: Outcome): Call {
    match outcome
    case Processed => Call.Complete(id, worker)
    case Refused(code) => Call.Fail(id, worker, code, IsPermanent(code))
    case Unexpected => Call.Fail(id, worker, "UNEXPECTED_WORKER_FAILURE", false)
  }

  // ----- one worker alone ------------------------------------------------------------------------

  predicate NoneProcessing(files: Files) {
    forall p | p in files :: p.dir != Processing
  }

  /** Claims and recoveries come only when nothing is being processed. */
  ghost predicate Sequential(files: Files, evs: seq<Event>, config: Config)
    decreases |evs|
  {
    evs == [] || ((evs[0].call.Claim? || evs[0].call.Recover? ==> NoneProcessing(files))
                  && Sequential(Exec(files, evs[0], config), evs[1..], config))
  }

  lemma {:induction false} CountConcat(a: seq<Move>, b: seq<Move>, id: Id, kind: Kind)
    ensures Count(a + b, id, kind) == Count(a, id, kind) + Count(b, id, kind)
    decreases |b|
  {
    if b == [] {
      assert a + b == a;
    } else {
      var n := |b| - 1;
      assert a + b == (a + b[..n]) + [b[n]] && b == b[..n] + [b[n]];
      CountConcat(a, b[..n], id, kind);
      CountSnoc(a + b[..n], b[n], id, kind);
    }
  }

  lemma {:induction false} CountKindless(ms: seq<Move>, id: Id, kind: Kind)
    requires forall m | m in ms :: m.kind != kind
    ensures Count(ms, id, kind) == 0
  {
    if ms != [] {
      CountKindless(ms[..|ms| - 1], id, kind);
    }
  }

  lemma CallExpiresNothing(files: Files, ev: Event, config: Config, id: Id)
    requires ev.call.Claim? || ev.call.Recover? ==> NoneProcessing(files)
    ensures Count(Moves(files, ev, config), id, Expired) == 0
  {
    var ms := Moves(files, ev, config);
    KindsOfPlan(files, ev, config);
    if ev.call.Claim? || ev.call.Recover? {
      NothingToRecover(files, ev.now);
      assert RecoverPlan(files, ev.now).moves + (if ev.call.Claim? then ms else []) == if ev.call.Claim? then ms else [];
    }
    CountKindless(ms, id, Expired);
  }

  lemma {:induction false} SequentialExpiresNothing(files: Files, evs: seq<Event>, config: Config, id: Id)
    requires Sequential(files, evs, config)
    ensures Count(History(files, evs, config), id, Expired) == 0
    decreases |evs|
  {
    if evs != [] {
      var next := Exec(files, evs[0], config);
      CallExpiresNothing(files, evs[0], config, id);
      SequentialExpiresNothing(next, evs[1..], config, id);
      CountConcat(Moves(files, evs[0], config), History(next, evs[1..], config), id, Expired);
    }
  }

  /** At most `maxAttempts` claims, and with that many the record is done or quarantined. */
  ghost predicate ClaimedEnough(p: Path, evs: seq<Event>, config: Config) {
    var claims := Count(History(map[], evs, config), p.id, Taken);
    claims <= config.maxAttempts && (claims == config.maxAttempts ==> IsFinal(p.dir))
  }

  /** How many passes found something to do. */
  function Working(ends: seq<Status>): nat {
    if ends == [] then 0 else Working(ends[..|ends| - 1]) + (if ends[|ends| - 1].Idle? then 0 else 1)
  }

  /** What a worker that starts with nothing being processed keeps from pass to pass. */
  ghost predicate WellRun(files: Files, evs: seq<Event>, config: Config) {
    NoneProcessing(RunFrom(files, evs, config)) && Sequential(files, evs, config) && CrashFree(files, evs, config)
  }

  /** Whatever the outcomes, one worker that ends each claim before the next call never lets a lease
      expire, claims each record at most `maxAttempts` times, and after that many claims has it done
      or quarantined. */
  lemma WorkerDrivesToFinal(evs: seq<Event>, config: Config, p: Path)
    requires config.maxAttempts >= 1 && WellRun(map[], evs, config)
    requires p in RunFrom(map[], evs, config)
    ensures ClaimedEnough(p, evs, config)
  {
    SequentialExpiresNothing(map[], evs, config, p.id);
    RetriesEnd(evs, config, p);
  }

  // ----- one pass --------------------------------------------------------------------------------

  /** The calls of one pass that finds a record: `id` is claimed, beaten for and ended. */
  predicate IsPass(evs: seq<Event>, worker: string, id: Id, outcome: Outcome) {
    && |evs| >= 3
    && evs[0].call == Call.Recover
    && evs[1].call == Call.Claim(worker, None)
    && (forall i | 2 <= i < |evs| - 1 :: evs[i].call == Call.Heartbeat(id, worker, None))
    && evs[|evs| - 1].call == Ending(id, worker, outcome)
  }

  lemma {:induction false} RunFromSnoc(files: Files, evs: seq<Event>, ev: Event, config: Config)
    ensures RunFrom(files, evs + [ev], config) == Exec(RunFrom(files, evs, config), ev, config)
  {
    RunFromConcat(files, evs, [ev], config);
    assert [ev][1..] == [];
  }

  lemma {:induction false} CrashFreeSnoc(files: Files, evs: seq<Event>, ev: Event, config: Config)
    requires CrashFree(files, evs, config)
    requires Completes(Moves(RunFrom(files, evs, config), ev, config), ev.power)
    ensures CrashFree(files, evs + [ev], config)
    decreases |evs|
  {
    if evs == [] {
      assert evs + [ev] == [ev] && [ev][1..] == [];
    } else {
      assert (evs + [ev])[1..] == evs[1..] + [ev];
      CrashFreeSnoc(Exec(files, evs[0], config), evs[1..], ev, config);
    }
  }

  lemma {:induction false} OwnedCallsAreSequential(files: Files, evs: seq<Event>, config: Config)
    requires forall ev | ev in evs :: !ev.call.Claim? && !ev.call.Recover?
    ensures Sequential(files, evs, config)
    decreases |evs|
  {
    if evs != [] {
      assert evs[0] in evs && forall ev | ev in evs[1..] :: ev in evs;
      OwnedCallsAreSequential(Exec(files, evs[0], config), evs[1..], config);
    }
  }

  lemma PassIsSequential(files: Files, evs: seq<Event>, config: Config)
    requires NoneProcessing(files) && |evs| >= 2 && evs[0].call == Call.Recover && evs[1].call.Claim?
    requires forall i | 2 <= i < |evs| :: !evs[i].call.Claim? && !evs[i].call.Recover?
    ensures Sequential(files, evs, config)
  {
    var rest := evs[1..][1..];
    NothingToRecover(files, evs[0].now);
    assert Exec(files, evs[0], config) == files;
    forall ev | ev in rest
      ensures !ev.call.Claim? && !ev.call.Recover?
    {
      var i :| 0 <= i < |rest| && rest[i] == ev;
      assert rest[i] == evs[i + 2];
    }
    OwnedCallsAreSequential(Exec(files, evs[1], config), rest, config);
  }

  /** Nothing but `id` is being processed. */
  predicate OnlyProcessing(files: Files, id: Id) {
    forall p | p in files && p.dir == Processing :: p.id == id
  }

  lemma FinishesIsExec(before: Files, power: nat, call: Call, now: real, config: Config, after: Files, rest: nat,
                       reply: Reply)
    requires Finishes(before, power, Planned(before, call, now, config), after, rest, reply)
    ensures after == Exec(before, Event(call, now, power), config)
    ensures reply != Crashed ==> Completes(Planned(before, call, now, config).moves, power)
  {
    RunIsPrefix(before, power, AllEffects(Planned(before, call, now, config).moves));
  }

  /** A one-move plan that replied was carried out in full. */
  lemma OneMoveDone(before: Files, power: nat, m: Move, after: Files, rest: nat, reply: Reply)
    requires Finishes(before, power, Plan([m], Returned(m.id, m.record)), after, rest, reply) && reply != Crashed
    ensures after == Removed(Wrote(before, m), m)
  {
    OneMove(m);
    RunMove(Machine(before, power, true), m);
  }

  /** The code a record is failed with. */
  function CodeOf(outcome: Outcome): string {
    match outcome
    case Processed => ""
    case Refused(code) => code
    case Unexpected => "UNEXPECTED_WORKER_FAILURE"
  }

  /** Where a receipt says the record went: done when processed; given up when the refusal is permanent or
      no attempt is left, and only then; else kept for another try.  A pass breaks only on an ill-formed
      reason code. */
  predicate Receipt(status: Status, id: Id, outcome: Outcome, files: Files, config: Config) {
    && (status.Completed? ==> outcome.Processed? && Path(Done, id) in files && Path(Processing, id) !in files)
    && (status.Retry? ==> !outcome.Processed? && Path(Processing, id) !in files && IsKept(files, id, outcome, config))
    && (status.GivenUp? ==> !outcome.Processed? && Path(Processing, id) !in files && IsGivenUp(files, id, outcome, config))
    && (status.Broken? ==> outcome.Refused? && !IsToken(outcome.code))
    && !status.Idle?
  }

  predicate IsKept(files: Files, id: Id, outcome: Outcome, config: Config) {
    var p := Path(Pending, id);
    && p in files && files[p].reason == Some(CodeOf(outcome)) && files[p].attempts < config.maxAttempts
    && !(outcome.Refused? && IsPermanent(outcome.code))
  }

  predicate IsGivenUp(files: Files, id: Id, outcome: Outcome, config: Config) {
    var p := Path(Quarantined, id);
    && p in files && files[p].reason == Some(CodeOf(outcome))
    && ((outcome.Refused? && IsPermanent(outcome.code)) || files[p].attempts >= config.maxAttempts)
  }

  predicate IsEnd(status: Status) {
    status.Completed? || status.Retry? || status.GivenUp?
  }

  /** What an owner's last call plans: the job is done, retried or parked, by outcome and attempts. */
  lemma EndingPlan(files: Files, id: Id, worker: string, outcome: Outcome, now: real, config: Config) returns (m: Move)
    requires Owns(files, id, worker) && (outcome.Refused? ==> IsToken(outcome.code))
    ensures Planned(files, Ending(id, worker, outcome), now, config) == Plan([m], Returned(id, m.record))
    ensures m.id == id && m.record.state == Target(m.kind) && m.record.attempts == files[Path(Processing, id)].attempts
    ensures outcome.Processed? <==> m.kind == Finished
    ensures !outcome.Processed? ==> m.kind in {Retried, Parked} && m.record.reason == Some(CodeOf(outcome))
    ensures m.kind == Parked
            <==> !outcome.Processed? && ((outcome.Refused? && IsPermanent(outcome.code))
                                         || files[Path(Processing, id)].attempts >= config.maxAttempts)
  {
    assert IsToken("UNEXPECTED_WORKER_FAILURE");
    m := Planned(files, Ending(id, worker, outcome), now, config).moves[0];
  }

  /** The status a reply to the last call stands for. */
  function StatusOf(reply: Reply, outcome: Outcome): Status {
    if reply == Crashed then Died
    else if reply.Raised? then Broken(reply.error)
    else if outcome.Processed? then Completed
    else if reply.Returned? && reply.record.state == Quarantined then GivenUp
    else Retry
  }

  lemma EndingDone(before: Files, power: nat, id: Id, worker: string, outcome: Outcome, now: real, config: Config,
                   after: Files, rest: nat, reply: Reply)
    requires Owns(before, id, worker)
    requires Finishes(before, power, Planned(before, Ending(id, worker, outcome), now, config), after, rest, reply)
    ensures after == Exec(before, Event(Ending(id, worker, outcome), now, power), config)
    ensures reply != Crashed ==> Completes(Planned(before, Ending(id, worker, outcome), now, config).moves, power)
    ensures reply.Returned? && OnlyProcessing(before, id) ==> NoneProcessing(after)
    ensures reply == Crashed || reply.Raised? || reply.Returned?
    ensures Receipt(StatusOf(reply, outcome), id, outcome, after, config)
  {
    FinishesIsExec(before, power, Ending(id, worker, outcome), now, config, after, rest, reply);
    if !(outcome.Refused? && !IsToken(outcome.code)) {
      var m := EndingPlan(before, id, worker, outcome, now, config);
      if reply != Crashed {
        OneMoveDone(before, power, m, after, rest, reply);
      }
    }
  }

  lemma ClaimDone(before: Files, power: nat, worker: string, lease: Option<int>, now: real, config: Config,
                  after: Files, rest: nat, reply: Reply)
    requires Finishes(before, power, ClaimPlan(before, worker, lease, now, config), after, rest, reply)
    ensures after == Exec(before, Event(Call.Claim(worker, lease), now, power), config)
    ensures reply != Crashed ==> Completes(Planned(before, Call.Claim(worker, lease), now, config).moves, power)
    ensures reply.Returned? ==> Owns(after, reply.id, worker)
    ensures reply.Returned? && NoneProcessing(before) ==> OnlyProcessing(after, reply.id)
    ensures reply == Nothing && NoneProcessing(before) ==> after == before && NothingDue(after, now)
    ensures reply.Raised? ==> reply == Raised(WorkerInvalid) && !IsToken(worker)
    ensures reply.Returned? || reply == Nothing ==> IsToken(worker)
    ensures !reply.Recovered?
  {
    FinishesIsExec(before, power, Call.Claim(worker, lease), now, config, after, rest, reply);
    if reply.Returned? {
      ClaimantOwns(before, power, worker, lease, now, config, after, rest, reply);
    } else if reply == Nothing {
      var until := now + LeaseLength(lease, config);
      assert ClaimPlan(before, worker, lease, now, config) == RecoverThenTake(before, worker, until, now);
      var mid, _ := ClaimSplits(before, power, worker, until, now, after, rest, reply);
      ClaimTakesFirstReady(before, worker, lease, now, config);
      NothingReadyNothingDue(before, now);
    }
  }

  /** Every pending record is due later. */
  predicate NothingDue(files: Files, now: real) {
    forall p | p in files && p.dir == Pending :: files[p].availableAt > now
  }

  lemma NothingReadyNothingDue(files: Files, now: real)
    requires forall id: Id :: !IsReady(files, id, now)
    ensures NothingDue(files, now)
  {
    forall p | p in files && p.dir == Pending
      ensures files[p].availableAt > now
    {
      assert !IsReady(files, p.id, now);
    }
  }

  /** A claim that replied carried out its recovery in full before it took anything. */
  lemma ClaimSplits(before: Files, power: nat, worker: string, until: real, now: real, after: Files, rest: nat,
                    reply: Reply) returns (mid: Files, midPower: nat)
    requires Finishes(before, power, RecoverThenTake(before, worker, until, now), after, rest, reply)
    requires reply != Crashed
    ensures NoneProcessing(before) ==> mid == before
    ensures Finishes(mid, midPower, TakePlan(mid, worker, until, now), after, rest, reply)
  {
    var recovery := RecoverPlan(before, now).moves;
    mid := ApplyMoves(before, recovery);
    var take := TakePlan(mid, worker, until, now);
    var half := Run(Machine(before, power, true), AllEffects(recovery));
    midPower := half.power;
    RunTwo(Machine(before, power, true), recovery, take.moves);
    RunFull(before, power, AllEffects(recovery));
    if NoneProcessing(before) {
      NothingToRecover(before, now);
    }
  }

  lemma TakerOwns(mid: Files, power: nat, worker: string, until: real, now: real, after: Files, rest: nat, reply: Reply)
    requires Finishes(mid, power, TakePlan(mid, worker, until, now), after, rest, reply) && reply.Returned?
    ensures Owns(after, reply.id, worker)
    ensures NoneProcessing(mid) ==> OnlyProcessing(after, reply.id)
  {
    var m := Move(Taken, reply.id, reply.record);
    assert TakePlan(mid, worker, until, now) == Plan([m], Returned(m.id, m.record));
    OneMoveDone(mid, power, m, after, rest, reply);
  }

  lemma ClaimantOwns(before: Files, power: nat, worker: string, lease: Option<int>, now: real, config: Config,
                     after: Files, rest: nat, reply: Reply)
    requires Finishes(before, power, ClaimPlan(before, worker, lease, now, config), after, rest, reply)
    requires reply.Returned?
    ensures Owns(after, reply.id, worker)
    ensures NoneProcessing(before) ==> OnlyProcessing(after, reply.id)
  {
    var until := now + LeaseLength(lease, config);
    var plan := RecoverThenTake(before, worker, until, now);
    assert ClaimPlan(before, worker, lease, now, config) == plan;
    var mid, midPower := ClaimSplits(before, power, worker, until, now, after, rest, reply);
    TakerOwns(mid, midPower, worker, until, now, after, rest, reply);
  }

  // ----- many passes -----------------------------------------------------------------------------

  /** Every event finds a state it may happen in, given what each does to the state. */
  ghost predicate Along<S(!new), E(!new)>(may: (S, E) -> bool, step: (S, E) -> S, s: S, es: seq<E>)
    decreases |es|
  {
    es == [] || (may(s, es[0]) && Along(may, step, step(s, es[0]), es[1..]))
  }

  ghost function AtEnd<S(!new), E(!new)>(step: (S, E) -> S, s: S, es: seq<E>): S
    decreases |es|
  {
    if es == [] then s else AtEnd(step, step(s, es[0]), es[1..])
  }

  lemma {:induction false} AlongConcat<S(!new), E(!new)>(may: (S, E) -> bool, step: (S, E) -> S, s: S, a: seq<E>, b: seq<E>)
    requires Along(may, step, s, a) && Along(may, step, AtEnd(step, s, a), b)
    ensures Along(may, step, s, a + b)
    decreases |a|
  {
    if a == [] {
      assert a + b == b;
    } else {
      assert (a + b)[0] == a[0] && (a + b)[1..] == a[1..] + b;
      AlongConcat(may, step, step(s, a[0]), a[1..], b);
    }
  }

  ghost function Stepping(config: Config): (Files, Event) -> Files {
    (f: Files, e: Event) => Exec(f, e, config)
  }

  ghost function CarriedOut(config: Config): (Files, Event) -> bool {
    (f: Files, e: Event) => Completes(Moves(f, e, config), e.power)
  }

  lemma {:induction false} CrashFreeIsAlong(files: Files, evs: seq<Event>, config: Config)
    ensures CrashFree(files, evs, config) <==> Along(CarriedOut(config), Stepping(config), files, evs)
    ensures RunFrom(files, evs, config) == AtEnd(Stepping(config), files, evs)
    decreases |evs|
  {
    if evs != [] {
      CrashFreeIsAlong(Exec(files, evs[0], config), evs[1..], config);
    }
  }

  lemma CrashFreeConcat(files: Files, a: seq<Event>, b: seq<Event>, config: Config)
    requires CrashFree(files, a, config) && CrashFree(RunFrom(files, a, config), b, config)
    ensures CrashFree(files, a + b, config)
  {
    CrashFreeIsAlong(files, a, config);
    CrashFreeIsAlong(RunFrom(files, a, config), b, config);
    AlongConcat(CarriedOut(config), Stepping(config), files, a, b);
    CrashFreeIsAlong(files, a + b, config);
  }

  ghost function Alone(): (Files, Event) -> bool {
    (f: Files, e: Event) => e.call.Claim? || e.call.Recover? ==> NoneProcessing(f)
  }

  lemma {:induction false} SequentialIsAlong(files: Files, evs: seq<Event>, config: Config)
    ensures Sequential(files, evs, config) <==> Along(Alone(), Stepping(config), files, evs)
    decreases |evs|
  {
    if evs != [] {
      SequentialIsAlong(Exec(files, evs[0], config), evs[1..], config);
    }
  }

  lemma SequentialConcat(files: Files, a: seq<Event>, b: seq<Event>, config: Config)
    requires Sequential(files, a, config) && Sequential(RunFrom(files, a, config), b, config)
    ensures Sequential(files, a + b, config)
  {
    CrashFreeIsAlong(files, a, config);
    SequentialIsAlong(files, a, config);
    SequentialIsAlong(RunFrom(files, a, config), b, config);
    AlongConcat(Alone(), Stepping(config), files, a, b);
    SequentialIsAlong(files, a + b, config);
  }

  lemma WellRunConcat(files: Files, a: seq<Event>, b: seq<Event>, config: Config)
    requires WellRun(files, a, config) && WellRun(RunFrom(files, a, config), b, config)
    ensures WellRun(files, a + b, config)
  {
    RunFromConcat(files, a, b, config);
    SequentialConcat(files, a, b, config);
    CrashFreeConcat(files, a, b, config);
  }

  /** A job queued by somebody else between two passes. */
  datatype Request = Request(job: Job, availableAt: Option<real>, now: real)

  /** What the world supplies to one pass: jobs queued before it, clock readings, and the outcome. */
  datatype Pass = Pass(queued: seq<Request>, t0: real, t1: real, beats: seq<real>, outcome: Outcome, t2: real)

  lemma EnqueueIsWellRun(before: Files, power: nat, r: Request, config: Config, after: Files, rest: nat, reply: Reply)
    requires Finishes(before, power, EnqueuePlan(before, r.job, r.availableAt, r.now, config), after, rest, reply)
    ensures var ev := Event(Call.Enqueue(r.job, r.availableAt), r.now, power);
            && after == RunFrom(before, [ev], config)
            && (NoneProcessing(before) && reply != Crashed ==> WellRun(before, [ev], config))
  {
    var call := Call.Enqueue(r.job, r.availableAt);
    var ev, plan := Event(call, r.now, power), EnqueuePlan(before, r.job, r.availableAt, r.now, config);
    FinishesIsExec(before, power, call, r.now, config, after, rest, reply);
    assert [ev][1..] == [];
    if plan.moves == [] {
      assert AllEffects(plan.moves) == [];
    } else if reply != Crashed {
      assert plan == Plan([plan.moves[0]], plan.reply);
      OneMoveDone(before, power, plan.moves[0], after, rest, reply);
    }
  }

  // ----- all claims together ---------------------------------------------------------------------

  function CountKind(ms: seq<Move>, kind: Kind): nat {
    if ms == [] then 0 else CountKind(ms[..|ms| - 1], kind) + (if ms[|ms| - 1].kind == kind then 1 else 0)
  }

  lemma {:induction false} CountKindConcat(a: seq<Move>, b: seq<Move>, kind: Kind)
    ensures CountKind(a + b, kind) == CountKind(a, kind) + CountKind(b, kind)
    decreases |b|
  {
    if b == [] {
      assert a + b == a;
    } else {
      var front, m := b[..|b| - 1], b[|b| - 1];
      assert (a + b)[..|a + b| - 1] == a + front;
      CountKindConcat(a, front, kind);
    }
  }

  lemma {:induction false} HistoryConcat(files: Files, a: seq<Event>, b: seq<Event>, config: Config)
    ensures History(files, a + b, config) == History(files, a, config) + History(RunFrom(files, a, config), b, config)
    decreases |a|
  {
    if a == [] {
      assert a + b == b;
      assert [] + History(files, b, config) == History(files, b, config);
    } else {
      var ms, next := Moves(files, a[0], config), Exec(files, a[0], config);
      assert (a + b)[1..] == a[1..] + b;
      HistoryConcat(next, a[1..], b, config);
      assert ms + (History(next, a[1..], config) + History(RunFrom(next, a[1..], config), b, config))
          == ms + History(next, a[1..], config) + History(RunFrom(next, a[1..], config), b, config);
    }
  }

  lemma TakenConcat(files: Files, a: seq<Event>, b: seq<Event>, config: Config)
    ensures CountKind(History(files, a + b, config), Taken)
            == CountKind(History(files, a, config), Taken) + CountKind(History(RunFrom(files, a, config), b, config), Taken)
  {
    HistoryConcat(files, a, b, config);
    CountKindConcat(History(files, a, config), History(RunFrom(files, a, config), b, config), Taken);
  }

  lemma TakenStay(files: Files, past: seq<Event>, evs: seq<Event>, config: Config)
    requires past <= evs
    ensures CountKind(History(files, past, config), Taken) <= CountKind(History(files, evs, config), Taken)
  {
    assert evs == past + evs[|past|..];
    TakenConcat(files, past, evs[|past|..], config);
  }

  lemma ClaimMovesTake(files: Files, worker: string, lease: Option<int>, now: real, config: Config)
    ensures ClaimPlan(files, worker, lease, now, config).reply.Returned? ==>
              CountKind(ClaimPlan(files, worker, lease, now, config).moves, Taken) >= 1
  {
    var until, recovery := now + LeaseLength(lease, config), RecoverPlan(files, now).moves;
    var take := TakePlan(ApplyMoves(files, recovery), worker, until, now);
    if take.reply.Returned? {
      assert take.moves == [Move(Taken, take.reply.id, take.reply.record)];
      assert CountKind(take.moves, Taken) == 1;
    }
    CountKindConcat(recovery, take.moves, Taken);
  }

  /** A claim that returns a record has taken one. */
  lemma ClaimTakes(files: Files, past: seq<Event>, before: Files, ev: Event, config: Config)
    requires before == RunFrom(files, past, config) && ev.call.Claim?
    ensures ClaimPlan(before, ev.call.worker, ev.call.lease, ev.now, config).reply.Returned? ==>
              CountKind(History(files, past + [ev], config), Taken) >= 1
  {
    ClaimMovesTake(before, ev.call.worker, ev.call.lease, ev.now, config);
    assert [ev][1..] == [];
    assert History(before, [ev], config) == Moves(before, ev, config) + [];
    assert Moves(before, ev, config) + [] == Moves(before, ev, config);
    TakenConcat(files, past, [ev], config);
  }

  function WithoutId(ms: seq<Move>, id: Id): seq<Move> {
    if ms == [] then []
    else WithoutId(ms[..|ms| - 1], id) + (if ms[|ms| - 1].id == id then [] else [ms[|ms| - 1]])
  }

  lemma CountKindSnoc(ms: seq<Move>, m: Move, kind: Kind)
    ensures CountKind(ms + [m], kind) == CountKind(ms, kind) + (if m.kind == kind then 1 else 0)
  {
    assert (ms + [m])[..|ms|] == ms;
  }

  lemma WithoutSnoc(ms: seq<Move>, m: Move, x: Id)
    ensures WithoutId(ms + [m], x) == if m.id == x then WithoutId(ms, x) else WithoutId(ms, x) + [m]
  {
    assert (ms + [m])[..|ms|] == ms;
    assert WithoutId(ms, x) + [] == WithoutId(ms, x);
  }

  lemma {:induction false} WithoutCounts(ms: seq<Move>, x: Id, id: Id, kind: Kind)
    ensures CountKind(ms, kind) == CountKind(WithoutId(ms, x), kind) + Count(ms, x, kind)
    ensures id != x ==> Count(WithoutId(ms, x), id, kind) == Count(ms, id, kind)
    decreases |ms|
  {
    if ms != [] {
      var front, m := ms[..|ms| - 1], ms[|ms| - 1];
      WithoutCounts(front, x, id, kind);
      WithoutSnoc(front, m, x);
      CountKindSnoc(front, m, kind);
      CountSnoc(front, m, x, kind);
      CountSnoc(front, m, id, kind);
      CountSnoc(WithoutId(front, x), m, id, kind);
      CountKindSnoc(WithoutId(front, x), m, kind);
      assert ms == front + [m];
    }
  }

  lemma {:induction false} WithoutMembers(ms: seq<Move>, x: Id)
    ensures forall m | m in WithoutId(ms, x) :: m in ms && m.id != x
  {
    if ms != [] {
      WithoutMembers(ms[..|ms| - 1], x);
    }
  }

  lemma CountBelow(ms: seq<Move>, x: Id, ids: set<Id>, kind: Kind, k: nat)
    requires forall m | m in ms :: m.id in ids
    requires forall id | id in ids :: Count(ms, id, kind) <= k
    ensures forall m | m in WithoutId(ms, x) :: m.id in ids - {x}
    ensures forall id | id in ids - {x} :: Count(WithoutId(ms, x), id, kind) <= k
  {
    WithoutMembers(ms, x);
    forall id | id in ids - {x}
      ensures Count(WithoutId(ms, x), id, kind) <= k
    {
      WithoutCounts(ms, x, id, kind);
    }
  }

  lemma HeadIsMember(ms: seq<Move>)
    ensures ms != [] ==> ms[0] in ms
  {
  }

  lemma Times(k: nat, n: nat)
    requires n > 0
    ensures k * (n - 1) + k == k * n
  {
  }

  /** When each of the records has at most `k` moves of a kind, all together have at most `k` times as many
      as there are records. */
  lemma {:induction false} TotalOfKind(ms: seq<Move>, ids: set<Id>, kind: Kind, k: nat)
    requires forall m | m in ms :: m.id in ids
    requires forall id | id in ids :: Count(ms, id, kind) <= k
    ensures CountKind(ms, kind) <= k * |ids|
    decreases |ids|
  {
    if ids == {} {
      HeadIsMember(ms);
    } else {
      var x :| x in ids;
      CountBelow(ms, x, ids, kind, k);
      TotalOfKind(WithoutId(ms, x), ids - {x}, kind, k);
      WithoutCounts(ms, x, x, kind);
      Times(k, |ids|);
    }
  }

  /** Over a well-run stretch from the empty queue all claims together are at most `maxAttempts` for each record. */
  lemma ClaimsAreFew(evs: seq<Event>, config: Config)
    requires config.maxAttempts >= 1 && WellRun(map[], evs, config)
    ensures CountKind(History(map[], evs, config), Taken)
            <= config.maxAttempts * |AllIds(RunFrom(map[], evs, config))|
  {
    var files, past := RunFrom(map[], evs, config), History(map[], evs, config);
    RunsKeepOrder(map[], [], evs, config);
    assert [] + past == past;
    forall m | m in past
      ensures m.id in AllIds(files)
    {
      var d: Dir :| Path(d, m.id) in files;
      assert Path(d, m.id).id in AllIds(files);
    }
    forall id | id in AllIds(files)
      ensures Count(past, id, Taken) <= config.maxAttempts
    {
      var p :| p in files && p.id == id;
      WorkerDrivesToFinal(evs, config, p);
    }
    TotalOfKind(past, AllIds(files), Taken, config.maxAttempts);
  }

  /** After an idle pass of a well-run stretch, every record is final or due later. */
  lemma IdleMeansFinal(evs: seq<Event>, config: Config, now: real, p: Path)
    requires WellRun(map[], evs, config) && NothingDue(RunFrom(map[], evs, config), now)
    requires p in RunFrom(map[], evs, config)
    ensures IsFinal(p.dir) || (p.dir == Pending && RunFrom(map[], evs, config)[p].availableAt > now)
  {
    RunsKeepCoherent(map[], evs, config);
    assert Fits(p.dir, RunFrom(map[], evs, config)[p]);
  }

  class Worker {
    const queue: FileQueue
    const workerId: string

    constructor (queue: FileQueue, workerId: string)
      ensures this.queue == queue && this.workerId == workerId
    {
      this.queue, this.workerId := queue, workerId;
    }

    /** The heartbeats sent while the record is being processed. */
    method KeepAlive(id: Id, beats: seq<real>, ghost f0: Files, ghost past: seq<Event>)
      returns (alive: bool, ghost evs: seq<Event>)
      requires queue.files == RunFrom(f0, past, queue.config) && Owns(queue.files, id, workerId)
      modifies queue
      ensures queue.files == RunFrom(f0, evs, queue.config) && past <= evs
      ensures forall i | |past| <= i < |evs| :: evs[i].call == Call.Heartbeat(id, workerId, None)
      ensures alive ==> Owns(queue.files, id, workerId)
      ensures alive && OnlyProcessing(old(queue.files), id) ==> OnlyProcessing(queue.files, id)
      ensures alive && CrashFree(f0, past, queue.config) ==> CrashFree(f0, evs, queue.config)
    {
      evs, alive := past, true;
      for i := 0 to |beats|
        invariant queue.files == RunFrom(f0, evs, queue.config) && past <= evs
        invariant forall i | |past| <= i < |evs| :: evs[i].call == Call.Heartbeat(id, workerId, None)
        invariant Owns(queue.files, id, workerId)
        invariant OnlyProcessing(old(queue.files), id) ==> OnlyProcessing(queue.files, id)
        invariant CrashFree(f0, past, queue.config) ==> CrashFree(f0, evs, queue.config)
      {
        ghost var f, p := queue.files, queue.power;
        ghost var call := Call.Heartbeat(id, workerId, None);
        var reply := queue.Heartbeat(id, workerId, None, beats[i]);
        FinishesIsExec(f, p, call, beats[i], queue.config, queue.files, queue.power, reply);
        RunFromSnoc(f0, evs, Event(call, beats[i], p), queue.config);
        if reply == Crashed {
          return false, evs + [Event(call, beats[i], p)];
        }
        if CrashFree(f0, evs, queue.config) {
          CrashFreeSnoc(f0, evs, Event(call, beats[i], p), queue.config);
        }
        evs := evs + [Event(call, beats[i], p)];
        OneMoveDone(f, p, HeartbeatPlan(f, id, workerId, None, beats[i], queue.config).moves[0],
                    queue.files, queue.power, reply);
      }
    }

    method Finish(id: Id, outcome: Outcome, now: real) returns (status: Status)
      requires Owns(queue.files, id, workerId)
      modifies queue
      ensures queue.files == Exec(old(queue.files), Event(Ending(id, workerId, outcome), now, old(queue.power)), queue.config)
      ensures Receipt(status, id, outcome, queue.files, queue.config)
      ensures IsEnd(status) && OnlyProcessing(old(queue.files), id) ==> NoneProcessing(queue.files)
      ensures IsEnd(status) ==>
                Completes(Planned(old(queue.files), Ending(id, workerId, outcome), now, queue.config).moves, old(queue.power))
    {
      ghost var f, p := queue.files, queue.power;
      var reply;
      match outcome {
        case Processed =>
          reply := queue.Complete(id, workerId, now);
        case Refused(code) =>
          reply := queue.Fail(id, workerId, code, IsPermanent(code), now);
        case Unexpected =>
          reply := queue.Fail(id, workerId, "UNEXPECTED_WORKER_FAILURE", false, now);
      }
      EndingDone(f, p, id, workerId, outcome, now, queue.config, queue.files, queue.power, reply);
      return if reply == Crashed then Died
             else if reply.Raised? then Broken(reply.error)
             else if outcome.Processed? then Completed
             else if reply.Returned? && reply.record.state == Quarantined then GivenUp
             else Retry;
    }

    /** Recover, then claim. */
    method Next(t0: real, t1: real) returns (reply: Reply, ghost evs: seq<Event>)
      modifies queue
      ensures queue.files == RunFrom(old(queue.files), evs, queue.config)
      ensures reply != Crashed ==> |evs| == 2 && evs[0].call == Call.Recover && evs[1].call == Call.Claim(workerId, None)
      ensures reply.Returned? ==> Owns(queue.files, reply.id, workerId)
      ensures reply.Raised? ==> reply == Raised(WorkerInvalid) && !IsToken(workerId)
      ensures reply.Returned? || reply == Nothing ==> IsToken(workerId)
      ensures !reply.Recovered?
      ensures NoneProcessing(old(queue.files)) && reply.Returned? ==> OnlyProcessing(queue.files, reply.id)
      ensures NoneProcessing(old(queue.files)) && reply == Nothing ==> NoneProcessing(queue.files) && NothingDue(queue.files, t1)
      ensures reply != Crashed ==> CrashFree(old(queue.files), evs, queue.config)
      ensures reply.Returned? ==> CountKind(History(old(queue.files), evs, queue.config), Taken) >= 1
    {
      ghost var f0, p0 := queue.files, queue.power;
      var recovered := queue.Recover(t0);
      FinishesIsExec(f0, p0, Call.Recover, t0, queue.config, queue.files, queue.power, recovered);
      evs := [Event(Call.Recover, t0, p0)];
      RunFromSnoc(f0, [], evs[0], queue.config);
      assert [] + [evs[0]] == evs;
      if recovered == Crashed {
        return Crashed, evs;
      }
      CrashFreeSnoc(f0, [], evs[0], queue.config);
      if NoneProcessing(f0) {
        NothingToRecover(f0, t0);
      }
      ghost var f1, p1 := queue.files, queue.power;
      reply := queue.Claim(workerId, None, t1);
      ClaimDone(f1, p1, workerId, None, t1, queue.config, queue.files, queue.power, reply);
      RunFromSnoc(f0, evs, Event(Call.Claim(workerId, None), t1, p1), queue.config);
      if reply != Crashed {
        CrashFreeSnoc(f0, evs, Event(Call.Claim(workerId, None), t1, p1), queue.config);
      }
      ClaimTakes(f0, evs, f1, Event(Call.Claim(workerId, None), t1, p1), queue.config);
      evs := evs + [Event(Call.Claim(workerId, None), t1, p1)];
    }

    /** From the claim to the end of the pass. */
    method Work(id: Id, beats: seq<real>, outcome: Outcome, now: real, ghost f0: Files, ghost past: seq<Event>)
      returns (status: Status, ghost evs: seq<Event>)
      requires queue.files == RunFrom(f0, past, queue.config) && Owns(queue.files, id, workerId)
      modifies queue
      ensures queue.files == RunFrom(f0, evs, queue.config) && past <= evs
      ensures forall i | |past| <= i < |evs| :: !evs[i].call.Claim? && !evs[i].call.Recover?
      ensures !status.Died? ==> |past| < |evs| && evs[|evs| - 1].call == Ending(id, workerId, outcome)
      ensures !status.Died? ==> forall i | |past| <= i < |evs| - 1 :: evs[i].call == Call.Heartbeat(id, workerId, None)
      ensures !status.Died? ==> Receipt(status, id, outcome, queue.files, queue.config)
      ensures IsEnd(status) && OnlyProcessing(old(queue.files), id) ==> NoneProcessing(queue.files)
      ensures IsEnd(status) && CrashFree(f0, past, queue.config) ==> CrashFree(f0, evs, queue.config)
      ensures !status.Idle?
    {
      var alive;
      alive, evs := KeepAlive(id, beats, f0, past);
      if !alive {
        return Died, evs;
      }
      ghost var ev := Event(Ending(id, workerId, outcome), now, queue.power);
      status := Finish(id, outcome, now);
      RunFromSnoc(f0, evs, ev, queue.config);
      if IsEnd(status) && CrashFree(f0, evs, queue.config) {
        CrashFreeSnoc(f0, evs, ev, queue.config);
      }
      evs := evs + [ev];
    }

    /** One pass is a run of the queue's calls; it moves the claimed record to where the receipt says,
        breaks only on an invalid worker id or reason code, and, begun with nothing being processed,
        ends with nothing being processed after a sequential run.  An idle pass means that nothing pending
        is due; any other that ends has claimed something. */
    method RunOnce(t0: real, t1: real, beats: seq<real>, outcome: Outcome, t2: real)
      returns (status: Status, ghost evs: seq<Event>, ghost id: Id)
      modifies queue
      ensures queue.files == RunFrom(old(queue.files), evs, queue.config)
      ensures status.Idle? ==> |evs| == 2 && evs[0].call == Call.Recover && evs[1].call == Call.Claim(workerId, None)
      ensures !status.Idle? && !status.Died? && IsToken(workerId) ==>
                IsPass(evs, workerId, id, outcome) && Receipt(status, id, outcome, queue.files, queue.config)
      ensures NoneProcessing(old(queue.files)) && (status.Idle? || IsEnd(status)) ==>
                && NoneProcessing(queue.files)
                && Sequential(old(queue.files), evs, queue.config) && CrashFree(old(queue.files), evs, queue.config)
      ensures NoneProcessing(old(queue.files)) && status.Idle? ==> NothingDue(queue.files, t1)
      ensures IsEnd(status) ==> CountKind(History(old(queue.files), evs, queue.config), Taken) >= 1
      ensures !IsToken(workerId) ==> status.Died? || status == Broken(WorkerInvalid)
    {
      id := 0;
      ghost var f0 := queue.files;
      var reply;
      reply, evs := Next(t0, t1);
      if reply == Crashed {
        return Died, evs, id;
      } else if reply.Raised? {
        return Broken(reply.error), evs, id;
      } else if reply == Nothing {
        status := Idle;
      } else {
        id := reply.id;
        ghost var claimed := evs;
        status, evs := Work(reply.id, beats, outcome, t2, f0, evs);
        TakenStay(f0, claimed, evs, queue.config);
      }
      if NoneProcessing(f0) && (status.Idle? || IsEnd(status)) {
        PassIsSequential(f0, evs, queue.config);
      }
    }

    /** Jobs arriving between two passes. */
    method Arrive(queued: seq<Request>) returns (alive: bool, ghost evs: seq<Event>)
      modifies queue
      ensures queue.files == RunFrom(old(queue.files), evs, queue.config)
      ensures alive && NoneProcessing(old(queue.files)) ==> WellRun(old(queue.files), evs, queue.config)
    {
      alive, evs := true, [];
      ghost var f0 := queue.files;
      for i := 0 to |queued|
        invariant queue.files == RunFrom(f0, evs, queue.config)
        invariant NoneProcessing(f0) ==> WellRun(f0, evs, queue.config)
      {
        ghost var f, p := queue.files, queue.power;
        var reply := queue.Enqueue(queued[i].job, queued[i].availableAt, queued[i].now);
        EnqueueIsWellRun(f, p, queued[i], queue.config, queue.files, queue.power, reply);
        ghost var ev := Event(Call.Enqueue(queued[i].job, queued[i].availableAt), queued[i].now, p);
        RunFromConcat(f0, evs, [ev], queue.config);
        if reply == Crashed {
          return false, evs + [ev];
        }
        if NoneProcessing(f0) {
          WellRunConcat(f0, evs, [ev], queue.config);
        }
        evs := evs + [ev];
      }
    }

    /** The loop: pass after pass, with jobs arriving in between, until a call dies or raises.  Begun with
        nothing being processed, it is a crash-free sequential run.  Begun with no jobs, it claims each
        record at most `maxAttempts` times, and one claimed that often is done or quarantined; no more
        passes work than `maxAttempts` for each record; and when the last pass is idle every record is
        final or due later. */
    method RunForever(passes: seq<Pass>) returns (status: Status, ghost evs: seq<Event>, ghost ends: seq<Status>)
      modifies queue
      ensures queue.files == RunFrom(old(queue.files), evs, queue.config)
      ensures NoneProcessing(old(queue.files)) && (status.Idle? || IsEnd(status)) ==>
                WellRun(old(queue.files), evs, queue.config)
      ensures old(queue.files) == map[] && queue.config.maxAttempts >= 1 && (status.Idle? || IsEnd(status)) ==>
                && (forall p | p in queue.files :: ClaimedEnough(p, evs, queue.config))
                && Working(ends) <= queue.config.maxAttempts * |AllIds(queue.files)|
      ensures passes != [] && old(queue.files) == map[] && status.Idle? ==>
                forall p | p in queue.files :: IsFinal(p.dir)
                  || (p.dir == Pending && queue.files[p].availableAt > passes[|passes| - 1].t1)
      ensures status.Idle? || IsEnd(status) ==> |ends| == |passes| && (passes != [] ==> ends[|passes| - 1] == status)
    {
      status, evs, ends := Idle, [], [];
      ghost var f0 := queue.files;
      for i := 0 to |passes|
        invariant queue.files == RunFrom(f0, evs, queue.config)
        invariant status.Idle? || IsEnd(status)
        invariant NoneProcessing(f0) ==> WellRun(f0, evs, queue.config)
        invariant |ends| == i && (i > 0 ==> ends[i - 1] == status)
        invariant Working(ends) <= CountKind(History(f0, evs, queue.config), Taken)
        invariant i > 0 && NoneProcessing(f0) && status.Idle? ==> NothingDue(queue.files, passes[i - 1].t1)
      {
        var pass := passes[i];
        var alive, arrivals := Arrive(pass.queued);
        RunFromConcat(f0, evs, arrivals, queue.config);
        if !alive {
          return Died, evs + arrivals, ends;
        }
        if NoneProcessing(f0) {
          WellRunConcat(f0, evs, arrivals, queue.config);
        }
        TakenConcat(f0, evs, arrivals, queue.config);
        evs := evs + arrivals;
        ghost var calls: seq<Event>, id: Id;
        status, calls, id := RunOnce(pass.t0, pass.t1, pass.beats, pass.outcome, pass.t2);
        RunFromConcat(f0, evs, calls, queue.config);
        if !status.Idle? && !IsEnd(status) {
          return status, evs + calls, ends + [status];
        }
        if NoneProcessing(f0) {
          WellRunConcat(f0, evs, calls, queue.config);
        }
        TakenConcat(f0, evs, calls, queue.config);
        evs := evs + calls;
        assert (ends + [status])[..i] == ends;
        ends := ends + [status];
      }
      Conclude(f0, evs, queue.config);
      if passes != [] && f0 == map[] && status.Idle? {
        forall p | p in queue.files
          ensures IsFinal(p.dir) || (p.dir == Pending && queue.files[p].availableAt > passes[|passes| - 1].t1)
        {
          IdleMeansFinal(evs, queue.config, passes[|passes| - 1].t1, p);
        }
      }
    }
  }

  lemma Conclude(f0: Files, evs: seq<Event>, config: Config)
    requires f0 == map[] ==> WellRun(f0, evs, config)
    ensures f0 == map[] && config.maxAttempts >= 1 ==>
              && (forall p | p in RunFrom(f0, evs, config) :: ClaimedEnough(p, evs, config))
              && CountKind(History(f0, evs, config), Taken) <= config.maxAttempts * |AllIds(RunFrom(f0, evs, config))|
  {
    if f0 == map[] && config.maxAttempts >= 1 {
      ClaimsAreFew(evs, config);
      forall p | p in RunFrom(f0, evs, config)
        ensures ClaimedEnough(p, evs, config)
      {
        WorkerDrivesToFinal(evs, config, p);
      }
    }
  }
}
