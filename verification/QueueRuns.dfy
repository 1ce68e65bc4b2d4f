/** What the queue keeps over whole runs: with crashes between any two file effects, and without. */
module QueueRuns {
  import opened Wrappers
  import opened JobFiles
  import opened JobQueue

  /** One call; the process survives `power` file effects of it. */
  datatype Event = Event(call: Call, now: real, power: nat)

  ghost function Moves(files: Files, ev: Event, config: Config): seq<Move> {
    Planned(files, ev.call, ev.now, config).moves
  }

  ghost function Exec(files: Files, ev: Event, config: Config): Files {
    Run(Machine(files, ev.power, true), AllEffects(Moves(files, ev, config))).files
  }

  ghost function RunFrom(files: Files, evs: seq<Event>, config: Config): Files
    decreases |evs|
  {
    if evs == [] then files else RunFrom(Exec(files, evs[0], config), evs[1..], config)
  }

  lemma {:induction false} RunFromConcat(files: Files, a: seq<Event>, b: seq<Event>, config: Config)
    ensures RunFrom(files, a + b, config) == RunFrom(RunFrom(files, a, config), b, config)
    decreases |a|
  {
    if a == [] {
      assert a + b == b;
    } else {
      assert (a + b)[1..] == a[1..] + b;
      RunFromConcat(Exec(files, a[0], config), a[1..], b, config);
    }
  }

  predicate Completes(ms: seq<Move>, power: nat) {
    |AllEffects(ms)| <= power
  }

  lemma CompleteRun(files: Files, power: nat, ms: seq<Move>)
    requires Completes(ms, power)
    ensures Run(Machine(files, power, true), AllEffects(ms)).files == ApplyMoves(files, ms)
  {
    RunFull(files, power, AllEffects(ms));
    RunIsPrefix(files, power, AllEffects(ms));
  }

  // ----- one move, cut short anywhere ------------------------------------------------------------

  function TargetPath(m: Move): Path {
    Path(Target(m.kind), m.id)
  }

  function Wrote(files: Files, m: Move): Files {
    files[TargetPath(m) := m.record]
  }

  function Removed(files: Files, m: Move): Files {
    if Source(m.kind).None? then files else files - {Path(Source(m.kind).value, m.id)}
  }

  /** A move leaves one of three disks: untouched, written but not removed, complete. */
  lemma RunMove(machine: Machine, m: Move)
    requires machine.alive
    ensures var r := Run(machine, Effects(m));
            && (r.files == machine.files || r.files == Wrote(machine.files, m)
                || r.files == Removed(Wrote(machine.files, m), m))
            && (r.alive ==> r.files == Removed(Wrote(machine.files, m), m))
            && (r.alive <==> |Effects(m)| <= machine.power)
    ensures ApplyMove(machine.files, m) == Removed(Wrote(machine.files, m), m)
  {
    var es, first := Effects(m), Machine(Wrote(machine.files, m), if machine.power > 0 then machine.power - 1 else 0, true);
    if Source(m.kind).None? {
      assert es == [Write(TargetPath(m), m.record)] && es[1..] == [];
      assert ApplyAll(Wrote(machine.files, m), []) == Wrote(machine.files, m);
    } else {
      var u := Unlink(Path(Source(m.kind).value, m.id));
      assert es == [Write(TargetPath(m), m.record), u] && es[1..] == [u] && [u][1..] == [];
      assert ApplyAll(Wrote(machine.files, m), [u]) == Apply(Wrote(machine.files, m), u);
      if machine.power > 0 {
        assert Run(machine, es) == Run(first, [u]);
        assert Run(first, [u]) == if first.power == 0 then first.(alive := false)
                                  else Machine(Apply(first.files, u), first.power - 1, true);
      }
    }
  }

  // ----- crash safety ----------------------------------------------------------------------------

  ghost predicate HasCopy(files: Files, id: Id) {
    exists d: Dir :: Path(d, id) in files
  }

  predicate IsFinal(d: Dir) {
    d == Done || d == Quarantined
  }

  lemma MoveKeepsCopies(machine: Machine, m: Move, id: Id)
    requires machine.alive && HasCopy(machine.files, id)
    ensures HasCopy(Run(machine, Effects(m)).files, id)
  {
    RunMove(machine, m);
    var d :| Path(d, id) in machine.files;
    var after := Run(machine, Effects(m)).files;
    assert Path(d, id) in after || TargetPath(m) in after;
    assert id != m.id ==> Path(d, id) in after;
  }

  lemma MoveKeepsFinal(machine: Machine, m: Move, p: Path)
    requires machine.alive && p in machine.files && IsFinal(p.dir)
    ensures p in Run(machine, Effects(m)).files
  {
    RunMove(machine, m);
  }

  lemma {:induction false} MovesKeepCopies(machine: Machine, ms: seq<Move>, id: Id)
    requires HasCopy(machine.files, id)
    ensures HasCopy(Run(machine, AllEffects(ms)).files, id)
    decreases |ms|
  {
    if machine.alive && ms != [] {
      MoveKeepsCopies(machine, ms[0], id);
      FirstMove(machine, ms[0], ms[1..]);
      assert [ms[0]] + ms[1..] == ms;
      MovesKeepCopies(Run(machine, Effects(ms[0])), ms[1..], id);
    }
  }

  lemma {:induction false} MovesKeepFinal(machine: Machine, ms: seq<Move>, p: Path)
    requires p in machine.files && IsFinal(p.dir)
    ensures p in Run(machine, AllEffects(ms)).files
    decreases |ms|
  {
    if machine.alive && ms != [] {
      MoveKeepsFinal(machine, ms[0], p);
      FirstMove(machine, ms[0], ms[1..]);
      assert [ms[0]] + ms[1..] == ms;
      MovesKeepFinal(Run(machine, Effects(ms[0])), ms[1..], p);
    }
  }

  /** Over any run, whatever is called and wherever each process dies: an id once on disk never has
      zero copies, and a done or quarantined file is never removed. */
  lemma {:induction false} NoRecordIsLost(files: Files, evs: seq<Event>, config: Config, id: Id)
    ensures HasCopy(files, id) ==> HasCopy(RunFrom(files, evs, config), id)
    ensures forall d: Dir | IsFinal(d) && Path(d, id) in files :: Path(d, id) in RunFrom(files, evs, config)
    decreases |evs|
  {
    if evs != [] {
      var machine, ms := Machine(files, evs[0].power, true), Moves(files, evs[0], config);
      if HasCopy(files, id) {
        MovesKeepCopies(machine, ms, id);
      }
      forall d: Dir | IsFinal(d) && Path(d, id) in files
        ensures Path(d, id) in Exec(files, evs[0], config)
      {
        MovesKeepFinal(machine, ms, Path(d, id));
      }
      NoRecordIsLost(Exec(files, evs[0], config), evs[1..], config, id);
    }
  }

  // ----- legal moves -----------------------------------------------------------------------------

  /** What a move may assume of the disk it starts from. */
  predicate Legal(files: Files, m: Move, who: string, now: real, config: Config) {
    var source, held := Path(Pending, m.id), Path(Processing, m.id);
    match m.kind
    case Created =>
      && (forall d: Dir :: Path(d, m.id) !in files)
      && m.record.state == Pending && m.record.attempts == 0 && m.record.leaseUntil.None? && m.record.worker.None?
    case Taken =>
      && IsAvailable(files, m.id, now) && m.record.leaseUntil.Some?
      && m.record == TakenRecord(files[source], who, m.record.leaseUntil.value, now)
    case Renewed =>
      && Owns(files, m.id, who) && m.record.leaseUntil.Some?
      && m.record == RenewedRecord(files[held], m.record.leaseUntil.value, now)
    case Finished => Owns(files, m.id, who) && m.record == CompletedRecord(files[held], now)
    case Retried =>
      && Owns(files, m.id, who) && m.record.reason.Some? && files[held].attempts < config.maxAttempts
      && m.record == RetriedRecord(files[held], m.record.reason.value, now)
    case Parked =>
      && Owns(files, m.id, who) && m.record.reason.Some?
      && m.record == QuarantinedRecord(files[held], m.record.reason.value, now)
    case Expired =>
      && held in files && IsExpired(files[held], now) && m.record == ExpiredRecord(files[held], now)
  }

  predicate AllLegal(files: Files, ms: seq<Move>, who: string, now: real, config: Config)
    decreases |ms|
  {
    ms == [] || (Legal(files, ms[0], who, now, config)
                 && AllLegal(ApplyMove(files, ms[0]), ms[1..], who, now, config))
  }

  function Actor(call: Call): string {
    match call
    case Claim(worker, _) => worker
    case Heartbeat(_, worker, _) => worker
    case Complete(_, worker) => worker
    case Fail(_, worker, _, _) => worker
    case _ => ""
  }

  lemma {:induction false} RecoveryIsLegal(files: Files, ids: seq<Id>, who: string, now: real, config: Config)
    ensures AllLegal(files, RecoverMoves(files, ids, now), who, now, config)
    ensures forall m | m in RecoverMoves(files, ids, now) :: m.kind == Expired
    decreases |ids|
  {
    if ids != [] {
      var p := Path(Processing, ids[0]);
      if p in files && IsExpired(files[p], now) {
        var m := Move(Expired, ids[0], ExpiredRecord(files[p], now));
        var rest := RecoverMoves(ApplyMove(files, m), ids[1..], now);
        RecoveryIsLegal(ApplyMove(files, m), ids[1..], who, now, config);
        assert ([m] + rest)[1..] == rest;
      } else {
        RecoveryIsLegal(files, ids[1..], who, now, config);
      }
    }
  }

  lemma {:induction false} LegalConcat(files: Files, a: seq<Move>, b: seq<Move>, who: string, now: real, config: Config)
    requires AllLegal(files, a, who, now, config) && AllLegal(ApplyMoves(files, a), b, who, now, config)
    ensures AllLegal(files, a + b, who, now, config)
    decreases |a|
  {
    if a == [] {
      assert a + b == b;
    } else {
      assert (a + b)[1..] == a[1..] + b;
      ApplyConcat(files, Effects(a[0]), AllEffects(a[1..]));
      LegalConcat(ApplyMove(files, a[0]), a[1..], b, who, now, config);
    }
  }

  lemma OneIsLegal(files: Files, m: Move, who: string, now: real, config: Config)
    requires Legal(files, m, who, now, config)
    ensures AllLegal(files, [m], who, now, config)
  {
    assert [m][1..] == [];
  }

  lemma {:induction false} NoCopies(files: Files, id: Id, dirs: seq<Dir>, d: Dir)
    requires Copies(files, id, dirs) == [] && d in dirs
    ensures Path(d, id) !in files
  {
    if d != dirs[0] {
      NoCopies(files, id, dirs[1..], d);
    }
  }

  lemma EnqueueIsLegal(files: Files, job: Job, availableAt: Option<real>, now: real, config: Config, who: string)
    ensures AllLegal(files, EnqueuePlan(files, job, availableAt, now, config).moves, who, now, config)
  {
    var id := config.idOf(job.key);
    if Copies(files, id, STATES) == [] {
      forall d: Dir
        ensures Path(d, id) !in files
      {
        EveryState(d);
        NoCopies(files, id, STATES, d);
      }
      OneIsLegal(files, Move(Created, id, NewRecord(job, availableAt, now)), who, now, config);
    }
  }

  lemma ClaimIsLegal(files: Files, worker: string, until: real, now: real, config: Config)
    ensures AllLegal(files, RecoverThenTake(files, worker, until, now).moves, worker, now, config)
  {
    var recovery := RecoverPlan(files, now).moves;
    var files' := ApplyMoves(files, recovery);
    var take := TakePlan(files', worker, until, now);
    RecoveryIsLegal(files, SortedIds(Ids(files, Processing)), worker, now, config);
    if take.moves != [] {
      OneIsLegal(files', take.moves[0], worker, now, config);
      assert take.moves == [take.moves[0]];
    }
    LegalConcat(files, recovery, take.moves, worker, now, config);
  }

  lemma OwnedIsLegal(files: Files, call: Call, now: real, config: Config)
    requires call.Heartbeat? || call.Complete? || call.Fail?
    ensures AllLegal(files, Planned(files, call, now, config).moves, call.worker, now, config)
    ensures forall m | m in Planned(files, call, now, config).moves :: m.id == call.id && Owns(files, m.id, call.worker)
  {
    var ms := Planned(files, call, now, config).moves;
    if ms != [] {
      assert ms == [ms[0]];
      OneIsLegal(files, ms[0], call.worker, now, config);
    }
  }

  lemma ClaimCallIsLegal(files: Files, call: Call, now: real, config: Config)
    requires call.Claim?
    ensures AllLegal(files, Planned(files, call, now, config).moves, call.worker, now, config)
  {
    var until := now + LeaseLength(call.lease, config);
    ClaimIsLegal(files, call.worker, until, now, config);
    var plan := RecoverThenTake(files, call.worker, until, now);
    assert IsToken(call.worker) ==> Planned(files, call, now, config) == plan;
  }

  /** Every plan, in every state of the disk, is a list of legal moves. */
  lemma PlansAreLegal(files: Files, ev: Event, config: Config)
    ensures AllLegal(files, Moves(files, ev, config), Actor(ev.call), ev.now, config)
  {
    if ev.call.Enqueue? {
      EnqueueIsLegal(files, ev.call.job, ev.call.availableAt, ev.now, config, "");
    } else if ev.call.Claim? {
      ClaimCallIsLegal(files, ev.call, ev.now, config);
    } else if ev.call.Recover? {
      RecoveryIsLegal(files, SortedIds(Ids(files, Processing)), "", ev.now, config);
    } else {
      OwnedIsLegal(files, ev.call, ev.now, config);
    }
  }

  lemma KindsOfPlan(files: Files, ev: Event, config: Config)
    ensures forall m | m in Moves(files, ev, config) ::
              && (m.kind == Expired ==> ev.call.Claim? || ev.call.Recover?)
              && (m.kind == Taken ==> ev.call.Claim?)
              && (m.kind in {Renewed, Finished, Retried, Parked} ==>
                    (ev.call.Heartbeat? || ev.call.Complete? || ev.call.Fail?)
                    && m.id == ev.call.id && Owns(files, m.id, ev.call.worker))
  {
    RecoveryIsLegal(files, SortedIds(Ids(files, Processing)), "", ev.now, config);
    if ev.call.Heartbeat? || ev.call.Complete? || ev.call.Fail? {
      OwnedIsLegal(files, ev.call, ev.now, config);
    }
  }

  lemma {:induction false} NoneExpired(files: Files, ids: seq<Id>, now: real)
    requires forall id | id in ids && Path(Processing, id) in files :: !IsExpired(files[Path(Processing, id)], now)
    ensures RecoverMoves(files, ids, now) == []
    decreases |ids|
  {
    if ids != [] {
      assert ids[0] in ids && forall id | id in ids[1..] :: id in ids;
      NoneExpired(files, ids[1..], now);
    }
  }

  lemma NothingToRecover(files: Files, now: real)
    requires forall p | p in files && p.dir == Processing :: !IsExpired(files[p], now)
    ensures RecoverPlan(files, now).moves == []
    ensures ApplyMoves(files, []) == files
  {
    NoneExpired(files, SortedIds(Ids(files, Processing)), now);
  }

  lemma {:induction false} UntouchedByMoves(machine: Machine, ms: seq<Move>, p: Path)
    requires forall m | m in ms :: m.id != p.id
    ensures var after := Run(machine, AllEffects(ms)).files;
            (p in after <==> p in machine.files) && (p in after ==> after[p] == machine.files[p])
    decreases |ms|
  {
    if machine.alive && ms != [] {
      RunMove(machine, ms[0]);
      FirstMove(machine, ms[0], ms[1..]);
      assert [ms[0]] + ms[1..] == ms && ms[0] in ms && forall m | m in ms[1..] :: m in ms;
      UntouchedByMoves(Run(machine, Effects(ms[0])), ms[1..], p);
    }
  }

  // ----- coherent records, crashes included --------------------------------------------------------

  predicate Fits(d: Dir, r: Record) {
    && r.state == d && d != Failed
    && (d == Processing <==> r.worker.Some?)
    && (d == Processing <==> r.leaseUntil.Some?)
    && (d == Processing || d == Done ==> r.reason.None?) && (d == Quarantined ==> r.reason.Some?)
  }

  /** Every record's state is its directory's name; worker and lease are set exactly when processing; a reason
      is given for quarantine, and none for what is held or done. */
  predicate Coherent(files: Files) {
    forall p | p in files :: Fits(p.dir, files[p])
  }

  lemma LegalFits(files: Files, m: Move, who: string, now: real, config: Config)
    requires Coherent(files) && Legal(files, m, who, now, config)
    ensures Fits(Target(m.kind), m.record)
  {
  }

  lemma {:induction false} MovesKeepCoherent(machine: Machine, ms: seq<Move>, who: string, now: real, config: Config)
    requires machine.alive && Coherent(machine.files) && AllLegal(machine.files, ms, who, now, config)
    ensures Coherent(Run(machine, AllEffects(ms)).files)
    decreases |ms|
  {
    if ms != [] {
      var next := Run(machine, Effects(ms[0]));
      LegalFits(machine.files, ms[0], who, now, config);
      RunMove(machine, ms[0]);
      FirstMove(machine, ms[0], ms[1..]);
      assert [ms[0]] + ms[1..] == ms;
      if next.alive {
        MovesKeepCoherent(next, ms[1..], who, now, config);
      }
    }
  }

  /** Coherence survives every run, wherever the processes die. */
  lemma {:induction false} RunsKeepCoherent(files: Files, evs: seq<Event>, config: Config)
    requires Coherent(files)
    ensures Coherent(RunFrom(files, evs, config))
    decreases |evs|
  {
    if evs != [] {
      PlansAreLegal(files, evs[0], config);
      MovesKeepCoherent(Machine(files, evs[0].power, true), Moves(files, evs[0], config), Actor(evs[0].call),
                        evs[0].now, config);
      RunsKeepCoherent(Exec(files, evs[0], config), evs[1..], config);
    }
  }

  // ----- what a record is about, crashes included ----------------------------------------------------

  /** Every copy of a known record holds the job it was queued for, and when. */
  predicate HoldJobs(files: Files, jobs: map<Id, (Job, real)>) {
    forall p | p in files && p.id in jobs :: (files[p].job, files[p].createdAt) == jobs[p.id]
  }

  ghost predicate AllStored(files: Files, jobs: map<Id, (Job, real)>) {
    forall id | id in jobs :: HasCopy(files, id)
  }

  lemma MoveKeepsJobs(machine: Machine, m: Move, jobs: map<Id, (Job, real)>, who: string, now: real, config: Config)
    requires machine.alive && Legal(machine.files, m, who, now, config)
    requires HoldJobs(machine.files, jobs) && AllStored(machine.files, jobs)
    ensures HoldJobs(Run(machine, Effects(m)).files, jobs) && AllStored(Run(machine, Effects(m)).files, jobs)
  {
    assert m.id in jobs ==> HasCopy(machine.files, m.id);
    RunMove(machine, m);
    forall id | id in jobs
      ensures HasCopy(Run(machine, Effects(m)).files, id)
    {
      MoveKeepsCopies(machine, m, id);
    }
  }

  lemma {:induction false} MovesKeepJobs(machine: Machine, ms: seq<Move>, jobs: map<Id, (Job, real)>, who: string, now: real,
                                         config: Config)
    requires machine.alive && AllLegal(machine.files, ms, who, now, config)
    requires HoldJobs(machine.files, jobs) && AllStored(machine.files, jobs)
    ensures HoldJobs(Run(machine, AllEffects(ms)).files, jobs) && AllStored(Run(machine, AllEffects(ms)).files, jobs)
    decreases |ms|
  {
    if ms != [] {
      var next := Run(machine, Effects(ms[0]));
      MoveKeepsJobs(machine, ms[0], jobs, who, now, config);
      FirstMove(machine, ms[0], ms[1..]);
      assert [ms[0]] + ms[1..] == ms;
      if next.alive {
        RunMove(machine, ms[0]);
        MovesKeepJobs(next, ms[1..], jobs, who, now, config);
      }
    }
  }

  /** Over any run, wherever the processes die, no record ever comes to be about another job, or to have been
      queued at another time. */
  lemma {:induction false} RunsKeepJobs(files: Files, evs: seq<Event>, jobs: map<Id, (Job, real)>, config: Config)
    requires HoldJobs(files, jobs) && AllStored(files, jobs)
    ensures HoldJobs(RunFrom(files, evs, config), jobs) && AllStored(RunFrom(files, evs, config), jobs)
    decreases |evs|
  {
    if evs != [] {
      PlansAreLegal(files, evs[0], config);
      MovesKeepJobs(Machine(files, evs[0].power, true), Moves(files, evs[0], config), jobs, Actor(evs[0].call),
                    evs[0].now, config);
      RunsKeepJobs(Exec(files, evs[0], config), evs[1..], jobs, config);
    }
  }

  /** Every write of a call carries the call's clock. */
  lemma WritesAreStamped(files: Files, ev: Event, config: Config)
    ensures forall m | m in Moves(files, ev, config) :: m.record.updatedAt == ev.now
  {
    StampedRecovery(files, SortedIds(Ids(files, Processing)), ev.now);
  }

  lemma {:induction false} StampedRecovery(files: Files, ids: seq<Id>, now: real)
    ensures forall m | m in RecoverMoves(files, ids, now) ::
              m.record.updatedAt == now && m.record.reason == Some("LEASE_EXPIRED")
    decreases |ids|
  {
    if ids != [] {
      var p := Path(Processing, ids[0]);
      if p in files && IsExpired(files[p], now) {
        StampedRecovery(ApplyMove(files, Move(Expired, ids[0], ExpiredRecord(files[p], now))), ids[1..], now);
      } else {
        StampedRecovery(files, ids[1..], now);
      }
    }
  }

  // ----- what a crash can double -----------------------------------------------------------------

  predicate OneCopyEach(files: Files) {
    forall p, q | p in files && q in files && p.id == q.id :: p == q
  }

  predicate OneCopyExcept(files: Files, id: Id) {
    forall p, q | p in files && q in files && p.id == q.id && p.id != id :: p == q
  }

  lemma {:induction false} CrashDoublesOne(machine: Machine, ms: seq<Move>, who: string, now: real, config: Config)
    returns (id: Id)
    requires machine.alive && OneCopyEach(machine.files) && AllLegal(machine.files, ms, who, now, config)
    ensures OneCopyExcept(Run(machine, AllEffects(ms)).files, id)
    ensures Run(machine, AllEffects(ms)).alive ==> OneCopyEach(Run(machine, AllEffects(ms)).files)
    decreases |ms|
  {
    id := 0;
    if ms != [] {
      var m, next := ms[0], Run(machine, Effects(ms[0]));
      id := m.id;
      RunMove(machine, m);
      FirstMove(machine, m, ms[1..]);
      assert [m] + ms[1..] == ms;
      MoveIsExact(machine.files, m, who, now, config);
      if next.alive {
        id := CrashDoublesOne(next, ms[1..], who, now, config);
      }
    }
  }

  /** From a disk with one copy each, one call, dying anywhere, leaves at most one id with two. */
  lemma CallDoublesAtMostOne(files: Files, ev: Event, config: Config) returns (id: Id)
    requires OneCopyEach(files)
    ensures OneCopyExcept(Exec(files, ev, config), id)
  {
    PlansAreLegal(files, ev, config);
    id := CrashDoublesOne(Machine(files, ev.power, true), Moves(files, ev, config), Actor(ev.call), ev.now, config);
  }

  // ----- one copy each, attempts counted: crash-free runs ------------------------------------------

  ghost predicate CrashFree(files: Files, evs: seq<Event>, config: Config)
    decreases |evs|
  {
    evs == [] || (Completes(Moves(files, evs[0], config), evs[0].power)
                  && CrashFree(Exec(files, evs[0], config), evs[1..], config))
  }

  /** All moves of a run, in order. */
  ghost function History(files: Files, evs: seq<Event>, config: Config): seq<Move>
    decreases |evs|
  {
    if evs == [] then [] else Moves(files, evs[0], config) + History(Exec(files, evs[0], config), evs[1..], config)
  }

  /** How often moves of one kind happened to one record. */
  function Count(ms: seq<Move>, id: Id, kind: Kind): nat {
    if ms == [] then 0
    else Count(ms[..|ms| - 1], id, kind)
         + (if ms[|ms| - 1].id == id && ms[|ms| - 1].kind == kind then 1 else 0)
  }

  lemma CountSnoc(ms: seq<Move>, m: Move, id: Id, kind: Kind)
    ensures Count(ms + [m], id, kind) == Count(ms, id, kind) + (if m.id == id && m.kind == kind then 1 else 0)
  {
    assert (ms + [m])[..|ms|] == ms;
  }

  /** Attempts are the claims so far; each lease expiry, and nothing else, buys one attempt beyond the
      limit, and a pending record always has one attempt left. */
  predicate Counted(files: Files, past: seq<Move>, config: Config) {
    forall p | p in files ::
      && files[p].attempts == Count(past, p.id, Taken)
      && files[p].attempts + (if p.dir == Pending then 1 else 0) <= config.maxAttempts + Count(past, p.id, Expired)
  }

  predicate Present(files: Files, past: seq<Move>) {
    forall m | m in past :: exists d: Dir :: Path(d, m.id) in files
  }

  predicate Orderly(files: Files, past: seq<Move>, config: Config) {
    Coherent(files) && OneCopyEach(files) && Counted(files, past, config) && Present(files, past)
  }

  lemma {:induction false} CountNone(ms: seq<Move>, id: Id, kind: Kind)
    requires forall m | m in ms :: m.id != id
    ensures Count(ms, id, kind) == 0
  {
    if ms != [] {
      CountNone(ms[..|ms| - 1], id, kind);
    }
  }

  /** A legal move of a record with one copy leaves one copy, the one written. */
  lemma MoveIsExact(files: Files, m: Move, who: string, now: real, config: Config)
    requires OneCopyEach(files) && Legal(files, m, who, now, config)
    ensures forall p :: p in ApplyMove(files, m) <==> p == TargetPath(m) || (p.id != m.id && p in files)
    ensures forall p | p in ApplyMove(files, m) :: ApplyMove(files, m)[p] == if p.id == m.id then m.record else files[p]
  {
    RunMove(Machine(files, 2, true), m);
    var source := if m.kind == Taken then Path(Pending, m.id) else Path(Processing, m.id);
    assert m.kind != Created ==> source in files;
  }

  lemma MoveKeepsOneCopy(files: Files, m: Move, who: string, now: real, config: Config)
    requires Coherent(files) && OneCopyEach(files) && Legal(files, m, who, now, config)
    ensures Coherent(ApplyMove(files, m)) && OneCopyEach(ApplyMove(files, m))
  {
    LegalFits(files, m, who, now, config);
    MoveIsExact(files, m, who, now, config);
  }

  lemma MoveKeepsOrder(files: Files, past: seq<Move>, m: Move, who: string, now: real, config: Config)
    requires config.maxAttempts >= 1
    requires Orderly(files, past, config) && Legal(files, m, who, now, config)
    ensures Orderly(ApplyMove(files, m), past + [m], config)
  {
    var after := ApplyMove(files, m);
    MoveKeepsOneCopy(files, m, who, now, config);
    MoveIsExact(files, m, who, now, config);
    forall p | p in after
      ensures after[p].attempts == Count(past + [m], p.id, Taken)
      ensures after[p].attempts + (if p.dir == Pending then 1 else 0)
              <= config.maxAttempts + Count(past + [m], p.id, Expired)
    {
      CountSnoc(past, m, p.id, Taken);
      CountSnoc(past, m, p.id, Expired);
      if m.kind == Created && p.id == m.id {
        assert forall x | x in past :: x.id != m.id;
        CountNone(past, m.id, Taken);
      }
    }
    forall x | x in past + [m]
      ensures exists d: Dir :: Path(d, x.id) in after
    {
      if x in past && x.id != m.id {
        var d :| Path(d, x.id) in files;
        assert Path(d, x.id) in after;
      } else {
        assert TargetPath(m) in after;
      }
    }
  }

  lemma ApplyFirst(files: Files, ms: seq<Move>)
    requires ms != []
    ensures ApplyMoves(files, ms) == ApplyMoves(ApplyMove(files, ms[0]), ms[1..])
  {
    ApplyConcat(files, Effects(ms[0]), AllEffects(ms[1..]));
  }

  lemma Regroup(past: seq<Move>, ms: seq<Move>)
    requires ms != []
    ensures past + [ms[0]] + ms[1..] == past + ms
  {
  }

  lemma {:induction false} MovesKeepOrder(files: Files, past: seq<Move>, ms: seq<Move>, who: string, now: real,
                                          config: Config)
    requires config.maxAttempts >= 1
    requires Orderly(files, past, config) && AllLegal(files, ms, who, now, config)
    ensures Orderly(ApplyMoves(files, ms), past + ms, config)
    decreases |ms|
  {
    if ms == [] {
      assert past + ms == past;
    } else {
      ApplyFirst(files, ms);
      Regroup(past, ms);
      MoveKeepsOrder(files, past, ms[0], who, now, config);
      MovesKeepOrder(ApplyMove(files, ms[0]), past + [ms[0]], ms[1..], who, now, config);
    }
  }

  /** Every crash-free run keeps each record in exactly one directory, coherent, with its attempts
      counted and bounded. */
  lemma {:induction false} RunsKeepOrder(files: Files, past: seq<Move>, evs: seq<Event>, config: Config)
    requires config.maxAttempts >= 1
    requires Orderly(files, past, config) && CrashFree(files, evs, config)
    ensures Orderly(RunFrom(files, evs, config), past + History(files, evs, config), config)
    decreases |evs|
  {
    if evs == [] {
      assert past + [] == past;
    } else {
      var ms, next := Moves(files, evs[0], config), Exec(files, evs[0], config);
      PlansAreLegal(files, evs[0], config);
      MovesKeepOrder(files, past, ms, Actor(evs[0].call), evs[0].now, config);
      CompleteRun(files, evs[0].power, ms);
      RunsKeepOrder(next, past + ms, evs[1..], config);
      assert past + ms + History(next, evs[1..], config) == past + History(files, evs, config);
    }
  }

  /** Without lease expiry a record claimed as often as allowed is held, done or quarantined: once its
      last holder completes or fails it, it is never handed out again. */
  lemma RetriesEnd(evs: seq<Event>, config: Config, p: Path)
    requires config.maxAttempts >= 1 && CrashFree(map[], evs, config)
    requires p in RunFrom(map[], evs, config)
    requires Count(History(map[], evs, config), p.id, Expired) == 0
    ensures Count(History(map[], evs, config), p.id, Taken) <= config.maxAttempts
    ensures Count(History(map[], evs, config), p.id, Taken) == config.maxAttempts ==> p.dir == Processing || IsFinal(p.dir)
  {
    RunsKeepOrder(map[], [], evs, config);
    assert [] + History(map[], evs, config) == History(map[], evs, config);
    assert Fits(p.dir, RunFrom(map[], evs, config)[p]);
  }

  // ----- attempts, wherever the processes die ----------------------------------------------------

  /** The moves whose write reaches the disk when the process survives `power` effects. */
  function Begun(ms: seq<Move>, power: nat): seq<Move>
    decreases |ms|
  {
    if ms == [] || power == 0 then []
    else [ms[0]] + Begun(ms[1..], if power >= |Effects(ms[0])| then power - |Effects(ms[0])| else 0)
  }

  ghost function BegunHistory(files: Files, evs: seq<Event>, config: Config): seq<Move>
    decreases |evs|
  {
    if evs == [] then []
    else Begun(Moves(files, evs[0], config), evs[0].power)
         + BegunHistory(Exec(files, evs[0], config), evs[1..], config)
  }

  /** Every copy has at most as many attempts as there were claims, within the limit and the expiries,
      and a pending copy has one attempt left. */
  predicate Bounded(files: Files, past: seq<Move>, config: Config) {
    forall p | p in files ::
      && files[p].attempts <= Count(past, p.id, Taken)
      && files[p].attempts + (if p.dir == Pending then 1 else 0) <= config.maxAttempts + Count(past, p.id, Expired)
  }

  lemma MoveKeepsBound(machine: Machine, past: seq<Move>, m: Move, who: string, now: real, config: Config)
    requires config.maxAttempts >= 1 && machine.alive
    requires Bounded(machine.files, past, config) && Legal(machine.files, m, who, now, config)
    ensures Bounded(Run(machine, Effects(m)).files, past + [m], config)
  {
    RunMove(machine, m);
    var after := Run(machine, Effects(m)).files;
    forall p | p in after
      ensures after[p].attempts <= Count(past + [m], p.id, Taken)
      ensures after[p].attempts + (if p.dir == Pending then 1 else 0)
              <= config.maxAttempts + Count(past + [m], p.id, Expired)
    {
      CountSnoc(past, m, p.id, Taken);
      CountSnoc(past, m, p.id, Expired);
    }
  }

  /** The first move of a run, and what is begun after it. */
  lemma BegunFirst(machine: Machine, ms: seq<Move>)
    requires machine.alive && machine.power > 0 && ms != []
    ensures var next := Run(machine, Effects(ms[0]));
            && Run(machine, AllEffects(ms)) == Run(next, AllEffects(ms[1..]))
            && Begun(ms, machine.power) == [ms[0]] + (if next.alive then Begun(ms[1..], next.power) else [])
            && (next.alive ==> next.files == ApplyMove(machine.files, ms[0]))
  {
    RunMove(machine, ms[0]);
    RunIsPrefix(machine.files, machine.power, Effects(ms[0]));
    FirstMove(machine, ms[0], ms[1..]);
    assert [ms[0]] + ms[1..] == ms;
  }

  lemma {:induction false} MovesKeepBound(machine: Machine, past: seq<Move>, ms: seq<Move>, who: string, now: real,
                                          config: Config)
    requires config.maxAttempts >= 1 && machine.alive
    requires Bounded(machine.files, past, config) && AllLegal(machine.files, ms, who, now, config)
    ensures Bounded(Run(machine, AllEffects(ms)).files, past + Begun(ms, machine.power), config)
    decreases |ms|
  {
    if ms == [] || machine.power == 0 {
      assert past + [] == past;
      assert Run(machine, AllEffects(ms)).files == machine.files;
    } else {
      var next := Run(machine, Effects(ms[0]));
      BegunFirst(machine, ms);
      MoveKeepsBound(machine, past, ms[0], who, now, config);
      if next.alive {
        MovesKeepBound(next, past + [ms[0]], ms[1..], who, now, config);
        Regroup(past, Begun(ms, machine.power));
      } else {
        assert past + Begun(ms, machine.power) == past + [ms[0]];
      }
    }
  }

  lemma {:induction false} RunsKeepBound(files: Files, past: seq<Move>, evs: seq<Event>, config: Config)
    requires config.maxAttempts >= 1 && Bounded(files, past, config)
    ensures Bounded(RunFrom(files, evs, config), past + BegunHistory(files, evs, config), config)
    decreases |evs|
  {
    if evs == [] {
      assert past + [] == past;
    } else {
      var ms, next := Moves(files, evs[0], config), Exec(files, evs[0], config);
      var done := Begun(ms, evs[0].power);
      PlansAreLegal(files, evs[0], config);
      MovesKeepBound(Machine(files, evs[0].power, true), past, ms, Actor(evs[0].call), evs[0].now, config);
      RunsKeepBound(next, past + done, evs[1..], config);
      assert past + done + BegunHistory(next, evs[1..], config) == past + BegunHistory(files, evs, config);
    }
  }

  lemma {:induction false} AllBegun(ms: seq<Move>, power: nat)
    requires Completes(ms, power)
    ensures Begun(ms, power) == ms
    decreases |ms|
  {
    if ms != [] {
      AllBegun(ms[1..], power - |Effects(ms[0])|);
    }
  }

  lemma {:induction false} CrashFreeBegins(files: Files, evs: seq<Event>, config: Config)
    requires CrashFree(files, evs, config)
    ensures BegunHistory(files, evs, config) == History(files, evs, config)
    decreases |evs|
  {
    if evs != [] {
      AllBegun(Moves(files, evs[0], config), evs[0].power);
      CrashFreeBegins(Exec(files, evs[0], config), evs[1..], config);
    }
  }

  /** From the empty queue, wherever the processes die: no copy has more attempts than claims begun, nor
      more than the limit and the expiries begun allow; without deaths attempts are the claims. */
  lemma AttemptsAreBounded(evs: seq<Event>, config: Config, p: Path)
    requires config.maxAttempts >= 1 && p in RunFrom(map[], evs, config)
    ensures var attempts, past := RunFrom(map[], evs, config)[p].attempts, BegunHistory(map[], evs, config);
            && attempts <= Count(past, p.id, Taken)
            && attempts + (if p.dir == Pending then 1 else 0) <= config.maxAttempts + Count(past, p.id, Expired)
            && (CrashFree(map[], evs, config) ==>
                  past == History(map[], evs, config) && attempts == Count(past, p.id, Taken))
  {
    RunsKeepBound(map[], [], evs, config);
    assert [] + BegunHistory(map[], evs, config) == BegunHistory(map[], evs, config);
    if CrashFree(map[], evs, config) {
      CrashFreeBegins(map[], evs, config);
      RunsKeepOrder(map[], [], evs, config);
      assert [] + History(map[], evs, config) == History(map[], evs, config);
    }
  }

  // ----- counts ----------------------------------------------------------------------------------

  ghost function AllIds(files: Files): set<Id> {
    set p | p in files :: p.id
  }

  ghost function Total(files: Files, dirs: seq<Dir>): nat {
    if dirs == [] then 0 else |Ids(files, dirs[0])| + Total(files, dirs[1..])
  }

  ghost function IdsUnder(files: Files, dirs: seq<Dir>): set<Id> {
    set p | p in files && p.dir in dirs :: p.id
  }

  lemma {:induction false} TotalCounts(files: Files, dirs: seq<Dir>)
    requires OneCopyEach(files)
    requires forall i, j | 0 <= i < j < |dirs| :: dirs[i] != dirs[j]
    ensures Total(files, dirs) == |IdsUnder(files, dirs)|
  {
    if dirs == [] {
      assert IdsUnder(files, dirs) == {};
    } else {
      TotalCounts(files, dirs[1..]);
      var head, rest := Ids(files, dirs[0]), IdsUnder(files, dirs[1..]);
      assert head !! rest;
      assert forall d :: d in dirs <==> d == dirs[0] || d in dirs[1..];
      assert IdsUnder(files, dirs) == head + rest;
    }
  }

  /** With one copy each, the counts of the five directories add up to the number of records. */
  lemma CountsAddUp(files: Files)
    requires OneCopyEach(files)
    ensures Total(files, STATES) == |AllIds(files)|
  {
    assert STATES[0] == Pending && STATES[1] == Processing && STATES[2] == Done && STATES[3] == Failed
        && STATES[4] == Quarantined && |STATES| == 5;
    TotalCounts(files, STATES);
    forall p | p in files
      ensures p.dir in STATES
    {
      EveryState(p.dir);
    }
    assert IdsUnder(files, STATES) == AllIds(files);
  }
}
