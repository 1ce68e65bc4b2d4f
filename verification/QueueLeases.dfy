/** Leases: how long a record is held exclusively, when a hold ends, and what a process that dies
    between two file effects does to it. */
module QueueLeases {
  import opened Wrappers
  import opened JobFiles
  import opened JobQueue
  import opened QueueRuns
  import opened QueueService

  // ----- leases ----------------------------------------------------------------------------------

  /** `worker` holds the record, with no second copy waiting. */
  predicate HeldBy(files: Files, id: Id, worker: string) {
    Owns(files, id, worker) && Path(Pending, id) !in files
  }

  /** A call that could end the lease: by the clock, or the holder's own doing. */
  predicate EndsLease(ev: Event, id: Id, r: Record) {
    || ((ev.call.Claim? || ev.call.Recover?) && IsExpired(r, ev.now))
    || ((ev.call.Heartbeat? || ev.call.Complete? || ev.call.Fail?)
        && ev.call.id == id && Some(ev.call.worker) == r.worker)
  }

  /** No legal move of anybody concerns a held record before its lease has run out. */
  lemma {:induction false} LegalMovesPassBy(files: Files, ms: seq<Move>, who: string, now: real, config: Config, id: Id)
    requires AllLegal(files, ms, who, now, config)
    requires Path(Processing, id) in files && Path(Pending, id) !in files
    requires forall m | m in ms :: m.kind == Expired ==> !IsExpired(files[Path(Processing, id)], now)
    requires forall m | m in ms :: m.kind in {Renewed, Finished, Retried, Parked} ==> m.id != id
    ensures forall m | m in ms :: m.id != id
    decreases |ms|
  {
    if ms != [] {
      var m := ms[0];
      assert m in ms && forall x | x in ms[1..] :: x in ms;
      assert m.id != id;
      RunMove(Machine(files, 2, true), m);
      LegalMovesPassBy(ApplyMove(files, m), ms[1..], who, now, config, id);
    }
  }

  /** One call that does not end the lease leaves the held record alone and does not return it to a
      claimant, crash or no crash. */
  lemma LeaseHolds(files: Files, ev: Event, config: Config, id: Id, worker: string)
    requires HeldBy(files, id, worker) && !EndsLease(ev, id, files[Path(Processing, id)])
    ensures var after, p := Exec(files, ev, config), Path(Processing, id);
            HeldBy(after, id, worker) && after[p] == files[p]
    ensures forall m | m in Moves(files, ev, config) :: m.id != id
  {
    var ms := Moves(files, ev, config);
    PlansAreLegal(files, ev, config);
    KindsOfPlan(files, ev, config);
    LegalMovesPassBy(files, ms, Actor(ev.call), ev.now, config, id);
    UntouchedByMoves(Machine(files, ev.power, true), ms, Path(Processing, id));
    UntouchedByMoves(Machine(files, ev.power, true), ms, Path(Pending, id));
  }

  /** A call that could end the hold: by the clock, read against the lease as it then stands, or by the
      holder's own complete or fail.  Its heartbeats do not. */
  predicate EndsHold(files: Files, ev: Event, id: Id, worker: string) {
    || ((ev.call.Claim? || ev.call.Recover?) && LeaseRanOut(files, id, ev.now))
    || (ev.call.Complete? && ev.call.id == id && ev.call.worker == worker)
    || (ev.call.Fail? && ev.call.id == id && ev.call.worker == worker && IsToken(ev.call.reason))
  }

  /** Along this run nothing ends the hold. */
  ghost predicate HoldGoesOn(files: Files, evs: seq<Event>, config: Config, id: Id, worker: string)
    decreases |evs|
  {
    evs == [] || (!EndsHold(files, evs[0], id, worker)
                  && HoldGoesOn(Exec(files, evs[0], config), evs[1..], config, id, worker))
  }

  /** The same record, but for the lease and the time of the last write. */
  predicate SameHold(before: Record, after: Record) {
    after == before.(leaseUntil := after.leaseUntil, updatedAt := after.updatedAt)
  }

  lemma CallKeepsHold(files: Files, ev: Event, config: Config, id: Id, worker: string)
    requires HeldBy(files, id, worker) && !EndsHold(files, ev, id, worker)
    ensures var after, p := Exec(files, ev, config), Path(Processing, id);
            HeldBy(after, id, worker) && SameHold(files[p], after[p])
    ensures forall m | m in Moves(files, ev, config) && m.id == id :: m.kind == Renewed
  {
    if ev.call.Heartbeat? && ev.call.id == id && ev.call.worker == worker {
      var m := Moves(files, ev, config)[0];
      OneMove(m);
      RunMove(Machine(files, ev.power, true), m);
      assert Moves(files, ev, config) == [m];
    } else if ev.call.Fail? && ev.call.id == id && ev.call.worker == worker {
      assert Moves(files, ev, config) == [];
    } else {
      LeaseHolds(files, ev, config, id, worker);
    }
  }

  /** Over any run in which every claim and recovery reads a clock below the lease stored at that moment
      and the holder does not finish, heartbeats and deaths included: the holder keeps the record, nobody
      else moves it, and only its lease changes. */
  lemma {:induction false} LeaseIsExclusive(files: Files, evs: seq<Event>, config: Config, id: Id, worker: string)
    requires HeldBy(files, id, worker) && HoldGoesOn(files, evs, config, id, worker)
    ensures var after, p := RunFrom(files, evs, config), Path(Processing, id);
            HeldBy(after, id, worker) && SameHold(files[p], after[p])
    ensures forall m | m in History(files, evs, config) && m.id == id :: m.kind == Renewed
    decreases |evs|
  {
    if evs != [] {
      CallKeepsHold(files, evs[0], config, id, worker);
      LeaseIsExclusive(Exec(files, evs[0], config), evs[1..], config, id, worker);
    }
  }

  // ----- second copies ---------------------------------------------------------------------------

  /** Nothing can hand out an owned record before its lease ends, exactly when there is no pending copy
      that comes due before. */
  lemma ExclusiveIff(files: Files, id: Id, end: real)
    requires Path(Processing, id) in files && files[Path(Processing, id)].leaseUntil == Some(end)
    ensures (forall now | now < end :: !IsReady(files, id, now))
            <==> (Path(Pending, id) in files ==> files[Path(Pending, id)].availableAt >= end)
  {
    if Path(Pending, id) in files && files[Path(Pending, id)].availableAt < end {
      assert IsReady(files, id, files[Path(Pending, id)].availableAt);
    }
  }

  /** All effects of the moves but the last. */
  function AllButLast(ms: seq<Move>): nat {
    if |AllEffects(ms)| == 0 then 0 else |AllEffects(ms)| - 1
  }

  /** What a claim leaves that dies between the last write and the last unlink. */
  lemma HalfDoneClaim(files: Files, worker: string, until: real, now: real)
    requires RecoverThenTake(files, worker, until, now).reply.Returned?
    ensures var plan := RecoverThenTake(files, worker, until, now);
            var mid := ApplyMoves(files, RecoverPlan(files, now).moves);
            var m := Move(Taken, plan.reply.id, plan.reply.record);
            && TakePlan(mid, worker, until, now) == Plan([m], plan.reply)
            && plan.moves == RecoverPlan(files, now).moves + [m]
            && Run(Machine(files, AllButLast(plan.moves), true), AllEffects(plan.moves)).files == Wrote(mid, m)
  {
    var plan, recovery := RecoverThenTake(files, worker, until, now), RecoverPlan(files, now).moves;
    var mid := ApplyMoves(files, recovery);
    var m := Move(Taken, plan.reply.id, plan.reply.record);
    assert TakePlan(mid, worker, until, now) == Plan([m], plan.reply);
    OneMove(m);
    AllEffectsConcat(recovery, [m]);
    var power := |AllEffects(recovery)| + 1;
    assert |Effects(m)| == 2;
    assert |AllEffects(plan.moves)| == power + 1;
    RunTwo(Machine(files, power, true), recovery, [m]);
    RunIsPrefix(files, power, AllEffects(recovery));
    assert AllEffects(recovery)[..|AllEffects(recovery)|] == AllEffects(recovery);
    RunIsPrefix(mid, 1, Effects(m));
    assert Effects(m)[..1] == [Write(TargetPath(m), m.record)];
  }

  /** The second copy is what exclusion depends on: on any disk, when a claim dies between its last two
      effects, the next claimant is given the same record during the dead claimant's lease. */
  lemma HalfDoneClaimIsReclaimed(files: Files, first: string, second: string, lease: Option<int>,
                                 other: Option<int>, now: real, config: Config)
    requires IsToken(first) && IsToken(second) && LeaseLength(lease, config) > 0.0
    requires ClaimPlan(files, first, lease, now, config).reply.Returned?
    ensures var plan := ClaimPlan(files, first, lease, now, config);
            var id := plan.reply.id;
            var after := Exec(files, Event(Call.Claim(first, lease), now, AllButLast(plan.moves)), config);
            && Owns(after, id, first) && !IsExpired(after[Path(Processing, id)], now)
            && ClaimPlan(after, second, other, now, config).reply.Returned?
            && ClaimPlan(after, second, other, now, config).reply.id == id
  {
    var until := now + LeaseLength(lease, config);
    assert ClaimPlan(files, first, lease, now, config) == RecoverThenTake(files, first, until, now);
    HalfDoneClaim(files, first, until, now);
    var reply := RecoverThenTake(files, first, until, now).reply;
    var mid, m := ApplyMoves(files, RecoverPlan(files, now).moves), Move(Taken, reply.id, reply.record);
    TakesFirstAvailable(mid, first, until, now);
    StillReady(files, m, now);
    ClaimHandsOutIff(Wrote(mid, m), second, other, now, config, reply.id);
  }

  /** Written but not removed, a record taken after recovery stays due, and no other becomes ready. */
  lemma StillReady(files: Files, m: Move, now: real)
    requires m.kind == Taken && !IsExpired(m.record, now)
    ensures var mid := ApplyMoves(files, RecoverPlan(files, now).moves);
            forall id: Id :: IsReady(Wrote(mid, m), id, now) <==> IsAvailable(mid, id, now)
  {
    var mid := ApplyMoves(files, RecoverPlan(files, now).moves);
    forall id: Id
      ensures IsReady(Wrote(mid, m), id, now) <==> IsAvailable(mid, id, now)
    {
      NoneExpiredAfter(files, now, id);
    }
  }

  lemma HalfDoneCompletion(files: Files, id: Id, worker: string, now: real, config: Config)
    requires Owns(files, id, worker)
    ensures Exec(files, Event(Call.Complete(id, worker), now, 1), config)
            == files[Path(Done, id) := CompletedRecord(files[Path(Processing, id)], now)]
  {
    var ev := Event(Call.Complete(id, worker), now, 1);
    var m := Move(Finished, id, CompletedRecord(files[Path(Processing, id)], now));
    OneMove(m);
    assert Moves(files, ev, config) == [m];
    RunIsPrefix(files, 1, Effects(m));
    assert Effects(m)[..1] == [Write(Path(Done, id), m.record)];
  }

  /** A completion that dies before its unlink leaves the job done and still held: from the end of the
      lease on it is ready again, and handed out when no smaller id is. */
  lemma HalfDoneCompletionIsReclaimed(files: Files, id: Id, worker: string, now: real, second: string,
                                      lease: Option<int>, later: real, config: Config)
    requires Owns(files, id, worker) && LeaseRanOut(files, id, later) && IsToken(second)
    ensures var after := Exec(files, Event(Call.Complete(id, worker), now, 1), config);
            var reply := ClaimPlan(after, second, lease, later, config).reply;
            && Path(Done, id) in after && IsReady(after, id, later)
            && ((reply.Returned? && reply.id == id) <==> forall x: Id | x < id :: !IsReady(files, x, later))
  {
    var after := files[Path(Done, id) := CompletedRecord(files[Path(Processing, id)], now)];
    HalfDoneCompletion(files, id, worker, now, config);
    assert forall x: Id :: IsReady(after, x, later) <==> IsReady(files, x, later);
    ClaimHandsOutIff(after, second, lease, later, config, id);
  }

  /** In coherent directories a record can be handed out at some time exactly when it has a pending or a
      processing copy: for a finished one, exactly when a second copy was left. */
  lemma ReadySometimeIff(files: Files, id: Id)
    requires Coherent(files)
    ensures (exists now :: IsReady(files, id, now))
            <==> Path(Pending, id) in files || Path(Processing, id) in files
  {
    if Path(Pending, id) in files {
      assert IsReady(files, id, files[Path(Pending, id)].availableAt);
    } else if Path(Processing, id) in files {
      assert Fits(Processing, files[Path(Processing, id)]);
      assert IsReady(files, id, files[Path(Processing, id)].leaseUntil.value);
    }
  }

  // ----- former holders --------------------------------------------------------------------------

  /** Only taking the record makes an owner. */
  lemma {:induction false} MovesMakeNoOwner(machine: Machine, ms: seq<Move>, who: string, now: real, config: Config,
                                            id: Id, worker: string)
    requires machine.alive && AllLegal(machine.files, ms, who, now, config) && !Owns(machine.files, id, worker)
    requires forall m | m in ms && m.kind == Taken && m.id == id :: who != worker
    ensures !Owns(Run(machine, AllEffects(ms)).files, id, worker)
    decreases |ms|
  {
    if ms != [] {
      var m, next := ms[0], Run(machine, Effects(ms[0]));
      assert m in ms && forall x | x in ms[1..] :: x in ms;
      RunMove(machine, m);
      FirstMove(machine, m, ms[1..]);
      assert [m] + ms[1..] == ms;
      if next.alive {
        MovesMakeNoOwner(next, ms[1..], who, now, config, id, worker);
      }
    }
  }

  /** The three calls only an owner may make. */
  predicate Rejected(files: Files, id: Id, worker: string, lease: Option<int>, reason: string, permanent: bool,
                     now: real, config: Config)
  {
    var no := Raised(if Path(Processing, id) in files then OwnerMismatch else RecordNotFound);
    && HeartbeatPlan(files, id, worker, lease, now, config) == Plan([], no)
    && CompletePlan(files, id, worker, now) == Plan([], no)
    && FailPlan(files, id, worker, reason, permanent, now, config)
       == Plan([], if IsToken(reason) then no else Raised(ReasonInvalid))
  }

  /** Along this run `worker` does not take `id`; it may claim any other record. */
  ghost predicate NotRetaken(files: Files, evs: seq<Event>, config: Config, id: Id, worker: string)
    decreases |evs|
  {
    evs == [] || ((forall m | m in Moves(files, evs[0], config) && m.kind == Taken && m.id == id ::
                     Actor(evs[0].call) != worker)
                  && NotRetaken(Exec(files, evs[0], config), evs[1..], config, id, worker))
  }

  /** From the moment a worker no longer holds a record until it takes that record again, whatever else it
      claims and whoever dies, its heartbeat, complete and fail are rejected and change nothing. */
  lemma {:induction false} FormerOwnerIsRejected(files: Files, evs: seq<Event>, config: Config, id: Id, worker: string)
    requires !Owns(files, id, worker)
    requires NotRetaken(files, evs, config, id, worker)
    ensures !Owns(RunFrom(files, evs, config), id, worker)
    ensures forall lease, reason, permanent, now ::
              Rejected(RunFrom(files, evs, config), id, worker, lease, reason, permanent, now, config)
    decreases |evs|
  {
    if evs != [] {
      var ev := evs[0];
      PlansAreLegal(files, ev, config);
      MovesMakeNoOwner(Machine(files, ev.power, true), Moves(files, ev, config), Actor(ev.call), ev.now, config, id, worker);
      FormerOwnerIsRejected(Exec(files, ev, config), evs[1..], config, id, worker);
    }
  }

  /** Recovery leaves no lease that has run out, so it ends every expired ownership. */
  lemma {:induction false} RecoveryClears(files: Files, ids: seq<Id>, now: real, id: Id)
    requires id in ids
    ensures var after, p := ApplyMoves(files, RecoverMoves(files, ids, now)), Path(Processing, id);
            p in after ==> !IsExpired(after[p], now)
    decreases |ids|
  {
    var p := Path(Processing, ids[0]);
    var rest := ids[1..];
    if p in files && IsExpired(files[p], now) {
      var m := Move(Expired, ids[0], ExpiredRecord(files[p], now));
      var later := RecoverMoves(ApplyMove(files, m), rest, now);
      ApplyFirst(files, [m] + later);
      assert ([m] + later)[1..] == later;
      RunMove(Machine(files, 2, true), m);
      RecoveryKeepsCleared(ApplyMove(files, m), rest, now, id);
      if id in rest {
        RecoveryClears(ApplyMove(files, m), rest, now, id);
      }
    } else {
      RecoveryKeepsCleared(files, rest, now, id);
      if id in rest {
        RecoveryClears(files, rest, now, id);
      }
    }
  }

  lemma {:induction false} RecoveryKeepsCleared(files: Files, ids: seq<Id>, now: real, id: Id)
    ensures var after, p := ApplyMoves(files, RecoverMoves(files, ids, now)), Path(Processing, id);
            p in after ==> p in files && after[p] == files[p]
    decreases |ids|
  {
    if ids != [] {
      var p := Path(Processing, ids[0]);
      if p in files && IsExpired(files[p], now) {
        var m := Move(Expired, ids[0], ExpiredRecord(files[p], now));
        var later := RecoverMoves(ApplyMove(files, m), ids[1..], now);
        ApplyFirst(files, [m] + later);
        assert ([m] + later)[1..] == later;
        RunMove(Machine(files, 2, true), m);
        RecoveryKeepsCleared(ApplyMove(files, m), ids[1..], now, id);
      } else {
        RecoveryKeepsCleared(files, ids[1..], now, id);
      }
    }
  }

  lemma NoneExpiredAfter(files: Files, now: real, id: Id)
    ensures var after, p := ApplyMoves(files, RecoverPlan(files, now).moves), Path(Processing, id);
            p in after ==> p in files && after[p] == files[p] && !IsExpired(files[p], now)
  {
    var ids := SortedIds(Ids(files, Processing));
    RecoveryKeepsCleared(files, ids, now, id);
    if Path(Processing, id) in files {
      assert id in Ids(files, Processing);
      RecoveryClears(files, ids, now, id);
    }
  }

  /** A completed recovery ends the ownership of every record whose lease has run out. */
  lemma RecoveryRevokes(files: Files, now: real, power: nat, config: Config, id: Id, worker: string)
    requires Owns(files, id, worker) && IsExpired(files[Path(Processing, id)], now)
    requires Completes(RecoverPlan(files, now).moves, power)
    ensures !Owns(Exec(files, Event(Call.Recover, now, power), config), id, worker)
  {
    var moves := RecoverPlan(files, now).moves;
    NoneExpiredAfter(files, now, id);
    CompleteRun(files, power, moves);
    assert Moves(files, Event(Call.Recover, now, power), config) == moves;
  }
}
