/** The lease-based file queue.  Every call is planned as a list of moves of one record each; a move is
    a write of the target file followed by the removal of the source file. */
module JobQueue {
  import opened Wrappers
  import opened JobFiles

  datatype Config = Config(idOf: string -> Id, leaseSeconds: int, maxAttempts: nat)

  datatype Error =
    | IdempotencyInvalid | OperationInvalid | WorkerInvalid | ReasonInvalid
    | RecordNotFound | OwnerMismatch | DuplicateState

  datatype Call =
    | Enqueue(job: Job, availableAt: Option<real>)
    | Claim(worker: string, lease: Option<int>)
    | Heartbeat(id: Id, worker: string, lease: Option<int>)
    | Complete(id: Id, worker: string)
    | Fail(id: Id, worker: string, reason: string, permanent: bool)
    | Recover

  datatype Reply =
    | Returned(id: Id, record: Record)
    | Nothing
    | Recovered(count: nat)
    | Raised(error: Error)
    | Crashed  // the process died; nobody sees a reply

  // ----- validation ----------------------------------------------------------------------------

  predicate IsTokenChar(ch: char) {
    'A' <= ch <= 'Z' || 'a' <= ch <= 'z' || '0' <= ch <= '9' || ch in {'_', '.', ':', '-'}
  }

  /** Worker ids, operations and reason codes. */
  predicate IsToken(text: string) {
    1 <= |text| <= 128 && forall ch | ch in text :: IsTokenChar(ch)
  }

  predicate IsIdempotencyKey(key: string) {
    0 < |key| <= 4096
  }

  // ----- records -------------------------------------------------------------------------------

  function NewRecord(job: Job, availableAt: Option<real>, now: real): Record {
    Record(job, Pending, 0, if availableAt.Some? then availableAt.value else now, None, None, None, now, now)
  }

  function LeaseLength(lease: Option<int>, config: Config): real {
    (if lease.None? || lease.value == 0 then config.leaseSeconds else lease.value) as real
  }

  function TakenRecord(r: Record, worker: string, until: real, now: real): Record {
    r.(state := Processing, attempts := r.attempts + 1, leaseUntil := Some(until), worker := Some(worker),
       reason := None, updatedAt := now)
  }

  function RenewedRecord(r: Record, until: real, now: real): Record {
    r.(leaseUntil := Some(until), updatedAt := now)
  }

  function CompletedRecord(r: Record, now: real): Record {
    r.(state := Done, leaseUntil := None, worker := None, reason := None, updatedAt := now)
  }

  function Pow2(n: nat): nat {
    if n == 0 then 1 else 2 * Pow2(n - 1)
  }

  /** Seconds until a failed record may be tried again. */
  function RetryDelay(attempts: nat): real {
    var backoff := 30 * Pow2(if attempts == 0 then 0 else attempts - 1);
    (if backoff <= 3600 then backoff else 3600) as real
  }

  function QuarantinedRecord(r: Record, reason: string, now: real): Record {
    r.(state := Quarantined, availableAt := now, leaseUntil := None, worker := None, reason := Some(reason),
       updatedAt := now)
  }

  function RetriedRecord(r: Record, reason: string, now: real): Record {
    r.(state := Pending, availableAt := now + RetryDelay(r.attempts), leaseUntil := None, worker := None,
       reason := Some(reason), updatedAt := now)
  }

  function ExpiredRecord(r: Record, now: real): Record {
    r.(state := Pending, availableAt := now, leaseUntil := None, worker := None, reason := Some("LEASE_EXPIRED"),
       updatedAt := now)
  }

  predicate IsExpired(r: Record, now: real) {
    r.leaseUntil.Some? && r.leaseUntil.value <= now
  }

  predicate Owns(files: Files, id: Id, worker: string) {
    var p := Path(Processing, id);
    p in files && files[p].state == Processing && files[p].worker == Some(worker)
  }

  // ----- moves ---------------------------------------------------------------------------------

  datatype Kind = Created | Taken | Renewed | Finished | Retried | Parked | Expired

  datatype Move = Move(kind: Kind, id: Id, record: Record)

  function Source(k: Kind): Option<Dir> {
    match k
    case Created => None
    case Taken => Some(Pending)
    case Renewed => None
    case _ => Some(Processing)
  }

  function Target(k: Kind): Dir {
    match k
    case Created | Retried | Expired => Pending
    case Taken | Renewed => Processing
    case Finished => Done
    case Parked => Quarantined
  }

  function Effects(m: Move): seq<Effect> {
    [Write(Path(Target(m.kind), m.id), m.record)]
    + (if Source(m.kind).Some? then [Unlink(Path(Source(m.kind).value, m.id))] else [])
  }

  function AllEffects(ms: seq<Move>): seq<Effect> {
    if ms == [] then [] else Effects(ms[0]) + AllEffects(ms[1..])
  }

  function ApplyMove(files: Files, m: Move): Files {
    ApplyAll(files, Effects(m))
  }

  function ApplyMoves(files: Files, ms: seq<Move>): Files {
    ApplyAll(files, AllEffects(ms))
  }

  // ----- plans ---------------------------------------------------------------------------------

  datatype Plan = Plan(moves: seq<Move>, reply: Reply)

  /** The copies `_find` collects, in the order of the state names. */
  function Copies(files: Files, id: Id, dirs: seq<Dir>): seq<Record> {
    if dirs == [] then []
    else (if Path(dirs[0], id) in files then [files[Path(dirs[0], id)]] else []) + Copies(files, id, dirs[1..])
  }

  function EnqueuePlan(files: Files, job: Job, availableAt: Option<real>, now: real, config: Config): Plan {
    if !IsIdempotencyKey(job.key) then Plan([], Raised(IdempotencyInvalid))
    else if !IsToken(job.operation) then Plan([], Raised(OperationInvalid))
    else
      var id := config.idOf(job.key);
      var found := Copies(files, id, STATES);
      if |found| > 1 then Plan([], Raised(DuplicateState))
      else if |found| == 1 then Plan([], Returned(id, found[0]))
      else
        var record := NewRecord(job, availableAt, now);
        Plan([Move(Created, id, record)], Returned(id, record))
  }

  /** One pass over the processing directory. */
  function RecoverMoves(files: Files, ids: seq<Id>, now: real): seq<Move>
    decreases |ids|
  {
    if ids == [] then []
    else
      var p := Path(Processing, ids[0]);
      if p in files && IsExpired(files[p], now) then
        var m := Move(Expired, ids[0], ExpiredRecord(files[p], now));
        [m] + RecoverMoves(ApplyMove(files, m), ids[1..], now)
      else RecoverMoves(files, ids[1..], now)
  }

  ghost function RecoverPlan(files: Files, now: real): Plan {
    var moves := RecoverMoves(files, SortedIds(Ids(files, Processing)), now);
    Plan(moves, Recovered(|moves|))
  }

  predicate IsAvailable(files: Files, id: Id, now: real) {
    Path(Pending, id) in files && files[Path(Pending, id)].availableAt <= now
  }

  function FirstAvailable(files: Files, ids: seq<Id>, now: real): (r: Option<Id>)
    ensures r.Some? ==> r.value in ids && IsAvailable(files, r.value, now)
    ensures r.None? ==> forall id | id in ids :: !IsAvailable(files, id, now)
  {
    if ids == [] then None
    else if IsAvailable(files, ids[0], now) then Some(ids[0])
    else FirstAvailable(files, ids[1..], now)
  }

  /** The pending record with the smallest id among those whose time has come. */
  ghost function TakePlan(files: Files, worker: string, until: real, now: real): Plan {
    match FirstAvailable(files, SortedIds(Ids(files, Pending)), now)
    case None => Plan([], Nothing)
    case Some(id) =>
      var record := TakenRecord(files[Path(Pending, id)], worker, until, now);
      Plan([Move(Taken, id, record)], Returned(id, record))
  }

  /** Recovery first, then the claim on what recovery left. */
  ghost function RecoverThenTake(files: Files, worker: string, until: real, now: real): Plan {
    var recovery := RecoverPlan(files, now).moves;
    var take := TakePlan(ApplyMoves(files, recovery), worker, until, now);
    Plan(recovery + take.moves, take.reply)
  }

  ghost function ClaimPlan(files: Files, worker: string, lease: Option<int>, now: real, config: Config): Plan {
    if !IsToken(worker) then Plan([], Raised(WorkerInvalid))
    else RecoverThenTake(files, worker, now + LeaseLength(lease, config), now)
  }

  function OwnerError(files: Files, id: Id, worker: string): Option<Error> {
    if Path(Processing, id) !in files then Some(RecordNotFound)
    else if !Owns(files, id, worker) then Some(OwnerMismatch)
    else None
  }

  function HeartbeatPlan(files: Files, id: Id, worker: string, lease: Option<int>, now: real, config: Config): Plan {
    match OwnerError(files, id, worker)
    case Some(e) => Plan([], Raised(e))
    case None =>
      var r := RenewedRecord(files[Path(Processing, id)], now + LeaseLength(lease, config), now);
      Plan([Move(Renewed, id, r)], Returned(id, r))
  }

  function CompletePlan(files: Files, id: Id, worker: string, now: real): Plan {
    match OwnerError(files, id, worker)
    case Some(e) => Plan([], Raised(e))
    case None =>
      var r := CompletedRecord(files[Path(Processing, id)], now);
      Plan([Move(Finished, id, r)], Returned(id, r))
  }

  function FailPlan(files: Files, id: Id, worker: string, reason: string, permanent: bool, now: real,
                    config: Config): Plan
  {
    if !IsToken(reason) then Plan([], Raised(ReasonInvalid))
    else match OwnerError(files, id, worker)
      case Some(e) => Plan([], Raised(e))
      case None =>
        var r := files[Path(Processing, id)];
        if permanent || r.attempts >= config.maxAttempts then
          Plan([Move(Parked, id, QuarantinedRecord(r, reason, now))], Returned(id, QuarantinedRecord(r, reason, now)))
        else
          Plan([Move(Retried, id, RetriedRecord(r, reason, now))], Returned(id, RetriedRecord(r, reason, now)))
  }

  ghost function Planned(files: Files, call: Call, now: real, config: Config): Plan {
    match call
    case Enqueue(job, availableAt) => EnqueuePlan(files, job, availableAt, now, config)
    case Claim(worker, lease) => ClaimPlan(files, worker, lease, now, config)
    case Heartbeat(id, worker, lease) => HeartbeatPlan(files, id, worker, lease, now, config)
    case Complete(id, worker) => CompletePlan(files, id, worker, now)
    case Fail(id, worker, reason, permanent) => FailPlan(files, id, worker, reason, permanent, now, config)
    case Recover => RecoverPlan(files, now)
  }

  // ----- the queue -----------------------------------------------------------------------------

  /** What the effects leave on the disk, and of the process. */
  predicate Ran(before: Files, power: nat, es: seq<Effect>, after: Files, rest: nat, alive: bool) {
    Run(Machine(before, power, true), es) == Machine(after, rest, alive)
  }

  lemma {:induction false} AllEffectsConcat(a: seq<Move>, b: seq<Move>)
    ensures AllEffects(a + b) == AllEffects(a) + AllEffects(b)
  {
    if a == [] {
      assert a + b == b;
    } else {
      assert (a + b)[1..] == a[1..] + b;
      AllEffectsConcat(a[1..], b);
    }
  }

  lemma OneMove(m: Move)
    ensures AllEffects([m]) == Effects(m)
  {
    assert [m][1..] == [];
    assert Effects(m) + [] == Effects(m);
  }

  /** The disk, the remaining power and the reply once a plan has been carried out or cut short. */
  predicate Finishes(before: Files, power: nat, plan: Plan, after: Files, rest: nat, reply: Reply) {
    && Ran(before, power, AllEffects(plan.moves), after, rest, reply != Crashed)
    && (reply != Crashed ==> reply == plan.reply)
  }

  class FileQueue {
    const config: Config
    var files: Files
    /** How many file-system effects still reach the disk before the process is killed. */
    var power: nat

    constructor (config: Config, power: nat)
      ensures this.config == config && files == map[] && this.power == power
    {
      this.config, this.files, this.power := config, map[], power;
    }

    method WriteFile(path: Path, record: Record) returns (alive: bool)
      modifies this
      ensures Ran(old(files), old(power), [Write(path, record)], files, power, alive)
    {
      alive := power > 0;
      if alive {
        files, power := files[path := record], power - 1;
      }
    }

    method UnlinkFile(path: Path) returns (alive: bool)
      modifies this
      ensures Ran(old(files), old(power), [Unlink(path)], files, power, alive)
    {
      alive := power > 0;
      if alive {
        files, power := files - {path}, power - 1;
      }
    }

    /** Write the target, then remove the source if the move has one. */
    method DoMove(m: Move) returns (alive: bool)
      modifies this
      ensures Ran(old(files), old(power), Effects(m), files, power, alive)
    {
      var first := Path(Target(m.kind), m.id);
      RunConcat(Machine(files, power, true), [Write(first, m.record)], Effects(m)[1..]);
      assert Effects(m) == [Write(first, m.record)] + Effects(m)[1..];
      alive := WriteFile(first, m.record);
      if alive && Source(m.kind).Some? {
        alive := UnlinkFile(Path(Source(m.kind).value, m.id));
      }
    }

    method Glob(dir: Dir) returns (ids: seq<Id>)
      ensures ids == SortedIds(Ids(files, dir))
    {
      ids := SortIds(Ids(files, dir));
    }

    method RecoverExpiredLocked(now: real) returns (alive: bool, recovered: nat)
      modifies this
      ensures Ran(old(files), old(power), AllEffects(RecoverPlan(old(files), now).moves), files, power, alive)
      ensures alive ==> recovered == |RecoverPlan(old(files), now).moves|
    {
      var ids := Glob(Processing);
      ghost var all := RecoverMoves(files, ids, now);
      ghost var start := Machine(files, power, true);
      alive, recovered := true, 0;
      var i := 0;
      while i < |ids|
        invariant 0 <= i <= |ids|
        invariant Run(start, AllEffects(all))
               == Run(Machine(files, power, true), AllEffects(RecoverMoves(files, ids[i..], now)))
        invariant alive && |all| == recovered + |RecoverMoves(files, ids[i..], now)|
      {
        var path := Path(Processing, ids[i]);
        assert ids[i..][0] == ids[i] && ids[i..][1..] == ids[i + 1..];
        if path in files && IsExpired(files[path], now) {
          var m := Move(Expired, ids[i], ExpiredRecord(files[path], now));
          ghost var rest := RecoverMoves(ApplyMove(files, m), ids[i + 1..], now);
          FirstMove(Machine(files, power, true), m, rest);
          RunFull(files, power, Effects(m));
          alive := DoMove(m);
          if !alive {
            return;
          }
          recovered := recovered + 1;
        }
        i := i + 1;
      }
    }

    method Recover(now: real) returns (reply: Reply)
      modifies this
      ensures Finishes(old(files), old(power), RecoverPlan(old(files), now), files, power, reply)
    {
      var alive, recovered := RecoverExpiredLocked(now);
      reply := if alive then Recovered(recovered) else Crashed;
    }

    method FirstDue(ids: seq<Id>, now: real) returns (r: Option<Id>)
      ensures r == FirstAvailable(files, ids, now)
    {
      var i := 0;
      while i < |ids|
        invariant 0 <= i <= |ids|
        invariant FirstAvailable(files, ids, now) == FirstAvailable(files, ids[i..], now)
      {
        var path := Path(Pending, ids[i]);
        assert ids[i..][0] == ids[i] && ids[i..][1..] == ids[i + 1..];
        if path in files && files[path].availableAt <= now {
          return Some(ids[i]);
        }
        i := i + 1;
      }
      return None;
    }

    method TakeLocked(worker: string, until: real, now: real) returns (reply: Reply)
      modifies this
      ensures Finishes(old(files), old(power), TakePlan(old(files), worker, until, now), files, power, reply)
    {
      var ids := Glob(Pending);
      var due := FirstDue(ids, now);
      if due.Some? {
        reply := RunOne(Move(Taken, due.value, TakenRecord(files[Path(Pending, due.value)], worker, until, now)));
      } else {
        reply := Nothing;
      }
    }

    method ClaimLocked(worker: string, until: real, now: real) returns (reply: Reply)
      modifies this
      ensures Finishes(old(files), old(power), RecoverThenTake(old(files), worker, until, now), files, power, reply)
    {
      ghost var f0, p0 := files, power;
      var alive, _ := RecoverExpiredLocked(now);
      ghost var f1, p1 := files, power;
      if !alive {
        ClaimInTurn(f0, p0, f1, p1, false, worker, until, now, f1, p1, Crashed);
        return Crashed;
      }
      reply := TakeLocked(worker, until, now);
      ClaimInTurn(f0, p0, f1, p1, true, worker, until, now, files, power, reply);
    }

    method Claim(worker: string, lease: Option<int>, now: real) returns (reply: Reply)
      modifies this
      ensures Finishes(old(files), old(power), ClaimPlan(old(files), worker, lease, now, config), files, power, reply)
    {
      if !IsToken(worker) {
        return Raised(WorkerInvalid);
      }
      var until := now + LeaseLength(lease, config);
      ghost var plan := RecoverThenTake(files, worker, until, now);
      assert plan == ClaimPlan(files, worker, lease, now, config);
      reply := ClaimLocked(worker, until, now);
    }

    /** The records found under the given states, in their order. */
    method FindCopies(id: Id, dirs: seq<Dir>) returns (found: seq<Record>)
      ensures found == Copies(files, id, dirs)
    {
      found := [];
      var i := 0;
      while i < |dirs|
        invariant 0 <= i <= |dirs|
        invariant Copies(files, id, dirs) == found + Copies(files, id, dirs[i..])
      {
        assert dirs[i..][0] == dirs[i] && dirs[i..][1..] == dirs[i + 1..];
        var path := Path(dirs[i], id);
        if path in files {
          found := found + [files[path]];
        }
        i := i + 1;
      }
    }

    method Enqueue(job: Job, availableAt: Option<real>, now: real) returns (reply: Reply)
      modifies this
      ensures Finishes(old(files), old(power), EnqueuePlan(old(files), job, availableAt, now, config), files, power, reply)
    {
      if !IsIdempotencyKey(job.key) {
        return Raised(IdempotencyInvalid);
      }
      if !IsToken(job.operation) {
        return Raised(OperationInvalid);
      }
      var id := config.idOf(job.key);
      var found := FindCopies(id, STATES);
      if |found| > 1 {
        return Raised(DuplicateState);
      }
      if |found| == 1 {
        return Returned(id, found[0]);
      }
      var record := NewRecord(job, availableAt, now);
      reply := RunOne(Move(Created, id, record));
    }

    /** A plan of one move. */
    method RunOne(m: Move) returns (reply: Reply)
      modifies this
      ensures Finishes(old(files), old(power), Plan([m], Returned(m.id, m.record)), files, power, reply)
    {
      OneMove(m);
      var alive := DoMove(m);
      return if alive then Returned(m.id, m.record) else Crashed;
    }

    method Heartbeat(id: Id, worker: string, lease: Option<int>, now: real) returns (reply: Reply)
      modifies this
      ensures Finishes(old(files), old(power), HeartbeatPlan(old(files), id, worker, lease, now, config),
                       files, power, reply)
    {
      var path := Path(Processing, id);
      if path !in files {
        return Raised(RecordNotFound);
      }
      var record := files[path];
      if record.state != Processing || record.worker != Some(worker) {
        return Raised(OwnerMismatch);
      }
      reply := RunOne(Move(Renewed, id, RenewedRecord(record, now + LeaseLength(lease, config), now)));
    }

    method Complete(id: Id, worker: string, now: real) returns (reply: Reply)
      modifies this
      ensures Finishes(old(files), old(power), CompletePlan(old(files), id, worker, now), files, power, reply)
    {
      var path := Path(Processing, id);
      if path !in files {
        return Raised(RecordNotFound);
      }
      var record := files[path];
      if record.state != Processing || record.worker != Some(worker) {
        return Raised(OwnerMismatch);
      }
      reply := RunOne(Move(Finished, id, CompletedRecord(record, now)));
    }

    method Fail(id: Id, worker: string, reason: string, permanent: bool, now: real) returns (reply: Reply)
      modifies this
      ensures Finishes(old(files), old(power), FailPlan(old(files), id, worker, reason, permanent, now, config),
                       files, power, reply)
    {
      if !IsToken(reason) {
        return Raised(ReasonInvalid);
      }
      var path := Path(Processing, id);
      if path !in files {
        return Raised(RecordNotFound);
      }
      var record := files[path];
      if record.state != Processing || record.worker != Some(worker) {
        return Raised(OwnerMismatch);
      }
      if permanent || record.attempts >= config.maxAttempts {
        reply := RunOne(Move(Parked, id, QuarantinedRecord(record, reason, now)));
      } else {
        reply := RunOne(Move(Retried, id, RetriedRecord(record, reason, now)));
      }
    }

    method Counts() returns (counts: map<Dir, nat>)
      ensures forall d: Dir :: d in counts && counts[d] == |Ids(files, d)|
    {
      counts := map[];
      for i := 0 to |STATES|
        invariant forall d :: d in counts <==> d in STATES[..i]
        invariant forall d | d in counts :: counts[d] == |Ids(files, d)|
      {
        assert STATES[..i + 1] == STATES[..i] + [STATES[i]];
        counts := counts[STATES[i] := |Ids(files, STATES[i])|];
      }
      assert STATES[..|STATES|] == STATES;
      forall d: Dir
        ensures d in counts
      {
        EveryState(d);
      }
    }
  }

  lemma EveryState(d: Dir)
    ensures d in STATES
  {
    match d
    case Pending => assert STATES[0] == d;
    case Processing => assert STATES[1] == d;
    case Done => assert STATES[2] == d;
    case Failed => assert STATES[3] == d;
    case Quarantined => assert STATES[4] == d;
  }

  lemma RunFull(files: Files, power: nat, es: seq<Effect>)
    ensures Run(Machine(files, power, true), es).alive ==>
              Run(Machine(files, power, true), es).files == ApplyAll(files, es)
  {
    RunIsPrefix(files, power, es);
    assert |es| <= power ==> es[..|es|] == es;
  }

  lemma FirstMove(machine: Machine, m: Move, rest: seq<Move>)
    ensures Run(machine, AllEffects([m] + rest)) == Run(Run(machine, Effects(m)), AllEffects(rest))
  {
    assert ([m] + rest)[1..] == rest;
    RunConcat(machine, Effects(m), AllEffects(rest));
  }

  lemma RunTwo(machine: Machine, a: seq<Move>, b: seq<Move>)
    ensures Run(machine, AllEffects(a + b)) == Run(Run(machine, AllEffects(a)), AllEffects(b))
  {
    AllEffectsConcat(a, b);
    RunConcat(machine, AllEffects(a), AllEffects(b));
  }

  /** The claim is not begun when the process dies during recovery. */
  lemma ClaimInTurn(f0: Files, p0: nat, f1: Files, p1: nat, alive: bool, worker: string, until: real, now: real,
                    f2: Files, p2: nat, reply: Reply)
    requires Ran(f0, p0, AllEffects(RecoverPlan(f0, now).moves), f1, p1, alive)
    requires alive ==> Finishes(f1, p1, TakePlan(f1, worker, until, now), f2, p2, reply)
    requires !alive ==> f2 == f1 && p2 == p1 && reply == Crashed
    ensures Finishes(f0, p0, RecoverThenTake(f0, worker, until, now), f2, p2, reply)
  {
    var first := RecoverPlan(f0, now).moves;
    var second := TakePlan(ApplyMoves(f0, first), worker, until, now);
    RunFull(f0, p0, AllEffects(first));
    RunTwo(Machine(f0, p0, true), first, second.moves);
  }
}
