/** The queue's directories as files, and the two file-system effects that change them. */
module JobFiles {
  import opened Wrappers

  /** Record identifiers in their sorting order: "job_" and 32 hexadecimal digits sort as numbers. */
  type Id = nat

  datatype Dir = Pending | Processing | Done | Failed | Quarantined

  const STATES: seq<Dir> := [Pending, Processing, Done, Failed, Quarantined]

  /** The file of one record in one state directory; the record's own id is the file's name. */
  datatype Path = Path(dir: Dir, id: Id)

  datatype Job = Job(key: string, operation: string, payload: string)

  datatype Record = Record(job: Job, state: Dir, attempts: nat, availableAt: real, leaseUntil: Option<real>,
                           worker: Option<string>, reason: Option<string>, createdAt: real, updatedAt: real)

  type Files = map<Path, Record>

  // ----- effects -------------------------------------------------------------------------------

  /** Both are atomic: a write renames a finished temporary file over the target. */
  datatype Effect = Write(path: Path, record: Record) | Unlink(path: Path)

  function Apply(files: Files, e: Effect): Files {
    match e
    case Write(path, record) => files[path := record]
    case Unlink(path) => files - {path}
  }

  function ApplyAll(files: Files, es: seq<Effect>): Files
    decreases |es|
  {
    if es == [] then files else ApplyAll(Apply(files, es[0]), es[1..])
  }

  lemma {:induction false} ApplyConcat(files: Files, a: seq<Effect>, b: seq<Effect>)
    ensures ApplyAll(files, a + b) == ApplyAll(ApplyAll(files, a), b)
    decreases |a|
  {
    if a == [] {
      assert a + b == b;
    } else {
      assert (a + b)[1..] == a[1..] + b;
      ApplyConcat(Apply(files, a[0]), a[1..], b);
    }
  }

  // ----- crashes -------------------------------------------------------------------------------

  /** A disk with a process on it that survives `power` more effects. */
  datatype Machine = Machine(files: Files, power: nat, alive: bool)

  function Run(m: Machine, es: seq<Effect>): Machine
    decreases |es|
  {
    if es == [] || !m.alive then m
    else if m.power == 0 then m.(alive := false)
    else Run(Machine(Apply(m.files, es[0]), m.power - 1, true), es[1..])
  }

  lemma {:induction false} RunConcat(m: Machine, a: seq<Effect>, b: seq<Effect>)
    ensures Run(m, a + b) == Run(Run(m, a), b)
    decreases |a|
  {
    if a == [] {
      assert a + b == b;
    } else if m.alive && m.power > 0 {
      assert (a + b)[1..] == a[1..] + b;
      RunConcat(Machine(Apply(m.files, a[0]), m.power - 1, true), a[1..], b);
    }
  }

  function Least(a: nat, b: nat): nat {
    if a <= b then a else b
  }

  /** A crash leaves exactly the first `power` effects on the disk. */
  lemma {:induction false} RunIsPrefix(files: Files, power: nat, es: seq<Effect>)
    ensures Run(Machine(files, power, true), es)
            == Machine(ApplyAll(files, es[..Least(power, |es|)]), power - Least(power, |es|), |es| <= power)
    decreases |es|
  {
    if es != [] && power > 0 {
      RunIsPrefix(Apply(files, es[0]), power - 1, es[1..]);
      assert es[..Least(power, |es|)][1..] == es[1..][..Least(power - 1, |es| - 1)];
    }
  }

  // ----- listing a directory -------------------------------------------------------------------

  function Ids(files: Files, dir: Dir): set<Id> {
    set p | p in files && p.dir == dir :: p.id
  }

  predicate StrictlySorted(s: seq<Id>) {
    forall i, j | 0 <= i < j < |s| :: s[i] < s[j]
  }

  function Place(x: Id, s: seq<Id>): seq<Id> {
    if s == [] || x < s[0] then [x] + s else [s[0]] + Place(x, s[1..])
  }

  lemma {:induction false} PlaceSorts(x: Id, s: seq<Id>)
    requires StrictlySorted(s) && x !in s
    ensures StrictlySorted(Place(x, s)) && forall y :: y in Place(x, s) <==> y == x || y in s
  {
    if s != [] && !(x < s[0]) {
      PlaceSorts(x, s[1..]);
      var rest := Place(x, s[1..]);
      forall j | 0 <= j < |rest|
        ensures s[0] < rest[j]
      {
        assert rest[j] == x || rest[j] in s[1..];
      }
    }
  }

  /** The elements of a finite set of ids, in ascending order. */
  ghost function SortedIds(ids: set<Id>): (s: seq<Id>)
    ensures StrictlySorted(s) && forall x :: x in s <==> x in ids
    decreases |ids|
  {
    if ids == {} then []
    else
      var x :| x in ids;
      var rest := SortedIds(ids - {x});
      PlaceSorts(x, rest);
      Place(x, rest)
  }

  lemma Inhabited(s: seq<Id>)
    ensures s != [] ==> exists x :: x in s
  {
    if s != [] {
      assert s[0] in s;
    }
  }

  lemma {:induction false} SortedUnique(a: seq<Id>, b: seq<Id>)
    requires StrictlySorted(a) && StrictlySorted(b) && forall x :: x in a <==> x in b
    ensures a == b
    decreases |a|
  {
    Inhabited(a);
    Inhabited(b);
    if a != [] && b != [] {
      assert a[0] in b && b[0] in a;
      assert a[0] == b[0];
      forall x
        ensures x in a[1..] <==> x in b[1..]
      {
        assert x in a <==> x == a[0] || x in a[1..];
        assert x in b <==> x == b[0] || x in b[1..];
      }
      SortedUnique(a[1..], b[1..]);
    }
  }

  method SortIds(ids: set<Id>) returns (s: seq<Id>)
    ensures s == SortedIds(ids)
  {
    s := [];
    var rest := ids;
    while rest != {}
      invariant rest <= ids && StrictlySorted(s) && forall x :: x in s <==> x in ids - rest
      decreases |rest|
    {
      var x :| x in rest;
      PlaceSorts(x, s);
      s := Place(x, s);
      rest := rest - {x};
    }
    SortedUnique(s, SortedIds(ids));
  }
}
