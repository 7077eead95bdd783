/**
 In-memory replication counters (cmd/bucket-replication-stats.go, cmd/bucket-stats.go): maps of pointers
 to counters, updated in place, and copied for readers.
 */
module ReplicationStats {
  import opened Prelude

  datatype Status = Pending | Completed | Failed | Replica | Unset

  datatype OpType = ObjectType | OtherType

  /** The counters of one replication target. */
  datatype Counters = Counters(replicatedSize: int, replicaSize: int, failedSize: int, failedCount: int)

  function Zero(): Counters { Counters(0, 0, 0, 0) }

  /** One report: an object of size `n` went from `prev` to `status`. */
  datatype Report = Report(n: int, status: Status, prev: Status, op: OpType)

  /** What a report does to the counters of its target. */
  function Next(c: Counters, r: Report): Counters {
    match r.status
    case Completed =>
      var c1 := if r.prev == Failed then c.(failedCount := c.failedCount - 1) else c;
      if r.op != ObjectType then c1
      else
        var c2 := c1.(replicatedSize := c1.replicatedSize + r.n);
        if r.prev == Failed then c2.(failedSize := c2.failedSize - r.n) else c2
    case Failed =>
      if r.op == ObjectType && r.prev == Pending
      then c.(failedSize := c.failedSize + r.n, failedCount := c.failedCount + 1)
      else c
    case Replica => if r.op == ObjectType then c.(replicaSize := c.replicaSize + r.n) else c
    case _ => c
  }

  // ---------- what the failure counters mean ----------

  /** An object's name. */
  type Obj = string

  /** The statuses of the objects seen so far; any other is pending. */
  type Statuses = map<Obj, Status>

  function StatusOf(st: Statuses, o: Obj): Status {
    if o in st then st[o] else Pending
  }

  function FailedSet(st: Statuses): set<Obj> {
    set o | o in st && st[o] == Failed
  }

  ghost function Total(s: set<Obj>, size: Obj -> int): int
    decreases |s|
  {
    if s == {} then 0
    else
      var o :| o in s;
      size(o) + Total(s - {o}, size)
  }

  lemma {:induction false} TotalSplit(s: set<Obj>, o: Obj, size: Obj -> int)
    requires o in s
    ensures Total(s, size) == size(o) + Total(s - {o}, size)
    decreases |s|
  {
    var p :| p in s && Total(s, size) == size(p) + Total(s - {p}, size);
    if p != o {
      TotalSplit(s - {p}, o, size);
      TotalSplit(s - {o}, p, size);
      assert s - {p} - {o} == s - {o} - {p};
    }
  }

  /** The counters tell the number and the size of the objects that are now failed. */
  ghost predicate Books(c: Counters, st: Statuses, size: Obj -> int) {
    c.failedCount == |FailedSet(st)| && c.failedSize == Total(FailedSet(st), size)
  }

  /** An object's new status, as reported. */
  datatype Event = Event(obj: Obj, status: Status, op: OpType)

  function ReportOf(st: Statuses, e: Event, size: Obj -> int): Report {
    Report(size(e.obj), e.status, StatusOf(st, e.obj), e.op)
  }

  /**
   The reports that the counters follow: a failed object fails again or completes as an object, and an
   object fails from pending, as an object.
   */
  predicate Followed(r: Report) {
    if r.prev == Failed then r.status == Failed || (r.status == Completed && (r.op == ObjectType || r.n == 0))
    else r.status == Failed ==> r.prev == Pending && r.op == ObjectType
  }

  /** How the number and the size of the failed objects change. */
  function FailedDelta(r: Report): int {
    (if r.status == Failed then 1 else 0) - (if r.prev == Failed then 1 else 0)
  }

  function SizeDelta(r: Report): int {
    (if r.status == Failed then r.n else 0) - (if r.prev == Failed then r.n else 0)
  }

  /** Both failure counters move as the object's membership does, exactly for the reports followed. */
  lemma NextFollows(c: Counters, r: Report)
    ensures var c' := Next(c, r);
            (c'.failedCount == c.failedCount + FailedDelta(r) && c'.failedSize == c.failedSize + SizeDelta(r))
            <==> Followed(r)
  {
  }

  lemma FailedSetAfter(st: Statuses, e: Event)
    ensures FailedSet(st[e.obj := e.status])
         == if e.status == Failed then FailedSet(st) + {e.obj} else FailedSet(st) - {e.obj}
  {
  }

  lemma {:induction false} SetAfter(st: Statuses, e: Event, size: Obj -> int)
    ensures var r := ReportOf(st, e, size);
            var before, after := FailedSet(st), FailedSet(st[e.obj := e.status]);
            && |after| == |before| + FailedDelta(r)
            && Total(after, size) == Total(before, size) + SizeDelta(r)
  {
    FailedSetAfter(st, e);
    var before, after := FailedSet(st), FailedSet(st[e.obj := e.status]);
    assert e.obj in before <==> StatusOf(st, e.obj) == Failed;
    if e.status == Failed {
      Inserted(before, e.obj, size);
    } else {
      Removed(before, e.obj, size);
    }
  }

  lemma {:induction false} Inserted(s: set<Obj>, o: Obj, size: Obj -> int)
    ensures |s + {o}| == |s| + (if o in s then 0 else 1)
    ensures Total(s + {o}, size) == Total(s, size) + (if o in s then 0 else size(o))
  {
    if o in s {
      assert s + {o} == s;
    } else {
      TotalSplit(s + {o}, o, size);
      assert s + {o} - {o} == s;
    }
  }

  lemma {:induction false} Removed(s: set<Obj>, o: Obj, size: Obj -> int)
    ensures |s - {o}| == |s| - (if o in s then 1 else 0)
    ensures Total(s - {o}, size) == Total(s, size) - (if o in s then size(o) else 0)
  {
    if o in s {
      TotalSplit(s, o, size);
    } else {
      assert s - {o} == s;
    }
  }

  /** A step keeps the books exactly if its report is one that the counters follow. */
  lemma StepKeepsBooks(c: Counters, st: Statuses, e: Event, size: Obj -> int)
    requires Books(c, st, size)
    ensures var r := ReportOf(st, e, size);
            Books(Next(c, r), st[e.obj := e.status], size) <==> Followed(r)
  {
    NextFollows(c, ReportOf(st, e, size));
    SetAfter(st, e, size);
  }

  // ---------- whole runs ----------

  function RunCounters(c: Counters, st: Statuses, events: seq<Event>, size: Obj -> int): Counters
    decreases |events|
  {
    if events == [] then c
    else RunCounters(Next(c, ReportOf(st, events[0], size)), st[events[0].obj := events[0].status], events[1..], size)
  }

  function RunStatuses(st: Statuses, events: seq<Event>): Statuses
    decreases |events|
  {
    if events == [] then st else RunStatuses(st[events[0].obj := events[0].status], events[1..])
  }

  /** Every report of the run is one that the counters follow. */
  predicate AllFollowed(st: Statuses, events: seq<Event>, size: Obj -> int)
    decreases |events|
  {
    events == [] ||
    (Followed(ReportOf(st, events[0], size)) && AllFollowed(st[events[0].obj := events[0].status], events[1..], size))
  }

  /** The books are right after every prefix of the run. */
  ghost predicate AlwaysRight(c: Counters, st: Statuses, events: seq<Event>, size: Obj -> int)
    decreases |events|
  {
    && Books(c, st, size)
    && (events != [] ==>
          AlwaysRight(Next(c, ReportOf(st, events[0], size)), st[events[0].obj := events[0].status], events[1..], size))
  }

  /** Over a run, the failure counters are right all along exactly if every report is one they follow. */
  lemma {:induction false} RightExactlyIfFollowed(c: Counters, st: Statuses, events: seq<Event>, size: Obj -> int)
    requires Books(c, st, size)
    ensures AlwaysRight(c, st, events, size) <==> AllFollowed(st, events, size)
    decreases |events|
  {
    if events != [] {
      var e := events[0];
      var c', st' := Next(c, ReportOf(st, e, size)), st[e.obj := e.status];
      StepKeepsBooks(c, st, e, size);
      if Books(c', st', size) {
        RightExactlyIfFollowed(c', st', events[1..], size);
      }
    }
  }

  lemma {:induction false} RightAtEnd(c: Counters, st: Statuses, events: seq<Event>, size: Obj -> int)
    requires AlwaysRight(c, st, events, size)
    ensures Books(RunCounters(c, st, events, size), RunStatuses(st, events), size)
    decreases |events|
  {
    if events != [] {
      RightAtEnd(Next(c, ReportOf(st, events[0], size)), st[events[0].obj := events[0].status], events[1..], size);
    }
  }

  /**
   From zero, after any run of followed reports, FailedCount is the number of failed objects and
   FailedSize their total size; with sizes that are not negative, neither is the counter.
   */
  lemma CountersAreRight(c0: Counters, events: seq<Event>, size: Obj -> int)
    requires c0 == Zero() && AllFollowed(map[], events, size)
    requires forall o :: size(o) >= 0
    ensures var c := RunCounters(c0, map[], events, size);
            var failed := FailedSet(RunStatuses(map[], events));
            c.failedCount == |failed| && c.failedSize == Total(failed, size) && c.failedSize >= 0
  {
    var st: Statuses := map[];
    assert FailedSet(st) == {};
    assert Books(c0, st, size);
    RightExactlyIfFollowed(c0, st, events, size);
    RightAtEnd(c0, st, events, size);
    TotalNonNegative(FailedSet(RunStatuses(st, events)), size);
  }

  lemma {:induction false} TotalNonNegative(s: set<Obj>, size: Obj -> int)
    requires forall o :: size(o) >= 0
    ensures Total(s, size) >= 0
    decreases |s|
  {
    if s != {} {
      var o :| o in s;
      TotalSplit(s, o, size);
      TotalNonNegative(s - {o}, size);
    }
  }

  /** The sizes of the reports with this status that concern objects. */
  ghost function Reported(events: seq<Event>, status: Status, size: Obj -> int): int
    decreases |events|
  {
    if events == [] then 0
    else
      (if events[0].status == status && events[0].op == ObjectType then size(events[0].obj) else 0)
      + Reported(events[1..], status, size)
  }

  /** Over every run, the replicated size grows by every completed object, and the replica size by every replica. */
  lemma {:induction false} SizesAreTotals(c: Counters, st: Statuses, events: seq<Event>, size: Obj -> int)
    ensures var r := RunCounters(c, st, events, size);
            && r.replicatedSize == c.replicatedSize + Reported(events, Completed, size)
            && r.replicaSize == c.replicaSize + Reported(events, Replica, size)
    decreases |events|
  {
    if events != [] {
      var e := events[0];
      SizesAreTotals(Next(c, ReportOf(st, e, size)), st[e.obj := e.status], events[1..], size);
    }
  }

  /** A failed delete that completes is subtracted although its failure was never counted. */
  lemma OtherTypeGoesNegative(c0: Counters, o: Obj, size: Obj -> int)
    requires c0 == Zero()
    ensures RunCounters(c0, map[], [Event(o, Failed, OtherType), Event(o, Completed, OtherType)], size).failedCount == -1
  {
    var e1, e2 := Event(o, Failed, OtherType), Event(o, Completed, OtherType);
    var st: Statuses := map[];
    var c1, st1 := Next(c0, ReportOf(st, e1, size)), st[o := Failed];
    assert [e1, e2][1..] == [e2] && [e2][1..] == [];
    assert RunCounters(c1, st1, [e2], size) == RunCounters(Next(c1, ReportOf(st1, e2, size)), st1[o := Completed], [], size);
  }

  // ---------- the code ----------

  /** BucketReplicationStat. */
  class Stat {
    var replicatedSize: int
    var replicaSize: int
    var failedSize: int
    var failedCount: int

    ghost function Value(): Counters
      reads this
    {
      Counters(replicatedSize, replicaSize, failedSize, failedCount)
    }

    constructor ()
      ensures Value() == Zero()
    {
      replicatedSize, replicaSize, failedSize, failedCount := 0, 0, 0, 0;
    }

    constructor Copy(s: Stat)
      ensures Value() == s.Value()
    {
      replicatedSize, replicaSize, failedSize, failedCount := s.replicatedSize, s.replicaSize, s.failedSize, s.failedCount;
    }

    /** The switch of Update. */
    method Apply(r: Report)
      modifies this
      ensures Value() == Next(old(Value()), r)
    {
      match r.status
      case Completed =>
        if r.prev == Failed {
          failedCount := failedCount - 1;
        }
        if r.op == ObjectType {
          replicatedSize := replicatedSize + r.n;
          if r.prev == Failed {
            failedSize := failedSize - r.n;
          }
        }
      case Failed =>
        if r.op == ObjectType {
          if r.prev == Pending {
            failedSize := failedSize + r.n;
            failedCount := failedCount + 1;
          }
        }
      case Replica =>
        if r.op == ObjectType {
          replicaSize := replicaSize + r.n;
        }
      case _ =>
    }
  }

  datatype Snapshot = Snapshot(targets: map<string, Counters>, replicaSize: int)

  /** BucketReplicationStats: the counters of a bucket's targets. */
  class BucketStats {
    var stats: map<string, Stat>
    var replicaSize: int

    constructor ()
      ensures stats == map[] && replicaSize == 0
    {
      stats, replicaSize := map[], 0;
    }

    ghost function Objects(): set<object>
      reads this
    {
      {this} + set arn | arn in stats :: stats[arn]
    }

    /** No two targets share their counters. */
    ghost predicate Valid()
      reads this
    {
      forall a, b :: a in stats && b in stats && a != b ==> stats[a] != stats[b]
    }

    ghost function At(arn: string): Counters
      reads Objects()
    {
      if arn in stats then stats[arn].Value() else Zero()
    }

    /** A target with counters at zero. */
    method Add(arn: string) returns (s: Stat)
      requires Valid() && arn !in stats
      modifies this`stats
      ensures Valid() && fresh(s) && Objects() <= old(Objects()) + {s} && arn in stats
      ensures forall a :: At(a) == old(At(a))
    {
      s := new Stat();
      stats := stats[arn := s];
      assert forall a :: a in old(stats) ==> stats[a] == old(stats[a]);
    }

    /** The counters of all targets, and of the bucket itself. */
    ghost function Value(): Snapshot
      reads Objects()
    {
      Snapshot(map arn | arn in stats :: stats[arn].Value(), replicaSize)
    }

    /** Clone: every counter is copied into an object of its own. */
    method Clone() returns (c: BucketStats)
      ensures fresh(c.Objects()) && c.Valid()
      ensures c.Value() == Value()
    {
      c := new BucketStats();
      c.replicaSize := replicaSize;
      var keys := stats.Keys;
      while keys != {}
        invariant forall arn :: arn in keys ==> arn in stats && arn !in c.stats
        invariant forall arn :: arn in stats <==> arn in keys || arn in c.stats
        invariant fresh(c) && c.replicaSize == replicaSize
        invariant CopiesOf(c)
        invariant forall arn :: arn in c.stats ==> fresh(c.stats[arn])
        decreases |keys|
      {
        var arn :| arn in keys;
        CopyTarget(c, arn);
        keys := keys - {arn};
      }
    }

    /** The targets copied so far have this bucket's values. */
    ghost predicate CopiesOf(c: BucketStats)
      reads Objects(), c.Objects()
    {
      c.Valid() && forall arn :: arn in c.stats ==> arn in stats && c.stats[arn].Value() == stats[arn].Value()
    }

    method CopyTarget(c: BucketStats, arn: string)
      requires arn in stats && arn !in c.stats && c != this && CopiesOf(c)
      modifies c`stats
      ensures c.stats.Keys == old(c.stats.Keys) + {arn} && fresh(c.stats[arn]) && CopiesOf(c)
      ensures forall a :: a in old(c.stats) ==> c.stats[a] == old(c.stats[a])
    {
      var s := new Stat.Copy(stats[arn]);
      c.stats := c.stats[arn := s];
    }
  }

  /** ReplicationStats: the counters of every bucket. */
  class Registry {
    var cache: map<string, BucketStats>
    ghost var repr: set<object>

    constructor ()
      ensures Valid() && fresh(repr) && cache == map[]
    {
      cache, repr := map[], {this};
    }

    /** Every object reached is in `repr`, and none is reached twice. */
    ghost predicate Valid()
      reads this, repr
    {
      && this in repr
      && (forall b :: b in cache ==> cache[b] in repr && cache[b].Objects() <= repr && cache[b].Valid())
      && (forall b, d :: b in cache && d in cache && b != d ==> cache[b].Objects() !! cache[d].Objects())
    }

    ghost function At(bucket: string, arn: string): Counters
      requires Valid()
      reads this, repr
    {
      if bucket in cache then cache[bucket].At(arn) else Zero()
    }

    ghost function ReplicaSizeOf(bucket: string): int
      requires Valid()
      reads this, repr
    {
      if bucket in cache then cache[bucket].replicaSize else 0
    }

    /** The bucket's entry, made if there is none. */
    method Entry(bucket: string) returns (bs: BucketStats)
      requires Valid()
      modifies this
      ensures Valid() && fresh(repr - old(repr))
      ensures bucket in cache && bs == cache[bucket]
      ensures forall b, a :: At(b, a) == old(At(b, a))
      ensures forall b :: ReplicaSizeOf(b) == old(ReplicaSizeOf(b))
    {
      if bucket in cache {
        bs := cache[bucket];
      } else {
        bs := new BucketStats();
        cache := cache[bucket := bs];
        repr := repr + {bs};
      }
    }

    /** UpdateReplicaStat. */
    method UpdateReplicaStat(bucket: string, n: int)
      requires Valid()
      modifies repr
      ensures Valid() && fresh(repr - old(repr))
      ensures forall b, a :: At(b, a) == old(At(b, a))
      ensures forall b :: ReplicaSizeOf(b) == old(ReplicaSizeOf(b)) + if b == bucket then n else 0
    {
      var bs := Entry(bucket);
      AddReplica(bucket, bs, n);
    }

    method AddReplica(bucket: string, bs: BucketStats, n: int)
      requires Valid() && bucket in cache && cache[bucket] == bs
      modifies bs`replicaSize
      ensures Valid()
      ensures forall b, a :: At(b, a) == old(At(b, a))
      ensures forall b :: ReplicaSizeOf(b) == old(ReplicaSizeOf(b)) + if b == bucket then n else 0
    {
      bs.replicaSize := bs.replicaSize + n;
      assert forall b :: b in cache && b != bucket ==> cache[b] != bs;
    }

    /** Update. */
    method Update(bucket: string, arn: string, r: Report)
      requires Valid()
      modifies repr
      ensures Valid() && fresh(repr - old(repr))
      ensures forall b, a :: At(b, a) == if b == bucket && a == arn then Next(old(At(b, a)), r) else old(At(b, a))
      ensures forall b :: ReplicaSizeOf(b) == old(ReplicaSizeOf(b))
    {
      var s := Target(bucket, arn);
      s.Apply(r);
    }

    /** The target's counters, made if there are none. */
    method Target(bucket: string, arn: string) returns (s: Stat)
      requires Valid()
      modifies repr
      ensures Valid() && fresh(repr - old(repr))
      ensures bucket in cache && arn in cache[bucket].stats && s == cache[bucket].stats[arn]
      ensures forall b, a :: At(b, a) == old(At(b, a))
      ensures forall b :: ReplicaSizeOf(b) == old(ReplicaSizeOf(b))
    {
      var bs := Entry(bucket);
      if arn !in bs.stats {
        AddTarget(bucket, bs, arn);
      }
      s := bs.stats[arn];
    }

    /** A new target of a known bucket. */
    method AddTarget(bucket: string, bs: BucketStats, arn: string)
      requires Valid() && bucket in cache && cache[bucket] == bs && arn !in bs.stats
      modifies this`repr, bs`stats
      ensures Valid() && fresh(repr - old(repr))
      ensures arn in bs.stats
      ensures forall b, a :: At(b, a) == old(At(b, a))
      ensures forall b :: ReplicaSizeOf(b) == old(ReplicaSizeOf(b))
    {
      var s := bs.Add(arn);
      repr := repr + {s};
    }

    method Delete(bucket: string)
      requires Valid()
      modifies this
      ensures Valid() && repr == old(repr)
      ensures forall b, a :: At(b, a) == if b == bucket then Zero() else old(At(b, a))
      ensures forall b :: ReplicaSizeOf(b) == if b == bucket then 0 else old(ReplicaSizeOf(b))
    {
      cache := cache - {bucket};
    }

    /** Get: a copy that shares nothing with the registry. */
    method Get(bucket: string) returns (c: BucketStats)
      requires Valid()
      ensures fresh(c.Objects()) && c.Valid() && c.replicaSize == ReplicaSizeOf(bucket)
      ensures forall arn :: c.At(arn) == At(bucket, arn)
    {
      if bucket in cache {
        c := cache[bucket].Clone();
        assert forall arn :: arn in c.stats <==> arn in c.Value().targets;
        assert forall arn :: arn in cache[bucket].stats <==> arn in cache[bucket].Value().targets;
      } else {
        c := new BucketStats();
      }
    }

    /** Copies made of objects in `made`, with the values of this registry. */
    ghost predicate Copies(all: map<string, BucketStats>, made: set<object>)
      reads this, cache.Values, set b, o | b in cache && o in cache[b].Objects() :: o
      reads all.Values, set b, o | b in all && o in all[b].Objects() :: o
    {
      forall b :: b in all ==> b in cache && all[b].Objects() <= made && all[b].Value() == cache[b].Value()
    }

    /** GetAll: a copy of every bucket's counters. */
    method GetAll() returns (all: map<string, BucketStats>, ghost made: set<object>)
      ensures (forall b :: b in all <==> b in cache) && fresh(made) && Copies(all, made)
    {
      all, made := map[], {};
      var keys := cache.Keys;
      while keys != {}
        invariant forall b :: b in keys ==> b in cache && b !in all
        invariant forall b :: b in cache ==> b in keys || b in all
        invariant fresh(made) && Copies(all, made)
        decreases |keys|
      {
        var b :| b in keys;
        all, made := AddCopy(all, made, b);
        keys := keys - {b};
      }
    }

    method AddCopy(all: map<string, BucketStats>, ghost made: set<object>, b: string)
      returns (all': map<string, BucketStats>, ghost made': set<object>)
      requires b in cache && b !in all && Copies(all, made)
      ensures forall d :: d in all' <==> d in all || d == b
      ensures Copies(all', made') && fresh(made' - made)
    {
      var c := cache[b].Clone();
      all', made' := all[b := c], made + c.Objects();
    }
  }

  /** A later change of any bucket. */
  datatype Later =
    | LaterUpdate(bucket: string, arn: string, report: Report)
    | LaterReplica(bucket: string, n: int)
    | LaterDelete(bucket: string)

  /** Changes of the registry, whatever they are, stay within its own and new objects. */
  method ChangeAll(reg: Registry, later: seq<Later>)
    requires reg.Valid()
    modifies reg.repr
    ensures reg.Valid() && fresh(reg.repr - old(reg.repr))
  {
    var i := 0;
    while i < |later|
      invariant 0 <= i <= |later| && reg.Valid() && fresh(reg.repr - old(reg.repr))
    {
      match later[i] {
        case LaterUpdate(b, arn, r) => reg.Update(b, arn, r);
        case LaterReplica(b, n) => reg.UpdateReplicaStat(b, n);
        case LaterDelete(b) => reg.Delete(b);
      }
      i := i + 1;
    }
  }

  /** A snapshot of a bucket keeps the values of the moment it was taken, whatever happens afterwards. */
  method SnapshotStays(reg: Registry, bucket: string, later: seq<Later>) returns (snapshot: BucketStats)
    requires reg.Valid()
    modifies reg.repr
    ensures reg.Valid()
    ensures forall arn :: snapshot.At(arn) == old(reg.At(bucket, arn))
    ensures snapshot.replicaSize == old(reg.ReplicaSizeOf(bucket))
  {
    snapshot := reg.Get(bucket);
    ChangeAll(reg, later);
  }

  /** The same of a snapshot of all buckets. */
  method AllSnapshotsStay(reg: Registry, later: seq<Later>) returns (all: map<string, BucketStats>)
    requires reg.Valid()
    modifies reg.repr
    ensures reg.Valid() && forall b :: b in all <==> b in old(reg.cache)
    ensures forall b :: b in all ==> all[b].Value() == old(reg.cache[b].Value())
  {
    ghost var made;
    all, made := reg.GetAll();
    ghost var values := map b | b in all :: all[b].Value();
    assert forall b :: b in all ==> values[b] == old(reg.cache[b].Value());
    ChangeAll(reg, later);
    assert forall b :: b in all ==> all[b].Value() == values[b];
  }

  /** A run of events reported to the registry for one target leaves that target with the run's counters. */
  method ReportAll(reg: Registry, bucket: string, arn: string, events: seq<Event>, st: Statuses, size: Obj -> int)
    requires reg.Valid()
    modifies reg.repr
    ensures reg.Valid() && fresh(reg.repr - old(reg.repr))
    ensures reg.At(bucket, arn) == RunCounters(old(reg.At(bucket, arn)), st, events, size)
  {
    var seen, i := st, 0;
    while i < |events|
      invariant 0 <= i <= |events| && reg.Valid() && fresh(reg.repr - old(reg.repr))
      invariant RunCounters(reg.At(bucket, arn), seen, events[i..], size)
             == RunCounters(old(reg.At(bucket, arn)), st, events, size)
    {
      var e := events[i];
      assert events[i..][0] == e && events[i..][1..] == events[i + 1..];
      reg.Update(bucket, arn, ReportOf(seen, e, size));
      seen := seen[e.obj := e.status];
      i := i + 1;
    }
  }
}
