/**
 The disk-healing tracker (cmd/background-newdisks-heal-ops.go) and the loop that drives it
 (cmd/global-heal.go): the queue of buckets edited in place, and progress counters that survive crashes.
 */
module HealingTracker {
  import opened Prelude

  // ---------- removing a bucket from the queue ----------

  /** The queue without any occurrence of the bucket. */
  function Without(q: seq<string>, bucket: string): seq<string> {
    if q == [] then []
    else if q[0] == bucket then Without(q[1..], bucket)
    else [q[0]] + Without(q[1..], bucket)
  }

  /**
   What deleting while ranging computes: after a deletion the next element slides under the index and
   is kept unexamined.
   */
  function Skim(q: seq<string>, bucket: string): seq<string> {
    if q == [] then []
    else if q[0] != bucket then [q[0]] + Skim(q[1..], bucket)
    else if |q| == 1 then []
    else [q[1]] + Skim(q[2..], bucket)
  }

  /** The last element is the bucket and occurs earlier too. */
  ghost predicate RepeatsAtEnd(q: seq<string>, bucket: string) {
    |q| > 0 && q[|q| - 1] == bucket && exists k :: 0 <= k < |q| - 1 && q[k] == bucket
  }

  ghost predicate NoAdjacent(q: seq<string>, bucket: string) {
    forall i :: 0 <= i < |q| - 1 ==> !(q[i] == bucket && q[i + 1] == bucket)
  }

  lemma {:induction false} SkimRemovesSome(q: seq<string>, bucket: string)
    ensures |Without(q, bucket)| <= |Skim(q, bucket)|
    decreases |q|
  {
    if q == [] {
    } else if q[0] != bucket {
      SkimRemovesSome(q[1..], bucket);
    } else if |q| > 1 {
      assert q[1..][1..] == q[2..];
      SkimRemovesSome(q[2..], bucket);
    }
  }

  lemma NoAdjacentTail(q: seq<string>, bucket: string)
    requires |q| > 1
    ensures NoAdjacent(q, bucket) <==> !(q[0] == bucket && q[1] == bucket) && NoAdjacent(q[1..], bucket)
  {
    if NoAdjacent(q[1..], bucket) && !(q[0] == bucket && q[1] == bucket) {
      forall i | 0 <= i < |q| - 1 ensures !(q[i] == bucket && q[i + 1] == bucket) {
        if i > 0 { assert q[1..][i - 1] == q[i] && q[1..][i] == q[i + 1]; }
      }
    }
    if NoAdjacent(q, bucket) {
      forall i | 0 <= i < |q[1..]| - 1 ensures !(q[1..][i] == bucket && q[1..][i + 1] == bucket) {
        assert q[1..][i] == q[i + 1] && q[1..][i + 1] == q[i + 2];
      }
    }
  }

  lemma SameHead(x: string, a: seq<string>, b: seq<string>)
    ensures [x] + a == [x] + b <==> a == b
  {
    assert ([x] + a)[1..] == a && ([x] + b)[1..] == b;
  }

  /** The exact condition: every occurrence is removed if and only if no two of them are adjacent. */
  lemma {:induction false} SkimIsExact(q: seq<string>, bucket: string)
    ensures Skim(q, bucket) == Without(q, bucket) <==> NoAdjacent(q, bucket)
    decreases |q|
  {
    if |q| <= 1 {
    } else if q[0] != bucket {
      NoAdjacentTail(q, bucket);
      SkimIsExact(q[1..], bucket);
      SameHead(q[0], Skim(q[1..], bucket), Without(q[1..], bucket));
    } else {
      assert q[1..][1..] == q[2..];
      NoAdjacentTail(q, bucket);
      SkimRemovesSome(q[2..], bucket);
      if q[1] != bucket {
        if |q| > 2 { NoAdjacentTail(q[1..], bucket); }
        SkimIsExact(q[2..], bucket);
        SameHead(q[1], Skim(q[2..], bucket), Without(q[2..], bucket));
      }
    }
  }

  /** Buckets have distinct names: then exactly the bucket is removed, in order, and nothing goes out of bounds. */
  lemma DistinctBucketsAreSafe(q: seq<string>, bucket: string)
    requires NoDuplicates(q)
    ensures !RepeatsAtEnd(q, bucket) && Skim(q, bucket) == Without(q, bucket)
  {
    SkimIsExact(q, bucket);
  }

  // ---------- the tracker ----------

  datatype Counters = Counters(itemsHealed: nat, itemsFailed: nat, bytesDone: nat, bytesFailed: nat)

  function Zero(): Counters { Counters(0, 0, 0, 0) }

  function Plus(a: Counters, b: Counters): Counters {
    Counters(a.itemsHealed + b.itemsHealed, a.itemsFailed + b.itemsFailed,
             a.bytesDone + b.bytesDone, a.bytesFailed + b.bytesFailed)
  }

  class Tracker {
    var live: Counters
    var resumePoint: Counters
    var bucket: Option<string>
    var healedBuckets: seq<string>
    // The queue is the first `queueLen` elements of `backing`.
    var backing: array<string>
    var queueLen: nat

    ghost predicate Valid()
      reads this
    {
      queueLen <= backing.Length
    }

    ghost function Queued(): seq<string>
      requires Valid()
      reads this, backing
    {
      backing[..queueLen]
    }

    constructor ()
      ensures Valid() && fresh(backing)
      ensures View() == Fresh() && Queued() == []
    {
      live, resumePoint, bucket, healedBuckets := Zero(), Zero(), None, [];
      backing, queueLen := new string[0], 0;
    }

    /** The persisted progress. */
    ghost function View(): Progress
      reads this
    {
      Progress(live, resumePoint, bucket, healedBuckets)
    }

    method Resume()
      modifies this`live
      ensures View() == old(View()).(live := old(resumePoint))
    {
      live := resumePoint;
    }

    /** healErasureSet turning to a bucket. */
    method Begin(next: string)
      modifies this`live, this`bucket
      ensures View() == BeginBucket(old(View()), next)
    {
      var healed := IsHealed(next);
      if healed {
        return;
      }
      if bucket.Some? && bucket.value != next {
        Resume();
      }
      bucket := Some(next);
    }

    /** One item healed or failed. */
    method Count(result: Counters)
      modifies this`live
      ensures View() == old(View()).(live := Plus(old(live), result))
      ensures live.itemsHealed == old(live.itemsHealed) + result.itemsHealed
      ensures live.itemsFailed == old(live.itemsFailed) + result.itemsFailed
      ensures live.bytesDone == old(live.bytesDone) + result.bytesDone
      ensures live.bytesFailed == old(live.bytesFailed) + result.bytesFailed
    {
      live := Plus(live, result);
    }

    method IsHealed(bucket: string) returns (found: bool)
      ensures found <==> bucket in healedBuckets
    {
      for i := 0 to |healedBuckets|
        invariant bucket !in healedBuckets[..i]
      {
        if healedBuckets[i] == bucket {
          return true;
        }
      }
      return false;
    }

    /** Queue[:i] extended with Queue[i+1:], moved within the backing array. */
    method RemoveAt(i: nat)
      requires Valid() && i < queueLen
      modifies this`queueLen, backing
      ensures Valid() && queueLen == old(queueLen) - 1
      ensures backing[..] == Shift(old(backing[..]), i, old(queueLen))
    {
      var last := queueLen - 1;
      queueLen := last;
      var j := i;
      while j < last
        invariant i <= j <= last < backing.Length
        invariant forall k :: 0 <= k < i ==> backing[k] == old(backing[k])
        invariant forall k :: i <= k < j ==> backing[k] == old(backing[k + 1])
        invariant forall k :: j <= k < backing.Length ==> backing[k] == old(backing[k])
        modifies backing
      {
        backing[j] := backing[j + 1];
        j := j + 1;
      }
    }

    /** One round of the loop in bucketDone at index `i`, on a queue that had `n` elements. */
    method DeleteRound(bucket: string, i: nat, n: nat, ghost a: seq<string>, ghost next: Round) returns (panics: bool)
      requires Valid() && i < n && queueLen <= n <= backing.Length && a == backing[..n]
      requires next == RoundOn(a, bucket, i, queueLen)
      modifies this`queueLen, backing
      ensures panics == next.Panic?
      ensures panics ==> queueLen == old(queueLen)
      ensures !panics ==> queueLen == next.len <= n && backing[..n] == next.a
    {
      assert a[i] == backing[i];
      if backing[i] != bucket {
        return false;
      }
      if i + 1 > queueLen {
        return true;
      }
      RemovePrefix(i, n, a);
      return false;
    }

    /** The removal, seen on the first `n` elements. */
    method RemovePrefix(i: nat, n: nat, ghost a: seq<string>)
      requires Valid() && i < queueLen <= n <= backing.Length && a == backing[..n]
      modifies this`queueLen, backing
      ensures Valid() && queueLen == old(queueLen) - 1
      ensures backing[..n] == Shift(a, i, old(queueLen))
    {
      ghost var all, len := backing[..], queueLen;
      RemoveAt(i);
      ShiftPrefix(all, i, len, n);
      assert all[..n] == a && backing[..][..n] == backing[..n];
    }

    /** The range loop of bucketDone; it panics when a slice bound is exceeded. */
    method DeleteFromQueue(bucket: string) returns (panics: bool)
      requires Valid()
      modifies this`queueLen, backing
      ensures Valid()
      ensures panics == old(RepeatsAtEnd(Queued(), bucket))
      ensures !panics ==> Queued() == old(Skim(Queued(), bucket))
    {
      ghost var q := backing[..queueLen];
      var n := queueLen;
      var i := 0;
      ghost var a, r := QueueRounds(q, bucket, i);
      while i < n
        invariant 0 <= i <= n <= backing.Length && queueLen <= n && a == backing[..n]
        invariant Rounds(a, bucket, i, queueLen) == r
        modifies this`queueLen, backing
      {
        ghost var next := RoundOn(a, bucket, i, queueLen);
        panics := DeleteRound(bucket, i, n, a, next);
        if panics {
          return;
        }
        a, i := next.a, i + 1;
      }
      assert a[..queueLen] == backing[..queueLen];
      return false;
    }

    /** The bucket is healed: the counters become the new resume point and it leaves the queue. */
    method BucketDone(done: string) returns (panics: bool)
      requires Valid()
      modifies this`resumePoint, this`healedBuckets, this`queueLen, backing
      ensures Valid()
      ensures View() == old(View()).(resumePoint := old(live), healed := old(healedBuckets) + [done])
      ensures panics == old(RepeatsAtEnd(Queued(), done))
      ensures !panics ==> Queued() == old(Skim(Queued(), done))
    {
      resumePoint := live;
      healedBuckets := healedBuckets + [done];
      panics := DeleteFromQueue(done);
    }

    /** A driver's step on the tracker in memory. */
    method Drive(d: Driver)
      requires Valid() && (d.Begin? || d.Item? || d.Done?)
      modifies this, backing
      ensures Valid() && View() == ApplyDriver(Healing(old(View()), old(View())), d).mem
    {
      match d {
        case Begin(next) => Begin(next);
        case Item(r) =>
          if bucket.Some? && bucket.value !in healedBuckets {
            Count(r);
          }
        case Done =>
          if bucket.Some? && bucket.value !in healedBuckets {
            var panics := BucketDone(bucket.value);
          }
      }
    }

    /** Queues the listed buckets that are not healed yet, in order. */
    method SetQueuedBuckets(buckets: seq<string>)
      modifies this`backing, this`queueLen
      ensures Valid() && fresh(backing)
      ensures Queued() == Minus(buckets, healedBuckets)
    {
      var queue := new string[|buckets|];
      var len := 0;
      for i := 0 to |buckets|
        invariant 0 <= len <= i && queue[..len] == Minus(buckets[..i], healedBuckets)
      {
        MinusSnoc(buckets[..i], buckets[i], healedBuckets);
        assert buckets[..i + 1] == buckets[..i] + [buckets[i]];
        if buckets[i] !in healedBuckets {
          queue[len] := buckets[i];
          len := len + 1;
        }
      }
      assert buckets[..|buckets|] == buckets;
      backing, queueLen := queue, len;
    }
  }

  // ---------- the queue over whole runs ----------

  /** The listed buckets that are not in `healed`, in order. */
  function Minus(buckets: seq<string>, healed: seq<string>): seq<string> {
    if buckets == [] then []
    else if buckets[0] in healed then Minus(buckets[1..], healed)
    else [buckets[0]] + Minus(buckets[1..], healed)
  }

  lemma {:induction false} MinusSnoc(buckets: seq<string>, b: string, healed: seq<string>)
    ensures Minus(buckets + [b], healed) == Minus(buckets, healed) + if b in healed then [] else [b]
    decreases |buckets|
  {
    if buckets == [] {
      assert buckets + [b] == [b] && [b][1..] == [];
    } else {
      MinusSnoc(buckets[1..], b, healed);
      assert (buckets + [b])[1..] == buckets[1..] + [b];
    }
  }

  lemma {:induction false} MinusMember(buckets: seq<string>, healed: seq<string>, x: string)
    ensures x in Minus(buckets, healed) <==> x in buckets && x !in healed
    decreases |buckets|
  {
    if buckets != [] {
      MinusMember(buckets[1..], healed, x);
      assert x in buckets <==> x == buckets[0] || x in buckets[1..];
    }
  }

  lemma {:induction false} MinusDistinct(buckets: seq<string>, healed: seq<string>)
    requires NoDuplicates(buckets)
    ensures NoDuplicates(Minus(buckets, healed))
    decreases |buckets|
  {
    if buckets != [] {
      assert NoDuplicates(buckets[1..]);
      MinusDistinct(buckets[1..], healed);
      MinusMember(buckets[1..], healed, buckets[0]);
    }
  }

  /** Finishing a bucket is the same as listing again with one more healed bucket. */
  lemma {:induction false} WithoutIsMinus(buckets: seq<string>, healed: seq<string>, b: string)
    ensures Without(Minus(buckets, healed), b) == Minus(buckets, healed + [b])
    decreases |buckets|
  {
    if buckets != [] {
      WithoutIsMinus(buckets[1..], healed, b);
      var rest := Minus(buckets[1..], healed);
      assert ([buckets[0]] + rest)[1..] == rest;
    }
  }

  datatype Queues = Queues(listed: seq<string>, queued: seq<string>, healed: seq<string>)

  datatype QueueOp = SetQueued(buckets: seq<string>) | Finished(bucket: string)

  function ApplyQueueOp(s: Queues, op: QueueOp): Queues {
    match op
    case SetQueued(l) => Queues(l, Minus(l, s.healed), s.healed)
    case Finished(b) => Queues(s.listed, Skim(s.queued, b), s.healed + [b])
  }

  ghost function RunQueue(s: Queues, ops: seq<QueueOp>): Queues
    decreases |ops|
  {
    if ops == [] then s else RunQueue(ApplyQueueOp(s, ops[0]), ops[1..])
  }

  ghost predicate QueueOk(s: Queues) {
    NoDuplicates(s.listed) && s.queued == Minus(s.listed, s.healed)
  }

  lemma {:induction false} QueueRuns(s: Queues, ops: seq<QueueOp>)
    requires QueueOk(s)
    requires forall i :: 0 <= i < |ops| && ops[i].SetQueued? ==> NoDuplicates(ops[i].buckets)
    ensures QueueOk(RunQueue(s, ops))
    decreases |ops|
  {
    if ops != [] {
      if ops[0].Finished? {
        MinusDistinct(s.listed, s.healed);
        DistinctBucketsAreSafe(s.queued, ops[0].bucket);
        WithoutIsMinus(s.listed, s.healed, ops[0].bucket);
      }
      QueueRuns(ApplyQueueOp(s, ops[0]), ops[1..]);
    }
  }

  /**
   Over every run of setQueuedBuckets and bucketDone, the queue is exactly the listed buckets that are
   not healed, in order: healed and queued are disjoint and together cover the list, and no bucketDone
   goes out of bounds.
   */
  lemma HealedAndQueuedPartition(ops: seq<QueueOp>, x: string)
    requires forall i :: 0 <= i < |ops| && ops[i].SetQueued? ==> NoDuplicates(ops[i].buckets)
    ensures var s := RunQueue(Queues([], [], []), ops);
            && s.queued == Minus(s.listed, s.healed)
            && (x in s.queued <==> x in s.listed && x !in s.healed)
            && !RepeatsAtEnd(s.queued, x)
  {
    QueueRuns(Queues([], [], []), ops);
    var s := RunQueue(Queues([], [], []), ops);
    MinusMember(s.listed, s.healed, x);
    MinusDistinct(s.listed, s.healed);
    DistinctBucketsAreSafe(s.queued, x);
  }

  // ---------- progress over whole runs ----------

  /** The persisted progress; None stands for the empty name: no bucket has been started. */
  datatype Progress = Progress(live: Counters, resumePoint: Counters, bucket: Option<string>, healed: seq<string>) {
    /** A bucket is being healed. */
    predicate Busy() { bucket.Some? && bucket.value !in healed }
  }

  function Fresh(): Progress { Progress(Zero(), Zero(), None, []) }

  datatype Driver =
    | Begin(bucket: string)
    | Item(result: Counters)
    | Done
    | Save
    | Restart(trackerReadable: bool)

  /** In memory and on disk; a disk without a tracker file stands for a fresh tracker. */
  datatype Healing = Healing(mem: Progress, disk: Progress)

  /** healErasureSet turning to a bucket: healed ones are skipped, and another one than last time resumes first. */
  function BeginBucket(p: Progress, bucket: string): Progress {
    if bucket in p.healed then p
    else if p.bucket.Some? && p.bucket.value != bucket then p.(live := p.resumePoint, bucket := Some(bucket))
    else p.(bucket := Some(bucket))
  }

  function ApplyDriver(h: Healing, d: Driver): Healing {
    match d
    case Begin(b) => h.(mem := BeginBucket(h.mem, b))
    case Item(r) => if h.mem.Busy() then h.(mem := h.mem.(live := Plus(h.mem.live, r))) else h
    case Done =>
      if h.mem.Busy() then h.(mem := h.mem.(resumePoint := h.mem.live, healed := h.mem.healed + [h.mem.bucket.value]))
      else h
    case Save => h.(disk := h.mem)
    case Restart(readable) => h.(mem := if readable then h.disk else Fresh())
  }

  /** What the item results themselves add up to: per finished bucket, and for the bucket in progress. */
  datatype Ledger = Ledger(finished: seq<(string, Counters)>, current: Counters)

  function EmptyLedger(): Ledger { Ledger([], Zero()) }

  datatype Books = Books(mem: Ledger, disk: Ledger)

  function Start(): Healing { Healing(Fresh(), Fresh()) }

  function StartBooks(): Books { Books(EmptyLedger(), EmptyLedger()) }

  /** Another bucket than the last one is turned to. */
  predicate Switches(p: Progress, bucket: string) {
    bucket !in p.healed && p.bucket.Some? && p.bucket.value != bucket
  }

  /** Bookkeeping by item results alone, following the same lineage through saves and restarts. */
  function ApplyBooks(h: Healing, b: Books, d: Driver): Books {
    match d
    case Begin(bucket) =>
      if Switches(h.mem, bucket) then b.(mem := b.mem.(current := Zero())) else b
    case Item(r) =>
      if h.mem.Busy() then b.(mem := b.mem.(current := Plus(b.mem.current, r))) else b
    case Done =>
      if h.mem.Busy() then b.(mem := Ledger(b.mem.finished + [(h.mem.bucket.value, b.mem.current)], Zero())) else b
    case Save => b.(disk := b.mem)
    case Restart(readable) => b.(mem := if readable then b.disk else EmptyLedger())
  }

  ghost function Sum(finished: seq<(string, Counters)>): Counters {
    if finished == [] then Zero() else Plus(Sum(finished[..|finished| - 1]), finished[|finished| - 1].1)
  }

  ghost function Buckets(finished: seq<(string, Counters)>): seq<string> {
    if finished == [] then [] else Buckets(finished[..|finished| - 1]) + [finished[|finished| - 1].0]
  }

  /** The tracker's numbers agree with the ledger. */
  ghost predicate Agrees(p: Progress, l: Ledger) {
    && p.resumePoint == Sum(l.finished)
    && p.live == Plus(p.resumePoint, l.current)
    && p.healed == Buckets(l.finished)
    && NoDuplicates(p.healed)
    && (!p.Busy() ==> l.current == Zero())
  }

  ghost predicate BooksAgree(h: Healing, b: Books) {
    Agrees(h.mem, b.mem) && Agrees(h.disk, b.disk)
  }

  lemma FreshAgrees()
    ensures Agrees(Fresh(), EmptyLedger())
  {
  }

  /** Finishing a bucket moves its contribution into the resume point. */
  lemma DoneAgrees(p: Progress, l: Ledger)
    requires Agrees(p, l) && p.Busy()
    ensures Agrees(p.(resumePoint := p.live, healed := p.healed + [p.bucket.value]),
                   Ledger(l.finished + [(p.bucket.value, l.current)], Zero()))
  {
    var f := l.finished + [(p.bucket.value, l.current)];
    assert f[..|f| - 1] == l.finished;
    DistinctSnoc(p.healed, p.bucket.value);
  }

  lemma DistinctSnoc(s: seq<string>, x: string)
    requires NoDuplicates(s) && x !in s
    ensures NoDuplicates(s + [x])
  {
  }

  lemma DriverKeepsBooks(h: Healing, b: Books, d: Driver)
    requires BooksAgree(h, b)
    ensures BooksAgree(ApplyDriver(h, d), ApplyBooks(h, b, d))
  {
    match d
    case Begin(bucket) => BeginAgrees(h.mem, b.mem, bucket);
    case Item(r) =>
    case Done =>
      if h.mem.Busy() { DoneAgrees(h.mem, b.mem); }
    case Save =>
    case Restart(_) => FreshAgrees();
  }

  lemma BeginAgrees(p: Progress, l: Ledger, bucket: string)
    requires Agrees(p, l)
    ensures Agrees(BeginBucket(p, bucket), if Switches(p, bucket) then l.(current := Zero()) else l)
  {
  }

  ghost function RunDriver(h: Healing, ds: seq<Driver>): Healing
    decreases |ds|
  {
    if ds == [] then h else RunDriver(ApplyDriver(h, ds[0]), ds[1..])
  }

  ghost function RunBooks(h: Healing, b: Books, ds: seq<Driver>): Books
    decreases |ds|
  {
    if ds == [] then b else RunBooks(ApplyDriver(h, ds[0]), ApplyBooks(h, b, ds[0]), ds[1..])
  }

  lemma {:induction false} RunsKeepBooks(h: Healing, b: Books, ds: seq<Driver>)
    requires BooksAgree(h, b)
    ensures BooksAgree(RunDriver(h, ds), RunBooks(h, b, ds))
    decreases |ds|
  {
    if ds != [] {
      DriverKeepsBooks(h, b, ds[0]);
      RunsKeepBooks(ApplyDriver(h, ds[0]), ApplyBooks(h, b, ds[0]), ds[1..]);
    }
  }

  /** A fresh tracker with empty books is where every run starts. */
  lemma StartAgrees()
    ensures BooksAgree(Start(), StartBooks())
  {
    FreshAgrees();
  }

  /**
   Over any run of buckets, item results, saves and crashes, the resume counters are the summed
   contributions of the finished buckets, each counted once, and the live counters add only what the
   bucket in progress contributed.
   */
  lemma ProgressIsExact(h: Healing, b: Books, ds: seq<Driver>)
    requires BooksAgree(h, b)
    ensures var p := RunDriver(h, ds).mem;
            var l := RunBooks(h, b, ds).mem;
            && p.resumePoint == Sum(l.finished)
            && p.live == Plus(p.resumePoint, l.current)
            && p.healed == Buckets(l.finished) && NoDuplicates(p.healed)
  {
    RunsKeepBooks(h, b, ds);
  }

  /** One counter, summed over the finished buckets. */
  ghost function SumOf(finished: seq<(string, Counters)>, counter: Counters -> nat): nat {
    if finished == [] then 0 else SumOf(finished[..|finished| - 1], counter) + counter(finished[|finished| - 1].1)
  }

  /** The sums are counter by counter: no result counts for another counter than its own. */
  lemma {:induction false} SumsByCounter(finished: seq<(string, Counters)>)
    ensures Sum(finished).itemsHealed == SumOf(finished, (c: Counters) => c.itemsHealed)
    ensures Sum(finished).itemsFailed == SumOf(finished, (c: Counters) => c.itemsFailed)
    ensures Sum(finished).bytesDone == SumOf(finished, (c: Counters) => c.bytesDone)
    ensures Sum(finished).bytesFailed == SumOf(finished, (c: Counters) => c.bytesFailed)
    decreases |finished|
  {
    if finished != [] {
      SumsByCounter(finished[..|finished| - 1]);
    }
  }

  /** Turning to another bucket than the one left unfinished drops exactly the unfinished contribution. */
  lemma SwitchingDropsUnfinished(h: Healing, b: Books, ds: seq<Driver>, bucket: string)
    requires BooksAgree(h, b) && Switches(RunDriver(h, ds).mem, bucket)
    ensures ApplyDriver(RunDriver(h, ds), Begin(bucket)).mem.live == Sum(RunBooks(h, b, ds).mem.finished)
  {
    ProgressIsExact(h, b, ds);
  }

  /** The first `len` elements without the one at `i`; the array behind them is unchanged. */
  ghost function Shift(a: seq<string>, i: nat, len: nat): seq<string>
    requires i < len <= |a|
  {
    a[..i] + a[i + 1..len] + a[len - 1..]
  }

  lemma ShiftPrefix(a: seq<string>, i: nat, len: nat, n: nat)
    requires i < len <= n <= |a|
    ensures Shift(a, i, len)[..n] == Shift(a[..n], i, len)
  {
    var head := a[..i] + a[i + 1..len];
    assert |head| == len - 1;
    assert a[..n][..i] == a[..i] && a[..n][i + 1..len] == a[i + 1..len] && a[..n][len - 1..] == a[len - 1..n];
    assert a[len - 1..][..n - (len - 1)] == a[len - 1..n];
    assert (head + a[len - 1..])[..n] == head + a[len - 1..][..n - (len - 1)];
  }

  /**
   State of the loop over the original queue `q`: the array holds `a`, index `i` comes next, `m`
   elements were deleted, the first at `first`.
   */
  ghost predicate Scan(q: seq<string>, bucket: string, a: seq<string>, i: nat, m: nat, first: nat) {
    Deletions(q, bucket, i, m, first) && |a| == |q| && Contents(q, bucket, a, i, m)
  }

  ghost predicate Deletions(q: seq<string>, bucket: string, i: nat, m: nat, first: nat) {
    var n := |q|;
    && i <= n && m <= n && first <= n
    && (m == 0 <==> first == n)
    && (forall k :: 0 <= k < i && k < first ==> q[k] != bucket)
    && (first < n ==> first < i && q[first] == bucket)
    && (first < n - 1 && q[n - 1] == bucket ==> i <= n - m || (i == n - m + 1 && m >= 2))
  }

  /**
   Up to index |q| - m the array still follows `q`, shifted by `m`; beyond it only copies of the last
   element remain.
   */
  ghost predicate Contents(q: seq<string>, bucket: string, a: seq<string>, i: nat, m: nat)
    requires |a| == |q| && i <= |q| && m <= |q|
  {
    var n := |q|;
    && (forall k :: n - m <= k < n ==> a[k] == q[n - 1])
    && (i <= n - m ==> a[i..n - m] == q[i + m..] && Skim(q, bucket) == a[..i] + Skim(q[i + m..], bucket))
    && (i > n - m ==> a[..n - m] == Skim(q, bucket))
  }

  lemma ScanStarts(q: seq<string>, bucket: string)
    ensures Scan(q, bucket, q, 0, 0, |q|)
  {
    assert q[..0] + Skim(q[0..], bucket) == Skim(q, bucket) by { assert q[0..] == q; }
  }

  lemma ScanKeeps(q: seq<string>, bucket: string, a: seq<string>, i: nat, m: nat, first: nat)
    requires Scan(q, bucket, a, i, m, first) && i < |q| && a[i] != bucket
    ensures Scan(q, bucket, a, i + 1, m, first)
  {
    var n := |q|;
    if i < n - m {
      var rest := q[i + m..];
      assert a[i] == a[i..n - m][0] == rest[0];
      assert a[i + 1..n - m] == a[i..n - m][1..] == rest[1..] == q[i + 1 + m..];
      assert a[..i] + ([a[i]] + Skim(rest[1..], bucket)) == a[..i + 1] + Skim(rest[1..], bucket);
    } else if i == n - m {
      assert q[i + m..] == [];
      assert a[..i] + Skim([], bucket) == a[..n - m];
    }
  }

  lemma ScanDeletes(q: seq<string>, bucket: string, a: seq<string>, i: nat, m: nat, first: nat)
    returns (a': seq<string>, first': nat)
    requires Scan(q, bucket, a, i, m, first) && i < |q| && a[i] == bucket && i + 1 <= |q| - m
    ensures a' == Shift(a, i, |q| - m) && |a'| == |q|
    ensures |q| < i || Scan(q, bucket, a', i + 1, m + 1, first')
  {
    a', first' := Shift(a, i, |q| - m), if first == |q| then i else first;
    DeletionsGrow(q, bucket, a, i, m, first);
    ContentsShift(q, bucket, a, i, m);
  }

  lemma DeletionsGrow(q: seq<string>, bucket: string, a: seq<string>, i: nat, m: nat, first: nat)
    requires Scan(q, bucket, a, i, m, first) && i < |q| && a[i] == bucket && i + 1 <= |q| - m
    ensures Deletions(q, bucket, i + 1, m + 1, if first == |q| then i else first)
  {
    assert a[i] == a[i..|q| - m][0] == q[i + m..][0];
  }

  /** What Shift does to each part of the array. */
  lemma ShiftParts(a: seq<string>, i: nat, len: nat)
    requires i < len <= |a|
    ensures var r := Shift(a, i, len);
            && |r| == |a| && r[..i] == a[..i] && r[..len - 1] == a[..i] + a[i + 1..len] && r[len - 1..] == a[len - 1..]
            && (i + 1 < len ==> r[..i + 1] == a[..i] + [a[i + 1]] && r[i + 1..len - 1] == a[i + 2..len])
  {
    var r := Shift(a, i, len);
    if i + 1 < len {
      assert a[i + 1..len] == [a[i + 1]] + a[i + 2..len];
      assert r == (a[..i] + [a[i + 1]]) + (a[i + 2..len] + a[len - 1..]);
    }
  }

  lemma ShiftTail(q: seq<string>, a: seq<string>, i: nat, len: nat, r: seq<string>)
    requires |a| == |q| && i < len <= |a| && r == Shift(a, i, len)
    requires a[i..len] == q[i + (|q| - len)..]
    requires forall k :: len <= k < |q| ==> a[k] == q[|q| - 1]
    ensures |r| == |q| && forall k :: len - 1 <= k < |q| ==> r[k] == q[|q| - 1]
  {
    ShiftParts(a, i, len);
    assert a[len - 1] == a[i..len][len - 1 - i];
    forall k | len - 1 <= k < |q| ensures r[k] == q[|q| - 1] {
      assert r[k] == r[len - 1..][k - (len - 1)] == a[len - 1..][k - (len - 1)] == a[k];
    }
  }

  lemma SkimAfter(a: seq<string>, i: nat, len: nat, bucket: string, rest: seq<string>, r: seq<string>)
    requires i + 1 < len <= |a| && a[i..len] == rest && a[i] == bucket && r == Shift(a, i, len)
    ensures a[..i] + Skim(rest, bucket) == r[..i + 1] + Skim(rest[2..], bucket)
    ensures r[i + 1..len - 1] == rest[2..]
  {
    ShiftParts(a, i, len);
    assert rest[0] == bucket && rest[1] == a[i + 1];
    assert a[i + 2..len] == a[i..len][2..];
    ConcatAssoc(a[..i], [rest[1]], Skim(rest[2..], bucket));
  }

  lemma ContentsShift(q: seq<string>, bucket: string, a: seq<string>, i: nat, m: nat)
    requires |a| == |q| && m <= |q| && i + 1 <= |q| - m && a[i] == bucket && Contents(q, bucket, a, i, m)
    ensures Contents(q, bucket, Shift(a, i, |q| - m), i + 1, m + 1)
  {
    var len := |q| - m;
    ShiftTail(q, a, i, len, Shift(a, i, len));
    if i + 1 < len {
      SkimAfter(a, i, len, bucket, q[i + m..], Shift(a, i, len));
      assert q[i + m..][2..] == q[i + 1 + (m + 1)..];
    } else {
      ShiftLast(q, bucket, a, i, len);
    }
  }

  lemma ShiftLast(q: seq<string>, bucket: string, a: seq<string>, i: nat, len: nat)
    requires i + 1 == len <= |a| == |q| && a[i] == bucket && a[i..len] == q[|q| - 1..]
    requires Skim(q, bucket) == a[..i] + Skim(q[|q| - 1..], bucket)
    ensures Shift(a, i, len)[..i] == Skim(q, bucket)
  {
    var rest := q[|q| - 1..];
    assert rest == [bucket] by { assert rest[0] == a[i..len][0]; }
    assert Skim(rest, bucket) == [];
    ShiftParts(a, i, len);
    assert a[i + 1..len] == [] && a[..i] + [] == a[..i];
  }

  lemma ScanPanics(q: seq<string>, bucket: string, a: seq<string>, i: nat, m: nat, first: nat)
    requires Scan(q, bucket, a, i, m, first) && i < |q| && a[i] == bucket && i + 1 > |q| - m
    ensures RepeatsAtEnd(q, bucket)
  {
    assert first < i && q[first] == bucket && q[|q| - 1] == bucket;
  }

  /** What a round does to the first elements of the array and to the queue's length. */
  datatype Round = Panic | Next(a: seq<string>, len: nat)

  ghost function RoundOn(a: seq<string>, bucket: string, i: nat, len: nat): Round
    requires i < |a| && len <= |a|
  {
    if a[i] != bucket then Next(a, len)
    else if i + 1 > len then Panic
    else Next(Shift(a, i, len), len - 1)
  }

  /** The loop from index `i` on: the queue it leaves, or None for a panic. */
  ghost function Rounds(a: seq<string>, bucket: string, i: nat, len: nat): Option<seq<string>>
    requires i <= |a| && len <= |a|
    decreases |a| - i
  {
    if i == |a| then Some(a[..len])
    else match RoundOn(a, bucket, i, len)
      case Panic => None
      case Next(a', len') => Rounds(a', bucket, i + 1, len')
  }

  /** What the loop is to leave. */
  ghost function Skimmed(q: seq<string>, bucket: string): Option<seq<string>> {
    if RepeatsAtEnd(q, bucket) then None else Some(Skim(q, bucket))
  }

  /** The loop's start, and what it is to end with. */
  lemma QueueRounds(q: seq<string>, bucket: string, i: nat) returns (a: seq<string>, r: Option<seq<string>>)
    requires i == 0
    ensures a == q && Rounds(a, bucket, i, |a|) == r
    ensures r.None? == RepeatsAtEnd(q, bucket) && (r.Some? ==> r.value == Skim(q, bucket))
  {
    a := q;
    r := RoundsSkim(q, bucket, i);
  }

  /** The whole loop, from the index `i` at which it starts. */
  lemma RoundsSkim(q: seq<string>, bucket: string, i: nat) returns (r: Option<seq<string>>)
    requires i == 0
    ensures Rounds(q, bucket, i, |q|) == r && r == Skimmed(q, bucket)
  {
    r := Skimmed(q, bucket);
    ScanStarts(q, bucket);
    RoundsScan(q, bucket, q, i, 0, |q|, r);
  }

  lemma {:induction false} RoundsScan(
    q: seq<string>, bucket: string, a: seq<string>, i: nat, m: nat, first: nat, r: Option<seq<string>>)
    requires i <= |q| == |a| && m <= |q| && (|q| < i || Scan(q, bucket, a, i, m, first))
    requires r == Skimmed(q, bucket)
    ensures Rounds(a, bucket, i, |q| - m) == r
    decreases |q| - i, 1
  {
    if i == |q| {
      ScanEnds(q, bucket, a, i, m, first);
    } else if a[i] == bucket {
      RoundsMatch(q, bucket, a, i, m, first, r);
    } else {
      ScanKeeps(q, bucket, a, i, m, first);
      RoundsScan(q, bucket, a, i + 1, m, first, r);
    }
  }

  lemma {:induction false} RoundsMatch(
    q: seq<string>, bucket: string, a: seq<string>, i: nat, m: nat, first: nat, r: Option<seq<string>>)
    requires i < |q| == |a| && m <= |q| && a[i] == bucket && (|q| < i || Scan(q, bucket, a, i, m, first))
    requires r == Skimmed(q, bucket)
    ensures Rounds(a, bucket, i, |q| - m) == r
    decreases |q| - i, 0
  {
    if i + 1 > |q| - m {
      ScanPanics(q, bucket, a, i, m, first);
    } else {
      var a', first' := ScanDeletes(q, bucket, a, i, m, first);
      RoundShifts(a, bucket, i, |q| - m, a');
      RoundsScan(q, bucket, a', i + 1, m + 1, first', r);
    }
  }

  lemma RoundShifts(a: seq<string>, bucket: string, i: nat, len: nat, a': seq<string>)
    requires i < |a| && i + 1 <= len <= |a| && a[i] == bucket && a' == Shift(a, i, len) && |a'| == |a|
    ensures Rounds(a, bucket, i, len) == Rounds(a', bucket, i + 1, len - 1)
  {
  }

  lemma ScanEnds(q: seq<string>, bucket: string, a: seq<string>, i: nat, m: nat, first: nat)
    requires Scan(q, bucket, a, i, m, first) && i == |q|
    ensures a[..|q| - m] == Skim(q, bucket) && !RepeatsAtEnd(q, bucket)
  {
    if i <= |q| - m {
      assert q[i + m..] == [] && a[..i] + [] == a[..i];
    }
  }
}
