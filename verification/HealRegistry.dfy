/**
 The registry of heal sequences (cmd/admin-heal-ops.go): a map from heal path to sequence, edited by
 concurrent launches, stops, completions and a periodic cleanup.  Each mutex-held region is one
 atomic step; pointers to sequences are identifiers.
 */
module HealRegistry {
  import opened Prelude

  // ---------- state ----------

  type Path = string
  type Id = nat
  type Time = int

  /** How long the state of an ended sequence is kept: ten minutes, in seconds. */
  const KEEP_DURATION: int := 600

  datatype Summary = NotStarted | Running | Stopped | Finished {
    predicate Terminal() { Stopped? || Finished? }
  }

  /** Where the goroutine of a sequence stands. */
  datatype Phase = Created | Launched | Healing | Done

  datatype Sequence = Sequence(
    path: Path,
    background: bool,
    forceStarted: bool,
    phase: Phase,
    summary: Summary,
    endTime: Option<Time>,
    cancelled: bool)
  {
    /** The background heal never counts as ended. */
    predicate HasEnded() { !background && endTime.Some? }

    /** Launched and not finished. */
    predicate Active() { phase == Launched || phase == Healing }
  }

  /** A request in flight, between two of its locked regions. */
  datatype Op =
    | Checking(id: Id, found: Option<Id>)
    | Stopping(path: Path, victim: Id, signalled: bool, next: Option<Id>)
    | Ready(id: Id)

  datatype State = State(now: Time, registry: map<Path, Id>, seqs: map<Id, Sequence>, ops: map<nat, Op>)

  function Init(): State { State(0, map[], map[], map[]) }

  predicate Overlap(p: Path, q: Path) {
    p <= q || q <= p
  }

  // ---------- the locked regions ----------

  datatype Region =
    | Tick(t: Time)
    | NewSequence(id: Id, path: Path, background: bool, forced: bool)
    | RequestStop(op: nat, path: Path)
    | RequestLaunch(op: nat, id: Id)
    | CheckRunning(op: nat)
    | SignalStop(op: nat)
    | RemoveStopped(op: nat)
    | Launch(op: nat)
    | Start(id: Id)
    | End(id: Id, cancelled: bool, failed: bool)
    | Clean(at: Time)

  /** Sequences of the registry that block a launch on `path`. */
  ghost predicate Blocked(s: State, path: Path) {
    exists k :: Filed(s, k) && Overlap(k, path)
  }

  /** Ended more than the keep duration before `at`. */
  predicate Stale(q: Sequence, at: Time) {
    q.HasEnded() && q.endTime.value + KEEP_DURATION < at
  }

  ghost predicate Enabled(s: State, r: Region) {
    match r
    case Tick(t) => s.now <= t
    case NewSequence(id, _, _, _) => id !in s.seqs
    case RequestStop(op, _) => op !in s.ops
    case RequestLaunch(op, id) =>
      op !in s.ops && id in s.seqs && s.seqs[id].phase == Created && forall o :: o in s.ops ==> !Owns(s.ops[o], id)
    case CheckRunning(op) => op in s.ops && s.ops[op].Checking? && (s.ops[op].found.Some? ==> s.ops[op].found.value in s.seqs)
    case SignalStop(op) => op in s.ops && s.ops[op].Stopping? && s.ops[op].victim in s.seqs
    case RemoveStopped(op) =>
      op in s.ops && s.ops[op].Stopping? && s.ops[op].signalled
      && s.ops[op].victim in s.seqs && s.seqs[s.ops[op].victim].HasEnded()
    case Launch(op) => op in s.ops && s.ops[op].Ready? && s.ops[op].id in s.seqs
    case Start(id) => id in s.seqs && s.seqs[id].phase == Launched
    case End(id, cancelled, _) =>
      id in s.seqs && s.seqs[id].phase == Healing && (cancelled ==> s.seqs[id].cancelled)
    case Clean(at) => at <= s.now
  }

  /** The operation will launch, or is about to launch, the sequence. */
  predicate Owns(op: Op, id: Id) {
    match op
    case Checking(i, _) => i == id
    case Stopping(_, _, _, next) => next == Some(id)
    case Ready(i) => i == id
  }

  /** getHealSequence, then what the caller keeps of it. */
  function AfterLookup(s: State, op: nat, path: Path, next: Option<Id>): State {
    if path in s.registry then s.(ops := s.ops[op := Stopping(path, s.registry[path], false, next)])
    else if next.Some? then s.(ops := s.ops[op := Ready(next.value)])
    else s
  }

  ghost function Apply(s: State, r: Region): State
    requires Enabled(s, r)
  {
    match r
    case Tick(t) => s.(now := t)
    case NewSequence(id, path, background, forced) =>
      s.(seqs := s.seqs[id := Sequence(path, background, forced, Created, NotStarted, None, false)])
    case RequestStop(op, path) => AfterLookup(s, op, path, None)
    case RequestLaunch(op, id) =>
      var q := s.seqs[id];
      if q.forceStarted then AfterLookup(s, op, q.path, Some(id))
      else s.(ops := s.ops[op := Checking(id, if q.path in s.registry then Some(s.registry[q.path]) else None)])
    case CheckRunning(op) =>
      var o := s.ops[op];
      if o.found.Some? && !s.seqs[o.found.value].HasEnded() then s.(ops := s.ops - {op})
      else s.(ops := s.ops[op := Ready(o.id)])
    case SignalStop(op) =>
      var o := s.ops[op];
      s.(seqs := s.seqs[o.victim := s.seqs[o.victim].(cancelled := true)], ops := s.ops[op := o.(signalled := true)])
    case RemoveStopped(op) =>
      var o := s.ops[op];
      s.(registry := s.registry - {o.path},
         ops := if o.next.Some? then s.ops[op := Ready(o.next.value)] else s.ops - {op})
    case Launch(op) =>
      var id := s.ops[op].id;
      var q := s.seqs[id];
      if Blocked(s, q.path) then s.(ops := s.ops - {op})
      else s.(registry := s.registry[q.path := id], seqs := s.seqs[id := q.(phase := Launched)], ops := s.ops - {op})
    case Start(id) => s.(seqs := s.seqs[id := s.seqs[id].(phase := Healing, summary := Running)])
    case End(id, cancelled, failed) =>
      s.(seqs := s.seqs[id := s.seqs[id].(
           phase := Done, endTime := Some(s.now),
           summary := if !cancelled && failed then Stopped else Finished)])
    case Clean(at) =>
      s.(registry := map p | p in s.registry && !(s.registry[p] in s.seqs && Stale(s.seqs[s.registry[p]], at)) :: s.registry[p])
  }

  // ---------- the invariant ----------

  /** `p` is the path of an un-ended sequence of the registry. */
  ghost predicate Filed(s: State, p: Path) {
    p in s.registry && s.registry[p] in s.seqs && !s.seqs[s.registry[p]].HasEnded()
  }

  /** No two un-ended sequences of the registry have paths one of which is a prefix of the other. */
  ghost predicate NoOverlap(s: State) {
    forall p, q :: Filed(s, p) && Filed(s, q) && p != q ==> !Overlap(p, q)
  }

  /** Registry entries are launched sequences filed under their own path. */
  ghost predicate WellFiled(s: State) {
    forall p :: p in s.registry ==>
      s.registry[p] in s.seqs && s.seqs[s.registry[p]].path == p && s.seqs[s.registry[p]].phase != Created
  }

  /**
   A sequence's summary says where it stands: not started until its goroutine runs, running while it heals,
   and terminal exactly when its end time is set, which is exactly when it is done.
   */
  ghost predicate SequenceOk(q: Sequence, now: Time) {
    && (q.summary.NotStarted? <==> q.phase.Created? || q.phase.Launched?)
    && (q.summary.Running? <==> q.phase.Healing?)
    && (q.summary.Terminal() <==> q.endTime.Some?)
    && (q.endTime.Some? <==> q.phase == Done)
    && (q.endTime.Some? ==> q.endTime.value <= now)
  }

  ghost predicate SummariesOk(s: State) {
    forall id :: id in s.seqs ==> SequenceOk(s.seqs[id], s.now)
  }

  /** A sequence that a request is going to launch exists and has not been launched. */
  ghost predicate OwnersOk(s: State) {
    forall o, id :: o in s.ops && Owns(s.ops[o], id) ==> id in s.seqs && s.seqs[id].phase == Created
  }

  /** No sequence is launched by two requests. */
  ghost predicate OwnersUnique(s: State) {
    forall o, o', id :: o in s.ops && o' in s.ops && Owns(s.ops[o], id) && Owns(s.ops[o'], id) ==> o == o'
  }

  /** A stop waits for a launched sequence of its path. */
  ghost predicate VictimsOk(s: State) {
    forall o :: o in s.ops && s.ops[o].Stopping? ==>
      s.ops[o].victim in s.seqs && s.seqs[s.ops[o].victim].path == s.ops[o].path
      && s.seqs[s.ops[o].victim].phase != Created
  }

  ghost predicate OpsOk(s: State) {
    OwnersOk(s) && OwnersUnique(s) && VictimsOk(s)
  }

  ghost predicate Inv(s: State) {
    NoOverlap(s) && WellFiled(s) && SummariesOk(s) && OpsOk(s)
  }

  /** Every region keeps the invariant. */
  lemma RegionKeepsInv(s: State, r: Region)
    requires Inv(s) && Enabled(s, r)
    ensures Inv(Apply(s, r))
  {
    RegionKeepsNoOverlap(s, r);
    RegionKeepsOps(s, r);
    RegionKeepsSummaries(s, r);
  }

  lemma RegionKeepsNoOverlap(s: State, r: Region)
    requires Inv(s) && Enabled(s, r)
    ensures NoOverlap(Apply(s, r)) && WellFiled(Apply(s, r))
  {
    var s' := Apply(s, r);
    forall p | p in s'.registry
      ensures s'.registry[p] in s'.seqs && s'.seqs[s'.registry[p]].path == p && s'.seqs[s'.registry[p]].phase != Created
    {
      EntryHistory(s, r, p);
    }
    forall p, q | Filed(s', p) && Filed(s', q) && p != q
      ensures !Overlap(p, q)
    {
      EntryHistory(s, r, p);
      EntryHistory(s, r, q);
    }
  }

  /** An entry of the registry was there before, or has just been filed by a launch that nothing blocked. */
  lemma EntryHistory(s: State, r: Region, p: Path)
    requires Inv(s) && Enabled(s, r) && p in Apply(s, r).registry
    ensures var s' := Apply(s, r);
            || (p in s.registry && s.registry[p] == s'.registry[p] && (Filed(s', p) ==> Filed(s, p)))
            || (r.Launch? && s'.registry[p] == s.ops[r.op].id && s.seqs[s.ops[r.op].id].path == p && !Blocked(s, p))
    ensures var s' := Apply(s, r);
            s'.registry[p] in s'.seqs && s'.seqs[s'.registry[p]].path == p && s'.seqs[s'.registry[p]].phase != Created
  {
  }

  lemma RegionKeepsSummaries(s: State, r: Region)
    requires Inv(s) && Enabled(s, r)
    ensures SummariesOk(Apply(s, r))
  {
  }

  lemma RegionKeepsOps(s: State, r: Region)
    requires Inv(s) && Enabled(s, r)
    ensures OpsOk(Apply(s, r))
  {
    RegionKeepsOwners(s, r);
    RegionKeepsUnique(s, r);
    RegionKeepsVictims(s, r);
  }

  lemma RegionKeepsOwners(s: State, r: Region)
    requires Inv(s) && Enabled(s, r)
    ensures OwnersOk(Apply(s, r))
  {
    var s' := Apply(s, r);
    forall o, id | o in s'.ops && Owns(s'.ops[o], id)
      ensures id in s'.seqs && s'.seqs[id].phase == Created
    {
      OwnersComeFromRequests(s, r, o, id);
    }
  }

  lemma RegionKeepsUnique(s: State, r: Region)
    requires Inv(s) && Enabled(s, r)
    ensures OwnersUnique(Apply(s, r))
  {
    var s' := Apply(s, r);
    forall o, o', id | o in s'.ops && o' in s'.ops && Owns(s'.ops[o], id) && Owns(s'.ops[o'], id)
      ensures o == o'
    {
      OwnersComeFromRequests(s, r, o, id);
      OwnersComeFromRequests(s, r, o', id);
    }
  }

  /** Who owns a sequence after a region owned it before, unless the region is its launch request. */
  lemma OwnersComeFromRequests(s: State, r: Region, o: nat, id: Id)
    requires Inv(s) && Enabled(s, r)
    requires o in Apply(s, r).ops && Owns(Apply(s, r).ops[o], id)
    ensures (o in s.ops && Owns(s.ops[o], id)) || r == RequestLaunch(o, id)
    ensures r.Launch? ==> s.ops[r.op].id != id
  {
  }

  lemma RegionKeepsVictims(s: State, r: Region)
    requires Inv(s) && Enabled(s, r)
    ensures VictimsOk(Apply(s, r))
  {
  }

  // ---------- whole runs ----------

  /** `s'` is reached from `s` by the regions `rs`, each enabled where it runs. */
  ghost predicate Reaches(s: State, rs: seq<Region>, s': State)
    decreases |rs|
  {
    if rs == [] then s' == s else Enabled(s, rs[0]) && Reaches(Apply(s, rs[0]), rs[1..], s')
  }

  /**
   In every interleaving of launches, forced starts, stops, completions and cleanups, no two un-ended
   sequences of the registry overlap, and summaries are terminal exactly when the end time is set.
   */
  lemma {:induction false} RunsKeepInv(s: State, rs: seq<Region>, s': State)
    requires Inv(s) && Reaches(s, rs, s')
    ensures Inv(s')
    decreases |rs|
  {
    if rs != [] {
      RegionKeepsInv(s, rs[0]);
      RunsKeepInv(Apply(s, rs[0]), rs[1..], s');
    }
  }

  lemma EveryReachableState(rs: seq<Region>, s: State)
    requires Reaches(Init(), rs, s)
    ensures NoOverlap(s) && WellFiled(s) && SummariesOk(s)
  {
    RunsKeepInv(Init(), rs, s);
  }

  /** The same with the prefixes written out: the paths of un-ended entries never start with one another. */
  lemma {:induction false} EntriesApart(rs: seq<Region>, s: State, p: Path, q: Path)
    requires Reaches(Init(), rs, s) && p in s.registry && q in s.registry && p != q
    ensures s.registry[p] in s.seqs && s.registry[q] in s.seqs
    ensures var a, b := s.seqs[s.registry[p]], s.seqs[s.registry[q]];
            || (a.endTime.Some? && !a.background) || (b.endTime.Some? && !b.background)
            || (!(p <= q) && !(q <= p))
  {
    RunsKeepInv(Init(), rs, s);
    var both := Filed(s, p) && Filed(s, q);
  }

  /** A sequence ends at the end of its own goroutine only, at that time, as stopped if the traversal failed by itself. */
  lemma EndsExactly(s: State, r: Region, id: Id)
    requires Inv(s) && Enabled(s, r) && id in s.seqs && s.seqs[id].endTime.None?
    ensures var q := Apply(s, r).seqs[id];
            && (q.endTime.Some? <==> r.End? && r.id == id)
            && (q.endTime.Some? ==>
                  && q.endTime.value == s.now && (r.cancelled ==> s.seqs[id].cancelled)
                  && q.summary == if r.failed && !r.cancelled then Stopped else Finished)
  {
    assert SequenceOk(s.seqs[id], s.now);
  }

  /** Ending is final: end time, summary and identity of an ended sequence never change again. */
  lemma {:induction false} EndedIsFinal(s: State, rs: seq<Region>, s': State, id: Id)
    requires Inv(s) && Reaches(s, rs, s') && id in s.seqs && s.seqs[id].endTime.Some?
    ensures id in s'.seqs && s'.seqs[id].(cancelled := true) == s.seqs[id].(cancelled := true)
    decreases |rs|
  {
    if rs != [] {
      RegionKeepsInv(s, rs[0]);
      EndedStep(s, rs[0], id);
      EndedIsFinal(Apply(s, rs[0]), rs[1..], s', id);
    }
  }

  lemma EndedStep(s: State, r: Region, id: Id)
    requires Inv(s) && Enabled(s, r) && id in s.seqs && s.seqs[id].endTime.Some?
    ensures id in Apply(s, r).seqs && Apply(s, r).seqs[id].(cancelled := true) == s.seqs[id].(cancelled := true)
  {
    assert SequenceOk(s.seqs[id], s.now);
  }

  /**
   How an entry leaves the registry: a finished stop of its path, a cleanup more than ten minutes
   after its end, or a launch on its path after its end.
   */
  lemma EntryLeaves(s: State, r: Region, p: Path)
    requires Inv(s) && Enabled(s, r) && p in s.registry
    requires !(p in Apply(s, r).registry && Apply(s, r).registry[p] == s.registry[p])
    ensures var q := s.seqs[s.registry[p]];
            match r
            case Clean(_) => q.HasEnded() && q.endTime.value + KEEP_DURATION < s.now
            case RemoveStopped(op) => s.ops[op].path == p
            case Launch(op) => q.HasEnded()
            case _ => false
  {
    if r.Launch? && !s.seqs[s.registry[p]].HasEnded() {
      assert Filed(s, p) && Overlap(p, p);
    }
  }

  // ---------- running sequences outside the registry ----------

  /** Launched and not finished, but no longer filed under its path. */
  ghost predicate Orphan(s: State, id: Id) {
    id in s.seqs && s.seqs[id].Active() && !(s.seqs[id].path in s.registry && s.registry[s.seqs[id].path] == id)
  }

  /** As long as there is no orphan, no two running sequences overlap at all. */
  lemma NoOrphansNoRunningOverlap(s: State, a: Id, b: Id)
    requires Inv(s) && a in s.seqs && b in s.seqs && a != b && s.seqs[a].Active() && s.seqs[b].Active()
    requires !Orphan(s, a) && !Orphan(s, b)
    ensures !Overlap(s.seqs[a].path, s.seqs[b].path)
  {
    assert SequenceOk(s.seqs[a], s.now) && SequenceOk(s.seqs[b], s.now);
    assert Filed(s, s.seqs[a].path) && Filed(s, s.seqs[b].path);
  }

  /**
   The exact way a running sequence is orphaned: a stop finishes on its path after waiting for an
   earlier sequence there.
   */
  lemma OrphanedExactlyByLateStops(s: State, r: Region, id: Id)
    requires Inv(s) && Enabled(s, r) && !Orphan(s, id)
    ensures Orphan(Apply(s, r), id) <==>
            && r.RemoveStopped? && id in s.seqs && s.seqs[id].Active()
            && s.seqs[id].path == s.ops[r.op].path && id != s.ops[r.op].victim
  {
    if id in s.seqs {
      assert SequenceOk(s.seqs[id], s.now);
      if r.Launch? && s.seqs[id].Active() && s.seqs[id].path in s.registry && s.registry[s.seqs[id].path] == id {
        assert Filed(s, s.seqs[id].path);
        var p := s.seqs[s.ops[r.op].id].path;
        if p == s.seqs[id].path { assert Overlap(p, p) && Blocked(s, p); }
      }
    }
  }

  // ---------- overlap of running sequences, exactly ----------

  /** Two sequences run at once on paths one of which is a prefix of the other. */
  ghost predicate Clash(s: State, a: Id, b: Id) {
    && a in s.seqs && b in s.seqs && a != b && s.seqs[a].Active() && s.seqs[b].Active()
    && Overlap(s.seqs[a].path, s.seqs[b].path)
  }

  /** The region launches `a`, unblocked by any entry, over the orphan `b`. */
  ghost predicate LaunchesOver(s: State, r: Region, a: Id, b: Id)
    requires Enabled(s, r)
  {
    && r.Launch? && s.ops[r.op].id == a && !Blocked(s, s.seqs[a].path)
    && Orphan(s, b) && Overlap(s.seqs[a].path, s.seqs[b].path)
  }

  /** Only a launch makes a sequence active, and nothing changes a path. */
  lemma ActiveHistory(s: State, r: Region, id: Id)
    requires Inv(s) && Enabled(s, r) && id in Apply(s, r).seqs && Apply(s, r).seqs[id].Active()
    ensures id in s.seqs && s.seqs[id].path == Apply(s, r).seqs[id].path
    ensures s.seqs[id].Active() || (r.Launch? && s.ops[r.op].id == id && !Blocked(s, s.seqs[id].path))
  {
    assert id in s.seqs ==> SequenceOk(s.seqs[id], s.now);
  }

  /** A running sequence that is not an orphan blocks every launch on an overlapping path. */
  lemma FiledBlocks(s: State, id: Id, path: Path)
    requires Inv(s) && id in s.seqs && s.seqs[id].Active() && !Orphan(s, id) && Overlap(s.seqs[id].path, path)
    ensures Blocked(s, path)
  {
    assert SequenceOk(s.seqs[id], s.now);
    assert Filed(s, s.seqs[id].path);
  }

  /** An unblocked launch makes its sequence active and leaves the others as they are. */
  lemma LaunchActivates(s: State, r: Region, id: Id)
    requires Inv(s) && Enabled(s, r) && r.Launch? && s.ops[r.op].id == id && !Blocked(s, s.seqs[id].path)
    ensures s.seqs[id].phase == Created && Apply(s, r).seqs == s.seqs[id := s.seqs[id].(phase := Launched)]
    ensures Apply(s, r).seqs[id].Active()
  {
    assert Owns(s.ops[r.op], id);
    assert SequenceOk(s.seqs[id], s.now);
  }

  /**
   The exact way two running sequences come to overlap: one of them is launched, nothing filed blocks
   its path, and the other is an orphan whose path overlaps.
   */
  lemma ClashExactly(s: State, r: Region, a: Id, b: Id)
    requires Inv(s) && Enabled(s, r) && a != b && !Clash(s, a, b)
    ensures Clash(Apply(s, r), a, b) <==> LaunchesOver(s, r, a, b) || LaunchesOver(s, r, b, a)
  {
    if Clash(Apply(s, r), a, b) {
      ActiveHistory(s, r, a);
      ActiveHistory(s, r, b);
      if s.seqs[a].Active() {
        if !Orphan(s, a) { FiledBlocks(s, a, s.seqs[b].path); }
      } else {
        if !Orphan(s, b) { FiledBlocks(s, b, s.seqs[a].path); }
      }
    } else if LaunchesOver(s, r, a, b) {
      LaunchActivates(s, r, a);
      assert false;
    } else if LaunchesOver(s, r, b, a) {
      LaunchActivates(s, r, b);
      assert false;
    }
  }

  ghost predicate NoClash(s: State) {
    forall a, b :: !Clash(s, a, b)
  }

  ghost predicate LaunchesOverOrphan(s: State, r: Region)
    requires Enabled(s, r)
  {
    exists a, b :: LaunchesOver(s, r, a, b)
  }

  lemma NoClashExactly(s: State, r: Region)
    requires Inv(s) && Enabled(s, r) && NoClash(s)
    ensures NoClash(Apply(s, r)) <==> !LaunchesOverOrphan(s, r)
  {
    var s' := Apply(s, r);
    if LaunchesOverOrphan(s, r) {
      var a, b :| LaunchesOver(s, r, a, b);
      LaunchActivates(s, r, a);
      assert a != b;
      ClashExactly(s, r, a, b);
      assert Clash(s', a, b);
    } else {
      forall a, b ensures !Clash(s', a, b) {
        if a != b {
          assert !Clash(s, a, b);
          ClashExactly(s, r, a, b);
        }
      }
    }
  }

  /** No two running sequences overlap before any region of the run or at its end. */
  ghost predicate AlwaysClear(s: State, rs: seq<Region>)
    decreases |rs|
  {
    NoClash(s) && (rs == [] || (Enabled(s, rs[0]) && AlwaysClear(Apply(s, rs[0]), rs[1..])))
  }

  /** No region of the run launches a sequence over an orphan. */
  ghost predicate NeverOverOrphan(s: State, rs: seq<Region>)
    decreases |rs|
  {
    rs == [] || (Enabled(s, rs[0]) && !LaunchesOverOrphan(s, rs[0]) && NeverOverOrphan(Apply(s, rs[0]), rs[1..]))
  }

  /** Over every run, no two running sequences ever overlap if and only if none is launched over an orphan. */
  lemma {:induction false} ClearExactly(s: State, rs: seq<Region>, end: State)
    requires Inv(s) && NoClash(s) && Reaches(s, rs, end)
    ensures AlwaysClear(s, rs) <==> NeverOverOrphan(s, rs)
    decreases |rs|
  {
    if rs != [] {
      RegionKeepsInv(s, rs[0]);
      NoClashExactly(s, rs[0]);
      if !LaunchesOverOrphan(s, rs[0]) {
        ClearExactly(Apply(s, rs[0]), rs[1..], end);
      }
    }
  }

  lemma {:induction false} ReachesExtend(s: State, rs: seq<Region>, s': State, r: Region)
    requires Reaches(s, rs, s') && Enabled(s', r)
    ensures Reaches(s, rs + [r], Apply(s', r))
    decreases |rs|
  {
    if rs == [] {
      assert rs + [r] == [r] && [r][1..] == [];
    } else {
      ReachesExtend(Apply(s, rs[0]), rs[1..], s', r);
      assert (rs + [r])[1..] == rs[1..] + [r];
    }
  }

  /** A run continued by one region. */
  lemma Then(s0: State, rs: seq<Region>, s: State, r: Region) returns (rs': seq<Region>, s': State)
    requires Reaches(s0, rs, s) && Enabled(s, r)
    ensures Reaches(s0, rs', s') && s' == Apply(s, r)
  {
    ReachesExtend(s0, rs, s, r);
    rs', s' := rs + [r], Apply(s, r);
  }

  /** A launch request that nothing stands in the way of: created, checked and launched. */
  lemma LaunchFresh(s0: State, rs: seq<Region>, s: State, id: Id, op: nat, path: Path) returns (rs': seq<Region>, s': State)
    requires Reaches(s0, rs, s) && id !in s.seqs && op !in s.ops && s.registry == map[]
    requires forall o :: o in s.ops ==> !Owns(s.ops[o], id)
    ensures Reaches(s0, rs', s')
    ensures s' == s.(registry := map[path := id],
                     seqs := s.seqs[id := Sequence(path, false, false, Launched, NotStarted, None, false)])
  {
    rs', s' := Requested(s0, rs, s, id, op, path);
    rs', s' := Then(s0, rs', s', Launch(op));
    assert s'.ops == s.ops;
  }

  /** The request up to the end of its check. */
  lemma Requested(s0: State, rs: seq<Region>, s: State, id: Id, op: nat, path: Path) returns (rs': seq<Region>, s': State)
    requires Reaches(s0, rs, s) && id !in s.seqs && op !in s.ops && s.registry == map[]
    requires forall o :: o in s.ops ==> !Owns(s.ops[o], id)
    ensures Reaches(s0, rs', s')
    ensures s' == s.(seqs := s.seqs[id := Sequence(path, false, false, Created, NotStarted, None, false)],
                     ops := s.ops[op := Ready(id)])
  {
    rs', s' := Then(s0, rs, s, NewSequence(id, path, false, false));
    rs', s' := Then(s0, rs', s', RequestLaunch(op, id));
    rs', s' := Then(s0, rs', s', CheckRunning(op));
  }

  /** A stop request that finds the sequence `id` and signals it. */
  lemma StopRequested(s0: State, rs: seq<Region>, s: State, id: Id, op: nat, path: Path) returns (rs': seq<Region>, s': State)
    requires Reaches(s0, rs, s) && id in s.seqs && op !in s.ops && s.registry == map[path := id]
    ensures Reaches(s0, rs', s')
    ensures s' == s.(seqs := s.seqs[id := s.seqs[id].(cancelled := true)],
                     ops := s.ops[op := Stopping(path, id, true, None)])
  {
    rs', s' := Then(s0, rs, s, RequestStop(op, path));
    rs', s' := Then(s0, rs', s', SignalStop(op));
    assert s'.ops == s.ops[op := Stopping(path, id, true, None)];
  }

  /** The signalled sequence ends and the stop `op` removes it. */
  lemma StopFinishes(s0: State, rs: seq<Region>, s: State, id: Id, op: nat, path: Path) returns (rs': seq<Region>, s': State)
    requires Reaches(s0, rs, s) && id in s.seqs && s.registry == map[path := id]
    requires s.seqs[id].phase == Launched && s.seqs[id].cancelled && !s.seqs[id].background
    requires op in s.ops && s.ops[op] == Stopping(path, id, true, None)
    ensures Reaches(s0, rs', s')
    ensures s' == s.(registry := map[], ops := s.ops - {op},
                     seqs := s.seqs[id := s.seqs[id].(phase := Done, endTime := Some(s.now), summary := Finished)])
  {
    rs', s' := Then(s0, rs, s, Start(id));
    rs', s' := Then(s0, rs', s', End(id, true, false));
    rs', s' := Then(s0, rs', s', RemoveStopped(op));
    assert s'.registry == map[];
    assert s'.seqs == s.seqs[id := s.seqs[id].(phase := Done, endTime := Some(s.now), summary := Finished)];
  }

  /** Two stops wait for the same sequence; it ends and the first of them finishes. */
  lemma OneOfTwoStops(s0: State) returns (rs: seq<Region>, s: State)
    requires s0 == Init()
    ensures Reaches(s0, rs, s) && s.registry == map[]
    ensures s.ops == map[1 := Stopping("b", 0, true, None)]
    ensures s.seqs.Keys == {0} && s.seqs[0].HasEnded()
  {
    rs, s := LaunchFresh(s0, [], s0, 0, 9, "b");
    rs, s := StopRequested(s0, rs, s, 0, 0, "b");
    rs, s := StopRequested(s0, rs, s, 0, 1, "b");
    rs, s := StopFinishes(s0, rs, s, 0, 0, "b");
  }

  /**
   The stronger claim, that no two running sequences overlap, is false: the second stop removes the
   entry of a sequence launched after its own victim ended, and a third launch on the path is accepted.
   */
  lemma RunningOverlapIsReachable(s0: State) returns (rs: seq<Region>, s: State)
    requires s0 == Init()
    ensures Reaches(s0, rs, s)
    ensures 1 in s.seqs && 2 in s.seqs && s.seqs[1].Active() && s.seqs[2].Active()
    ensures Overlap(s.seqs[1].path, s.seqs[2].path)
  {
    rs, s := OneOfTwoStops(s0);
    rs, s := LaunchFresh(s0, rs, s, 1, 9, "b");
    rs, s := Then(s0, rs, s, RemoveStopped(1));
    assert s.registry == map[];
    rs, s := LaunchFresh(s0, rs, s, 2, 9, "b");
  }

  /** A launch that is not forced, on the path of an un-ended entry, is refused and changes nothing. */
  lemma UnforcedIsRefused(s: State, op: nat, id: Id) returns (rs: seq<Region>)
    requires Enabled(s, RequestLaunch(op, id)) && !s.seqs[id].forceStarted && Filed(s, s.seqs[id].path)
    ensures rs == [RequestLaunch(op, id), CheckRunning(op)] && Reaches(s, rs, s)
  {
    var s1 := Apply(s, RequestLaunch(op, id));
    rs := [RequestLaunch(op, id), CheckRunning(op)];
    assert Apply(s1, CheckRunning(op)) == s by { assert s.ops[op := s1.ops[op]] - {op} == s.ops; }
    assert rs[1..] == [CheckRunning(op)];
    assert Reaches(s1, [CheckRunning(op)], s);
  }

  /** A stop of a path that is not in the registry changes nothing. */
  lemma StopOfNothing(s: State, op: nat, path: Path)
    requires Enabled(s, RequestStop(op, path)) && path !in s.registry
    ensures Apply(s, RequestStop(op, path)) == s
  {
  }

  /**
   A forced start takes over the path of a running sequence, once the old one has ended: it is signalled,
   ends as finished, leaves the registry, and the new one is filed and launched.
   */
  lemma ForcedStartTakesOver(s: State, op: nat, id: Id, path: Path) returns (rs: seq<Region>, s': State)
    requires Enabled(s, RequestLaunch(op, id)) && s.seqs[id].forceStarted && path == s.seqs[id].path
    requires Filed(s, path) && s.seqs[s.registry[path]].phase == Healing && !s.seqs[s.registry[path]].background
    requires forall k :: Filed(s, k) && k != path ==> !(k <= path) && !(path <= k)
    ensures Reaches(s, rs, s')
    ensures s'.registry == s.registry[path := id] && s'.ops == s.ops && s'.now == s.now
    ensures s'.seqs == s.seqs[s.registry[path] := Ended(s.seqs[s.registry[path]], s.now)][id := s.seqs[id].(phase := Launched)]
  {
    var s1;
    rs, s1 := OldOneStopped(s, op, id, path);
    assert !Blocked(s1, path) by {
      forall k | Filed(s1, k) ensures !Overlap(k, path) { assert Filed(s, k); }
    }
    rs, s' := Then(s, rs, s1, Launch(op));
    assert s'.ops == s.ops;
  }

  /** A stopped sequence at its end. */
  function Ended(q: Sequence, now: Time): Sequence {
    q.(phase := Done, summary := Finished, endTime := Some(now), cancelled := true)
  }

  lemma OldOneStopped(s: State, op: nat, id: Id, path: Path) returns (rs: seq<Region>, s': State)
    requires Enabled(s, RequestLaunch(op, id)) && s.seqs[id].forceStarted && path == s.seqs[id].path
    requires Filed(s, path) && s.seqs[s.registry[path]].phase == Healing && !s.seqs[s.registry[path]].background
    ensures Reaches(s, rs, s')
    ensures s' == s.(registry := s.registry - {path}, ops := s.ops[op := Ready(id)],
                     seqs := s.seqs[s.registry[path] := Ended(s.seqs[s.registry[path]], s.now)])
  {
    var victim := s.registry[path];
    rs, s' := OldOneSignalled(s, op, id, path, victim);
    rs, s' := Then(s, rs, s', End(victim, true, false));
    assert s'.seqs == s.seqs[victim := Ended(s.seqs[victim], s.now)];
    rs, s' := Then(s, rs, s', RemoveStopped(op));
    assert s'.ops == s.ops[op := Ready(id)];
  }

  lemma OldOneSignalled(s: State, op: nat, id: Id, path: Path, victim: Id) returns (rs: seq<Region>, s': State)
    requires Enabled(s, RequestLaunch(op, id)) && s.seqs[id].forceStarted && path == s.seqs[id].path
    requires path in s.registry && victim == s.registry[path] && victim in s.seqs
    ensures Reaches(s, rs, s')
    ensures s' == s.(ops := s.ops[op := Stopping(path, victim, true, Some(id))],
                     seqs := s.seqs[victim := s.seqs[victim].(cancelled := true)])
  {
    rs, s' := Then(s, [], s, RequestLaunch(op, id));
    rs, s' := Then(s, rs, s', SignalStop(op));
  }

  // ---------- the registry as an object ----------

  class AllHealState {
    var now: Time
    var healSeqMap: map<Path, Id>
    var seqs: map<Id, Sequence>
    var ops: map<nat, Op>

    ghost function View(): State
      reads this
    {
      State(now, healSeqMap, seqs, ops)
    }

    constructor ()
      ensures View() == Init()
    {
      now, healSeqMap, seqs, ops := 0, map[], map[], map[];
    }

    /** The locked part of LaunchNewHealSequence: scan for an overlap, then file the sequence. */
    method LaunchNewHealSequence(op: nat) returns (launched: bool)
      requires Inv(View()) && Enabled(View(), Launch(op))
      modifies this
      ensures View() == Apply(old(View()), Launch(op)) && Inv(View())
      ensures launched <==>
                forall k :: k in old(healSeqMap) ==>
                  var q, hpath := old(seqs[healSeqMap[k]]), old(seqs[ops[op].id].path);
                  (q.endTime.Some? && !q.background) || (!(k <= hpath) && !(hpath <= k))
      ensures healSeqMap == if launched then old(healSeqMap[seqs[ops[op].id].path := ops[op].id]) else old(healSeqMap)
    {
      RegionKeepsInv(View(), Launch(op));
      ghost var before := View();
      var id := ops[op].id;
      var hpath := seqs[id].path;
      var overlaps := OverlapsEntry(hpath);
      assert overlaps <==> Blocked(before, hpath) by {
        assert forall k :: Filed(before, k) <==> k in healSeqMap && !(seqs[healSeqMap[k]].endTime.Some? && !seqs[healSeqMap[k]].background);
      }
      ops := ops - {op};
      if overlaps {
        return false;
      }
      healSeqMap := healSeqMap[hpath := id];
      seqs := seqs[id := seqs[id].(phase := Launched)];
      return true;
    }

    /** The scan: does an un-ended entry start with the path, or the path with it? */
    method OverlapsEntry(hpath: Path) returns (overlaps: bool)
      requires forall k :: k in healSeqMap ==> healSeqMap[k] in seqs
      ensures overlaps <==>
                exists k :: k in healSeqMap &&
                  var q := seqs[healSeqMap[k]]; !(q.endTime.Some? && !q.background) && (k <= hpath || hpath <= k)
    {
      var todo := healSeqMap.Keys;
      while todo != {}
        invariant todo <= healSeqMap.Keys
        invariant forall k :: k in healSeqMap && k !in todo ==> seqs[healSeqMap[k]].HasEnded() || !Overlap(k, hpath)
        decreases |todo|
      {
        var k :| k in todo;
        if !seqs[healSeqMap[k]].HasEnded() && Overlap(k, hpath) {
          return true;
        }
        todo := todo - {k};
      }
      return false;
    }

    /** One round of periodicHealSeqsClean. */
    method PeriodicClean(at: Time)
      requires Inv(View()) && at <= now
      modifies this`healSeqMap
      ensures View() == Apply(old(View()), Clean(at)) && Inv(View())
      ensures forall p :: p in healSeqMap <==>
                p in old(healSeqMap) &&
                var q := seqs[old(healSeqMap[p])]; !(q.endTime.Some? && !q.background && q.endTime.value + 600 < at)
    {
      ghost var before := View();
      var todo := healSeqMap.Keys;
      while todo != {}
        invariant todo <= healSeqMap.Keys
        invariant forall p :: p in healSeqMap ==> p in before.registry && healSeqMap[p] == before.registry[p]
        invariant forall p :: p in before.registry && p !in todo ==>
                    (p in healSeqMap <==> !Stale(seqs[before.registry[p]], at))
        decreases |todo|
      {
        var p :| p in todo;
        if Stale(seqs[healSeqMap[p]], at) {
          healSeqMap := healSeqMap - {p};
        }
        todo := todo - {p};
      }
      assert healSeqMap == Apply(before, Clean(at)).registry;
      RegionKeepsInv(before, Clean(at));
    }

    /** The end of stopHealSequence: the sequence waited for has ended, its path is removed. */
    method FinishStop(op: nat)
      requires Inv(View()) && Enabled(View(), RemoveStopped(op))
      modifies this
      ensures View() == Apply(old(View()), RemoveStopped(op)) && Inv(View())
      ensures healSeqMap.Keys == old(healSeqMap.Keys - {ops[op].path}) && seqs == old(seqs)
    {
      RegionKeepsInv(View(), RemoveStopped(op));
      var o := ops[op];
      healSeqMap := healSeqMap - {o.path};
      ops := if o.next.Some? then ops[op := Ready(o.next.value)] else ops - {op};
    }

    /** The end of healSequenceStart. */
    method FinishSequence(id: Id, cancelled: bool, failed: bool)
      requires Inv(View()) && Enabled(View(), End(id, cancelled, failed))
      modifies this`seqs
      ensures View() == Apply(old(View()), End(id, cancelled, failed)) && Inv(View())
      ensures seqs[id].endTime == Some(now)
      ensures seqs[id].summary == Stopped <==> failed && !cancelled
      ensures seqs[id].summary == Finished <==> cancelled || !failed
    {
      RegionKeepsInv(View(), End(id, cancelled, failed));
      var q := seqs[id].(phase := Done, endTime := Some(now));
      if cancelled || !failed {
        q := q.(summary := Finished);
      } else {
        q := q.(summary := Stopped);
      }
      seqs := seqs[id := q];
    }
  }
}
