/**
 The pool of transition workers (cmd/bucket-lifecycle.go): goroutines that take tasks from a bounded
 queue, and UpdateWorkers, which spawns workers or sends kills.  Every goroutine step is an event, and a
 run is any interleaving of events before shutdown.
 */
module WorkerPool {
  import opened Prelude

  type Task = int

  /** Where a worker is: in its select, past it with a task but not counted yet, or at work on one. */
  datatype Phase = Waiting | Taken(task: Task) | Active(task: Task)

  datatype State = State(
    numWorkers: int,
    updating: Option<int>,
    workers: seq<Phase>,
    kills: nat,
    queue: seq<Task>,
    activeTasks: int,
    accepted: seq<Task>,
    received: seq<Task>,
    finished: multiset<Task>,
    target: int)

  const CAPACITY: nat := 10000

  function Initial(): State {
    State(0, None, [], 0, [], 0, [], [], multiset{}, 0)
  }

  datatype Event =
    | Offer(task: Task)        // queueTransitionTask
    | Lock(n: int)             // UpdateWorkers takes the mutex
    | Spawn                    // one round of its first loop
    | SendKill                 // one round of its second loop
    | Unlock
    | Die(worker: nat)         // a worker receives a kill
    | Receive(worker: nat)     // a worker receives a task
    | Begin(worker: nat)       // and counts itself active
    | End(worker: nat)

  predicate Enabled(s: State, e: Event) {
    match e
    case Offer(_) => true
    case Lock(_) => s.updating.None?
    case Spawn => s.updating.Some? && s.numWorkers < s.updating.value
    case SendKill => s.updating.Some? && s.numWorkers > s.updating.value
    case Unlock => s.updating.Some? && s.numWorkers == s.updating.value
    case Die(w) => w < |s.workers| && s.workers[w].Waiting? && s.kills > 0
    case Receive(w) => w < |s.workers| && s.workers[w].Waiting? && s.queue != []
    case Begin(w) => w < |s.workers| && s.workers[w].Taken?
    case End(w) => w < |s.workers| && s.workers[w].Active?
  }

  function Step(s: State, e: Event): State
    requires Enabled(s, e)
  {
    match e
    case Offer(task) =>
      if |s.queue| < CAPACITY then s.(queue := s.queue + [task], accepted := s.accepted + [task]) else s
    case Lock(n) => s.(updating := Some(n), target := n)
    case Spawn => s.(workers := s.workers + [Waiting], numWorkers := s.numWorkers + 1)
    case SendKill => s.(kills := s.kills + 1, numWorkers := s.numWorkers - 1)
    case Unlock => s.(updating := None)
    case Die(w) => s.(workers := Without(s.workers, w), kills := s.kills - 1)
    case Receive(w) =>
      s.(workers := s.workers[w := Taken(s.queue[0])], queue := s.queue[1..], received := s.received + [s.queue[0]])
    case Begin(w) => s.(workers := s.workers[w := Active(s.workers[w].task)], activeTasks := s.activeTasks + 1)
    case End(w) =>
      s.(workers := s.workers[w := Waiting], activeTasks := s.activeTasks - 1,
         finished := s.finished + multiset{s.workers[w].task})
  }

  predicate EnabledRun(s: State, events: seq<Event>)
    decreases |events|
  {
    events == [] || (Enabled(s, events[0]) && EnabledRun(Step(s, events[0]), events[1..]))
  }

  function Run(s: State, events: seq<Event>): State
    requires EnabledRun(s, events)
    decreases |events|
  {
    if events == [] then s else Run(Step(s, events[0]), events[1..])
  }

  // ---------- tallies over the workers ----------

  function Load(p: Phase): multiset<Task> {
    if p.Waiting? then multiset{} else multiset{p.task}
  }

  /** Tasks that workers have in hand. */
  function InHand(workers: seq<Phase>): multiset<Task> {
    if workers == [] then multiset{} else Load(workers[0]) + InHand(workers[1..])
  }

  function Weight(p: Phase): nat {
    if p.Active? then 1 else 0
  }

  function ActiveCount(workers: seq<Phase>): nat {
    if workers == [] then 0 else Weight(workers[0]) + ActiveCount(workers[1..])
  }

  lemma {:induction false} TallyConcat(a: seq<Phase>, b: seq<Phase>)
    ensures InHand(a + b) == InHand(a) + InHand(b)
    ensures ActiveCount(a + b) == ActiveCount(a) + ActiveCount(b)
  {
    if a == [] {
      assert a + b == b;
    } else {
      assert (a + b)[1..] == a[1..] + b;
      TallyConcat(a[1..], b);
    }
  }

  function Without(workers: seq<Phase>, w: nat): (r: seq<Phase>)
    requires w < |workers|
    ensures |r| == |workers| - 1
  {
    workers[..w] + workers[w + 1..]
  }

  /** The tally around one worker. */
  lemma {:induction false} TallyWithout(workers: seq<Phase>, w: nat)
    requires w < |workers|
    ensures InHand(workers) == InHand(Without(workers, w)) + Load(workers[w])
    ensures ActiveCount(workers) == ActiveCount(Without(workers, w)) + Weight(workers[w])
  {
    SplitAround(workers, w);
    TallyAround(workers[..w], workers[w], workers[w + 1..]);
  }

  lemma SplitAround(workers: seq<Phase>, w: nat)
    requires w < |workers|
    ensures workers == workers[..w] + ([workers[w]] + workers[w + 1..])
  {
  }

  lemma {:induction false} TallyAround(a: seq<Phase>, p: Phase, b: seq<Phase>)
    ensures InHand(a + ([p] + b)) == InHand(a + b) + Load(p)
    ensures ActiveCount(a + ([p] + b)) == ActiveCount(a + b) + Weight(p)
  {
    TallyConcat(a, [p] + b);
    TallyFront(p, b);
    TallyConcat(a, b);
    Rotate(InHand(a), Load(p), InHand(b));
  }

  lemma {:induction false} TallyFront(p: Phase, b: seq<Phase>)
    ensures InHand([p] + b) == Load(p) + InHand(b)
    ensures ActiveCount([p] + b) == Weight(p) + ActiveCount(b)
  {
    assert ([p] + b)[1..] == b;
  }

  lemma Rotate(a: multiset<Task>, b: multiset<Task>, c: multiset<Task>)
    ensures a + (b + c) == (a + c) + b
  {
  }

  /** Replacing one worker leaves the others' tally alone. */
  lemma {:induction false} TallySet(workers: seq<Phase>, w: nat, p: Phase)
    requires w < |workers|
    ensures InHand(workers[w := p]) == InHand(Without(workers, w)) + Load(p)
    ensures ActiveCount(workers[w := p]) == ActiveCount(Without(workers, w)) + Weight(p)
  {
    TallyWithout(workers[w := p], w);
    assert Without(workers[w := p], w) == Without(workers, w);
  }

  // ---------- the invariant ----------

  ghost predicate Inv(s: State) {
    && |s.workers| - s.kills == s.numWorkers
    && s.activeTasks == ActiveCount(s.workers)
    && s.accepted == s.received + s.queue
    && multiset(s.received) == InHand(s.workers) + s.finished
    && |s.queue| <= CAPACITY
    && (s.updating.None? ==> s.numWorkers == s.target)
    && (s.updating.Some? ==> s.updating.value == s.target)
  }

  lemma PoolStep(s: State, e: Event)
    requires Inv(s) && Enabled(s, e) && (e.Spawn? || e.SendKill? || e.Lock? || e.Unlock? || e.Offer?)
    ensures Inv(Step(s, e))
  {
    match e
    case Spawn => SpawnTally(s.workers);
    case Offer(t) => ConcatAssoc(s.received, s.queue, [t]);
    case _ =>
  }

  lemma SpawnTally(workers: seq<Phase>)
    ensures InHand(workers + [Waiting]) == InHand(workers)
    ensures ActiveCount(workers + [Waiting]) == ActiveCount(workers)
  {
    TallyConcat(workers, [Waiting]);
    TallyFront(Waiting, []);
    assert [Waiting] + [] == [Waiting];
  }

  lemma DieStep(s: State, w: nat)
    requires Inv(s) && Enabled(s, Die(w))
    ensures Inv(Step(s, Die(w)))
  {
    TallyWithout(s.workers, w);
  }

  lemma ReceiveStep(s: State, w: nat)
    requires Inv(s) && Enabled(s, Receive(w))
    ensures Inv(Step(s, Receive(w)))
  {
    var t, s' := s.queue[0], Step(s, Receive(w));
    TakeTally(s.workers, w, t);
    assert s'.received + s'.queue == s.received + s.queue by {
      ConcatAssoc(s.received, [t], s.queue[1..]);
      assert [t] + s.queue[1..] == s.queue;
    }
    assert multiset(s'.received) == InHand(s'.workers) + s'.finished by {
      assert multiset(s.received + [t]) == multiset(s.received) + multiset{t};
      Swap(InHand(s.workers), s.finished, multiset{t});
    }
  }

  lemma TakeTally(workers: seq<Phase>, w: nat, t: Task)
    requires w < |workers| && workers[w].Waiting?
    ensures InHand(workers[w := Taken(t)]) == InHand(workers) + multiset{t}
    ensures ActiveCount(workers[w := Taken(t)]) == ActiveCount(workers)
  {
    TallyWithout(workers, w);
    TallySet(workers, w, Taken(t));
    assert InHand(Without(workers, w)) + multiset{} == InHand(Without(workers, w));
  }

  lemma Swap(a: multiset<Task>, b: multiset<Task>, c: multiset<Task>)
    ensures (a + b) + c == (a + c) + b
  {
  }

  lemma BeginStep(s: State, w: nat)
    requires Inv(s) && Enabled(s, Begin(w))
    ensures Inv(Step(s, Begin(w)))
  {
    TallyWithout(s.workers, w);
    TallySet(s.workers, w, Active(s.workers[w].task));
  }

  lemma EndStep(s: State, w: nat)
    requires Inv(s) && Enabled(s, End(w))
    ensures Inv(Step(s, End(w)))
  {
    var t, rest := s.workers[w].task, Without(s.workers, w);
    TallyWithout(s.workers, w);
    TallySet(s.workers, w, Waiting);
    calc {
      multiset(s.received);
      (InHand(rest) + multiset{t}) + s.finished;
      { Swap(InHand(rest), multiset{t}, s.finished); }
      (InHand(rest) + s.finished) + multiset{t};
      { Regroup(InHand(rest), s.finished, multiset{t}); }
      InHand(rest) + (s.finished + multiset{t});
    }
    assert InHand(rest) + multiset{} == InHand(rest);
  }

  lemma Regroup(a: multiset<Task>, b: multiset<Task>, c: multiset<Task>)
    ensures (a + b) + c == a + (b + c)
  {
  }

  lemma StepKeepsInv(s: State, e: Event)
    requires Inv(s) && Enabled(s, e)
    ensures Inv(Step(s, e))
  {
    match e
    case Die(w) => DieStep(s, w);
    case Receive(w) => ReceiveStep(s, w);
    case Begin(w) => BeginStep(s, w);
    case End(w) => EndStep(s, w);
    case _ => PoolStep(s, e);
  }

  lemma {:induction false} RunKeepsInv(s: State, events: seq<Event>)
    requires Inv(s) && EnabledRun(s, events)
    ensures Inv(Run(s, events))
    decreases |events|
  {
    if events != [] {
      StepKeepsInv(s, events[0]);
      RunKeepsInv(Step(s, events[0]), events[1..]);
    }
  }

  // ---------- what every interleaving keeps ----------

  /**
   In every interleaving: live workers minus kills on their way is numWorkers, activeTasks counts the
   workers inside a task, and tasks are received in the order they were accepted, each accepted task
   being queued, in a worker's hand, or finished, and once.
   */
  lemma EveryInterleaving(s0: State, events: seq<Event>)
    requires s0 == Initial() && EnabledRun(s0, events)
    ensures var s := Run(s0, events);
            && |s.workers| - s.kills == s.numWorkers
            && s.activeTasks == ActiveCount(s.workers)
            && s.accepted == s.received + s.queue
            && multiset(s.accepted) == multiset(s.queue) + InHand(s.workers) + s.finished
            && |s.queue| <= 10000
  {
    RunKeepsInv(s0, events);
    var s := Run(s0, events);
    assert multiset(s.received + s.queue) == multiset(s.received) + multiset(s.queue);
  }

  /** A pool at rest, with no update under way and no kill undelivered, has the workers last asked for. */
  lemma QuiescentPool(s0: State, events: seq<Event>)
    requires s0 == Initial() && EnabledRun(s0, events)
    requires Run(s0, events).updating.None? && Run(s0, events).kills == 0
    ensures |Run(s0, events).workers| == Run(s0, events).target
  {
    RunKeepsInv(s0, events);
  }

  /** Kills reach waiting workers only, and can always be delivered once no worker has a task. */
  lemma KillsCanLand(s0: State, events: seq<Event>)
    requires s0 == Initial() && EnabledRun(s0, events)
    requires var s := Run(s0, events);
             s.kills > 0 && s.numWorkers >= 0 && InHand(s.workers) == multiset{}
    ensures exists w: nat :: Enabled(Run(s0, events), Die(w))
  {
    RunKeepsInv(s0, events);
    var s := Run(s0, events);
    TallyWithout(s.workers, 0);
    assert s.workers[0].Waiting?;
    assert Enabled(s, Die(0));
  }

  // ---------- the code ----------

  function Repeated<T>(x: T, n: nat): (r: seq<T>)
    ensures |r| == n && forall i :: 0 <= i < n ==> r[i] == x
  {
    seq(n, _ => x)
  }

  /** What UpdateWorkers makes of the pool when no other goroutine runs meanwhile. */
  function Updated(s: State, n: int): State {
    if s.numWorkers <= n
    then s.(workers := s.workers + Repeated(Waiting, n - s.numWorkers), numWorkers := n, target := n)
    else s.(kills := s.kills + (s.numWorkers - n), numWorkers := n, target := n)
  }

  /** The rounds of an uninterrupted update. */
  function UpdateRounds(s: State, n: int): seq<Event> {
    if s.numWorkers <= n then Repeated(Spawn, n - s.numWorkers) else Repeated(SendKill, s.numWorkers - n)
  }

  lemma {:induction false} RoundsRun(s: State, n: int)
    requires s.updating == Some(n) && s.target == n
    ensures EnabledRun(s, UpdateRounds(s, n) + [Unlock])
    ensures Run(s, UpdateRounds(s, n) + [Unlock]) == Updated(s, n).(updating := None)
    decreases if s.numWorkers <= n then n - s.numWorkers else s.numWorkers - n
  {
    var rounds := UpdateRounds(s, n);
    var events := rounds + [Unlock];
    if s.numWorkers == n {
      assert rounds == [] && events == [Unlock];
      assert s.workers + Repeated(Waiting, 0) == s.workers;
      assert events[1..] == [];
    } else {
      var s' := Step(s, events[0]);
      assert events[1..] == UpdateRounds(s', n) + [Unlock];
      RoundsRun(s', n);
      if s.numWorkers < n {
        assert s'.workers + Repeated(Waiting, n - s'.numWorkers) == s.workers + Repeated(Waiting, n - s.numWorkers);
      }
    }
  }

  /** An uninterrupted update is a run of the pool. */
  lemma UpdateIsARun(s: State, n: int)
    requires s.updating.None?
    ensures var events := [Lock(n)] + (UpdateRounds(s, n) + [Unlock]);
            EnabledRun(s, events) && Run(s, events) == Updated(s, n)
  {
    var events := [Lock(n)] + (UpdateRounds(s, n) + [Unlock]);
    var s' := Step(s, Lock(n));
    assert events[1..] == UpdateRounds(s', n) + [Unlock];
    RoundsRun(s', n);
  }

  class TransitionState {
    var numWorkers: int
    var workers: seq<Phase>
    var kills: nat
    var queue: seq<Task>

    constructor ()
      ensures numWorkers == 0 && workers == [] && kills == 0 && queue == []
    {
      numWorkers, workers, kills, queue := 0, [], 0, [];
    }

    /** This pool in a state of the model, whose other fields are `s`. */
    ghost function In(s: State): State
      reads this
    {
      s.(numWorkers := numWorkers, workers := workers, kills := kills, queue := queue)
    }

    /** Both loops of UpdateWorkers; at most one of them does any round. */
    method UpdateWorkers(n: int, ghost s: State)
      modifies this`numWorkers, this`workers, this`kills
      ensures In(s.(target := n)) == Updated(old(In(s)), n)
      ensures numWorkers == n && |workers| - kills == old(|workers| - kills - numWorkers) + n
      ensures old(workers) <= workers && kills >= old(kills)
    {
      while numWorkers < n
        invariant old(numWorkers) <= numWorkers && (numWorkers > n ==> numWorkers == old(numWorkers))
        invariant kills == old(kills)
        invariant workers == old(workers) + Repeated(Waiting, numWorkers - old(numWorkers))
      {
        workers := workers + [Waiting];
        numWorkers := numWorkers + 1;
      }
      ghost var grown, spawned := numWorkers, workers;
      while numWorkers > n
        invariant n <= numWorkers <= grown && workers == spawned
        invariant kills == old(kills) + (grown - numWorkers)
      {
        kills := kills + 1;
        numWorkers := numWorkers - 1;
      }
      assert old(numWorkers) > n ==> workers == old(workers);
    }

    /** queueTransitionTask: a full queue drops what is offered. */
    method QueueTransitionTask(t: Task, ghost s: State)
      modifies this`queue
      ensures In(s).queue == Step(old(In(s)), Offer(t)).queue
      ensures queue == if old(|queue|) < 10000 then old(queue) + [t] else old(queue)
    {
      if |queue| < CAPACITY {
        queue := queue + [t];
      }
    }
  }
}
