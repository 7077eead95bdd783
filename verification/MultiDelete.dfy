/**
 The core of DeleteMultipleObjectsHandler (cmd/bucket-handlers.go): checks per request entry,
 de-duplication through a map, one call to the backend in an arbitrary order, and the routing of its
 results back to the request.
 */
module MultiDelete {
  import opened Prelude
  import Lock = ObjectLock

  // ---------- data ----------

  datatype Replication = Replication(markerStatus: string, purgeStatus: string, purgeStatuses: string, decision: string)

  /** ObjectToDelete: what the backend is asked to delete. */
  datatype Key = Key(name: string, version: string, repl: Replication)

  /** DeletedObject: the key as echoed by the backend, and the delete marker made. */
  datatype Deleted = Deleted(key: Key, marker: bool, markerVersion: string)

  function NoKey(): Key { Key("", "", Replication("", "", "", "")) }

  function NotDeleted(): Deleted { Deleted(NoKey(), false, "") }

  datatype Code = AuthCode(auth: int) | NoSuchVersion | LockCode(lock: Lock.ErrorCode) | BackendCode(backend: int)

  datatype DeleteError = DeleteError(code: Code, name: string, version: string)

  /** deleteResult: an error wins over the deletion beside it. */
  datatype Entry = Entry(del: Deleted, err: Option<DeleteError>)

  function Blank(): Entry { Entry(NotDeleted(), None) }

  datatype Auth = Allowed | Denied(code: int) | BadSignature

  /** What the outside answers while one entry is checked. */
  datatype Answer = Answer(
    auth: Auth,
    isUuid: bool,
    lookup: Lock.Lookup,
    mayBypass: bool,
    mayGetConfig: bool,
    clock: Option<Lock.Time>)

  /** What holds for the whole request; `replicate` gives the pending status and the decision, if any target wants the delete. */
  datatype Setup = Setup(
    replicateDeletes: bool,
    lockEnabled: bool,
    tiering: bool,
    bypass: bool,
    replicate: (string, string, Lock.Lookup) -> Option<(string, string)>)

  datatype BackendError = NotFound | Failed(code: int)

  // ---------- one entry ----------

  datatype Verdict = Abort | Refused(error: DeleteError) | Go(key: Key)

  function ErrorFor(obj: Key, code: Code): DeleteError {
    DeleteError(code, obj.name, obj.version)
  }

  /** The entry marked for replication. */
  function Tagged(cfg: Setup, obj: Key, lookup: Lock.Lookup): Key {
    var d := if cfg.replicateDeletes then cfg.replicate(obj.name, obj.version, lookup) else None;
    if d.None? then obj
    else if obj.version != "" then
      obj.(repl := obj.repl.(purgeStatus := "PENDING", purgeStatuses := d.value.0, decision := d.value.1))
    else obj.(repl := obj.repl.(markerStatus := d.value.0, decision := d.value.1))
  }

  function LockDecision(cfg: Setup, obj: Key, a: Answer): Lock.ErrorCode {
    if obj.version != "" && cfg.lockEnabled
    then Lock.DeleteDecision(a.lookup, cfg.bypass, a.mayBypass, a.mayGetConfig, a.clock)
    else Lock.ErrNone
  }

  /** What the checks say about one entry, from its own answers alone. */
  function Check(cfg: Setup, obj: Key, a: Answer): Verdict {
    if a.auth == BadSignature then Abort
    else if a.auth.Denied? then Refused(ErrorFor(obj, AuthCode(a.auth.code)))
    else if obj.version != "" && obj.version != "null" && !a.isUuid then Refused(ErrorFor(obj, NoSuchVersion))
    else if LockDecision(cfg, obj, a) != Lock.ErrNone then Refused(ErrorFor(obj, LockCode(LockDecision(cfg, obj, a))))
    else Go(Tagged(cfg, obj, a.lookup))
  }

  // ---------- the whole request ----------

  /** The keys to delete among the first `n` entries, each with the first entry that asks for it. */
  function Targets(cfg: Setup, req: seq<Key>, answers: seq<Answer>, n: nat): (t: map<Key, nat>)
    requires n <= |req| == |answers|
  {
    if n == 0 then map[]
    else
      var t := Targets(cfg, req, answers, n - 1);
      var v := Check(cfg, req[n - 1], answers[n - 1]);
      if v.Go? && v.key !in t then t[v.key := n - 1] else t
  }

  /** A key is a target exactly if some entry passed with it, and its index is the first such entry. */
  lemma {:induction false} TargetsAreFirst(cfg: Setup, req: seq<Key>, answers: seq<Answer>, n: nat, k: Key)
    requires n <= |req| == |answers|
    ensures var t := Targets(cfg, req, answers, n);
            if k in t
            then && t[k] < n && Check(cfg, req[t[k]], answers[t[k]]) == Go(k)
                 && forall i :: 0 <= i < t[k] ==> Check(cfg, req[i], answers[i]) != Go(k)
            else forall i :: 0 <= i < n ==> Check(cfg, req[i], answers[i]) != Go(k)
  {
    if n > 0 {
      TargetsAreFirst(cfg, req, answers, n - 1, k);
    }
  }

  /** The result slot of an entry before the backend is called. */
  function Checked(v: Verdict): Entry {
    if v.Refused? then Entry(NotDeleted(), Some(v.error)) else Blank()
  }

  /** What the backend reports for a key, when that depends on the key alone. */
  datatype Outcome = Outcome(del: Deleted, err: Option<BackendError>)

  function WithState(cfg: Setup, d: Deleted, state: Replication): Deleted {
    if cfg.replicateDeletes then d.(key := d.key.(repl := state)) else d
  }

  /** A missing object counts as deleted. */
  predicate IsSuccess(e: Option<BackendError>) {
    e.None? || e.value.NotFound?
  }

  function Routed(cfg: Setup, slot: Entry, k: Key, d: Deleted, e: Option<BackendError>): Entry {
    if IsSuccess(e) then slot.(del := WithState(cfg, d, k.repl))
    else slot.(err := Some(ErrorFor(k, BackendCode(e.value.code))))
  }

  /** What the response owes to entry `i`. */
  function Owed(cfg: Setup, req: seq<Key>, answers: seq<Answer>, outcome: Key -> Outcome, i: nat): Entry
    requires i < |req| == |answers|
  {
    var v := Check(cfg, req[i], answers[i]);
    var t := Targets(cfg, req, answers, |req|);
    if v.Go? && v.key in t && t[v.key] == i then Routed(cfg, Blank(), v.key, outcome(v.key).del, outcome(v.key).err)
    else Checked(v)
  }

  function Errors(entries: seq<Entry>): seq<DeleteError> {
    if entries == [] then []
    else
      var e := entries[|entries| - 1];
      Errors(entries[..|entries| - 1]) + if e.err.Some? then [e.err.value] else []
  }

  function Deletions(entries: seq<Entry>): seq<Deleted> {
    if entries == [] then []
    else
      var e := entries[|entries| - 1];
      Deletions(entries[..|entries| - 1]) + if e.err.Some? then [] else [e.del]
  }

  /** Every entry is answered once. */
  lemma {:induction false} EveryEntryAnswered(entries: seq<Entry>)
    ensures |Errors(entries)| + |Deletions(entries)| == |entries|
  {
    if entries != [] {
      EveryEntryAnswered(entries[..|entries| - 1]);
    }
  }

  // ---------- which entries pass, from the request and the answers ----------

  /** Allowed, with a version that is none, "null" or a UUID, and not kept by the object lock where a version is given. */
  predicate Passes(cfg: Setup, obj: Key, a: Answer) {
    && a.auth == Allowed
    && (obj.version == "" || obj.version == "null" || a.isUuid)
    && (cfg.lockEnabled && obj.version != "" ==>
          Lock.DeleteDecision(a.lookup, cfg.bypass, a.mayBypass, a.mayGetConfig, a.clock) == Lock.ErrNone)
  }

  /** The code with which an entry that does not pass is refused; the first reason counts. */
  predicate Refusal(cfg: Setup, obj: Key, a: Answer, code: Code) {
    match code
    case AuthCode(c) => a.auth == Denied(c)
    case NoSuchVersion => a.auth == Allowed && obj.version != "" && obj.version != "null" && !a.isUuid
    case LockCode(c) =>
      && a.auth == Allowed && (obj.version == "null" || a.isUuid) && cfg.lockEnabled && obj.version != ""
      && c != Lock.ErrNone && c == Lock.DeleteDecision(a.lookup, cfg.bypass, a.mayBypass, a.mayGetConfig, a.clock)
    case BackendCode(_) => false
  }

  /** `k` is `obj` with the marks of the replication decision, if there is one: for a purge of a version, or for a delete marker. */
  predicate MarkedFrom(cfg: Setup, obj: Key, a: Answer, k: Key) {
    var decision := if cfg.replicateDeletes then cfg.replicate(obj.name, obj.version, a.lookup) else None;
    && k.name == obj.name && k.version == obj.version
    && match decision
       case None => k.repl == obj.repl
       case Some((status, text)) =>
         && k.repl.decision == text
         && if obj.version == ""
            then k.repl.markerStatus == status && k.repl.purgeStatus == obj.repl.purgeStatus
                 && k.repl.purgeStatuses == obj.repl.purgeStatuses
            else k.repl.purgeStatus == "PENDING" && k.repl.purgeStatuses == status
                 && k.repl.markerStatus == obj.repl.markerStatus
  }

  /** Some entry that passes asks for the key. */
  ghost predicate AskedFor(cfg: Setup, req: seq<Key>, answers: seq<Answer>, k: Key)
    requires |req| == |answers|
  {
    exists i :: 0 <= i < |req| && Passes(cfg, req[i], answers[i]) && MarkedFrom(cfg, req[i], answers[i], k)
  }

  /** The checks of one entry, exactly. */
  lemma CheckExactly(cfg: Setup, obj: Key, a: Answer, k: Key, code: Code)
    ensures Check(cfg, obj, a) == Abort <==> a.auth == BadSignature
    ensures Check(cfg, obj, a) == Go(k) <==> Passes(cfg, obj, a) && MarkedFrom(cfg, obj, a, k)
    ensures Check(cfg, obj, a) == Refused(DeleteError(code, obj.name, obj.version)) <==> Refusal(cfg, obj, a, code)
    ensures Check(cfg, obj, a).Refused? <==> a.auth != BadSignature && !Passes(cfg, obj, a)
    ensures Check(cfg, obj, a).Refused? ==>
              Check(cfg, obj, a).error.name == obj.name && Check(cfg, obj, a).error.version == obj.version
  {
  }

  /** The list handed to the backend holds exactly the keys that passing entries ask for. */
  lemma ListedExactly(cfg: Setup, req: seq<Key>, answers: seq<Answer>, list: seq<Key>)
    requires |req| == |answers| && Lists(list, Targets(cfg, req, answers, |req|))
    ensures forall k :: k in list <==> AskedFor(cfg, req, answers, k)
  {
    forall k ensures k in list <==> AskedFor(cfg, req, answers, k) {
      TargetsAreFirst(cfg, req, answers, |req|, k);
      forall i | 0 <= i < |req|
        ensures Check(cfg, req[i], answers[i]) == Go(k) <==>
                Passes(cfg, req[i], answers[i]) && MarkedFrom(cfg, req[i], answers[i], k)
      {
        CheckExactly(cfg, req[i], answers[i], k, NoSuchVersion);
      }
    }
  }

  /** Errors and deletions are answered in the order of the entries. */
  lemma {:induction false} AnsweredInOrder(a: seq<Entry>, b: seq<Entry>)
    ensures Errors(a + b) == Errors(a) + Errors(b)
    ensures Deletions(a + b) == Deletions(a) + Deletions(b)
    decreases |b|
  {
    if b == [] {
      assert a + b == a;
    } else {
      var front := b[..|b| - 1];
      assert (a + b)[..|a + b| - 1] == a + front && (a + b)[|a + b| - 1] == b[|b| - 1];
      AnsweredInOrder(a, front);
      var e := b[|b| - 1];
      ConcatAssoc(Errors(a), Errors(front), if e.err.Some? then [e.err.value] else []);
      ConcatAssoc(Deletions(a), Deletions(front), if e.err.Some? then [] else [e.del]);
    }
  }

  lemma {:induction false} ErrorListed(entries: seq<Entry>, i: nat)
    requires i < |entries| && entries[i].err.Some?
    ensures entries[i].err.value in Errors(entries)
  {
    if i < |entries| - 1 {
      ErrorListed(entries[..|entries| - 1], i);
    }
  }

  /** Every entry that does not pass is answered with its reason, under its own name and version. */
  lemma RefusalsAnswered(cfg: Setup, req: seq<Key>, answers: seq<Answer>, outcome: Key -> Outcome)
    requires |req| == |answers| && forall i :: 0 <= i < |req| ==> answers[i].auth != BadSignature
    ensures forall i :: 0 <= i < |req| && !Passes(cfg, req[i], answers[i]) ==>
              exists c :: && Refusal(cfg, req[i], answers[i], c)
                          && DeleteError(c, req[i].name, req[i].version) in Errors(AllOwed(cfg, req, answers, outcome))
  {
    var owed := AllOwed(cfg, req, answers, outcome);
    forall i | 0 <= i < |req| && !Passes(cfg, req[i], answers[i])
      ensures exists c :: Refusal(cfg, req[i], answers[i], c) && DeleteError(c, req[i].name, req[i].version) in Errors(owed)
    {
      CheckExactly(cfg, req[i], answers[i], req[i], NoSuchVersion);
      var e := Check(cfg, req[i], answers[i]).error;
      CheckExactly(cfg, req[i], answers[i], req[i], e.code);
      assert e == DeleteError(e.code, req[i].name, req[i].version);
      assert owed[i].err == Some(e);
      ErrorListed(owed, i);
      assert Refusal(cfg, req[i], answers[i], e.code);
    }
  }

  lemma {:induction false} DeletionListed(entries: seq<Entry>, i: nat)
    requires i < |entries| && entries[i].err.None?
    ensures entries[i].del in Deletions(entries)
  {
    if i < |entries| - 1 {
      DeletionListed(entries[..|entries| - 1], i);
    }
  }

  /**
   The first entry that passes with a key is answered with what the backend said about the key: its
   deletion, also if there was nothing to delete, or its error under the key's name and version.
   */
  lemma PassingAnswered(cfg: Setup, req: seq<Key>, answers: seq<Answer>, outcome: Key -> Outcome, i: nat, k: Key)
    requires i < |req| == |answers| && Passes(cfg, req[i], answers[i]) && MarkedFrom(cfg, req[i], answers[i], k)
    requires forall j :: 0 <= j < i && Passes(cfg, req[j], answers[j]) ==> !MarkedFrom(cfg, req[j], answers[j], k)
    ensures var owed := AllOwed(cfg, req, answers, outcome);
            match outcome(k).err
            case Some(Failed(c)) => DeleteError(BackendCode(c), k.name, k.version) in Errors(owed)
            case _ =>
              outcome(k).del.(key := outcome(k).del.key.(repl := if cfg.replicateDeletes then k.repl else outcome(k).del.key.repl))
                in Deletions(owed)
  {
    var owed := AllOwed(cfg, req, answers, outcome);
    CheckExactly(cfg, req[i], answers[i], k, NoSuchVersion);
    forall j | 0 <= j < i ensures Check(cfg, req[j], answers[j]) != Go(k) {
      CheckExactly(cfg, req[j], answers[j], k, NoSuchVersion);
    }
    TargetsAreFirst(cfg, req, answers, |req|, k);
    if owed[i].err.Some? { ErrorListed(owed, i); } else { DeletionListed(owed, i); }
  }

  // ---------- the code ----------

  /** GetObjectInfo's zero result with no error: an object without any lock. */
  function ZeroLookup(): Lock.Lookup {
    Lock.Found(Lock.Version(0, false, Lock.NoRetention(), Lock.NoHold))
  }

  /**
   The check loop.  `goi` is declared outside the loop and only assigned in some rounds, yet every
   round's verdict, and the state handed to the tier sweeper, come from this round's lookup.
   */
  method CheckEntries(cfg: Setup, req: seq<Key>, answers: seq<Answer>)
    returns (aborted: bool, results: seq<Entry>, targets: map<Key, nat>, sweeps: seq<Option<Lock.Lookup>>)
    requires |req| == |answers|
    ensures aborted <==> exists i :: 0 <= i < |req| && Check(cfg, req[i], answers[i]).Abort?
    ensures !aborted ==> |results| == |req| && targets == Targets(cfg, req, answers, |req|)
    ensures !aborted ==> forall i :: 0 <= i < |req| ==> results[i] == Checked(Check(cfg, req[i], answers[i]))
    ensures !aborted ==> |sweeps| == |req| && forall i :: 0 <= i < |req| ==> sweeps[i] == Swept(cfg, req[i], answers[i])
  {
    var goi := ZeroLookup();
    aborted, results, targets, sweeps := false, seq(|req|, _ => Blank()), map[], seq(|req|, _ => None);
    var index := 0;
    while index < |req|
      invariant 0 <= index <= |req| && |results| == |req| && |sweeps| == |req|
      invariant targets == Targets(cfg, req, answers, index)
      invariant forall i :: 0 <= i < index ==> !Check(cfg, req[i], answers[i]).Abort?
      invariant forall i :: 0 <= i < index ==> results[i] == Checked(Check(cfg, req[i], answers[i]))
      invariant forall i :: index <= i < |req| ==> results[i] == Blank()
      invariant forall i :: 0 <= i < index ==> sweeps[i] == Swept(cfg, req[i], answers[i])
    {
      var v, sweep;
      v, goi, sweep := CheckEntry(cfg, req[index], answers[index], goi);
      match v {
        case Abort =>
          aborted := true;
          return;
        case Refused(e) =>
          results := results[index := results[index].(err := Some(e))];
        case Go(key) =>
          if key !in targets {
            targets := targets[key := index];
          }
      }
      sweeps := sweeps[index := sweep];
      index := index + 1;
    }
  }

  /** One round; `stale` is what an earlier round left behind. */
  method CheckEntry(cfg: Setup, obj: Key, a: Answer, stale: Lock.Lookup)
    returns (v: Verdict, goi: Lock.Lookup, sweep: Option<Lock.Lookup>)
    ensures v == Check(cfg, obj, a)
    ensures sweep == Swept(cfg, obj, a)
  {
    goi, sweep := stale, None;
    if a.auth != Allowed {
      if a.auth == BadSignature {
        v := Abort;
      } else {
        v := Refused(ErrorFor(obj, AuthCode(a.auth.code)));
      }
      return;
    }
    if obj.version != "" && obj.version != "null" {
      if !a.isUuid {
        v := Refused(ErrorFor(obj, NoSuchVersion));
        return;
      }
    }
    if cfg.replicateDeletes || (obj.version != "" && cfg.lockEnabled) || cfg.tiering {
      goi := a.lookup;
    }
    if cfg.tiering {
      sweep := Some(goi);
    }
    var tagged := obj;
    if cfg.replicateDeletes {
      var dsc := cfg.replicate(obj.name, obj.version, goi);
      if dsc.Some? {
        if obj.version != "" {
          tagged := tagged.(repl := tagged.repl.(purgeStatus := "PENDING", purgeStatuses := dsc.value.0));
        } else {
          tagged := tagged.(repl := tagged.repl.(markerStatus := dsc.value.0));
        }
        tagged := tagged.(repl := tagged.repl.(decision := dsc.value.1));
      }
    }
    if obj.version != "" && cfg.lockEnabled {
      var code := Lock.DeleteDecision(goi, cfg.bypass, a.mayBypass, a.mayGetConfig, a.clock);
      if code != Lock.ErrNone {
        v := Refused(ErrorFor(obj, LockCode(code)));
        return;
      }
    }
    v := Go(tagged);
  }

  /** The state handed to the tier sweeper: this entry's lookup, if it got as far as the lookup. */
  ghost function Swept(cfg: Setup, obj: Key, a: Answer): Option<Lock.Lookup> {
    if cfg.tiering && a.auth == Allowed && (obj.version == "" || obj.version == "null" || a.isUuid) then Some(a.lookup) else None
  }

  /** A walk over the target map: every key once. */
  ghost predicate Lists(list: seq<Key>, targets: map<Key, nat>) {
    NoDuplicates(list) && forall k :: k in list <==> k in targets
  }

  /** toNames: the keys in whatever order the map yields them. */
  method ToNames(targets: map<Key, nat>) returns (list: seq<Key>)
    ensures Lists(list, targets)
  {
    list := [];
    var keys := targets.Keys;
    while keys != {}
      invariant NoDuplicates(list) && keys <= targets.Keys
      invariant forall k :: k in list <==> k in targets.Keys - keys
      decreases |keys|
    {
      var k :| k in keys;
      assert k !in list;
      list := list + [k];
      keys := keys - {k};
    }
  }

  /** What the backend answered for the list. */
  datatype Reply = Reply(dels: seq<Deleted>, errs: seq<Option<BackendError>>)

  /** An entry that was not echoed is looked up in vain and lands at index 0. */
  function IndexOf(targets: map<Key, nat>, k: Key): nat {
    if k in targets then targets[k] else 0
  }

  /** The slots after the first `n` replies were routed. */
  function RouteFirst(cfg: Setup, list: seq<Key>, reply: Reply, targets: map<Key, nat>, slots: seq<Entry>, n: nat)
    : (r: seq<Entry>)
    requires n <= |list| == |reply.dels| == |reply.errs| && slots != []
    requires forall k :: k in targets ==> targets[k] < |slots|
    ensures |r| == |slots|
  {
    if n == 0 then slots
    else
      var before := RouteFirst(cfg, list, reply, targets, slots, n - 1);
      var d := IndexOf(targets, reply.dels[n - 1].key);
      before[d := Routed(cfg, before[d], list[n - 1], reply.dels[n - 1], reply.errs[n - 1])]
  }

  /** The routing loop. */
  method Route(cfg: Setup, list: seq<Key>, reply: Reply, targets: map<Key, nat>, slots: seq<Entry>) returns (r: seq<Entry>)
    requires |list| == |reply.dels| == |reply.errs| && slots != []
    requires forall k :: k in targets ==> targets[k] < |slots|
    ensures r == RouteFirst(cfg, list, reply, targets, slots, |list|)
  {
    r := slots;
    var i := 0;
    while i < |reply.errs|
      invariant 0 <= i <= |reply.errs| && r == RouteFirst(cfg, list, reply, targets, slots, i)
    {
      var dindex := IndexOf(targets, reply.dels[i].key);
      if reply.errs[i].None? || reply.errs[i].value.NotFound? {
        var del := reply.dels[i];
        if cfg.replicateDeletes {
          del := del.(key := del.key.(repl := list[i].repl));
        }
        r := r[dindex := r[dindex].(del := del)];
      } else {
        r := r[dindex := r[dindex].(err := Some(ErrorFor(list[i], BackendCode(reply.errs[i].value.code))))];
      }
      i := i + 1;
    }
  }

  datatype Response = Malformed | SignatureError | Answered(deleted: seq<Deleted>, errors: seq<DeleteError>)

  /** The backend echoes every key, and its outcome for a key depends on the key alone. */
  ghost predicate Echoes(list: seq<Key>, reply: Reply, outcome: Key -> Outcome) {
    && |reply.dels| == |reply.errs| == |list|
    && forall i :: 0 <= i < |list| ==>
         reply.dels[i].key == list[i] && outcome(list[i]) == Outcome(reply.dels[i], reply.errs[i])
  }

  /** What is owed to every entry. */
  function AllOwed(cfg: Setup, req: seq<Key>, answers: seq<Answer>, outcome: Key -> Outcome): seq<Entry>
    requires |req| == |answers|
  {
    seq(|req|, i requires 0 <= i < |req| => Owed(cfg, req, answers, outcome, i))
  }

  /** Slot `i` when the keys of `list` have been routed: owed if its key is among them. */
  function Partly(cfg: Setup, req: seq<Key>, answers: seq<Answer>, outcome: Key -> Outcome, list: seq<Key>, i: nat): Entry
    requires i < |req| == |answers|
  {
    var v := Check(cfg, req[i], answers[i]);
    if v.Go? && v.key in list then Owed(cfg, req, answers, outcome, i) else Checked(v)
  }

  /** One key's reply is routed to the first entry that asked for it and to no other. */
  lemma RouteOne(cfg: Setup, req: seq<Key>, answers: seq<Answer>, outcome: Key -> Outcome, list: seq<Key>, k: Key, slots: seq<Entry>)
    requires |slots| == |req| == |answers| && k !in list
    requires k in Targets(cfg, req, answers, |req|) && Targets(cfg, req, answers, |req|)[k] < |req|
    requires forall i :: 0 <= i < |req| ==> slots[i] == Partly(cfg, req, answers, outcome, list, i)
    ensures var d := Targets(cfg, req, answers, |req|)[k];
            forall i :: 0 <= i < |req| ==>
              slots[d := Routed(cfg, slots[d], k, outcome(k).del, outcome(k).err)][i]
              == Partly(cfg, req, answers, outcome, list + [k], i)
  {
    var t := Targets(cfg, req, answers, |req|);
    var d := t[k];
    TargetsAreFirst(cfg, req, answers, |req|, k);
    var slots' := slots[d := Routed(cfg, slots[d], k, outcome(k).del, outcome(k).err)];
    forall i | 0 <= i < |req| ensures slots'[i] == Partly(cfg, req, answers, outcome, list + [k], i) {
      var v := Check(cfg, req[i], answers[i]);
      if i == d {
        assert slots[d] == Blank();
      } else if v == Go(k) {
        assert slots'[i] == Checked(v);
      } else {
        assert v.Go? ==> (v.key in list + [k] <==> v.key in list);
      }
    }
  }

  lemma {:induction false} RoutedSoFar(
    cfg: Setup, req: seq<Key>, answers: seq<Answer>, outcome: Key -> Outcome, list: seq<Key>, reply: Reply,
    targets: map<Key, nat>, slots: seq<Entry>, n: nat)
    requires |slots| == |req| == |answers| && req != [] && targets == Targets(cfg, req, answers, |req|)
    requires forall k :: k in targets ==> targets[k] < |req|
    requires forall i :: 0 <= i < |req| ==> slots[i] == Checked(Check(cfg, req[i], answers[i]))
    requires Lists(list, targets) && Echoes(list, reply, outcome) && n <= |list|
    ensures var r := RouteFirst(cfg, list, reply, targets, slots, n);
            forall i :: 0 <= i < |req| ==> r[i] == Partly(cfg, req, answers, outcome, list[..n], i)
    decreases n
  {
    if n > 0 {
      RoutedSoFar(cfg, req, answers, outcome, list, reply, targets, slots, n - 1);
      var before := RouteFirst(cfg, list, reply, targets, slots, n - 1);
      var k := list[n - 1];
      assert k in list && k !in list[..n - 1];
      assert list[..n] == list[..n - 1] + [k];
      RouteOne(cfg, req, answers, outcome, list[..n - 1], k, before);
    }
  }

  /** With an echoing backend, every entry ends up with what it is owed, whatever the order of the list. */
  lemma RoutingIsExact(
    cfg: Setup, req: seq<Key>, answers: seq<Answer>, outcome: Key -> Outcome, list: seq<Key>, reply: Reply,
    targets: map<Key, nat>, slots: seq<Entry>)
    requires |slots| == |req| == |answers| && req != [] && targets == Targets(cfg, req, answers, |req|)
    requires forall k :: k in targets ==> targets[k] < |req|
    requires forall i :: 0 <= i < |req| ==> slots[i] == Checked(Check(cfg, req[i], answers[i]))
    requires Lists(list, targets) && Echoes(list, reply, outcome)
    ensures RouteFirst(cfg, list, reply, targets, slots, |list|) == AllOwed(cfg, req, answers, outcome)
  {
    RoutedSoFar(cfg, req, answers, outcome, list, reply, targets, slots, |list|);
    var r := RouteFirst(cfg, list, reply, targets, slots, |list|);
    assert list[..|list|] == list;
    forall i | 0 <= i < |req| ensures r[i] == Owed(cfg, req, answers, outcome, i) {
      var v := Check(cfg, req[i], answers[i]);
      if v.Go? { TargetsAreFirst(cfg, req, answers, |req|, v.key); }
    }
  }

  lemma TargetsInRange(cfg: Setup, req: seq<Key>, answers: seq<Answer>)
    requires |req| == |answers|
    ensures forall k :: k in Targets(cfg, req, answers, |req|) ==> Targets(cfg, req, answers, |req|)[k] < |req|
  {
    forall k | k in Targets(cfg, req, answers, |req|) ensures Targets(cfg, req, answers, |req|)[k] < |req| {
      TargetsAreFirst(cfg, req, answers, |req|, k);
    }
  }

  /** The response loop: errors and deletions, each in request order. */
  method Respond(results: seq<Entry>) returns (resp: Response)
    ensures resp == Answered(Deletions(results), Errors(results))
  {
    var deleted, errors := [], [];
    var i := 0;
    while i < |results|
      invariant 0 <= i <= |results|
      invariant deleted == Deletions(results[..i]) && errors == Errors(results[..i])
    {
      assert results[..i + 1][..i] == results[..i];
      if results[i].err.Some? {
        errors := errors + [results[i].err.value];
      } else {
        deleted := deleted + [results[i].del];
      }
      i := i + 1;
    }
    assert results[..i] == results;
    return Answered(deleted, errors);
  }

  /**
   The handler from the decoded request on.  The list handed to the backend holds each target once, and
   if the backend echoes its keys and treats each key alike in every order, the response is what each
   entry is owed, in which the order of the list has no part.
   */
  method DeleteMultipleObjects(
    cfg: Setup, req: seq<Key>, answers: seq<Answer>, backend: seq<Key> -> Reply, ghost outcome: Key -> Outcome)
    returns (resp: Response, list: seq<Key>)
    requires |req| == |answers|
    requires forall l :: |backend(l).dels| == |backend(l).errs| == |l|
    ensures resp.Malformed? <==> req == [] || |req| > 1000
    ensures resp.SignatureError? <==>
              0 < |req| <= 1000 && exists i :: 0 <= i < |req| && answers[i].auth == BadSignature
    ensures resp.Answered? ==> Lists(list, Targets(cfg, req, answers, |req|))
    ensures resp.Answered? ==> forall k :: k in list <==> AskedFor(cfg, req, answers, k)
    ensures resp.Answered? ==> (EachObjectOnce(list) <==> MarkedAlike(cfg, req, answers))
    ensures resp.Answered? && Echoes(list, backend(list), outcome) ==>
              var owed := AllOwed(cfg, req, answers, outcome);
              resp == Answered(Deletions(owed), Errors(owed))
    ensures resp.Answered? && Echoes(list, backend(list), outcome) ==>
              forall i :: 0 <= i < |req| && !Passes(cfg, req[i], answers[i]) ==>
                exists c :: Refusal(cfg, req[i], answers[i], c) && DeleteError(c, req[i].name, req[i].version) in resp.errors
    ensures !resp.Answered? ==> list == []
  {
    list := [];
    if |req| == 0 || |req| > 1000 {
      return Malformed, [];
    }
    var aborted, results, targets, sweeps := CheckEntries(cfg, req, answers);
    if aborted {
      return SignatureError, [];
    }
    TargetsInRange(cfg, req, answers);
    list := ToNames(targets);
    ObjectsOnceExactly(cfg, req, answers, list);
    ListedExactly(cfg, req, answers, list);
    var reply := backend(list);
    ghost var checked := results;
    results := Route(cfg, list, reply, targets, results);
    resp := Respond(results);
    if Echoes(list, reply, outcome) {
      RoutingIsExact(cfg, req, answers, outcome, list, reply, targets, checked);
      RefusalsAnswered(cfg, req, answers, outcome);
    }
  }

  // ---------- what the routing promises ----------

  /** Two runs that list the targets in different orders route every entry to the same result. */
  lemma {:induction false} OrderDoesNotMatter(
    cfg: Setup, req: seq<Key>, answers: seq<Answer>, outcome: Key -> Outcome,
    l1: seq<Key>, r1: Reply, l2: seq<Key>, r2: Reply, slots: seq<Entry>)
    requires |slots| == |req| == |answers| && req != []
    requires forall i :: 0 <= i < |req| ==> slots[i] == Checked(Check(cfg, req[i], answers[i]))
    requires Lists(l1, Targets(cfg, req, answers, |req|)) && Echoes(l1, r1, outcome)
    requires Lists(l2, Targets(cfg, req, answers, |req|)) && Echoes(l2, r2, outcome)
    ensures forall k :: k in Targets(cfg, req, answers, |req|) ==> Targets(cfg, req, answers, |req|)[k] < |req|
    ensures var t := Targets(cfg, req, answers, |req|);
            RouteFirst(cfg, l1, r1, t, slots, |l1|) == RouteFirst(cfg, l2, r2, t, slots, |l2|)
  {
    var t := Targets(cfg, req, answers, |req|);
    TargetsInRange(cfg, req, answers);
    RoutingIsExact(cfg, req, answers, outcome, l1, r1, t, slots);
    RoutingIsExact(cfg, req, answers, outcome, l2, r2, t, slots);
  }

  /** Refusals are never overwritten, and a repeated entry is answered as deleted with no name. */
  lemma RefusalsAndRepeats(cfg: Setup, req: seq<Key>, answers: seq<Answer>, outcome: Key -> Outcome, i: nat)
    requires i < |req| == |answers|
    ensures var owed := AllOwed(cfg, req, answers, outcome)[i];
            match Check(cfg, req[i], answers[i])
            case Abort => owed == Blank()
            case Refused(e) => owed.err == Some(e)
            case Go(k) =>
              if exists j :: 0 <= j < i && Check(cfg, req[j], answers[j]) == Go(k) then owed == Blank()
              else if IsSuccess(outcome(k).err) then owed == Entry(WithState(cfg, outcome(k).del, k.repl), None)
              else owed.err == Some(ErrorFor(k, BackendCode(outcome(k).err.value.code)))
  {
    var v := Check(cfg, req[i], answers[i]);
    if v.Go? {
      TargetsAreFirst(cfg, req, answers, |req|, v.key);
    }
  }

  // ---------- each object once ----------

  predicate SameObject(a: Key, b: Key) {
    a.name == b.name && a.version == b.version
  }

  /** No object is on the list twice. */
  ghost predicate EachObjectOnce(list: seq<Key>) {
    forall i, j :: 0 <= i < j < |list| ==> !SameObject(list[i], list[j])
  }

  /** Entries for one object that both pass are marked alike, by the client and for replication. */
  ghost predicate MarkedAlike(cfg: Setup, req: seq<Key>, answers: seq<Answer>)
    requires |req| == |answers|
  {
    forall i, j :: 0 <= i < |req| && 0 <= j < |req| && BothPass(cfg, req, answers, i, j) ==>
      Tagged(cfg, req[i], answers[i].lookup) == Tagged(cfg, req[j], answers[j].lookup)
  }

  predicate BothPass(cfg: Setup, req: seq<Key>, answers: seq<Answer>, i: nat, j: nat)
    requires i < |req| == |answers| && j < |req|
  {
    Check(cfg, req[i], answers[i]).Go? && Check(cfg, req[j], answers[j]).Go? && SameObject(req[i], req[j])
  }

  lemma {:induction false} ListedComesFrom(cfg: Setup, req: seq<Key>, answers: seq<Answer>, list: seq<Key>, k: Key)
    returns (i: nat)
    requires |req| == |answers| && Lists(list, Targets(cfg, req, answers, |req|)) && k in list
    ensures i < |req| && Check(cfg, req[i], answers[i]) == Go(k) && k == Tagged(cfg, req[i], answers[i].lookup)
    ensures SameObject(req[i], k)
  {
    TargetsAreFirst(cfg, req, answers, |req|, k);
    i := Targets(cfg, req, answers, |req|)[k];
  }

  /**
   The map removes repeated keys, and keys carry the marks for replication.  So each object is deleted
   once exactly if passing entries for one object are marked alike.
   */
  lemma {:induction false} ObjectsOnceExactly(cfg: Setup, req: seq<Key>, answers: seq<Answer>, list: seq<Key>)
    requires |req| == |answers| && Lists(list, Targets(cfg, req, answers, |req|))
    ensures EachObjectOnce(list) <==> MarkedAlike(cfg, req, answers)
  {
    if MarkedAlike(cfg, req, answers) {
      forall a, b | 0 <= a < b < |list| ensures !SameObject(list[a], list[b]) {
        AlikeIsOnce(cfg, req, answers, list, a, b);
      }
    } else {
      var i, j :| 0 <= i < |req| && 0 <= j < |req| && BothPass(cfg, req, answers, i, j)
        && Tagged(cfg, req[i], answers[i].lookup) != Tagged(cfg, req[j], answers[j].lookup);
      UnlikeIsTwice(cfg, req, answers, list, i, j);
    }
  }

  lemma {:induction false} AlikeIsOnce(cfg: Setup, req: seq<Key>, answers: seq<Answer>, list: seq<Key>, a: nat, b: nat)
    requires |req| == |answers| && Lists(list, Targets(cfg, req, answers, |req|))
    requires MarkedAlike(cfg, req, answers) && a < b < |list|
    ensures !SameObject(list[a], list[b])
  {
    var i := ListedComesFrom(cfg, req, answers, list, list[a]);
    var j := ListedComesFrom(cfg, req, answers, list, list[b]);
    var both := BothPass(cfg, req, answers, i, j);
  }

  lemma {:induction false} UnlikeIsTwice(cfg: Setup, req: seq<Key>, answers: seq<Answer>, list: seq<Key>, i: nat, j: nat)
    requires |req| == |answers| && Lists(list, Targets(cfg, req, answers, |req|))
    requires i < |req| && j < |req| && BothPass(cfg, req, answers, i, j)
    requires Tagged(cfg, req[i], answers[i].lookup) != Tagged(cfg, req[j], answers[j].lookup)
    ensures !EachObjectOnce(list)
  {
    var k := PassedIsListed(cfg, req, answers, list, i);
    var l := PassedIsListed(cfg, req, answers, list, j);
    assert SameObject(list[k], list[l]) && SameObject(list[l], list[k]);
  }

  lemma {:induction false} PassedIsListed(cfg: Setup, req: seq<Key>, answers: seq<Answer>, list: seq<Key>, i: nat)
    returns (at: nat)
    requires |req| == |answers| && Lists(list, Targets(cfg, req, answers, |req|))
    requires i < |req| && Check(cfg, req[i], answers[i]).Go?
    ensures at < |list| && list[at] == Tagged(cfg, req[i], answers[i].lookup) && SameObject(list[at], req[i])
  {
    var k := Tagged(cfg, req[i], answers[i].lookup);
    TargetsAreFirst(cfg, req, answers, |req|, k);
    assert k in list;
    at :| 0 <= at < |list| && list[at] == k;
  }

  /**
   The failing input: the client names one object twice, with different purge statuses of its own in the
   request.  Both entries pass, and the object is on the list twice.
   */
  lemma {:induction false} ClientMarksDeleteTwice(cfg: Setup, a: Answer, name: string, p: string, q: string, list: seq<Key>)
    requires a.auth == Allowed && !cfg.replicateDeletes && p != q
    requires var req := [Key(name, "", Replication("", p, "", "")), Key(name, "", Replication("", q, "", ""))];
             Lists(list, Targets(cfg, req, [a, a], 2))
    ensures !EachObjectOnce(list)
  {
    var req := [Key(name, "", Replication("", p, "", "")), Key(name, "", Replication("", q, "", ""))];
    assert Check(cfg, req[0], [a, a][0]) == Go(req[0]) && Check(cfg, req[1], [a, a][1]) == Go(req[1]);
    assert BothPass(cfg, req, [a, a], 0, 1);
    assert Tagged(cfg, req[0], a.lookup) != Tagged(cfg, req[1], a.lookup);
    assert !MarkedAlike(cfg, req, [a, a]);
    ObjectsOnceExactly(cfg, req, [a, a], list);
  }

  /** An explicit version that a hold or an unexpired compliance date protects. */
  predicate Protected(lookup: Lock.Lookup, clock: Option<Lock.Time>) {
    && lookup.Found?
    && (|| lookup.info.hold == Lock.HoldOn
        || (&& lookup.info.retention.mode == Lock.Compliance
            && (clock.None? || lookup.info.retention.until >= clock.value)))
  }

  /**
   In a bucket with object lock, no explicit version reaches the delete list from an entry whose lookup
   finds it protected, whatever the bypass header and the permissions say.
   */
  lemma {:induction false} ProtectedNeverListed(cfg: Setup, req: seq<Key>, answers: seq<Answer>, list: seq<Key>, k: Key)
    requires |req| == |answers| && cfg.lockEnabled && k.version != ""
    requires Lists(list, Targets(cfg, req, answers, |req|)) && k in list
    ensures exists i :: 0 <= i < |req| && Check(cfg, req[i], answers[i]) == Go(k)
    ensures forall i :: 0 <= i < |req| && Check(cfg, req[i], answers[i]) == Go(k) ==>
              && req[i].name == k.name && req[i].version == k.version
              && !Protected(answers[i].lookup, answers[i].clock)
  {
    TargetsAreFirst(cfg, req, answers, |req|, k);
  }

  /** A backend that gives up before it looks at any key: errors only, and no key echoed. */
  ghost predicate GaveUp(list: seq<Key>, reply: Reply) {
    && |reply.dels| == |reply.errs| == |list|
    && forall i :: 0 <= i < |list| ==>
         reply.dels[i] == NotDeleted() && reply.errs[i].Some? && reply.errs[i].value.Failed?
  }

  /**
   Why the echo is needed: when the backend gives up (its lock times out, say), every error lands at
   entry 0 and overwrites what was there, and every other entry that passed is answered as deleted.
   */
  lemma {:induction false} GivingUpIsMisrouted(
    cfg: Setup, list: seq<Key>, reply: Reply, targets: map<Key, nat>, slots: seq<Entry>, n: nat)
    requires GaveUp(list, reply) && slots != [] && NoKey() !in targets && n <= |list|
    requires forall k :: k in targets ==> targets[k] < |slots|
    ensures var r := RouteFirst(cfg, list, reply, targets, slots, n);
            && (forall i :: 0 < i < |slots| ==> r[i] == slots[i])
            && r[0] == if n == 0 then slots[0]
                       else slots[0].(err := Some(ErrorFor(list[n - 1], BackendCode(reply.errs[n - 1].value.code))))
  {
    if n > 0 {
      GivingUpIsMisrouted(cfg, list, reply, targets, slots, n - 1);
    }
  }
}
