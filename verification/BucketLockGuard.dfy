/**
 Object lock keeps versioning on: the guards of the versioning and lock-config handlers and of the
 metadata import, over one bucket's cached entry and files.
 */
module BucketLockGuard {
  import opened Prelude
  import opened BucketMetadata
  import opened BucketMetadataSys

  /** How parsed versioning configs read, and the configs written back as XML. */
  datatype Kinds = Kinds(
    enabled: int -> bool,
    suspended: int -> bool,
    excluded: int -> bool,
    marshalVersioning: int -> Bytes,
    marshalLock: int -> Bytes)

  /** A config that passed validation is enabled or suspended. */
  predicate Validated(k: Kinds, v: int) {
    k.enabled(v) == !k.suspended(v)
  }

  /** Accepted versioning configs are validated, and writing one out keeps what it says. */
  ghost predicate Faithful(env: Env, k: Kinds) {
    && Sane(env)
    && (forall data :: env.parse(Versioning, data).Some? ==> Validated(k, env.parse(Versioning, data).value))
    && (forall v :: k.marshalVersioning(v) != [] && Preserves(env, k, v))
    && (forall v :: k.marshalLock(v) != [])
    && ReadsEnabled(env, k, env.enabledVersioning) && ReadsWhole(env, k, env.enabledVersioning)
  }

  ghost predicate Preserves(env: Env, k: Kinds, v: int) {
    var w := env.parse(Versioning, k.marshalVersioning(v));
    w.Some? ==> k.suspended(w.value) == k.suspended(v) && k.excluded(w.value) == k.excluded(v)
  }

  ghost predicate ReadsEnabled(env: Env, k: Kinds, data: Bytes) {
    var w := env.parse(Versioning, data);
    w.Some? ==> k.enabled(w.value)
  }

  ghost predicate ReadsWhole(env: Env, k: Kinds, data: Bytes) {
    var w := env.parse(Versioning, data);
    w.Some? ==> !k.excluded(w.value)
  }

  /** One bucket: its cached entry and its files. */
  datatype Slot = Slot(cached: Option<Meta>, files: Files)

  // ---------- operations ----------

  /** GetConfig. */
  function Lookup(env: Env, s: Slot, ch: Choice): (Option<Meta>, Slot) {
    if s.cached.Some? then (s.cached, s)
    else
      var (m, files) := LoadFiles(env, s.files, ch);
      (m, Slot(m, files))
  }

  function Update(env: Env, s: Slot, c: Config, data: Bytes, ch: Choice, now: Time, nonce: int): (bool, Slot) {
    var (m, files) := UpdateFiles(env, s.files, ch, c, data, now, nonce);
    (m.Some?, Replace(s, m, files))
  }

  /** concurrentLoad for this bucket. */
  function Refresh(env: Env, s: Slot, ch: Choice): Slot {
    var l := LoadFiles(env, s.files, ch);
    Replace(s, l.0, l.1)
  }

  /** The new files, and the new entry if there is one. */
  function Replace(s: Slot, m: Option<Meta>, files: Files): Slot {
    Slot(if m.Some? then m else s.cached, files)
  }

  /** rcfg.LockEnabled: a lookup that fails reads as no lock. */
  predicate Locked(m: Option<Meta>) {
    m.Some? && m.value.docs[ObjectLock].Some?
  }

  predicate Replicated(m: Option<Meta>) {
    m.Some? && m.value.docs[Replication].Some?
  }

  /** What a request may decide: the lookups' and the update's environment. */
  datatype Calls = Calls(lock: Choice, replication: Choice, update: Choice, now: Time, nonce: int)

  datatype Source = Put | Import

  /** The guards before a versioning config is stored; an import asks less than a put. */
  function VersioningDecision(
    env: Env, k: Kinds, s: Slot, src: Source, v: int, siteReplication: bool, calls: Calls): (bool, Slot)
  {
    if siteReplication && (if src == Put then !k.enabled(v) else k.suspended(v)) then (false, s)
    else
      var (m, s1) := Lookup(env, s, calls.lock);
      if Locked(m) && (k.suspended(v) || (src == Put && k.excluded(v))) then (false, s1)
      else
        var (m2, s2) := Lookup(env, s1, calls.replication);
        if Replicated(m2) && k.suspended(v) then (false, s2) else (true, s2)
  }

  /** PutBucketVersioningHandler, or the import of a versioning config. */
  function PutVersioning(
    env: Env, k: Kinds, s: Slot, src: Source, v: int, siteReplication: bool, calls: Calls): (bool, Slot)
  {
    var (ok, s') := VersioningDecision(env, k, s, src, v, siteReplication, calls);
    if !ok then (false, s')
    else Update(env, s', Versioning, k.marshalVersioning(v), calls.update, calls.now, calls.nonce)
  }

  /** PutBucketObjectLockConfigHandler, or the import of a lock config: only where a lock config exists. */
  function PutLock(env: Env, k: Kinds, s: Slot, config: int, calls: Calls): (bool, Slot) {
    var (m, s') := Lookup(env, s, calls.lock);
    if !Locked(m) then (false, s')
    else Update(env, s', ObjectLock, k.marshalLock(config), calls.update, calls.now, calls.nonce)
  }

  /** MakeBucketWithLocation: new metadata, saved and cached. */
  function Create(env: Env, s: Slot, lock: bool, versioning: bool, now: Time): (bool, Slot) {
    var m := ParseAll(env, CreatedRaw(env, lock, versioning, now), DefaultDocs(env));
    if m.None? then (false, s) else (true, Slot(m, s.files.(meta := Some(m.value.raw))))
  }

  function CreatedRaw(env: Env, lock: bool, versioning: bool, now: Time): Raw {
    var r := NewRaw(now);
    var r1 := if lock then
        r.(configs := PutConfig(PutConfig(r.configs, Versioning, env.enabledVersioning), ObjectLock, env.enabledLock))
      else r;
    if versioning then r1.(configs := PutConfig(r1.configs, Versioning, env.enabledVersioning)) else r1
  }

  datatype Op =
    | MakeBucket(lock: bool, versioning: bool, now: Time)
    | SetVersioning(src: Source, v: int, siteReplication: bool, calls: Calls)
    | SetLock(lockConfig: int, calls: Calls)
    | SetOther(config: Config, data: Bytes, ch: Choice, now: Time, nonce: int)
    | Reload(ch: Choice)
    | Forget

  function Step(env: Env, k: Kinds, s: Slot, op: Op): Slot {
    match op
    case MakeBucket(lock, versioning, now) => Create(env, s, lock, versioning, now).1
    case SetVersioning(src, v, sr, calls) => PutVersioning(env, k, s, src, v, sr, calls).1
    case SetLock(config, calls) => PutLock(env, k, s, config, calls).1
    case SetOther(c, data, ch, now, nonce) => Update(env, s, c, data, ch, now, nonce).1
    case Reload(ch) => Refresh(env, s, ch)
    case Forget => s.(cached := None)
  }

  ghost predicate FullOrders(calls: Calls) {
    FullOrder(calls.lock.order) && FullOrder(calls.replication.order) && FullOrder(calls.update.order)
  }

  /** Map orders are orders, requests carry validated configs, and a bucket being made is not there yet. */
  ghost predicate Proper(k: Kinds, s: Slot, op: Op) {
    match op
    case MakeBucket(_, _, _) => s.files == Files(None, map[])
    case SetVersioning(_, v, _, calls) => FullOrders(calls) && Validated(k, v)
    case SetLock(_, calls) => FullOrders(calls)
    case SetOther(c, _, ch, _, _) => c != ObjectLock && c != Versioning && FullOrder(ch.order)
    case Reload(ch) => FullOrder(ch.order)
    case Forget => true
  }

  // ---------- the property and its invariant ----------

  ghost predicate EnabledData(env: Env, k: Kinds, data: Bytes) {
    data != [] && ReadsEnabled(env, k, data)
  }

  /** No lock config, or the one that forces versioning. */
  predicate IsDefault(env: Env, lock: Bytes) {
    lock == [] || lock == env.enabledLock
  }

  /** A lock config comes with a versioning config that reads as enabled. */
  ghost predicate SafeRaw(env: Env, k: Kinds, raw: Raw) {
    raw.configs[ObjectLock] != [] ==> EnabledData(env, k, raw.configs[Versioning])
  }

  /** The same of the parsed form. */
  ghost predicate SafeDocs(k: Kinds, m: Meta) {
    m.docs[ObjectLock].Some? ==> m.docs[Versioning].Some? && k.enabled(m.docs[Versioning].value)
  }

  ghost predicate SafeFiles(env: Env, k: Kinds, files: Files) {
    files.meta.Some? ==> SafeRaw(env, k, files.meta.value)
  }

  /** The property: object lock and suspended versioning meet neither in the store nor in the cache. */
  ghost predicate Safe(env: Env, k: Kinds, s: Slot) {
    SafeFiles(env, k, s.files) && (s.cached.Some? ==> SafeDocs(k, s.cached.value))
  }

  /** Metadata that was parsed from safe configs. */
  ghost predicate SafeMeta(env: Env, k: Kinds, m: Meta) {
    && SafeRaw(env, k, m.raw) && SafeDocs(k, m)
    && (m.docs[ObjectLock].Some? <==> m.raw.configs[ObjectLock] != [])
  }

  function StoredLock(files: Files): Bytes {
    if files.meta.Some? then files.meta.value.configs[ObjectLock] else []
  }

  function StoredVersioning(files: Files): Bytes {
    if files.meta.Some? then files.meta.value.configs[Versioning] else []
  }

  /** Legacy files that a load turns into a lock config and enabled versioning. */
  predicate LockFiles(env: Env, legacy: map<Legacy, Bytes>) {
    EnablesLock(env, legacy) || ConfigFile(ObjectLock) in legacy
  }

  /** Whatever the walk, a load shows no lock config but the default one. */
  predicate ShowsDefault(env: Env, files: Files) {
    && IsDefault(env, StoredLock(files))
    && (ConfigFile(ObjectLock) in files.legacy ==> IsDefault(env, files.legacy[ConfigFile(ObjectLock)]))
  }

  /** Whatever the walk, a load shows enabled versioning. */
  ghost predicate ShowsEnabled(env: Env, k: Kinds, files: Files) {
    EnabledData(env, k, StoredVersioning(files)) || LockFiles(env, files.legacy)
  }

  /** A cached entry that knows whether the files hold a lock config that matters. */
  ghost predicate Truthful(env: Env, k: Kinds, m: Meta, files: Files) {
    if m.docs[ObjectLock].Some? then ShowsEnabled(env, k, files) else ShowsDefault(env, files)
  }

  ghost predicate Inv(env: Env, k: Kinds, s: Slot) {
    Safe(env, k, s) && (s.cached.Some? ==> Truthful(env, k, s.cached.value, s.files))
  }

  // ---------- parsing ----------

  lemma ParsedLock(env: Env, raw: Raw, docs: Docs, m: Meta)
    requires ParseAll(env, raw, docs) == Some(m)
    ensures m.docs[ObjectLock].Some? <==> m.raw.configs[ObjectLock] != []
    ensures m.raw.configs[ObjectLock] == raw.configs[ObjectLock]
  {
    assert m.raw.configs[ObjectLock] == raw.configs[ObjectLock] by {
      ParsedRaw(env, raw, docs, m);
      FixedAt(env, raw, ObjectLock);
    }
    ParsedDocAt(env, raw, docs, m, ObjectLock);
  }

  lemma ParsedVersioning(env: Env, raw: Raw, docs: Docs, m: Meta)
    requires ParseAll(env, raw, docs) == Some(m) && m.raw.configs[Versioning] != []
    ensures m.docs[Versioning].Some? && env.parse(Versioning, m.raw.configs[Versioning]) == m.docs[Versioning]
  {
    ParsedDocAt(env, raw, docs, m, Versioning);
  }

  lemma FixMakesSafe(env: Env, k: Kinds, raw: Raw)
    requires Faithful(env, k)
    requires IsDefault(env, raw.configs[ObjectLock]) || EnabledData(env, k, raw.configs[Versioning])
    ensures SafeRaw(env, k, FixVersioning(env, raw))
  {
    FixedAt(env, raw, ObjectLock);
    FixedAt(env, raw, Versioning);
  }

  lemma ParsedIsSafe(env: Env, k: Kinds, raw: Raw, docs: Docs, m: Meta)
    requires Faithful(env, k) && ParseAll(env, raw, docs) == Some(m)
    requires IsDefault(env, raw.configs[ObjectLock]) || EnabledData(env, k, raw.configs[Versioning])
    ensures SafeMeta(env, k, m)
  {
    ParsedRaw(env, raw, docs, m);
    FixMakesSafe(env, k, raw);
    ParsedLock(env, raw, docs, m);
    if m.raw.configs[ObjectLock] != [] {
      ParsedVersioning(env, raw, docs, m);
      assert env.parse(Versioning, m.raw.configs[Versioning]) == Some(m.docs[Versioning].value);
    }
  }

  // ---------- the walk over the legacy files ----------

  lemma ApplyOneLock(env: Env, raw: Raw, l: Legacy, data: Bytes)
    ensures var r := ApplyOne(env, raw, l, data);
            && (l == ConfigFile(ObjectLock) ==> r.configs[ObjectLock] == data)
            && (l != ConfigFile(ObjectLock) ==> r.configs[ObjectLock] == raw.configs[ObjectLock]
                                                || r.configs[ObjectLock] == env.enabledLock)
            && (l == ConfigFile(ObjectLock) || (l == LockEnabledFile && data == env.legacyEnabled) ==>
                  r.configs[Versioning] == env.enabledVersioning)
            && (l.ConfigFile? && l.config != ObjectLock ==>
                  r.configs[ObjectLock] == raw.configs[ObjectLock] && r.configs[Versioning] == raw.configs[Versioning])
            && (l == LockEnabledFile && data != env.legacyEnabled ==> r == raw)
  {
    if l.ConfigFile? && l.config != ObjectLock {
      var c: Config := l.config;
      PutAt(raw.configs, c, data, ObjectLock);
      PutAt(raw.configs, c, data, Versioning);
    }
  }

  /** The lock config after a walk: the given one, the file's, or the default; the given one only if there is no file. */
  lemma {:induction false} WalkLock(env: Env, raw: Raw, order: seq<Legacy>, configs: map<Legacy, Bytes>)
    requires forall i :: 0 <= i < |order| ==> order[i] in configs
    ensures var lock := ApplyOrder(env, raw, order, configs).configs[ObjectLock];
            || lock == env.enabledLock
            || (ConfigFile(ObjectLock) in order && lock == configs[ConfigFile(ObjectLock)])
            || (ConfigFile(ObjectLock) !in order && lock == raw.configs[ObjectLock])
    decreases |order|
  {
    if order != [] {
      ApplyOneLock(env, raw, order[0], configs[order[0]]);
      WalkLock(env, ApplyOne(env, raw, order[0], configs[order[0]]), order[1..], configs);
    }
  }

  /** Versioning after a walk: enabled if a lock file was met, as given otherwise, and then so is the lock. */
  lemma {:induction false} WalkVersioning(env: Env, raw: Raw, order: seq<Legacy>, configs: map<Legacy, Bytes>)
    requires forall i :: 0 <= i < |order| ==> order[i] in configs
    ensures var r := ApplyOrder(env, raw, order, configs);
            || r.configs[Versioning] == env.enabledVersioning
            || (r.configs[Versioning] == raw.configs[Versioning] && r.configs[ObjectLock] == raw.configs[ObjectLock])
    ensures var r := ApplyOrder(env, raw, order, configs);
            (exists l :: l in order && MeetsLock(env, l, configs[l])) || raw.configs[Versioning] == env.enabledVersioning ==>
              r.configs[Versioning] == env.enabledVersioning
    decreases |order|
  {
    if order != [] {
      var l := order[0];
      ApplyOneLock(env, raw, l, configs[l]);
      WalkVersioning(env, ApplyOne(env, raw, l, configs[l]), order[1..], configs);
      assert forall x :: x in order <==> x == l || x in order[1..];
    }
  }

  /** A file that turns into a lock config. */
  predicate MeetsLock(env: Env, l: Legacy, data: Bytes) {
    l == ConfigFile(ObjectLock) || (l == LockEnabledFile && data == env.legacyEnabled)
  }

  // ---------- loading ----------

  /** What a load works on: the stored metadata with the legacy files folded in. */
  function Folded(env: Env, files: Files, now: Time, order: seq<Legacy>): Raw
    requires forall i :: 0 <= i < |order| ==> order[i] in Collect(env, Base(files, now), files.legacy)
  {
    ApplyOrder(env, Base(files, now).(lockEnabled := false), order, Collect(env, Base(files, now), files.legacy))
  }

  lemma BaseConfigs(files: Files, now: Time)
    ensures Base(files, now).configs[ObjectLock] == StoredLock(files)
    ensures Base(files, now).configs[Versioning] == StoredVersioning(files)
  {
    assert NewRaw(now).configs[ObjectLock] == NoData(ObjectLock);
    assert NewRaw(now).configs[Versioning] == NoData(Versioning);
  }

  lemma FoldedIsSafe(env: Env, k: Kinds, files: Files, now: Time, order: seq<Legacy>)
    requires IsWalk(order, Collect(env, Base(files, now), files.legacy))
    requires Faithful(env, k) && SafeFiles(env, k, files)
    ensures SafeRaw(env, k, Folded(env, files, now, order))
  {
    BaseConfigs(files, now);
    WalkVersioning(env, Base(files, now).(lockEnabled := false), order, Collect(env, Base(files, now), files.legacy));
  }

  lemma FoldedShowsDefault(env: Env, files: Files, now: Time, order: seq<Legacy>)
    requires IsWalk(order, Collect(env, Base(files, now), files.legacy))
    ensures var lock := Folded(env, files, now, order).configs[ObjectLock];
            && (ShowsDefault(env, files) ==> IsDefault(env, lock))
            && (lock == [] && lock != env.enabledLock && ConfigFile(ObjectLock) in files.legacy ==>
                  files.legacy[ConfigFile(ObjectLock)] == [])
  {
    var configs := Collect(env, Base(files, now), files.legacy);
    BaseConfigs(files, now);
    WalkLock(env, Base(files, now).(lockEnabled := false), order, configs);
    assert ConfigFile(ObjectLock) in files.legacy ==>
             ConfigFile(ObjectLock) in configs && configs[ConfigFile(ObjectLock)] == files.legacy[ConfigFile(ObjectLock)];
    assert ConfigFile(ObjectLock) in configs && ConfigFile(ObjectLock) !in files.legacy ==>
             configs[ConfigFile(ObjectLock)] == env.enabledLock;
  }

  lemma FoldedShowsEnabled(env: Env, k: Kinds, files: Files, now: Time, order: seq<Legacy>)
    requires IsWalk(order, Collect(env, Base(files, now), files.legacy))
    requires Faithful(env, k) && ShowsEnabled(env, k, files)
    ensures EnabledData(env, k, Folded(env, files, now, order).configs[Versioning])
  {
    var configs := Collect(env, Base(files, now), files.legacy);
    BaseConfigs(files, now);
    WalkVersioning(env, Base(files, now).(lockEnabled := false), order, configs);
    if LockFiles(env, files.legacy) {
      var l := if EnablesLock(env, files.legacy) then LockEnabledFile else ConfigFile(ObjectLock);
      assert l in configs && configs[l] == files.legacy[l];
      assert l in order && MeetsLock(env, l, configs[l]);
    }
  }

  /** What a load keeps of the files, for an entry that was cached before. */
  ghost predicate Kept(env: Env, k: Kinds, files: Files, files': Files) {
    && (ShowsDefault(env, files) ==> ShowsDefault(env, files'))
    && (ShowsEnabled(env, k, files) ==> ShowsEnabled(env, k, files'))
  }

  /** What a load shows of the files. */
  ghost predicate Sees(env: Env, k: Kinds, files: Files, raw: Raw) {
    && (ShowsDefault(env, files) ==> IsDefault(env, raw.configs[ObjectLock]))
    && (ShowsEnabled(env, k, files) ==> EnabledData(env, k, raw.configs[Versioning]))
  }

  /** What a conversion, a load or an update returns, against the files it leaves. */
  ghost predicate Good(env: Env, k: Kinds, m: Meta, files: Files) {
    SafeMeta(env, k, m) && SafeFiles(env, k, files) && Truthful(env, k, m, files) && Mirrors(env, k, m, files)
  }

  /** The metadata shows the stored configs, up to versioning forced by the lock. */
  ghost predicate Mirrors(env: Env, k: Kinds, m: Meta, files: Files) {
    && m.raw.configs[ObjectLock] == StoredLock(files)
    && (EnabledData(env, k, StoredVersioning(files)) ==> EnabledData(env, k, m.raw.configs[Versioning]))
  }

  lemma FixKeepsEnabled(env: Env, k: Kinds, raw: Raw)
    requires Faithful(env, k) && EnabledData(env, k, raw.configs[Versioning])
    ensures EnabledData(env, k, FixVersioning(env, raw).configs[Versioning])
  {
    FixedAt(env, raw, Versioning);
  }

  /** Safe configs, parsed and saved beside files whose lock config, if any, is empty where there is no lock. */
  lemma SavedIsGood(env: Env, k: Kinds, raw: Raw, docs: Docs, m: Meta, legacy: map<Legacy, Bytes>)
    requires Faithful(env, k) && ParseAll(env, raw, docs) == Some(m)
    requires IsDefault(env, raw.configs[ObjectLock]) || EnabledData(env, k, raw.configs[Versioning])
    requires raw.configs[ObjectLock] == [] && ConfigFile(ObjectLock) in legacy ==>
               IsDefault(env, legacy[ConfigFile(ObjectLock)])
    ensures Good(env, k, m, Files(Some(m.raw), legacy))
  {
    ParsedIsSafe(env, k, raw, docs, m);
    ParsedLock(env, raw, docs, m);
  }

  lemma PlainIsGood(env: Env, k: Kinds, files: Files, now: Time, m: Meta)
    requires Faithful(env, k) && SafeFiles(env, k, files) && files.legacy == map[]
    requires ParseAll(env, Base(files, now), DefaultDocs(env)) == Some(m)
    ensures Good(env, k, m, files) && Sees(env, k, files, m.raw)
  {
    var base := Base(files, now);
    BaseConfigs(files, now);
    ParsedIsSafe(env, k, base, DefaultDocs(env), m);
    ParsedLock(env, base, DefaultDocs(env), m);
    ParsedRaw(env, base, DefaultDocs(env), m);
    if EnabledData(env, k, base.configs[Versioning]) { FixKeepsEnabled(env, k, base); }
  }

  lemma FoldIsGood(env: Env, k: Kinds, files: Files, now: Time, order: seq<Legacy>, m: Meta, undeleted: set<Legacy>)
    requires IsWalk(order, Collect(env, Base(files, now), files.legacy))
    requires Faithful(env, k) && SafeFiles(env, k, files)
    requires ParseAll(env, Folded(env, files, now, order), DefaultDocs(env)) == Some(m)
    ensures var files' := Files(Some(m.raw), Remaining(files.legacy, undeleted));
            Good(env, k, m, files') && Kept(env, k, files, files') && Sees(env, k, files, m.raw)
  {
    var merged := Folded(env, files, now, order);
    FoldedIsSafe(env, k, files, now, order);
    FoldedShowsDefault(env, files, now, order);
    SavedIsGood(env, k, merged, DefaultDocs(env), m, Remaining(files.legacy, undeleted));
    ParsedLock(env, merged, DefaultDocs(env), m);
    ParsedRaw(env, merged, DefaultDocs(env), m);
    if ShowsEnabled(env, k, files) {
      FoldedShowsEnabled(env, k, files, now, order);
      FixKeepsEnabled(env, k, merged);
    }
  }

  /** How a conversion or a load ends: nothing done, or everything said by `Good`, `Kept` and `Sees`. */
  ghost predicate WellEnded(env: Env, k: Kinds, files: Files, r: (Option<Meta>, Files)) {
    && SafeFiles(env, k, r.1) && Kept(env, k, files, r.1)
    && (r.0.None? || (Good(env, k, r.0.value, r.1) && Sees(env, k, files, r.0.value.raw)))
  }

  lemma ConvertIsSafe(env: Env, k: Kinds, files: Files, ch: Choice)
    requires Faithful(env, k) && SafeFiles(env, k, files) && FullOrder(ch.order)
    ensures WellEnded(env, k, files, Convert(env, files, Base(files, ch.now), WalkOf(env, files, ch), ch.undeleted))
  {
    var base, order := Base(files, ch.now), WalkOf(env, files, ch);
    var configs := Collect(env, base, files.legacy);
    var r := Convert(env, files, base, order, ch.undeleted);
    if r.0.Some? {
      if configs == map[] {
        NothingCollected(env, base, files.legacy);
        PlainIsGood(env, k, files, ch.now, r.0.value);
      } else {
        assert IsWalk(order, configs) by { WalkIsWalk(ch.order, configs); }
        FoldIsGood(env, k, files, ch.now, order, r.0.value, ch.undeleted);
      }
    }
  }

  /** Encrypting the targets touches neither config, up to versioning forced by the lock. */
  lemma MigrateIsSafe(env: Env, k: Kinds, m: Meta, files: Files, nonce: int)
    requires Faithful(env, k) && Good(env, k, m, files)
    ensures var r := MigrateTargets(env, m, files, nonce);
            && WellEnded(env, k, files, (None, r.1))
            && (r.0.None? || (&& Good(env, k, r.0.value, r.1)
                              && r.0.value.raw.configs[ObjectLock] == m.raw.configs[ObjectLock]
                              && (EnabledData(env, k, m.raw.configs[Versioning]) ==>
                                    EnabledData(env, k, r.0.value.raw.configs[Versioning]))))
  {
    var r := MigrateTargets(env, m, files, nonce);
    if !TargetsSettled(env, m.raw) && r.0.Some? {
      var e := env.encrypt(m.raw.configs[Targets], nonce).value;
      MigratedIsGood(env, k, m, files, PutTargets(m.raw, e.0, e.1), r.0.value);
    }
  }

  lemma MigratedIsGood(env: Env, k: Kinds, m: Meta, files: Files, raw: Raw, m': Meta)
    requires Faithful(env, k) && Good(env, k, m, files)
    requires raw == PutTargets(m.raw, raw.configs[Targets], raw.targetsMeta) && ParseAll(env, raw, m.docs) == Some(m')
    ensures Good(env, k, m', files.(meta := Some(m'.raw))) && Kept(env, k, files, files.(meta := Some(m'.raw)))
    ensures m'.raw.configs[ObjectLock] == m.raw.configs[ObjectLock]
    ensures EnabledData(env, k, m.raw.configs[Versioning]) ==> EnabledData(env, k, m'.raw.configs[Versioning])
  {
    assert raw.configs[ObjectLock] == m.raw.configs[ObjectLock] && raw.configs[Versioning] == m.raw.configs[Versioning] by {
      PutAt(m.raw.configs, Targets, raw.configs[Targets], ObjectLock);
      PutAt(m.raw.configs, Targets, raw.configs[Targets], Versioning);
    }
    SavedIsGood(env, k, raw, m.docs, m', files.legacy);
    ParsedLock(env, raw, m.docs, m');
    ParsedRaw(env, raw, m.docs, m');
    if EnabledData(env, k, raw.configs[Versioning]) { FixKeepsEnabled(env, k, raw); }
    KeptBySave(env, k, m, files, m'.raw);
  }

  lemma KeptBySave(env: Env, k: Kinds, m: Meta, files: Files, raw: Raw)
    requires Mirrors(env, k, m, files) && raw.configs[ObjectLock] == m.raw.configs[ObjectLock]
    requires EnabledData(env, k, m.raw.configs[Versioning]) ==> EnabledData(env, k, raw.configs[Versioning])
    ensures Kept(env, k, files, files.(meta := Some(raw)))
  {
  }

  lemma TimedIsGood(env: Env, k: Kinds, m: Meta, files: Files)
    requires Good(env, k, m, files)
    ensures Good(env, k, m.(raw := DefaultTimes(m.raw)), files)
  {
    TimesKeepConfigs(m);
  }

  /** Every load, whatever it reads, deletes or fails at, keeps the files safe; what it returns is safe and truthful. */
  lemma LoadIsSafe(env: Env, k: Kinds, files: Files, ch: Choice)
    requires Faithful(env, k) && SafeFiles(env, k, files) && FullOrder(ch.order)
    ensures WellEnded(env, k, files, LoadFiles(env, files, ch))
  {
    if ch.readable {
      ConvertIsSafe(env, k, files, ch);
      var c := Convert(env, files, Base(files, ch.now), WalkOf(env, files, ch), ch.undeleted);
      if c.0.Some? {
        MigrateIsSafe(env, k, c.0.value, c.1, ch.nonce);
        var r := MigrateTargets(env, c.0.value, c.1, ch.nonce);
        if r.0.Some? {
          TimedIsGood(env, k, r.0.value, r.1);
          TimesKeepConfigs(r.0.value);
        }
      }
    }
  }

  // ---------- updates ----------

  /** Updates that keep a lock config beside enabled versioning, given the metadata they load. */
  ghost predicate Harmless(env: Env, k: Kinds, m: Meta, c: Config, data: Bytes) {
    && (c == ObjectLock ==> data != [] && EnabledData(env, k, m.raw.configs[Versioning]))
    && (c == Versioning ==> IsDefault(env, m.raw.configs[ObjectLock]) || EnabledData(env, k, data))
  }

  lemma SetConfigIsSafe(env: Env, k: Kinds, m: Meta, c: Config, data: Bytes, now: Time, nonce: int, raw: Raw)
    requires SafeRaw(env, k, m.raw) && Harmless(env, k, m, c, data)
    requires SetConfig(env, m.raw, c, data, now, nonce) == Some(raw)
    ensures IsDefault(env, raw.configs[ObjectLock]) || EnabledData(env, k, raw.configs[Versioning])
    ensures raw.configs[ObjectLock] == [] ==> m.raw.configs[ObjectLock] == []
  {
    SetConfigAt(env, m.raw, c, data, now, nonce, ObjectLock);
    SetConfigAt(env, m.raw, c, data, now, nonce, Versioning);
  }

  lemma SaveIsSafe(env: Env, k: Kinds, m: Meta, files: Files, c: Config, data: Bytes, now: Time, nonce: int)
    requires Faithful(env, k) && Good(env, k, m, files) && Harmless(env, k, m, c, data)
    ensures var s := SaveConfig(env, m, files, c, data, now, nonce);
            s == (None, files) || (s.0.Some? && Good(env, k, s.0.value, s.1))
  {
    var s := SaveConfig(env, m, files, c, data, now, nonce);
    if s.0.Some? {
      var raw := SetConfig(env, m.raw, c, data, now, nonce).value;
      assert s.1 == Files(Some(s.0.value.raw), files.legacy);
      SetConfigIsSafe(env, k, m, c, data, now, nonce, raw);
      SavedIsGood(env, k, raw, m.docs, s.0.value, files.legacy);
    }
  }

  lemma KeptTruth(env: Env, k: Kinds, s: Slot, files: Files)
    requires Inv(env, k, s) && SafeFiles(env, k, files) && Kept(env, k, s.files, files)
    ensures Inv(env, k, Slot(s.cached, files))
  {
  }

  /** An update keeps the invariant if it is harmless to the metadata it loads. */
  lemma UpdateIsSafe(env: Env, k: Kinds, s: Slot, c: Config, data: Bytes, ch: Choice, now: Time, nonce: int)
    requires Faithful(env, k) && Inv(env, k, s) && FullOrder(ch.order)
    requires var l := LoadFiles(env, s.files, ch).0;
             l.None? || Harmless(env, k, l.value, c, data)
    ensures Inv(env, k, Update(env, s, c, data, ch, now, nonce).1)
  {
    LoadIsSafe(env, k, s.files, ch);
    var l := LoadFiles(env, s.files, ch);
    KeptTruth(env, k, s, l.1);
    if l.0.Some? {
      SaveIsSafe(env, k, l.0.value, l.1, c, data, now, nonce);
      var r := SaveConfig(env, l.0.value, l.1, c, data, now, nonce);
      assert UpdateFiles(env, s.files, ch, c, data, now, nonce) == r;
      if r.0.Some? { assert Inv(env, k, Slot(r.0, r.1)); }
    }
  }

  lemma ReloadIsSafe(env: Env, k: Kinds, s: Slot, ch: Choice)
    requires Faithful(env, k) && Inv(env, k, s) && FullOrder(ch.order)
    ensures Inv(env, k, Refresh(env, s, ch))
  {
    LoadIsSafe(env, k, s.files, ch);
    var l := LoadFiles(env, s.files, ch);
    KeptTruth(env, k, s, l.1);
  }

  /** A lookup keeps the invariant and leaves its result cached; one that fails leaves nothing cached. */
  lemma LookupIsSafe(env: Env, k: Kinds, s: Slot, ch: Choice)
    requires Faithful(env, k) && Inv(env, k, s) && FullOrder(ch.order)
    ensures var r := Lookup(env, s, ch);
            Inv(env, k, r.1) && r.1.cached == r.0
  {
    if s.cached.None? { LoadIsSafe(env, k, s.files, ch); }
  }

  // ---------- the versioning handler, exactly ----------

  /**
   The requests that break the property: versioning is to be suspended, no lookup tells of a lock or of
   replication although the first one failed, and the update itself finds a lock config other than the
   default one and saves.
   */
  ghost predicate Breaks(env: Env, k: Kinds, s: Slot, v: int, siteReplication: bool, calls: Calls) {
    var l := Lookup(env, s, calls.lock);
    var r := Lookup(env, l.1, calls.replication);
    var m := LoadFiles(env, r.1.files, calls.update).0;
    && k.suspended(v) && !siteReplication && l.0.None? && !Replicated(r.0)
    && m.Some? && !IsDefault(env, m.value.raw.configs[ObjectLock])
    && Update(env, r.1, Versioning, k.marshalVersioning(v), calls.update, calls.now, calls.nonce).0
  }

  lemma DecisionIsSafe(env: Env, k: Kinds, s: Slot, src: Source, v: int, sr: bool, calls: Calls)
    requires Faithful(env, k) && Inv(env, k, s) && FullOrders(calls)
    ensures Inv(env, k, VersioningDecision(env, k, s, src, v, sr, calls).1)
  {
    LookupIsSafe(env, k, s, calls.lock);
    LookupIsSafe(env, k, Lookup(env, s, calls.lock).1, calls.replication);
  }

  /** When an accepted config meets a lock that matters: the first lookup failed. */
  lemma AcceptedOverLock(env: Env, k: Kinds, s: Slot, src: Source, v: int, sr: bool, calls: Calls)
    requires Faithful(env, k) && Inv(env, k, s) && FullOrders(calls) && Validated(k, v)
    requires VersioningDecision(env, k, s, src, v, sr, calls).0
    ensures var d := VersioningDecision(env, k, s, src, v, sr, calls).1;
            var m := LoadFiles(env, d.files, calls.update).0;
            && d == Lookup(env, Lookup(env, s, calls.lock).1, calls.replication).1
            && (m.Some? && !IsDefault(env, m.value.raw.configs[ObjectLock]) ==>
                  Lookup(env, s, calls.lock).0.None? || Locked(Lookup(env, s, calls.lock).0))
            && (k.suspended(v) ==> !sr && !Locked(Lookup(env, s, calls.lock).0)
                                   && !Replicated(Lookup(env, Lookup(env, s, calls.lock).1, calls.replication).0))
  {
    LookupIsSafe(env, k, s, calls.lock);
    var l := Lookup(env, s, calls.lock);
    if l.0.Some? && !Locked(l.0) {
      assert ShowsDefault(env, l.1.files);
      LoadIsSafe(env, k, l.1.files, calls.update);
    }
  }

  lemma HarmlessConfig(env: Env, k: Kinds, m: Meta, v: int)
    requires Faithful(env, k) && (k.suspended(v) ==> IsDefault(env, m.raw.configs[ObjectLock]))
    ensures Harmless(env, k, m, Versioning, k.marshalVersioning(v))
  {
    assert Preserves(env, k, v);
  }

  /** Suspending versioning beside a lock config that does not force it is what the property forbids. */
  lemma SuspendedIsUnsafe(env: Env, k: Kinds, m: Meta, files: Files, v: int, now: Time, nonce: int)
    requires Faithful(env, k) && k.suspended(v) && !IsDefault(env, m.raw.configs[ObjectLock])
    requires SaveConfig(env, m, files, Versioning, k.marshalVersioning(v), now, nonce).0.Some?
    ensures var r := SaveConfig(env, m, files, Versioning, k.marshalVersioning(v), now, nonce);
            !SafeDocs(k, r.0.value) && !SafeFiles(env, k, r.1)
  {
    var data := k.marshalVersioning(v);
    var r := SaveConfig(env, m, files, Versioning, data, now, nonce);
    var raw := SetConfig(env, m.raw, Versioning, data, now, nonce).value;
    SetConfigAt(env, m.raw, Versioning, data, now, nonce, ObjectLock);
    SetConfigAt(env, m.raw, Versioning, data, now, nonce, Versioning);
    ParsedRaw(env, raw, m.docs, r.0.value);
    FixedAt(env, raw, Versioning);
    ParsedLock(env, raw, m.docs, r.0.value);
    ParsedVersioning(env, raw, m.docs, r.0.value);
    assert Preserves(env, k, v);
  }

  /** A versioning request breaks the property exactly if `Breaks` says so, and keeps the invariant otherwise. */
  lemma VersioningExactly(env: Env, k: Kinds, s: Slot, src: Source, v: int, sr: bool, calls: Calls)
    requires Faithful(env, k) && Inv(env, k, s) && FullOrders(calls) && Validated(k, v)
    ensures Safe(env, k, PutVersioning(env, k, s, src, v, sr, calls).1) <==> !Breaks(env, k, s, v, sr, calls)
    ensures !Breaks(env, k, s, v, sr, calls) ==> Inv(env, k, PutVersioning(env, k, s, src, v, sr, calls).1)
  {
    DecisionIsSafe(env, k, s, src, v, sr, calls);
    var d := VersioningDecision(env, k, s, src, v, sr, calls);
    if d.0 {
      AcceptedOverLock(env, k, s, src, v, sr, calls);
      AcceptedExactly(env, k, s, d.1, v, sr, calls);
    } else {
      RefusedIsNoBreak(env, k, s, src, v, sr, calls);
    }
  }

  lemma RefusedIsNoBreak(env: Env, k: Kinds, s: Slot, src: Source, v: int, sr: bool, calls: Calls)
    requires Validated(k, v) && !VersioningDecision(env, k, s, src, v, sr, calls).0
    ensures !Breaks(env, k, s, v, sr, calls)
  {
  }

  /** Suspending over a lock that matters breaks the property, or the update fails and nothing changes for it. */
  lemma SuspendOverLock(env: Env, k: Kinds, d: Slot, v: int, calls: Calls)
    requires Faithful(env, k) && Inv(env, k, d) && FullOrders(calls) && k.suspended(v)
    requires var m := LoadFiles(env, d.files, calls.update).0;
             m.Some? && !IsDefault(env, m.value.raw.configs[ObjectLock])
    ensures var r := Update(env, d, Versioning, k.marshalVersioning(v), calls.update, calls.now, calls.nonce);
            (r.0 && !Safe(env, k, r.1)) || (!r.0 && Inv(env, k, r.1))
  {
    var m := LoadFiles(env, d.files, calls.update);
    var r := SaveConfig(env, m.0.value, m.1, Versioning, k.marshalVersioning(v), calls.now, calls.nonce);
    if r.0.Some? {
      SuspendedIsUnsafe(env, k, m.0.value, m.1, v, calls.now, calls.nonce);
    } else {
      LoadIsSafe(env, k, d.files, calls.update);
      KeptTruth(env, k, d, m.1);
    }
  }

  lemma AcceptedExactly(env: Env, k: Kinds, s: Slot, d: Slot, v: int, sr: bool, calls: Calls)
    requires Faithful(env, k) && Inv(env, k, d) && FullOrders(calls)
    requires d == Lookup(env, Lookup(env, s, calls.lock).1, calls.replication).1
    requires var m := LoadFiles(env, d.files, calls.update).0;
             m.Some? && !IsDefault(env, m.value.raw.configs[ObjectLock]) ==>
               Lookup(env, s, calls.lock).0.None? || Locked(Lookup(env, s, calls.lock).0)
    requires k.suspended(v) ==> !sr && !Locked(Lookup(env, s, calls.lock).0)
                                && !Replicated(Lookup(env, Lookup(env, s, calls.lock).1, calls.replication).0)
    ensures var r := Update(env, d, Versioning, k.marshalVersioning(v), calls.update, calls.now, calls.nonce);
            && (Safe(env, k, r.1) <==> !Breaks(env, k, s, v, sr, calls))
            && (!Breaks(env, k, s, v, sr, calls) ==> Inv(env, k, r.1))
  {
    var data := k.marshalVersioning(v);
    var m := LoadFiles(env, d.files, calls.update);
    if m.0.Some? && k.suspended(v) && !IsDefault(env, m.0.value.raw.configs[ObjectLock]) {
      SuspendOverLock(env, k, d, v, calls);
    } else {
      if m.0.Some? { HarmlessConfig(env, k, m.0.value, v); }
      UpdateIsSafe(env, k, d, Versioning, data, calls.update, calls.now, calls.nonce);
    }
  }

  lemma LockIsSafe(env: Env, k: Kinds, s: Slot, config: int, calls: Calls)
    requires Faithful(env, k) && Inv(env, k, s) && FullOrders(calls)
    ensures Inv(env, k, PutLock(env, k, s, config, calls).1)
  {
    LookupIsSafe(env, k, s, calls.lock);
    var l := Lookup(env, s, calls.lock);
    if Locked(l.0) {
      LoadIsSafe(env, k, l.1.files, calls.update);
      UpdateIsSafe(env, k, l.1, ObjectLock, k.marshalLock(config), calls.update, calls.now, calls.nonce);
    }
  }

  lemma CreateIsSafe(env: Env, k: Kinds, s: Slot, lock: bool, versioning: bool, now: Time)
    requires Faithful(env, k) && Inv(env, k, s) && s.files == Files(None, map[])
    ensures Inv(env, k, Create(env, s, lock, versioning, now).1)
  {
    var raw := CreatedRaw(env, lock, versioning, now);
    CreatedLock(env, lock, versioning, now);
    var m := ParseAll(env, raw, DefaultDocs(env));
    if m.Some? {
      SavedIsGood(env, k, raw, DefaultDocs(env), m.value, map[]);
    }
  }

  lemma CreatedLock(env: Env, lock: bool, versioning: bool, now: Time)
    ensures CreatedRaw(env, lock, versioning, now).configs[ObjectLock] == if lock then env.enabledLock else []
  {
    var r := NewRaw(now);
    assert r.configs[ObjectLock] == NoData(ObjectLock);
    assert PutConfig(r.configs, Versioning, env.enabledVersioning)[ObjectLock] == [];
  }

  lemma CreatedTargets(env: Env, lock: bool, versioning: bool, now: Time)
    ensures var raw := CreatedRaw(env, lock, versioning, now);
            raw.configs[Targets] == [] && !raw.lockEnabled && raw.created == now && raw.updated == NewRaw(now).updated
  {
    var r := NewRaw(now);
    assert r.configs[Targets] == NoData(Targets);
    PutAt(r.configs, Versioning, env.enabledVersioning, Targets);
    PutAt(PutConfig(r.configs, Versioning, env.enabledVersioning), ObjectLock, env.enabledLock, Targets);
  }

  /**
   The entry cached when a bucket is made lacks the default times: a reload gives it with the times set
   to the creation time, and so the entry itself exactly if that is the zero time.
   */
  lemma CreatedEntryReloads(env: Env, s: Slot, lock: bool, versioning: bool, now: Time, ch: Choice)
    requires s.files == Files(None, map[]) && ch.readable && FullOrder(ch.order)
    requires Create(env, s, lock, versioning, now).0
    ensures var made := Create(env, s, lock, versioning, now).1;
            var again := LoadFiles(env, made.files, ch).0;
            && again == WithTimes(made.cached)
            && (again == made.cached <==> now == 0)
  {
    var raw := CreatedRaw(env, lock, versioning, now);
    var m := ParseAll(env, raw, DefaultDocs(env)).value;
    CreatedTargets(env, lock, versioning, now);
    ParsedRaw(env, raw, DefaultDocs(env), m);
    FixedAt(env, raw, Targets);
    ParseAgain(env, raw, DefaultDocs(env));
    SavedParseIsOk(env, m);
    AbsorbedReload(env, m.(raw := DefaultTimes(m.raw)), Files(Some(m.raw), map[]), ch);
    UnsetTimes(m.raw);
  }

  lemma UnsetTimes(raw: Raw)
    requires forall c: Config :: raw.updated[c] == 0
    ensures DefaultTimes(raw) == raw <==> raw.created == 0
  {
    assert DefaultTimes(raw).updated[Policy] == DefaultTime(raw, Policy);
    if raw.created == 0 { SetTimesStay(raw); }
  }

  /** Whether a step breaks the property. */
  ghost predicate Breach(env: Env, k: Kinds, s: Slot, op: Op) {
    op.SetVersioning? && Breaks(env, k, s, op.v, op.siteReplication, op.calls)
  }

  /** Every step keeps the invariant, but for the breaches, which break the property. */
  lemma StepExactly(env: Env, k: Kinds, s: Slot, op: Op)
    requires Faithful(env, k) && Inv(env, k, s) && Proper(k, s, op)
    ensures Safe(env, k, Step(env, k, s, op)) <==> !Breach(env, k, s, op)
    ensures !Breach(env, k, s, op) ==> Inv(env, k, Step(env, k, s, op))
  {
    match op
    case MakeBucket(lock, versioning, now) => CreateIsSafe(env, k, s, lock, versioning, now);
    case SetVersioning(src, v, sr, calls) => VersioningExactly(env, k, s, src, v, sr, calls);
    case SetLock(config, calls) => LockIsSafe(env, k, s, config, calls);
    case SetOther(c, data, ch, now, nonce) => UpdateIsSafe(env, k, s, c, data, ch, now, nonce);
    case Reload(ch) => ReloadIsSafe(env, k, s, ch);
    case Forget =>
  }

  // ---------- whole runs ----------

  function Run(env: Env, k: Kinds, s: Slot, ops: seq<Op>): Slot
    decreases |ops|
  {
    if ops == [] then s else Run(env, k, Step(env, k, s, ops[0]), ops[1..])
  }

  ghost predicate ProperRun(env: Env, k: Kinds, s: Slot, ops: seq<Op>)
    decreases |ops|
  {
    ops == [] || (Proper(k, s, ops[0]) && ProperRun(env, k, Step(env, k, s, ops[0]), ops[1..]))
  }

  ghost predicate NoBreach(env: Env, k: Kinds, s: Slot, ops: seq<Op>)
    decreases |ops|
  {
    ops == [] || (!Breach(env, k, s, ops[0]) && NoBreach(env, k, Step(env, k, s, ops[0]), ops[1..]))
  }

  /** The property holds before every step of the run and at its end. */
  ghost predicate AlwaysSafe(env: Env, k: Kinds, s: Slot, ops: seq<Op>)
    decreases |ops|
  {
    Safe(env, k, s) && (ops == [] || AlwaysSafe(env, k, Step(env, k, s, ops[0]), ops[1..]))
  }

  lemma {:induction false} SafeExactly(env: Env, k: Kinds, s: Slot, ops: seq<Op>)
    requires Faithful(env, k) && Inv(env, k, s) && ProperRun(env, k, s, ops)
    ensures AlwaysSafe(env, k, s, ops) <==> NoBreach(env, k, s, ops)
    ensures NoBreach(env, k, s, ops) ==> Inv(env, k, Run(env, k, s, ops))
    decreases |ops|
  {
    if ops != [] {
      StepExactly(env, k, s, ops[0]);
      if !Breach(env, k, s, ops[0]) {
        SafeExactly(env, k, Step(env, k, s, ops[0]), ops[1..]);
      }
    }
  }

  /**
   From files whose lock config, if any, comes with enabled versioning, with any legacy files beside
   them: over every run, the bucket is never locked with suspended versioning if and only if no request
   breaks it by the one way there is; and then no later load shows it either.
   */
  lemma NeverLockedAndSuspended(env: Env, k: Kinds, files: Files, ops: seq<Op>, ch: Choice)
    requires Faithful(env, k) && SafeFiles(env, k, files) && FullOrder(ch.order)
    requires ProperRun(env, k, Slot(None, files), ops)
    ensures AlwaysSafe(env, k, Slot(None, files), ops) <==> NoBreach(env, k, Slot(None, files), ops)
    ensures NoBreach(env, k, Slot(None, files), ops) ==>
              var m := LoadFiles(env, Run(env, k, Slot(None, files), ops).files, ch).0;
              m.None? || SafeDocs(k, m.value)
  {
    SafeExactly(env, k, Slot(None, files), ops);
    if NoBreach(env, k, Slot(None, files), ops) {
      LoadIsSafe(env, k, Run(env, k, Slot(None, files), ops).files, ch);
    }
  }

  /** With lookups that succeed, site replication, or no lock config but the default one, no request breaks it. */
  lemma WhenNothingBreaks(env: Env, k: Kinds, s: Slot, v: int, sr: bool, calls: Calls)
    requires Faithful(env, k) && Inv(env, k, s) && FullOrders(calls)
    requires Lookup(env, s, calls.lock).0.Some? || sr || !k.suspended(v) || ShowsDefault(env, s.files)
    ensures !Breaks(env, k, s, v, sr, calls)
  {
    if ShowsDefault(env, s.files) {
      KeepsDefault(env, k, s, calls.lock);
      var s1 := Lookup(env, s, calls.lock).1;
      LookupIsSafe(env, k, s, calls.lock);
      KeepsDefault(env, k, s1, calls.replication);
      LookupIsSafe(env, k, s1, calls.replication);
      LoadIsSafe(env, k, Lookup(env, s1, calls.replication).1.files, calls.update);
    }
  }

  lemma KeepsDefault(env: Env, k: Kinds, s: Slot, ch: Choice)
    requires Faithful(env, k) && Inv(env, k, s) && FullOrder(ch.order) && ShowsDefault(env, s.files)
    ensures ShowsDefault(env, Lookup(env, s, ch).1.files)
  {
    LoadIsSafe(env, k, s.files, ch);
  }

  // ---------- the breach ----------

  /**
   The failing requests: a bucket with object lock under rules of its own, no entry cached, and a store
   that fails while the guards look and answers again for the update.  Versioning is then suspended.
   */
  lemma FailedLookupSuspends(env: Env, k: Kinds, s: Slot, raw: Raw, src: Source, v: int, calls: Calls)
    requires Faithful(env, k) && Lenient(env) && Inv(env, k, s) && FullOrders(calls)
    requires s == Slot(None, Files(Some(raw), map[])) && !raw.lockEnabled && !IsDefault(env, raw.configs[ObjectLock])
    requires k.suspended(v) && Validated(k, v)
    requires !calls.lock.readable && !calls.replication.readable && calls.update.readable
    ensures PutVersioning(env, k, s, src, v, false, calls).0
    ensures !Safe(env, k, PutVersioning(env, k, s, src, v, false, calls).1)
    ensures var m := PutVersioning(env, k, s, src, v, false, calls).1.cached;
            Locked(m) && m.value.docs[Versioning].Some? && k.suspended(m.value.docs[Versioning].value)
  {
    var data := k.marshalVersioning(v);
    LenientLoads(env, s.files, raw, calls.update);
    var l := LoadFiles(env, s.files, calls.update);
    LenientSaves(env, l.0.value, l.1, Versioning, data, calls.now, calls.nonce);
    var r := SaveConfig(env, l.0.value, l.1, Versioning, data, calls.now, calls.nonce);
    SuspendedIsUnsafe(env, k, l.0.value, l.1, v, calls.now, calls.nonce);
    SavedVersioning(env, k, l.0.value, l.1, v, calls.now, calls.nonce);
  }

  /** What a saved versioning config reads as, beside a lock config that does not force it. */
  lemma SavedVersioning(env: Env, k: Kinds, m: Meta, files: Files, v: int, now: Time, nonce: int)
    requires Faithful(env, k) && !IsDefault(env, m.raw.configs[ObjectLock])
    requires SaveConfig(env, m, files, Versioning, k.marshalVersioning(v), now, nonce).0.Some?
    ensures var r := SaveConfig(env, m, files, Versioning, k.marshalVersioning(v), now, nonce).0;
            && Locked(r) && r.value.docs[Versioning].Some?
            && k.suspended(r.value.docs[Versioning].value) == k.suspended(v)
            && k.excluded(r.value.docs[Versioning].value) == k.excluded(v)
  {
    var data := k.marshalVersioning(v);
    var r := SaveConfig(env, m, files, Versioning, data, now, nonce);
    var raw := SetConfig(env, m.raw, Versioning, data, now, nonce).value;
    SetConfigAt(env, m.raw, Versioning, data, now, nonce, ObjectLock);
    SetConfigAt(env, m.raw, Versioning, data, now, nonce, Versioning);
    ParsedRaw(env, raw, m.docs, r.0.value);
    FixedAt(env, raw, Versioning);
    ParsedLock(env, raw, m.docs, r.0.value);
    ParsedVersioning(env, raw, m.docs, r.0.value);
    assert Preserves(env, k, v);
  }

  // ---------- excluded prefixes ----------

  /**
   Which requests leave a locked bucket with prefixes excluded from versioning: those that exclude some
   and find a lock config other than the default one, and are imports, or puts whose lookup failed.
   */
  lemma ExclusionsExactly(env: Env, k: Kinds, s: Slot, src: Source, v: int, sr: bool, calls: Calls)
    requires Faithful(env, k) && Inv(env, k, s) && FullOrders(calls) && Validated(k, v)
    requires PutVersioning(env, k, s, src, v, sr, calls).0
    ensures var d := VersioningDecision(env, k, s, src, v, sr, calls).1;
            var m := PutVersioning(env, k, s, src, v, sr, calls).1.cached;
            var l := LoadFiles(env, d.files, calls.update).0;
            && m.Some? && l.Some?
            && (Locked(m) && m.value.docs[Versioning].Some? && k.excluded(m.value.docs[Versioning].value) <==>
                k.excluded(v) && !IsDefault(env, l.value.raw.configs[ObjectLock])
                && (src == Import || Lookup(env, s, calls.lock).0.None?))
  {
    var d := VersioningDecision(env, k, s, src, v, sr, calls).1;
    AcceptedOverLock(env, k, s, src, v, sr, calls);
    var l := LoadFiles(env, d.files, calls.update);
    var r := SaveConfig(env, l.0.value, l.1, Versioning, k.marshalVersioning(v), calls.now, calls.nonce);
    if IsDefault(env, l.0.value.raw.configs[ObjectLock]) {
      DefaultIsWhole(env, k, l.0.value, l.1, v, calls.now, calls.nonce);
    } else {
      SavedVersioning(env, k, l.0.value, l.1, v, calls.now, calls.nonce);
    }
  }

  /** No lock config, or one that forces plain versioning. */
  lemma DefaultIsWhole(env: Env, k: Kinds, m: Meta, files: Files, v: int, now: Time, nonce: int)
    requires Faithful(env, k) && IsDefault(env, m.raw.configs[ObjectLock])
    requires SaveConfig(env, m, files, Versioning, k.marshalVersioning(v), now, nonce).0.Some?
    ensures var r := SaveConfig(env, m, files, Versioning, k.marshalVersioning(v), now, nonce).0;
            Locked(r) ==> r.value.docs[Versioning].None? || !k.excluded(r.value.docs[Versioning].value)
  {
    var data := k.marshalVersioning(v);
    var r := SaveConfig(env, m, files, Versioning, data, now, nonce);
    var raw := SetConfig(env, m.raw, Versioning, data, now, nonce).value;
    SetConfigAt(env, m.raw, Versioning, data, now, nonce, ObjectLock);
    ParsedRaw(env, raw, m.docs, r.0.value);
    FixedAt(env, raw, Versioning);
    ParsedLock(env, raw, m.docs, r.0.value);
    if Locked(r.0) {
      ParsedVersioning(env, raw, m.docs, r.0.value);
    }
  }

  // ---------- what the handlers accept ----------

  /**
   Which versioning requests are stored: those that no guard refuses, for site replication, for a lock
   config that the lookup shows, or for a replication config, and whose update saves.
   */
  lemma StoredExactly(env: Env, k: Kinds, s: Slot, src: Source, v: int, sr: bool, calls: Calls)
    ensures var (m, s1) := Lookup(env, s, calls.lock);
            var (m2, s2) := Lookup(env, s1, calls.replication);
            var locked := m.Some? && m.value.docs[ObjectLock].Some?;
            var replicated := m2.Some? && m2.value.docs[Replication].Some?;
            var refused :=
              match src
              case Put => (sr && !k.enabled(v)) || (locked && (k.suspended(v) || k.excluded(v))) || (replicated && k.suspended(v))
              case Import => k.suspended(v) && (sr || locked || replicated);
            PutVersioning(env, k, s, src, v, sr, calls).0 <==>
              !refused && UpdateFiles(env, s2.files, calls.update, Versioning, k.marshalVersioning(v), calls.now, calls.nonce).0.Some?
  {
  }

  /** What a stored versioning config says: the request's, unless the default lock forces plain versioning. */
  lemma StoredVersioningExactly(env: Env, k: Kinds, s: Slot, src: Source, v: int, sr: bool, calls: Calls)
    requires PutVersioning(env, k, s, src, v, sr, calls).0
    ensures var s' := PutVersioning(env, k, s, src, v, sr, calls).1;
            && s'.cached.Some? && s'.files.meta == Some(s'.cached.value.raw)
            && s'.cached.value.raw.configs[Versioning] ==
                 (if s'.cached.value.raw.configs[ObjectLock] == env.enabledLock then env.enabledVersioning
                  else k.marshalVersioning(v))
            && s'.cached.value.raw.updated[Versioning] == calls.now
  {
    var d := VersioningDecision(env, k, s, src, v, sr, calls).1;
    VersioningSaved(env, d, k.marshalVersioning(v), calls.update, calls.now, calls.nonce);
  }

  lemma VersioningSaved(env: Env, d: Slot, data: Bytes, ch: Choice, now: Time, nonce: int)
    requires Update(env, d, Versioning, data, ch, now, nonce).0
    ensures var s' := Update(env, d, Versioning, data, ch, now, nonce).1;
            && s'.cached.Some? && s'.files.meta == Some(s'.cached.value.raw)
            && s'.cached.value.raw.configs[Versioning] ==
                 (if s'.cached.value.raw.configs[ObjectLock] == env.enabledLock then env.enabledVersioning else data)
            && s'.cached.value.raw.updated[Versioning] == now
  {
    UpdateExactly(env, d.files, ch, Versioning, data, now, nonce);
  }

  /** A lock config is stored exactly where the lookup shows one, and the update saves; then it is the request's. */
  lemma LockStoredExactly(env: Env, k: Kinds, s: Slot, config: int, calls: Calls)
    ensures var (m, s1) := Lookup(env, s, calls.lock);
            var r := PutLock(env, k, s, config, calls);
            && (r.0 <==>
                && m.Some? && m.value.docs[ObjectLock].Some?
                && UpdateFiles(env, s1.files, calls.update, ObjectLock, k.marshalLock(config), calls.now, calls.nonce).0.Some?)
            && (r.0 ==>
                  && r.1.cached.Some? && r.1.files.meta == Some(r.1.cached.value.raw)
                  && r.1.cached.value.raw.configs[ObjectLock] == k.marshalLock(config)
                  && r.1.cached.value.raw.updated[ObjectLock] == calls.now)
  {
    var (m, s1) := Lookup(env, s, calls.lock);
    if PutLock(env, k, s, config, calls).0 {
      UpdateExactly(env, s1.files, calls.update, ObjectLock, k.marshalLock(config), calls.now, calls.nonce);
    }
  }

  /** What a bucket is made with: the lock config and versioning if it is locked, versioning if it is asked for, nothing else. */
  lemma CreatedExactly(env: Env, s: Slot, lock: bool, versioning: bool, now: Time, c: Config)
    requires Sane(env) && Create(env, s, lock, versioning, now).0
    ensures var r := Create(env, s, lock, versioning, now).1;
            && r.cached.Some? && r.files == s.files.(meta := Some(r.cached.value.raw))
            && r.cached.value.raw.created == now
            && r.cached.value.raw.configs[c] ==
                 match c
                 case ObjectLock => if lock then env.enabledLock else []
                 case Versioning => if lock || versioning then env.enabledVersioning else []
                 case _ => []
  {
    var raw := CreatedRaw(env, lock, versioning, now);
    ParsedRaw(env, raw, DefaultDocs(env), ParseAll(env, raw, DefaultDocs(env)).value);
    CreatedConfig(env, lock, versioning, now, c);
    CreatedConfig(env, lock, versioning, now, ObjectLock);
    FixedAt(env, raw, c);
  }

  lemma CreatedConfig(env: Env, lock: bool, versioning: bool, now: Time, c: Config)
    ensures CreatedRaw(env, lock, versioning, now).configs[c] ==
              match c
              case ObjectLock => if lock then env.enabledLock else []
              case Versioning => if lock || versioning then env.enabledVersioning else []
              case _ => []
  {
    assert NewRaw(now).configs[c] == NoData(c);
  }

  // ---------- the assumptions can be met ----------

  /** Parsers that accept everything, for a versioning config that is suspended exactly if it is the byte 0. */
  function SampleEnv(kms: bool): Env {
    Env(kms, [1], [2], [3],
        (c: Config, data: Bytes) => Some(if data == [0] then 0 else 1),
        (data: Bytes, mark: Bytes) => Some(0),
        (c: Config) => 0,
        (data: Bytes, nonce: int) => Some((data, [1])))
  }

  function SampleKinds(): Kinds {
    Kinds((v: int) => v != 0, (v: int) => v == 0, (v: int) => false,
          (v: int) => if v == 0 then [0] else [2], (v: int) => [1])
  }

  lemma SampleIsFaithful(env: Env, k: Kinds, kms: bool)
    requires env == SampleEnv(kms) && k == SampleKinds()
    ensures Faithful(env, k)
  {
    assert forall v :: Preserves(env, k, v);
  }

  /** The failing requests exist: a bucket locked by rules of its own, without any KMS. */
  lemma BreachExists(env: Env, k: Kinds, raw: Raw, order: seq<Legacy>)
    requires env == SampleEnv(false) && k == SampleKinds() && FullOrder(order)
    requires !raw.lockEnabled && raw.configs[ObjectLock] == [9] && raw.configs[Versioning] == [2]
    ensures var down, up := Choice(0, 0, order, {}, false), Choice(0, 0, order, {}, true);
            var s := Slot(None, Files(Some(raw), map[]));
            && Inv(env, k, s)
            && Breaks(env, k, s, 0, false, Calls(down, down, up, 1, 0))
            && !Safe(env, k, PutVersioning(env, k, s, Put, 0, false, Calls(down, down, up, 1, 0)).1)
  {
    SampleIsFaithful(env, k, false);
    var calls := Calls(Choice(0, 0, order, {}, false), Choice(0, 0, order, {}, false), Choice(0, 0, order, {}, true), 1, 0);
    var s := Slot(None, Files(Some(raw), map[]));
    FailedLookupSuspends(env, k, s, raw, Put, 0, calls);
    VersioningExactly(env, k, s, Put, 0, false, calls);
  }

  // ---------- the code ----------

  function SlotOf(st: State, bucket: string): Slot {
    Slot(if bucket in st.cache then Some(st.cache[bucket]) else None, FilesOf(st.store, bucket))
  }

  /** Buckets other than this one are as they were. */
  ghost predicate OthersSame(st: State, st': State, bucket: string) {
    forall b :: b != bucket ==> SlotOf(st', b) == SlotOf(st, b)
  }

  method LookupConfig(sys: Sys, bucket: string, ch: Choice) returns (m: Option<Meta>)
    requires bucket != MetaBucket() && FullOrder(ch.order)
    modifies sys
    ensures (m, SlotOf(sys.Abstract(), bucket)) == Lookup(sys.envs(bucket), SlotOf(old(sys.Abstract()), bucket), ch)
    ensures OthersSame(old(sys.Abstract()), sys.Abstract(), bucket)
  {
    m := sys.GetConfig(bucket, ch);
  }

  method UpdateConfig(sys: Sys, bucket: string, c: Config, data: Bytes, ch: Choice, now: Time, nonce: int) returns (ok: bool)
    requires bucket != MetaBucket() && FullOrder(ch.order)
    modifies sys
    ensures (ok, SlotOf(sys.Abstract(), bucket))
         == Update(sys.envs(bucket), SlotOf(old(sys.Abstract()), bucket), c, data, ch, now, nonce)
    ensures OthersSame(old(sys.Abstract()), sys.Abstract(), bucket)
  {
    var r := sys.Update(bucket, c, data, ch, now, nonce);
    ok := r.Ok?;
    ghost var u := UpdateFiles(sys.envs(bucket), FilesOf(old(sys.Abstract()).store, bucket), ch, c, data, now, nonce);
    PutSlot(old(sys.Abstract()), bucket, u.0, u.1);
  }

  lemma PutSlot(st: State, bucket: string, m: Option<Meta>, files: Files)
    ensures SlotOf(BucketMetadataSys.Put(st, bucket, m, files), bucket) == Replace(SlotOf(st, bucket), m, files)
    ensures OthersSame(st, BucketMetadataSys.Put(st, bucket, m, files), bucket)
  {
  }

  /** The guards of the versioning handler. */
  method CheckVersioning(sys: Sys, bucket: string, k: Kinds, src: Source, v: int, siteReplication: bool, calls: Calls)
    returns (ok: bool)
    requires bucket != MetaBucket() && FullOrders(calls)
    modifies sys
    ensures (ok, SlotOf(sys.Abstract(), bucket))
         == VersioningDecision(sys.envs(bucket), k, SlotOf(old(sys.Abstract()), bucket), src, v, siteReplication, calls)
    ensures OthersSame(old(sys.Abstract()), sys.Abstract(), bucket)
  {
    if siteReplication && (if src == Put then !k.enabled(v) else k.suspended(v)) {
      return false;
    }
    var m := LookupConfig(sys, bucket, calls.lock);
    if Locked(m) && (k.suspended(v) || (src == Put && k.excluded(v))) {
      return false;
    }
    m := LookupConfig(sys, bucket, calls.replication);
    return !(Replicated(m) && k.suspended(v));
  }

  /** The versioning handler on the metadata system. */
  method PutBucketVersioning(sys: Sys, bucket: string, k: Kinds, src: Source, v: int, siteReplication: bool, calls: Calls)
    returns (ok: bool)
    requires bucket != MetaBucket() && FullOrders(calls)
    modifies sys
    ensures (ok, SlotOf(sys.Abstract(), bucket))
         == PutVersioning(sys.envs(bucket), k, SlotOf(old(sys.Abstract()), bucket), src, v, siteReplication, calls)
    ensures OthersSame(old(sys.Abstract()), sys.Abstract(), bucket)
  {
    ok := CheckVersioning(sys, bucket, k, src, v, siteReplication, calls);
    if ok {
      ok := UpdateConfig(sys, bucket, Versioning, k.marshalVersioning(v), calls.update, calls.now, calls.nonce);
    }
  }

  /** The lock-config handler. */
  method PutBucketObjectLockConfig(sys: Sys, bucket: string, k: Kinds, config: int, calls: Calls) returns (ok: bool)
    requires bucket != MetaBucket() && FullOrders(calls)
    modifies sys
    ensures (ok, SlotOf(sys.Abstract(), bucket))
         == PutLock(sys.envs(bucket), k, SlotOf(old(sys.Abstract()), bucket), config, calls)
    ensures OthersSame(old(sys.Abstract()), sys.Abstract(), bucket)
  {
    var m := LookupConfig(sys, bucket, calls.lock);
    if !Locked(m) {
      return false;
    }
    ok := UpdateConfig(sys, bucket, ObjectLock, k.marshalLock(config), calls.update, calls.now, calls.nonce);
  }
}
