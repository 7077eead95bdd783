/**
 Bucket metadata (cmd/bucket-metadata.go): the stored file of a bucket, its parsed form, and the
 migration of legacy per-config files.  Parsers and encryption are arbitrary functions.
 */
module BucketMetadata {
  import opened Prelude

  // ---------- data ----------

  /** Zero means unset. */
  type Time = int

  datatype Config =
    | Policy
    | Notification
    | Lifecycle
    | SSE
    | Tagging
    | ObjectLock
    | Versioning
    | Quota
    | Replication
    | Targets

  /** Configs that once had a file of their own. */
  type FileConfig = c: Config | c != Versioning witness Policy

  /** A legacy file: object-lock-enabled.json or a separate config file. */
  datatype Legacy = LockEnabledFile | ConfigFile(config: FileConfig)

  type Raws = m: map<Config, Bytes> | forall c: Config :: c in m
    witness map c: Config :: []

  type Times = m: map<Config, Time> | forall c: Config :: c in m
    witness map c: Config :: 0

  /** A parsed config, or none. */
  type Docs = m: map<Config, Option<int>> | forall c: Config :: c in m
    witness map c: Config :: None

  /** The persisted fields. */
  datatype Raw = Raw(created: Time, lockEnabled: bool, configs: Raws, targetsMeta: Bytes, updated: Times)

  /** Persisted and parsed fields. */
  datatype Meta = Meta(raw: Raw, docs: Docs)

  /** What the store holds for a bucket. */
  datatype Files = Files(meta: Option<Raw>, legacy: map<Legacy, Bytes>)

  /** Code outside the model: parsers, KMS, and the constant configs that enable lock and versioning. */
  datatype Env = Env(
    kms: bool,
    enabledLock: Bytes,
    enabledVersioning: Bytes,
    legacyEnabled: Bytes,
    parse: (Config, Bytes) -> Option<int>,
    parseTargets: (Bytes, Bytes) -> Option<int>,
    emptyDoc: Config -> int,
    encrypt: (Bytes, int) -> Option<(Bytes, Bytes)>)

  // ---------- parsing ----------

  /** Configs whose parsed field is left alone when the config is empty. */
  predicate KeptWhenEmpty(c: Config) {
    c == Notification || c == Versioning || c == Quota
  }

  /** The parsed field of a new bucket. */
  function DefaultDoc(env: Env, c: Config): Option<int> {
    if KeptWhenEmpty(c) || c == Targets then Some(env.emptyDoc(c)) else None
  }

  function DefaultDocs(env: Env): Docs {
    map c: Config :: DefaultDoc(env, c)
  }

  datatype Outcome = Failed | Parsed(doc: Option<int>)

  function Lift(v: Option<int>): Outcome {
    if v.None? then Failed else Parsed(v)
  }

  /** One config of parseAllConfigs, given the parsed field before. */
  function ParseOne(env: Env, raw: Raw, c: Config, prior: Option<int>): Outcome {
    var data := raw.configs[c];
    if data == [] then Parsed(if KeptWhenEmpty(c) then prior else DefaultDoc(env, c))
    else if c == Targets then Lift(env.parseTargets(data, raw.targetsMeta))
    else Lift(env.parse(c, data))
  }

  /** The default object-lock config forces versioning. */
  function FixVersioning(env: Env, raw: Raw): Raw {
    if raw.configs[ObjectLock] == env.enabledLock
    then raw.(configs := raw.configs[Versioning := env.enabledVersioning])
    else raw
  }

  predicate Parses(env: Env, raw: Raw, docs: Docs) {
    forall c: Config :: ParseOne(env, raw, c, docs[c]).Parsed?
  }

  /** parseAllConfigs: the first error fails it. */
  function ParseAll(env: Env, raw: Raw, docs: Docs): Option<Meta> {
    var r := FixVersioning(env, raw);
    if Parses(env, r, docs)
    then Some(Meta(r, ParsedDocs(env, r, docs)))
    else None
  }

  function ParsedDocs(env: Env, raw: Raw, docs: Docs): Docs
    requires Parses(env, raw, docs)
  {
    map c: Config :: ParseOne(env, raw, c, docs[c]).doc
  }

  /** Parsing depends on the outcome of each config and nothing else. */
  lemma ParsesAlike(env: Env, r: Raw, docs: Docs, r': Raw, docs': Docs)
    requires forall c: Config :: ParseOne(env, r, c, docs[c]) == ParseOne(env, r', c, docs'[c])
    ensures Parses(env, r, docs) <==> Parses(env, r', docs')
    ensures Parses(env, r, docs) ==> ParsedDocs(env, r, docs) == ParsedDocs(env, r', docs')
  {
    if Parses(env, r, docs) {
      assert Parses(env, r', docs') by {
        forall c: Config ensures ParseOne(env, r', c, docs'[c]).Parsed? {
          assert ParseOne(env, r, c, docs[c]).Parsed?;
        }
      }
      forall c: Config ensures ParsedDocs(env, r, docs)[c] == ParsedDocs(env, r', docs')[c] {
        ParsedDocsAt(env, r, docs, c);
        ParsedDocsAt(env, r', docs', c);
      }
      SameDocs(ParsedDocs(env, r, docs), ParsedDocs(env, r', docs'));
    } else {
      var c: Config :| !ParseOne(env, r, c, docs[c]).Parsed?;
      assert !ParseOne(env, r', c, docs'[c]).Parsed?;
    }
  }

  lemma ParsedDocsAt(env: Env, r: Raw, docs: Docs, c: Config)
    requires Parses(env, r, docs)
    ensures ParsedDocs(env, r, docs)[c] == ParseOne(env, r, c, docs[c]).doc
  {
  }

  lemma SameDocs(a: Docs, b: Docs)
    requires forall c: Config :: a[c] == b[c]
    ensures a == b
  {
  }

  /** One parsed field of parsed metadata. */
  lemma ParsedDocAt(env: Env, raw: Raw, docs: Docs, m: Meta, c: Config)
    requires ParseAll(env, raw, docs) == Some(m)
    ensures ParseOne(env, m.raw, c, docs[c]) == Parsed(m.docs[c])
  {
    ParsedDocsAt(env, m.raw, docs, c);
    assert ParseOne(env, m.raw, c, docs[c]).Parsed?;
  }

  // ---------- legacy migration ----------

  function NoData(c: Config): Bytes { [] }

  function Unset(c: Config): Time { 0 }

  function NewRaw(now: Time): Raw {
    Raw(now, false, map c: Config :: NoData(c), [], map c: Config :: Unset(c))
  }

  /** The legacy configs found: the files, and the old lock flag as if it were a file. */
  function Collect(env: Env, raw: Raw, legacy: map<Legacy, Bytes>): map<Legacy, Bytes> {
    (if raw.lockEnabled then map[ConfigFile(ObjectLock) := env.enabledLock] else map[]) + legacy
  }

  /** One legacy config folded into the metadata. */
  function ApplyOne(env: Env, raw: Raw, l: Legacy, data: Bytes): Raw {
    match l
    case LockEnabledFile =>
      if data == env.legacyEnabled
      then raw.(configs := raw.configs[ObjectLock := env.enabledLock][Versioning := env.enabledVersioning])
      else raw
    case ConfigFile(c) =>
      if c == ObjectLock then raw.(configs := raw.configs[ObjectLock := data][Versioning := env.enabledVersioning])
      else raw.(configs := raw.configs[c := data])
  }

  /** The legacy configs folded in, in the order the map was walked. */
  function ApplyOrder(env: Env, raw: Raw, order: seq<Legacy>, configs: map<Legacy, Bytes>): Raw
    requires forall i :: 0 <= i < |order| ==> order[i] in configs
    decreases |order|
  {
    if order == [] then raw
    else ApplyOrder(env, ApplyOne(env, raw, order[0], configs[order[0]]), order[1..], configs)
  }

  /** A walk over the map: every key once. */
  ghost predicate IsWalk(order: seq<Legacy>, configs: map<Legacy, Bytes>) {
    && NoDuplicates(order)
    && (forall i :: 0 <= i < |order| ==> order[i] in configs)
    && (forall l :: l in configs ==> l in order)
  }

  /** The two lock files disagree: one enables the default lock, the other holds something else. */
  predicate LockConflict(env: Env, configs: map<Legacy, Bytes>) {
    && LockEnabledFile in configs && configs[LockEnabledFile] == env.legacyEnabled
    && ConfigFile(ObjectLock) in configs && configs[ConfigFile(ObjectLock)] != env.enabledLock
  }

  /** The old lock file asks for the default lock. */
  predicate EnablesLock(env: Env, configs: map<Legacy, Bytes>) {
    LockEnabledFile in configs && configs[LockEnabledFile] == env.legacyEnabled
  }

  /** What the migration is meant to compute, config by config and without any order. */
  function MergedConfig(env: Env, raw: Raw, configs: map<Legacy, Bytes>, c: Config): Bytes {
    if c == Versioning then
      if EnablesLock(env, configs) || ConfigFile(ObjectLock) in configs then env.enabledVersioning
      else raw.configs[Versioning]
    else if c == ObjectLock && EnablesLock(env, configs) then env.enabledLock
    else if ConfigFile(c) in configs then configs[ConfigFile(c)]
    else raw.configs[c]
  }

  function Merged(env: Env, raw: Raw, configs: map<Legacy, Bytes>): Raw {
    raw.(configs := map c: Config :: MergedConfig(env, raw, configs, c))
  }

  /** The part of the map that a walk has visited. */
  ghost function Visited(order: seq<Legacy>, configs: map<Legacy, Bytes>): map<Legacy, Bytes> {
    map l | l in configs && l in order :: configs[l]
  }

  /** Folding one more config in first, or counting it among those to merge, is the same. */
  lemma MergedStep(env: Env, raw: Raw, l: Legacy, data: Bytes, rest: map<Legacy, Bytes>, c: Config)
    requires l !in rest && (c == ObjectLock ==> !LockConflict(env, rest[l := data]))
    ensures MergedConfig(env, ApplyOne(env, raw, l, data), rest, c) == MergedConfig(env, raw, rest[l := data], c)
  {
    match c
    case ObjectLock => MergedStepLock(env, raw, l, data, rest);
    case Versioning => MergedStepVersioning(env, raw, l, data, rest);
    case _ => MergedStepOther(env, raw, l, data, rest, c);
  }

  lemma MergedStepOther(env: Env, raw: Raw, l: Legacy, data: Bytes, rest: map<Legacy, Bytes>, c: Config)
    requires l !in rest && c != ObjectLock && c != Versioning
    ensures MergedConfig(env, ApplyOne(env, raw, l, data), rest, c) == MergedConfig(env, raw, rest[l := data], c)
  {
    ApplyOneAt(env, raw, l, data, c);
    if l == ConfigFile(c) {
    } else {
      assert ConfigFile(c) in rest[l := data] <==> ConfigFile(c) in rest;
    }
  }

  lemma ApplyOneAt(env: Env, raw: Raw, l: Legacy, data: Bytes, c: Config)
    requires c != ObjectLock && c != Versioning
    ensures ApplyOne(env, raw, l, data).configs[c] == if l == ConfigFile(c) then data else raw.configs[c]
  {
    if l.ConfigFile? {
      var d: Config := l.config;
      PutAt(raw.configs, d, data, c);
    }
  }

  lemma PutAt(configs: Raws, d: Config, data: Bytes, c: Config)
    ensures PutConfig(configs, d, data)[c] == if d == c then data else configs[c]
  {
  }

  lemma MergedStepLock(env: Env, raw: Raw, l: Legacy, data: Bytes, rest: map<Legacy, Bytes>)
    requires l !in rest && !LockConflict(env, rest[l := data])
    ensures MergedConfig(env, ApplyOne(env, raw, l, data), rest, ObjectLock)
         == MergedConfig(env, raw, rest[l := data], ObjectLock)
  {
    if l.ConfigFile? && l.config != ObjectLock {
      assert ApplyOne(env, raw, l, data).configs[ObjectLock] == raw.configs[ObjectLock];
    }
  }

  lemma MergedStepVersioning(env: Env, raw: Raw, l: Legacy, data: Bytes, rest: map<Legacy, Bytes>)
    requires l !in rest
    ensures MergedConfig(env, ApplyOne(env, raw, l, data), rest, Versioning)
         == MergedConfig(env, raw, rest[l := data], Versioning)
  {
    if l.ConfigFile? && l.config != ObjectLock {
      assert ApplyOne(env, raw, l, data).configs[Versioning] == raw.configs[Versioning];
    }
  }

  lemma VisitedStep(order: seq<Legacy>, configs: map<Legacy, Bytes>)
    requires order != [] && NoDuplicates(order) && order[0] in configs
    ensures order[0] !in Visited(order[1..], configs)
    ensures Visited(order, configs) == Visited(order[1..], configs)[order[0] := configs[order[0]]]
  {
    assert forall x :: x in order <==> x == order[0] || x in order[1..];
  }

  lemma {:induction false} ApplyOrderAt(
    env: Env, raw: Raw, order: seq<Legacy>, configs: map<Legacy, Bytes>, c: Config)
    requires forall i :: 0 <= i < |order| ==> order[i] in configs
    requires NoDuplicates(order) && (c == ObjectLock ==> !LockConflict(env, Visited(order, configs)))
    ensures ApplyOrder(env, raw, order, configs).configs[c] == MergedConfig(env, raw, Visited(order, configs), c)
    decreases |order|
  {
    if order != [] {
      var l, rest := order[0], order[1..];
      VisitedStep(order, configs);
      MergedStep(env, raw, l, configs[l], Visited(rest, configs), c);
      ApplyOrderAt(env, ApplyOne(env, raw, l, configs[l]), rest, configs, c);
    }
  }

  lemma {:induction false} ApplyOrderFrame(env: Env, raw: Raw, order: seq<Legacy>, configs: map<Legacy, Bytes>)
    requires forall i :: 0 <= i < |order| ==> order[i] in configs
    ensures ApplyOrder(env, raw, order, configs).(configs := raw.configs) == raw
    decreases |order|
  {
    if order != [] {
      ApplyOrderFrame(env, ApplyOne(env, raw, order[0], configs[order[0]]), order[1..], configs);
    }
  }

  /** Without a lock conflict, every walk over the legacy configs computes the same metadata. */
  lemma MigrationIsOrderIndependent(env: Env, raw: Raw, order: seq<Legacy>, configs: map<Legacy, Bytes>)
    requires IsWalk(order, configs) && !LockConflict(env, configs)
    ensures ApplyOrder(env, raw, order, configs) == Merged(env, raw, configs)
  {
    assert Visited(order, configs) == configs;
    var r, m := ApplyOrder(env, raw, order, configs), Merged(env, raw, configs);
    forall c: Config ensures r.configs[c] == m.configs[c] {
      ApplyOrderAt(env, raw, order, configs, c);
      assert m.configs[c] == MergedConfig(env, raw, configs, c);
    }
    SameConfigs(r.configs, m.configs);
    ApplyOrderFrame(env, raw, order, configs);
  }

  lemma SameConfigs(a: Raws, b: Raws)
    requires forall c: Config :: a[c] == b[c]
    ensures a == b
  {
  }

  lemma {:induction false} ApplyOrderConcat(env: Env, raw: Raw, a: seq<Legacy>, b: seq<Legacy>, configs: map<Legacy, Bytes>)
    requires forall i :: 0 <= i < |a| ==> a[i] in configs
    requires forall i :: 0 <= i < |b| ==> b[i] in configs
    ensures ApplyOrder(env, raw, a + b, configs) == ApplyOrder(env, ApplyOrder(env, raw, a, configs), b, configs)
    decreases |a|
  {
    if a == [] {
      assert a + b == b;
    } else {
      assert (a + b)[1..] == a[1..] + b;
      ApplyOrderConcat(env, ApplyOne(env, raw, a[0], configs[a[0]]), a[1..], b, configs);
    }
  }

  /** Every finite map can be walked. */
  lemma {:induction false} SomeWalk(keys: set<Legacy>) returns (order: seq<Legacy>)
    ensures NoDuplicates(order) && forall l :: l in keys <==> l in order
    decreases |keys|
  {
    if keys == {} {
      order := [];
    } else {
      var l :| l in keys;
      var rest := SomeWalk(keys - {l});
      order := rest + [l];
    }
  }

  /**
   The exact condition: if the two lock files disagree, the result does depend on the walk, since
   whichever is visited last decides the lock config.
   */
  lemma ConflictDependsOnOrder(env: Env, raw: Raw, configs: map<Legacy, Bytes>) returns (o1: seq<Legacy>, o2: seq<Legacy>)
    requires LockConflict(env, configs)
    ensures IsWalk(o1, configs) && IsWalk(o2, configs)
    ensures ApplyOrder(env, raw, o1, configs) != ApplyOrder(env, raw, o2, configs)
  {
    var a, b := LockEnabledFile, ConfigFile(ObjectLock);
    var rest := SomeWalk(configs.Keys - {a, b});
    o1, o2 := rest + [a, b], rest + [b, a];
    assert forall i :: 0 <= i < |rest| ==> rest[i] in rest;
    WalkThenPair(rest, a, b, configs);
    WalkThenPair(rest, b, a, configs);
    EndsWithConfigFile(env, raw, rest, configs);
    EndsWithEnabledFile(env, raw, rest, configs);
  }

  lemma WalkThenPair(rest: seq<Legacy>, x: Legacy, y: Legacy, configs: map<Legacy, Bytes>)
    requires NoDuplicates(rest) && x != y && x in configs && y in configs
    requires forall l :: l in configs.Keys - {x, y} <==> l in rest
    ensures IsWalk(rest + [x, y], configs)
  {
    var order := rest + [x, y];
    assert x !in rest && y !in rest;
    assert forall i :: 0 <= i < |rest| ==> rest[i] in rest;
    forall l | l in configs ensures l in order {
      assert l == x || l == y || l in rest;
      assert order[|rest|] == x && order[|rest| + 1] == y;
    }
  }

  lemma EndsWithConfigFile(env: Env, raw: Raw, rest: seq<Legacy>, configs: map<Legacy, Bytes>)
    requires LockEnabledFile in configs && ConfigFile(ObjectLock) in configs
    requires forall i :: 0 <= i < |rest| ==> rest[i] in configs
    ensures ApplyOrder(env, raw, rest + [LockEnabledFile, ConfigFile(ObjectLock)], configs).configs[ObjectLock]
         == configs[ConfigFile(ObjectLock)]
  {
    var a, b := LockEnabledFile, ConfigFile(ObjectLock);
    ApplyOrderConcat(env, raw, rest, [a, b], configs);
    LastDecides(env, ApplyOrder(env, raw, rest, configs), configs, a, b);
  }

  lemma EndsWithEnabledFile(env: Env, raw: Raw, rest: seq<Legacy>, configs: map<Legacy, Bytes>)
    requires EnablesLock(env, configs) && ConfigFile(ObjectLock) in configs
    requires forall i :: 0 <= i < |rest| ==> rest[i] in configs
    ensures ApplyOrder(env, raw, rest + [ConfigFile(ObjectLock), LockEnabledFile], configs).configs[ObjectLock]
         == env.enabledLock
  {
    var a, b := LockEnabledFile, ConfigFile(ObjectLock);
    ApplyOrderConcat(env, raw, rest, [b, a], configs);
    LastDecides(env, ApplyOrder(env, raw, rest, configs), configs, b, a);
  }

  lemma LastDecides(env: Env, raw: Raw, configs: map<Legacy, Bytes>, x: Legacy, y: Legacy)
    requires x in configs && y in configs
    ensures ApplyOrder(env, raw, [x, y], configs)
         == ApplyOne(env, ApplyOne(env, raw, x, configs[x]), y, configs[y])
  {
    var raw' := ApplyOne(env, raw, x, configs[x]);
    assert [x, y][1..] == [y];
    assert ApplyOrder(env, raw', [y], configs) == ApplyOrder(env, ApplyOne(env, raw', y, configs[y]), [], configs);
  }

  // ---------- what every walk computes ----------

  ghost predicate Before(order: seq<Legacy>, x: Legacy, y: Legacy) {
    exists i, j :: 0 <= i < j < |order| && order[i] == x && order[j] == y
  }

  /** The lock file that another one overrides: the one that the walk meets first. */
  ghost function Loser(order: seq<Legacy>): Legacy {
    if Before(order, LockEnabledFile, ConfigFile(ObjectLock)) then LockEnabledFile else ConfigFile(ObjectLock)
  }

  /** The files that count: all, or all but the overridden one if the lock files disagree. */
  ghost function Effective(env: Env, configs: map<Legacy, Bytes>, order: seq<Legacy>): map<Legacy, Bytes> {
    if LockConflict(env, configs) then configs - {Loser(order)} else configs
  }

  /** A walk that meets only one of the two lock files. */
  lemma {:induction false} OneLockFile(env: Env, raw: Raw, order: seq<Legacy>, configs: map<Legacy, Bytes>, y: Legacy)
    requires NoDuplicates(order) && (forall i :: 0 <= i < |order| ==> order[i] in configs) && y in order
    requires LockConflict(env, configs)
    requires (y == LockEnabledFile && ConfigFile(ObjectLock) !in order) || (y == ConfigFile(ObjectLock) && LockEnabledFile !in order)
    ensures ApplyOrder(env, raw, order, configs).configs[ObjectLock]
         == if y == LockEnabledFile then env.enabledLock else configs[ConfigFile(ObjectLock)]
  {
    var v := Visited(order, configs);
    assert y in v && v[y] == configs[y];
    assert !LockConflict(env, v);
    ApplyOrderAt(env, raw, order, configs, ObjectLock);
  }

  lemma {:induction false} TailOfWalk(order: seq<Legacy>, configs: map<Legacy, Bytes>, x: Legacy, j: nat)
    requires IsWalk(order, configs) && j < |order| && x in order[..j]
    ensures NoDuplicates(order[j..]) && x !in order[j..] && order[j] in order[j..]
    ensures forall i :: 0 <= i < |order[j..]| ==> order[j..][i] in configs
    ensures forall i :: 0 <= i < |order[..j]| ==> order[..j][i] in configs
  {
    var b := order[j..];
    assert forall i :: 0 <= i < |b| ==> b[i] == order[j + i];
    assert b[0] == order[j];
    var i :| 0 <= i < j && order[i] == x;
  }

  /** The lock file met last decides. */
  lemma {:induction false} LockOfLast(
    env: Env, raw: Raw, order: seq<Legacy>, configs: map<Legacy, Bytes>, x: Legacy, y: Legacy, j: nat)
    requires IsWalk(order, configs) && LockConflict(env, configs)
    requires (x == LockEnabledFile && y == ConfigFile(ObjectLock)) || (x == ConfigFile(ObjectLock) && y == LockEnabledFile)
    requires j < |order| && order[j] == y && x in order[..j]
    ensures ApplyOrder(env, raw, order, configs).configs[ObjectLock]
         == if y == LockEnabledFile then env.enabledLock else configs[ConfigFile(ObjectLock)]
  {
    TailOfWalk(order, configs, x, j);
    assert order == order[..j] + order[j..];
    ApplyOrderConcat(env, raw, order[..j], order[j..], configs);
    OneLockFile(env, ApplyOrder(env, raw, order[..j], configs), order[j..], configs, y);
  }

  lemma {:induction false} LoserLoses(env: Env, raw: Raw, order: seq<Legacy>, configs: map<Legacy, Bytes>)
    requires IsWalk(order, configs) && LockConflict(env, configs)
    ensures ApplyOrder(env, raw, order, configs).configs[ObjectLock]
         == if Loser(order) == LockEnabledFile then configs[ConfigFile(ObjectLock)] else env.enabledLock
  {
    var a, b := LockEnabledFile, ConfigFile(ObjectLock);
    assert a in order && b in order;
    var i :| 0 <= i < |order| && order[i] == a;
    var j :| 0 <= j < |order| && order[j] == b;
    if i < j {
      assert Before(order, a, b) && order[..j][i] == a;
      LockOfLast(env, raw, order, configs, a, b, j);
    } else {
      assert order[..i][j] == b;
      LockOfLast(env, raw, order, configs, b, a, i);
    }
  }

  lemma {:induction false} ConflictAt(env: Env, raw: Raw, order: seq<Legacy>, configs: map<Legacy, Bytes>, c: Config)
    requires IsWalk(order, configs) && LockConflict(env, configs)
    ensures ApplyOrder(env, raw, order, configs).configs[c] == MergedConfig(env, raw, configs - {Loser(order)}, c)
  {
    if c == ObjectLock {
      LoserLoses(env, raw, order, configs);
    } else {
      assert Visited(order, configs) == configs;
      ApplyOrderAt(env, raw, order, configs, c);
      WithoutLoser(env, raw, configs, Loser(order), c);
    }
  }

  /** Configs other than the lock do not miss the overridden lock file, as the other one is there. */
  lemma WithoutLoser(env: Env, raw: Raw, configs: map<Legacy, Bytes>, l: Legacy, c: Config)
    requires LockConflict(env, configs) && (l == LockEnabledFile || l == ConfigFile(ObjectLock)) && c != ObjectLock
    ensures MergedConfig(env, raw, configs - {l}, c) == MergedConfig(env, raw, configs, c)
  {
  }

  /** What any walk computes, conflict or not: the order-free merge of the files that count. */
  lemma {:induction false} WalkMerges(env: Env, raw: Raw, order: seq<Legacy>, configs: map<Legacy, Bytes>)
    requires IsWalk(order, configs)
    ensures !LockConflict(env, Effective(env, configs, order))
    ensures ApplyOrder(env, raw, order, configs) == Merged(env, raw, Effective(env, configs, order))
  {
    if LockConflict(env, configs) {
      var kept := configs - {Loser(order)};
      var r, m := ApplyOrder(env, raw, order, configs), Merged(env, raw, kept);
      forall c: Config ensures r.configs[c] == m.configs[c] {
        MergedAt(env, raw, kept, c);
        ConflictAt(env, raw, order, configs, c);
      }
      SameConfigs(r.configs, m.configs);
      ApplyOrderFrame(env, raw, order, configs);
    } else {
      MigrationIsOrderIndependent(env, raw, order, configs);
    }
  }

  /** Files left behind were absorbed exactly if the overridden lock file is not among them. */
  lemma LeftAbsorbedExactly(env: Env, raw: Raw, order: seq<Legacy>, configs: map<Legacy, Bytes>, left: map<Legacy, Bytes>)
    requires IsWalk(order, configs) && forall l :: l in left ==> l in configs && configs[l] == left[l]
    ensures Absorbed(env, FixVersioning(env, Merged(env, raw, Effective(env, configs, order))), left)
         == (LockConflict(env, configs) ==> Loser(order) !in left)
  {
    var kept := Effective(env, configs, order);
    if LockConflict(env, configs) && Loser(order) in left {
      LoserIsNotAbsorbed(env, raw, configs, Loser(order), left);
    } else {
      WalkMerges(env, raw, order, configs);
      FixedIsAbsorbed(env, raw, kept, left);
    }
  }

  lemma LoserIsNotAbsorbed(env: Env, raw: Raw, configs: map<Legacy, Bytes>, l: Legacy, left: map<Legacy, Bytes>)
    requires LockConflict(env, configs) && (l == LockEnabledFile || l == ConfigFile(ObjectLock))
    requires l in left && left[l] == configs[l]
    ensures !Absorbed(env, FixVersioning(env, Merged(env, raw, configs - {l})), left)
  {
    var r := FixVersioning(env, Merged(env, raw, configs - {l}));
    MergedAt(env, raw, configs - {l}, ObjectLock);
    FixedAt(env, Merged(env, raw, configs - {l}), ObjectLock);
    if Absorbed(env, r, left) { AbsorbedLock(env, r, left); }
  }

  lemma AbsorbedLock(env: Env, r: Raw, left: map<Legacy, Bytes>)
    requires Absorbed(env, r, left)
    ensures ConfigFile(ObjectLock) in left ==> r.configs[ObjectLock] == left[ConfigFile(ObjectLock)]
    ensures EnablesLock(env, left) ==> r.configs[ObjectLock] == env.enabledLock
  {
    var c: FileConfig := ObjectLock;
    assert ConfigFile(c) in left ==> r.configs[c] == left[ConfigFile(c)];
  }

  // ---------- loading ----------

  /** convertLegacyConfigs: fold the legacy files in, save, delete them; deletions that fail are only logged. */
  function Convert(env: Env, files: Files, raw: Raw, order: seq<Legacy>, undeleted: set<Legacy>): (Option<Meta>, Files)
    requires forall i :: 0 <= i < |order| ==> order[i] in Collect(env, raw, files.legacy)
  {
    var configs := Collect(env, raw, files.legacy);
    if configs == map[] then (ParseAll(env, raw, DefaultDocs(env)), files)
    else
      var m := ParseAll(env, ApplyOrder(env, raw.(lockEnabled := false), order, configs), DefaultDocs(env));
      if m.None? then (None, files)
      else (m, Files(Some(m.value.raw), Remaining(files.legacy, undeleted)))
  }

  function Remaining(legacy: map<Legacy, Bytes>, undeleted: set<Legacy>): map<Legacy, Bytes> {
    map l | l in legacy && l in undeleted :: legacy[l]
  }

  /** Targets need no encryption: there are none, there is no KMS, or they are encrypted already. */
  predicate TargetsSettled(env: Env, raw: Raw) {
    raw.configs[Targets] == [] || !env.kms || raw.targetsMeta != []
  }

  function PutConfig(configs: Raws, c: Config, data: Bytes): Raws {
    configs[c := data]
  }

  function PutTargets(raw: Raw, data: Bytes, mark: Bytes): Raw {
    raw.(configs := PutConfig(raw.configs, Targets, data), targetsMeta := mark)
  }

  /** migrateTargetConfig. */
  function MigrateTargets(env: Env, m: Meta, files: Files, nonce: int): (Option<Meta>, Files) {
    if TargetsSettled(env, m.raw) then (Some(m), files)
    else
      var e := env.encrypt(m.raw.configs[Targets], nonce);
      if e.None? then (None, files)
      else
        var m' := ParseAll(env, PutTargets(m.raw, e.value.0, e.value.1), m.docs);
        if m'.None? then (None, files) else (m', files.(meta := Some(m'.value.raw)))
  }

  /** Configs that carry an update time. */
  predicate Timed(c: Config) {
    c != Notification && c != Lifecycle && c != Targets
  }

  function DefaultTime(raw: Raw, c: Config): Time {
    if Timed(c) && raw.updated[c] == 0 then raw.created else raw.updated[c]
  }

  /** defaultTimestamps. */
  function DefaultTimes(raw: Raw): Raw {
    raw.(updated := map c: Config :: DefaultTime(raw, c))
  }

  function Base(files: Files, now: Time): Raw {
    if files.meta.Some? then files.meta.value else NewRaw(now)
  }

  /** loadBucketMetadata: the metadata, or an error, and what the store holds afterwards. */
  function Load(env: Env, files: Files, now: Time, nonce: int, order: seq<Legacy>, undeleted: set<Legacy>)
    : (Option<Meta>, Files)
    requires forall i :: 0 <= i < |order| ==> order[i] in Collect(env, Base(files, now), files.legacy)
  {
    var (c, files1) := Convert(env, files, Base(files, now), order, undeleted);
    if c.None? then (None, files1)
    else
      var (m, files2) := MigrateTargets(env, c.value, files1, nonce);
      if m.None? then (None, files2) else (Some(m.value.(raw := DefaultTimes(m.value.raw))), files2)
  }

  // ---------- crash safety ----------

  /** Metadata that the legacy configs were already folded into. */
  ghost predicate Absorbed(env: Env, r: Raw, legacy: map<Legacy, Bytes>) {
    && (forall c: FileConfig :: ConfigFile(c) in legacy ==> r.configs[c] == legacy[ConfigFile(c)])
    && (EnablesLock(env, legacy) ==> r.configs[ObjectLock] == env.enabledLock)
    && (EnablesLock(env, legacy) || ConfigFile(ObjectLock) in legacy ==> r.configs[Versioning] == env.enabledVersioning)
  }

  /** Folding absorbed configs in again changes nothing. */
  lemma RemergeIsIdentity(env: Env, r: Raw, legacy: map<Legacy, Bytes>)
    requires Absorbed(env, r, legacy)
    ensures Merged(env, r, legacy) == r
  {
    forall c: Config ensures MergedConfig(env, r, legacy, c) == r.configs[c] { }
    SameConfigs(Merged(env, r, legacy).configs, r.configs);
  }

  lemma AbsorbedHasNoConflict(env: Env, r: Raw, legacy: map<Legacy, Bytes>)
    requires Absorbed(env, r, legacy)
    ensures !LockConflict(env, legacy)
  {
    if ConfigFile(ObjectLock) in legacy {
      var c: FileConfig := ObjectLock;
      assert r.configs[c] == legacy[ConfigFile(c)];
    }
  }

  lemma MergedAt(env: Env, r: Raw, legacy: map<Legacy, Bytes>, c: Config)
    ensures Merged(env, r, legacy).configs[c] == MergedConfig(env, r, legacy, c)
  {
  }

  /** One config of the merge of absorbed files, apart from versioning. */
  lemma AbsorbedKeeps(env: Env, raw: Raw, legacy: map<Legacy, Bytes>, c: Config)
    requires Absorbed(env, FixVersioning(env, raw), legacy) && c != Versioning
    ensures Merged(env, raw, legacy).configs[c] == raw.configs[c]
  {
    FixedAt(env, raw, c);
    MergedAt(env, raw, legacy, c);
  }

  lemma AbsorbedKeepsVersioning(env: Env, raw: Raw, legacy: map<Legacy, Bytes>)
    requires Absorbed(env, FixVersioning(env, raw), legacy)
    ensures FixVersioning(env, Merged(env, raw, legacy)).configs[Versioning] == FixVersioning(env, raw).configs[Versioning]
  {
    AbsorbedKeeps(env, raw, legacy, ObjectLock);
    MergedAt(env, raw, legacy, Versioning);
    FixedAt(env, raw, Versioning);
    FixedAt(env, Merged(env, raw, legacy), Versioning);
  }

  /** Metadata into which the files were folded, whether it was saved with versioning forced or not. */
  lemma AbsorbedMerge(env: Env, raw: Raw, legacy: map<Legacy, Bytes>)
    requires Absorbed(env, FixVersioning(env, raw), legacy)
    ensures FixVersioning(env, Merged(env, raw, legacy)) == FixVersioning(env, raw)
  {
    var a, b := FixVersioning(env, Merged(env, raw, legacy)), FixVersioning(env, raw);
    forall c: Config ensures a.configs[c] == b.configs[c] {
      if c == Versioning {
        AbsorbedKeepsVersioning(env, raw, legacy);
      } else {
        AbsorbedKeeps(env, raw, legacy, c);
        FixedAt(env, raw, c);
        FixedAt(env, Merged(env, raw, legacy), c);
      }
    }
    SameConfigs(a.configs, b.configs);
  }

  lemma SameMergeFile(env: Env, raw: Raw, legacy: map<Legacy, Bytes>, c: FileConfig)
    requires !LockConflict(env, legacy) && ConfigFile(c) in legacy
    ensures FixVersioning(env, Merged(env, raw, legacy)).configs[c] == legacy[ConfigFile(c)]
  {
    MergedAt(env, raw, legacy, c);
    FixedAt(env, Merged(env, raw, legacy), c);
  }

  lemma SameMergeLock(env: Env, raw: Raw, legacy: map<Legacy, Bytes>)
    requires !LockConflict(env, legacy)
    ensures var r := FixVersioning(env, Merged(env, raw, legacy));
            && (EnablesLock(env, legacy) ==> r.configs[ObjectLock] == env.enabledLock)
            && (EnablesLock(env, legacy) || ConfigFile(ObjectLock) in legacy ==> r.configs[Versioning] == env.enabledVersioning)
  {
    MergedAt(env, raw, legacy, ObjectLock);
    MergedAt(env, raw, legacy, Versioning);
    FixedAt(env, Merged(env, raw, legacy), ObjectLock);
    FixedAt(env, Merged(env, raw, legacy), Versioning);
  }

  /**
   The exact condition on files that are still there: folding them in again gives the same configs if
   and only if they were absorbed.
   */
  lemma RemergeExactly(env: Env, raw: Raw, legacy: map<Legacy, Bytes>)
    requires !LockConflict(env, legacy)
    ensures FixVersioning(env, Merged(env, raw, legacy)).configs == FixVersioning(env, raw).configs
       <==> Absorbed(env, FixVersioning(env, raw), legacy)
  {
    if Absorbed(env, FixVersioning(env, raw), legacy) {
      AbsorbedMerge(env, raw, legacy);
    } else if FixVersioning(env, Merged(env, raw, legacy)).configs == FixVersioning(env, raw).configs {
      SameMergeLock(env, raw, legacy);
      forall c: FileConfig | ConfigFile(c) in legacy
        ensures FixVersioning(env, raw).configs[c] == legacy[ConfigFile(c)]
      {
        SameMergeFile(env, raw, legacy, c);
      }
      assert false;
    }
  }

  lemma FixedAt(env: Env, raw: Raw, c: Config)
    ensures FixVersioning(env, raw).configs[c]
         == if c == Versioning && raw.configs[ObjectLock] == env.enabledLock then env.enabledVersioning else raw.configs[c]
  {
  }

  lemma FixedIsAbsorbed(env: Env, raw: Raw, configs: map<Legacy, Bytes>, part: map<Legacy, Bytes>)
    requires !LockConflict(env, configs)
    requires forall l :: l in part ==> l in configs && configs[l] == part[l]
    ensures Absorbed(env, FixVersioning(env, Merged(env, raw, configs)), part)
    ensures !LockConflict(env, part)
  {
    var m := Merged(env, raw, configs);
    var r := FixVersioning(env, m);
    forall c: Config
      ensures r.configs[c] == MergedConfig(env, raw, configs, c) || (c == Versioning && r.configs[c] == env.enabledVersioning)
    {
      FixedAt(env, m, c);
      assert m.configs[c] == MergedConfig(env, raw, configs, c);
    }
    AbsorbedFrom(env, raw, configs, part, r);
  }

  lemma AbsorbedFrom(env: Env, raw: Raw, configs: map<Legacy, Bytes>, part: map<Legacy, Bytes>, r: Raw)
    requires !LockConflict(env, configs)
    requires forall l :: l in part ==> l in configs && configs[l] == part[l]
    requires forall c: Config ::
      r.configs[c] == MergedConfig(env, raw, configs, c) || (c == Versioning && r.configs[c] == env.enabledVersioning)
    ensures Absorbed(env, r, part)
  {
    forall c: FileConfig | ConfigFile(c) in part ensures r.configs[c] == part[ConfigFile(c)] {
      assert ConfigFile(c) in configs;
      assert r.configs[c] == MergedConfig(env, raw, configs, c);
    }
    assert r.configs[ObjectLock] == MergedConfig(env, raw, configs, ObjectLock);
  }

  lemma ParsedRaw(env: Env, raw: Raw, docs: Docs, m: Meta)
    requires ParseAll(env, raw, docs) == Some(m)
    ensures m.raw == FixVersioning(env, raw)
    ensures m.raw.lockEnabled == raw.lockEnabled && m.raw.targetsMeta == raw.targetsMeta
  {
  }

  lemma FixIsIdempotent(env: Env, raw: Raw)
    ensures FixVersioning(env, FixVersioning(env, raw)) == FixVersioning(env, raw)
  {
    var r := FixVersioning(env, raw);
    assert r.configs[ObjectLock] == raw.configs[ObjectLock];
    if r.configs[ObjectLock] == env.enabledLock {
      SameConfigs(r.configs[Versioning := env.enabledVersioning], r.configs);
    }
  }

  /** Parsing what was parsed and saved gives the same metadata again. */
  lemma ParseAgain(env: Env, raw: Raw, docs: Docs)
    requires ParseAll(env, raw, docs).Some?
    ensures ParseAll(env, ParseAll(env, raw, docs).value.raw, docs) == ParseAll(env, raw, docs)
  {
    FixIsIdempotent(env, raw);
  }

  /** The converted metadata is the fixed merge; its lock flag is off and a remnant of the files adds nothing. */
  lemma ConvertedIsFixed(
    env: Env, base: Raw, order: seq<Legacy>, configs: map<Legacy, Bytes>, left: map<Legacy, Bytes>, m: Meta)
    requires IsWalk(order, configs) && !LockConflict(env, configs)
    requires forall l :: l in left ==> l in configs && configs[l] == left[l]
    requires !base.lockEnabled && ParseAll(env, ApplyOrder(env, base, order, configs), DefaultDocs(env)) == Some(m)
    ensures !m.raw.lockEnabled && !LockConflict(env, left) && Merged(env, m.raw, left) == m.raw
    ensures ParseAll(env, m.raw, DefaultDocs(env)) == Some(m)
  {
    MigrationIsOrderIndependent(env, base, order, configs);
    var merged := Merged(env, base, configs);
    assert m.raw == FixVersioning(env, merged);
    FixedIsAbsorbed(env, base, configs, left);
    RemergeIsIdentity(env, m.raw, left);
    ParseAgain(env, merged, DefaultDocs(env));
  }

  /** Converting saved metadata again, with absorbed files left over, reproduces it. */
  lemma ConvertAgain(env: Env, m: Meta, left: map<Legacy, Bytes>, order: seq<Legacy>, undeleted: set<Legacy>)
    requires !m.raw.lockEnabled && !LockConflict(env, left) && Merged(env, m.raw, left) == m.raw
    requires ParseAll(env, m.raw, DefaultDocs(env)) == Some(m)
    requires IsWalk(order, left)
    ensures Collect(env, m.raw, left) == left
    ensures Convert(env, Files(Some(m.raw), left), m.raw, order, undeleted)
         == (Some(m), Files(Some(m.raw), if left == map[] then left else Remaining(left, undeleted)))
  {
    MigrationIsOrderIndependent(env, m.raw, order, left);
    assert Collect(env, m.raw, left) == left;
    assert m.raw.(lockEnabled := false) == m.raw;
  }

  /**
   A crash after the save, with any part of the legacy files still there, is harmless: loading again
   gives the same metadata as the uninterrupted load, whatever the clock, the walk and later failures.
   With no file left this is idempotence.
   */
  lemma MigrationIsCrashSafe(
    env: Env, files: Files, now: Time, nonce: int, order: seq<Legacy>, undeleted: set<Legacy>, m: Meta,
    left: map<Legacy, Bytes>, now': Time, order': seq<Legacy>, undeleted': set<Legacy>)
    requires var configs := Collect(env, Base(files, now), files.legacy);
             configs != map[] && IsWalk(order, configs) && !LockConflict(env, configs)
    requires forall l :: l in left ==> l in files.legacy && files.legacy[l] == left[l]
    requires IsWalk(order', left)
    requires Convert(env, files, Base(files, now), order, undeleted).0 == Some(m)
    ensures Collect(env, m.raw, left) == left
    ensures Load(env, Files(Some(m.raw), left), now', nonce, order', undeleted').0
         == Load(env, files, now, nonce, order, undeleted).0
  {
    var base := Base(files, now);
    ConvertedIsFixed(env, base.(lockEnabled := false), order, Collect(env, base, files.legacy), left, m);
    ConvertAgain(env, m, left, order', undeleted');
    LoadFromConverted(env, Files(Some(m.raw), left), now', nonce, order', undeleted', m);
    LoadFromConverted(env, files, now, nonce, order, undeleted, m);
  }

  /** What a load returns is settled by the converted metadata. */
  lemma LoadFromConverted(
    env: Env, files: Files, now: Time, nonce: int, order: seq<Legacy>, undeleted: set<Legacy>, m: Meta)
    requires forall i :: 0 <= i < |order| ==> order[i] in Collect(env, Base(files, now), files.legacy)
    requires Convert(env, files, Base(files, now), order, undeleted).0 == Some(m)
    ensures
      var r := MigrateTargets(env, m, Files(Some(m.raw), map[]), nonce).0;
      Load(env, files, now, nonce, order, undeleted).0
        == if r.None? then None else Some(r.value.(raw := DefaultTimes(r.value.raw)))
  {
  }

  // ---------- the code: one bucket's metadata object and its files ----------

  /** The place of a config in the order of parsing. */
  function Place(c: Config): (r: nat)
    ensures r < 10 && (c == ObjectLock <==> r == 5) && (c == Versioning <==> r == 6)
  {
    match c
    case Policy => 0
    case Notification => 1
    case Lifecycle => 2
    case SSE => 3
    case Tagging => 4
    case ObjectLock => 5
    case Versioning => 6
    case Quota => 7
    case Replication => 8
    case Targets => 9
  }

  function ConfigAt(i: nat): (c: Config)
    requires i < 10
    ensures forall d: Config :: Place(d) == i <==> d == c
  {
    if i == 0 then Policy
    else if i == 1 then Notification
    else if i == 2 then Lifecycle
    else if i == 3 then SSE
    else if i == 4 then Tagging
    else if i == 5 then ObjectLock
    else if i == 6 then Versioning
    else if i == 7 then Quota
    else if i == 8 then Replication
    else Targets
  }

  /** The parsed fields when the configs before place `i` have been parsed and the others not. */
  ghost predicate ParsedUpTo(env: Env, fixed: Raw, before: Docs, docs: Docs, i: nat) {
    forall c: Config ::
      if Place(c) < i then ParseOne(env, fixed, c, before[c]) == Parsed(docs[c]) else docs[c] == before[c]
  }

  function SetDoc(docs: Docs, c: Config, doc: Option<int>): (r: Docs)
    ensures forall d: Config :: r[d] == if d == c then doc else docs[d]
  {
    docs[c := doc]
  }

  lemma ParseStep(env: Env, fixed: Raw, before: Docs, docs: Docs, i: nat, doc: Option<int>)
    requires i < 10 && ParsedUpTo(env, fixed, before, docs, i)
    requires ParseOne(env, fixed, ConfigAt(i), before[ConfigAt(i)]) == Parsed(doc)
    ensures ParsedUpTo(env, fixed, before, SetDoc(docs, ConfigAt(i), doc), i + 1)
  {
    var docs' := SetDoc(docs, ConfigAt(i), doc);
    forall c: Config
      ensures if Place(c) < i + 1 then ParseOne(env, fixed, c, before[c]) == Parsed(docs'[c]) else docs'[c] == before[c]
    {
      if c == ConfigAt(i) {
      } else {
        assert docs'[c] == docs[c];
      }
    }
  }

  lemma ParseFails(env: Env, given: Raw, before: Docs, c: Config)
    requires ParseOne(env, FixVersioning(env, given), c, before[c]).Failed?
    ensures ParseAll(env, given, before).None?
  {
  }

  lemma ParsedAllOf(env: Env, fixed: Raw, before: Docs, docs: Docs)
    requires ParsedUpTo(env, fixed, before, docs, 10)
    ensures Parses(env, fixed, before)
    ensures docs == ParsedDocs(env, fixed, before)
  {
    forall c: Config ensures ParseOne(env, fixed, c, before[c]) == Parsed(docs[c]) {
      assert Place(c) < 10;
    }
  }

  /** Forcing versioning matters to no other config. */
  lemma FixedParse(env: Env, raw: Raw, c: Config, prior: Option<int>)
    requires c != Versioning
    ensures ParseOne(env, raw, c, prior) == ParseOne(env, FixVersioning(env, raw), c, prior)
  {
    FixedAt(env, raw, c);
  }

  lemma FixedParseAt(env: Env, raw: Raw, now: Raw, i: nat, prior: Option<int>)
    requires i < 10 && now == if i < 5 then raw else FixVersioning(env, raw)
    ensures ParseOne(env, now, ConfigAt(i), prior) == ParseOne(env, FixVersioning(env, raw), ConfigAt(i), prior)
  {
    if i < 5 {
      assert Place(ConfigAt(i)) == i;
      FixedParse(env, raw, ConfigAt(i), prior);
    }
  }

  /** The files of `configs`, in the given order of all files. */
  function Walk(order: seq<Legacy>, configs: map<Legacy, Bytes>): (r: seq<Legacy>)
    ensures forall i :: 0 <= i < |r| ==> r[i] in configs
  {
    if order == [] then []
    else
      var l := order[|order| - 1];
      var rest := Walk(order[..|order| - 1], configs);
      if l in configs then rest + [l] else rest
  }

  /** Every legacy file once: any order the map may be walked in. */
  ghost predicate FullOrder(order: seq<Legacy>) {
    NoDuplicates(order) && forall l: Legacy :: l in order
  }

  lemma {:induction false} WalkIsWalk(order: seq<Legacy>, configs: map<Legacy, Bytes>)
    requires NoDuplicates(order)
    ensures NoDuplicates(Walk(order, configs))
    ensures forall l :: l in Walk(order, configs) <==> l in order && l in configs
    decreases |order|
  {
    if order != [] {
      var n := |order| - 1;
      WalkIsWalk(order[..n], configs);
      assert order == order[..n] + [order[n]];
    }
  }

  function AllLegacy(): set<Legacy> {
    {LockEnabledFile, ConfigFile(Policy), ConfigFile(Notification), ConfigFile(Lifecycle), ConfigFile(SSE),
     ConfigFile(Tagging), ConfigFile(ObjectLock), ConfigFile(Quota), ConfigFile(Replication), ConfigFile(Targets)}
  }

  lemma EveryLegacy(l: Legacy)
    ensures l in AllLegacy()
  {
    if l.ConfigFile? {
      var c: Config := l.config;
      match c
      case Policy =>
      case Notification =>
      case Lifecycle =>
      case SSE =>
      case Tagging =>
      case ObjectLock =>
      case Quota =>
      case Replication =>
      case Targets =>
    }
  }

  lemma {:induction false} WalkConcat(a: seq<Legacy>, b: seq<Legacy>, configs: map<Legacy, Bytes>)
    ensures Walk(a + b, configs) == Walk(a, configs) + Walk(b, configs)
    decreases |b|
  {
    if b == [] {
      assert a + b == a;
    } else {
      var n := |b| - 1;
      assert (a + b)[..|a + b| - 1] == a + b[..n] && (a + b)[|a + b| - 1] == b[n];
      WalkConcat(a, b[..n], configs);
    }
  }

  lemma {:induction false} WalkNone(a: seq<Legacy>, configs: map<Legacy, Bytes>)
    requires forall l :: l in a ==> l !in configs
    ensures Walk(a, configs) == []
    decreases |a|
  {
    if a != [] { WalkNone(a[..|a| - 1], configs); }
  }

  lemma {:induction false} WalkAll(a: seq<Legacy>, configs: map<Legacy, Bytes>)
    requires forall l :: l in a ==> l in configs
    ensures Walk(a, configs) == a
    decreases |a|
  {
    if a != [] {
      WalkAll(a[..|a| - 1], configs);
      assert a == a[..|a| - 1] + [a[|a| - 1]];
    }
  }

  /** Every walk over the map comes from some order of all files. */
  lemma WalkHasOrder(walk: seq<Legacy>, configs: map<Legacy, Bytes>) returns (order: seq<Legacy>)
    requires IsWalk(walk, configs)
    ensures FullOrder(order) && Walk(order, configs) == walk
  {
    var others := set l | l in AllLegacy() && l !in configs;
    var rest := SomeWalk(others);
    order := rest + walk;
    assert forall i :: 0 <= i < |walk| ==> walk[i] in configs;
    WalkConcat(rest, walk, configs);
    WalkNone(rest, configs);
    WalkAll(walk, configs);
    JoinIsFull(rest, walk, configs);
  }

  lemma JoinIsFull(rest: seq<Legacy>, walk: seq<Legacy>, configs: map<Legacy, Bytes>)
    requires NoDuplicates(rest) && IsWalk(walk, configs)
    requires forall l :: l in rest <==> l in AllLegacy() && l !in configs
    ensures FullOrder(rest + walk)
  {
    var order := rest + walk;
    assert forall i :: 0 <= i < |rest| ==> rest[i] in rest;
    forall i, j | 0 <= i < j < |order| ensures order[i] != order[j] {
      if i < |rest| <= j {
        assert order[i] == rest[i] && order[j] == walk[j - |rest|];
      }
    }
    forall l: Legacy ensures l in order {
      EveryLegacy(l);
      assert l in rest || l in walk;
    }
  }

  /** One more file visited. */
  lemma WalkStep(env: Env, raw: Raw, order: seq<Legacy>, configs: map<Legacy, Bytes>, i: nat)
    requires i < |order|
    ensures ApplyOrder(env, raw, Walk(order[..i + 1], configs), configs)
         == var r := ApplyOrder(env, raw, Walk(order[..i], configs), configs);
            if order[i] in configs then ApplyOne(env, r, order[i], configs[order[i]]) else r
  {
    var l, before := order[i], Walk(order[..i], configs);
    assert order[..i + 1][..i] == order[..i];
    if l in configs {
      ApplyOrderConcat(env, raw, before, [l], configs);
      assert [l][1..] == [];
    }
  }

  class Bucket {
    var raw: Raw
    var docs: Docs
    var files: Files

    /** newBucketMetadata. */
    constructor (env: Env, now: Time, files: Files)
      ensures raw == NewRaw(now) && docs == DefaultDocs(env) && this.files == files
    {
      this.raw, this.docs, this.files := NewRaw(now), DefaultDocs(env), files;
    }

    /** parseAllConfigs: the parsed fields one after the other, up to the first error. */
    method ParseAllConfigs(env: Env) returns (ok: bool)
      modifies this`raw, this`docs
      ensures ok <==> ParseAll(env, old(raw), old(docs)).Some?
      ensures ok ==> Some(Meta(raw, docs)) == ParseAll(env, old(raw), old(docs))
    {
      ghost var before := docs;
      var i := 0;
      while i < 10
        invariant 0 <= i <= 10
        invariant raw == if i <= 5 then old(raw) else FixVersioning(env, old(raw))
        invariant ParsedUpTo(env, FixVersioning(env, old(raw)), before, docs, i)
      {
        var ok := ParseRound(env, i, old(raw), before);
        if !ok {
          return false;
        }
        i := i + 1;
      }
      ParsedAllOf(env, FixVersioning(env, old(raw)), before, docs);
      return true;
    }

    /** One config parsed; the object-lock config is looked at first for whether it forces versioning. */
    method ParseRound(env: Env, i: nat, ghost given: Raw, ghost before: Docs) returns (ok: bool)
      requires i < 10 && raw == if i <= 5 then given else FixVersioning(env, given)
      requires ParsedUpTo(env, FixVersioning(env, given), before, docs, i)
      modifies this`raw, this`docs
      ensures !ok ==> ParseAll(env, given, before).None?
      ensures ok ==> raw == if i < 5 then given else FixVersioning(env, given)
      ensures ok ==> ParsedUpTo(env, FixVersioning(env, given), before, docs, i + 1)
    {
      var c := ConfigAt(i);
      if c == ObjectLock {
        raw := FixVersioning(env, raw);
      }
      FixedParseAt(env, given, raw, i, before[c]);
      var o := ParseOne(env, raw, c, docs[c]);
      ok := o.Parsed?;
      if ok {
        ParseStep(env, FixVersioning(env, given), before, docs, i, o.doc);
        docs := SetDoc(docs, c, o.doc);
      } else {
        ParseFails(env, given, before, c);
      }
    }

    /** Save: parse, then write the file. */
    method Save(env: Env) returns (ok: bool)
      modifies this
      ensures ok <==> ParseAll(env, old(raw), old(docs)).Some?
      ensures ok ==> Some(Meta(raw, docs)) == ParseAll(env, old(raw), old(docs))
      ensures files == if ok then old(files).(meta := Some(raw)) else old(files)
    {
      ok := ParseAllConfigs(env);
      if ok {
        files := files.(meta := Some(raw));
      }
    }

    /** convertLegacyConfigs, with the order in which the map is walked and the files whose deletion fails. */
    method ConvertLegacyConfigs(env: Env, order: seq<Legacy>, undeleted: set<Legacy>) returns (ok: bool)
      requires FullOrder(order) && docs == DefaultDocs(env)
      modifies this
      ensures var c := Convert(env, old(files), old(raw), Walk(order, Collect(env, old(raw), old(files).legacy)), undeleted);
              files == c.1 && (ok <==> c.0.Some?) && (ok ==> Meta(raw, docs) == c.0.value)
    {
      var configs := Collect(env, raw, files.legacy);
      if configs == map[] {
        ok := ParseAllConfigs(env);
      } else {
        raw := raw.(lockEnabled := false);
        ok := Absorb(env, order, configs, undeleted);
      }
    }

    /** The files folded in, the metadata saved, the files deleted. */
    method Absorb(env: Env, order: seq<Legacy>, configs: map<Legacy, Bytes>, undeleted: set<Legacy>) returns (ok: bool)
      requires FullOrder(order) && forall l :: l in files.legacy ==> l in configs
      modifies this
      ensures var m := ParseAll(env, ApplyOrder(env, old(raw), Walk(order, configs), configs), old(docs));
              && (ok <==> m.Some?)
              && (ok ==> m == Some(Meta(raw, docs)) && files == Files(Some(raw), Remaining(old(files).legacy, undeleted)))
              && (!ok ==> files == old(files))
    {
      Fold(env, order, configs);
      ok := Save(env);
      if ok {
        DeleteFiles(order, configs, undeleted);
      }
    }

    /** The first loop of convertLegacyConfigs. */
    method Fold(env: Env, order: seq<Legacy>, configs: map<Legacy, Bytes>)
      modifies this`raw
      ensures raw == ApplyOrder(env, old(raw), Walk(order, configs), configs)
    {
      var i := 0;
      while i < |order|
        invariant 0 <= i <= |order|
        invariant raw == ApplyOrder(env, old(raw), Walk(order[..i], configs), configs)
      {
        WalkStep(env, old(raw), order, configs, i);
        if order[i] in configs {
          raw := ApplyOne(env, raw, order[i], configs[order[i]]);
        }
        i := i + 1;
      }
      assert order[..|order|] == order;
    }

    /** The second loop: every file folded in is deleted; an error is only logged. */
    method DeleteFiles(order: seq<Legacy>, configs: map<Legacy, Bytes>, undeleted: set<Legacy>)
      requires FullOrder(order) && forall l :: l in files.legacy ==> l in configs
      modifies this`files
      ensures files == old(files).(legacy := Remaining(old(files).legacy, undeleted))
    {
      var was := files.legacy;
      var i := 0;
      while i < |order|
        invariant 0 <= i <= |order| && files == old(files).(legacy := files.legacy)
        invariant files.legacy == map l | l in was && (l in undeleted || l !in order[..i]) :: was[l]
      {
        if order[i] in configs && order[i] !in undeleted {
          files := files.(legacy := files.legacy - {order[i]});
        }
        assert order[..i + 1] == order[..i] + [order[i]];
        i := i + 1;
      }
      assert order[..|order|] == order;
      assert files.legacy == Remaining(was, undeleted);
    }

    /** migrateTargetConfig. */
    method MigrateTargetConfig(env: Env, nonce: int) returns (ok: bool)
      modifies this
      ensures var t := MigrateTargets(env, Meta(old(raw), old(docs)), old(files), nonce);
              files == t.1 && (ok <==> t.0.Some?) && (ok ==> Meta(raw, docs) == t.0.value)
    {
      if TargetsSettled(env, raw) {
        return true;
      }
      var e := env.encrypt(raw.configs[Targets], nonce);
      if e.None? {
        return false;
      }
      raw := PutTargets(raw, e.value.0, e.value.1);
      ok := Save(env);
    }

    /** loadBucketMetadata on a new object; a file that cannot be read fails it before anything is written. */
    method LoadBucketMetadata(env: Env, now: Time, nonce: int, order: seq<Legacy>, undeleted: set<Legacy>, readable: bool)
      returns (ok: bool)
      requires FullOrder(order) && raw == NewRaw(now) && docs == DefaultDocs(env)
      modifies this
      ensures !readable ==> !ok && files == old(files)
      ensures readable ==>
                var walk := Walk(order, Collect(env, Base(old(files), now), old(files).legacy));
                var r := Load(env, old(files), now, nonce, walk, undeleted);
                files == r.1 && (ok <==> r.0.Some?) && (ok ==> Meta(raw, docs) == r.0.value)
    {
      if !readable {
        return false;
      }
      if files.meta.Some? {
        raw := files.meta.value;
      }
      assert raw == Base(files, now);
      ok := ConvertLegacyConfigs(env, order, undeleted);
      if ok {
        ok := MigrateTargetConfig(env, nonce);
        if ok {
          raw := DefaultTimes(raw);
        }
      }
    }
  }
}
