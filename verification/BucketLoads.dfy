/**
 What a load shows and stores, config by config, from the files alone (cmd/bucket-metadata.go): which
 legacy file decides, when versioning is forced, when targets are encrypted, and which times default.
 */
module BucketLoads {
  import opened Prelude
  import opened BucketMetadata
  import opened BucketMetadataSys

  // ---------- parsing ----------

  /** What the parser of a config makes of the bytes that are stored for it. */
  function ReadDoc(env: Env, raw: Raw, c: Config): Option<int> {
    if c == Targets then env.parseTargets(raw.configs[Targets], raw.targetsMeta) else env.parse(c, raw.configs[c])
  }

  /** Versioning is as the default lock forces it. */
  predicate Forced(env: Env, raw: Raw) {
    raw.configs[ObjectLock] == env.enabledLock ==> raw.configs[Versioning] == env.enabledVersioning
  }

  /** Every config that is not empty has a parsed form. */
  ghost predicate Readable(env: Env, raw: Raw) {
    forall d: Config :: raw.configs[d] != [] ==> ReadDoc(env, raw, d).Some?
  }

  /** Metadata parses exactly if every config that is not empty does, whatever was parsed before. */
  lemma ParsesExactly(env: Env, raw: Raw, docs: Docs)
    requires Forced(env, raw)
    ensures ParseAll(env, raw, docs).Some? <==> Readable(env, raw)
    ensures ParseAll(env, raw, docs).Some? ==> ParseAll(env, raw, docs).value.raw == raw
  {
    FixedAlready(env, raw);
    forall d: Config
      ensures ParseOne(env, raw, d, docs[d]).Parsed? <==> (raw.configs[d] != [] ==> ReadDoc(env, raw, d).Some?)
    {
    }
    assert Parses(env, raw, docs) <==> Readable(env, raw) by {
      if Readable(env, raw) {
        forall d: Config ensures ParseOne(env, raw, d, docs[d]).Parsed? { }
      } else {
        var d: Config :| raw.configs[d] != [] && ReadDoc(env, raw, d).None?;
        assert !ParseOne(env, raw, d, docs[d]).Parsed?;
      }
    }
  }

  /** Each parsed field is what the parser makes of the config; of an empty config, what it was, or none. */
  lemma ParsedExactly(env: Env, raw: Raw, docs: Docs, c: Config)
    requires Forced(env, raw) && ParseAll(env, raw, docs).Some?
    ensures ParseAll(env, raw, docs).value.docs[c] ==
              if raw.configs[c] != [] then ReadDoc(env, raw, c)
              else match c
                case Notification => docs[c]
                case Versioning => docs[c]
                case Quota => docs[c]
                case Targets => Some(env.emptyDoc(c))
                case _ => None
  {
    FixedAlready(env, raw);
    ParsedDocsAt(env, raw, docs, c);
    assert ParseOne(env, raw, c, docs[c]).Parsed?;
  }

  lemma FixedAlready(env: Env, raw: Raw)
    requires Forced(env, raw)
    ensures FixVersioning(env, raw) == raw
  {
    forall c: Config ensures FixVersioning(env, raw).configs[c] == raw.configs[c] { FixedAt(env, raw, c); }
    SameConfigs(FixVersioning(env, raw).configs, raw.configs);
  }

  // ---------- the legacy files ----------

  /** The old lock file holds the text that enables the lock. */
  predicate OldFileEnables(env: Env, legacy: map<Legacy, Bytes>) {
    LockEnabledFile in legacy && legacy[LockEnabledFile] == env.legacyEnabled
  }

  /** The lock config found beside the stored metadata: its file, or the default for the old flag. */
  function LockFound(env: Env, base: Raw, legacy: map<Legacy, Bytes>): Option<Bytes> {
    if ConfigFile(ObjectLock) in legacy then Some(legacy[ConfigFile(ObjectLock)])
    else if base.lockEnabled then Some(env.enabledLock)
    else None
  }

  /** The bytes a load shows for a config, before targets are encrypted. */
  function Shown(env: Env, base: Raw, legacy: map<Legacy, Bytes>, c: Config): Bytes {
    var lock := LockFound(env, base, legacy);
    var shownLock := if OldFileEnables(env, legacy) then env.enabledLock
                     else if lock.Some? then lock.value else base.configs[ObjectLock];
    match c
    case ObjectLock => shownLock
    case Versioning =>
      if OldFileEnables(env, legacy) || lock.Some? || shownLock == env.enabledLock then env.enabledVersioning
      else base.configs[Versioning]
    case _ => if ConfigFile(c) in legacy then legacy[ConfigFile(c)] else base.configs[c]
  }

  /** The lock files agree: the old one does not enable the default lock beside another lock config. */
  predicate LocksAgree(env: Env, base: Raw, legacy: map<Legacy, Bytes>) {
    var lock := LockFound(env, base, legacy);
    OldFileEnables(env, legacy) && lock.Some? ==> lock.value == env.enabledLock
  }

  lemma CollectedConfig(env: Env, base: Raw, legacy: map<Legacy, Bytes>, c: Config)
    requires LocksAgree(env, base, legacy)
    ensures !LockConflict(env, Collect(env, base, legacy))
    ensures FixVersioning(env, Merged(env, base.(lockEnabled := false), Collect(env, base, legacy))).configs[c]
         == Shown(env, base, legacy, c)
  {
    var configs, start := Collect(env, base, legacy), base.(lockEnabled := false);
    CollectedFiles(env, base, legacy);
    MergedShows(env, base, start, legacy, configs, c);
    MergedShows(env, base, start, legacy, configs, ObjectLock);
    FixedAt(env, Merged(env, start, configs), c);
  }

  /** The merge of what was collected, before versioning is forced by the lock that is shown. */
  lemma MergedShows(env: Env, base: Raw, start: Raw, legacy: map<Legacy, Bytes>, configs: map<Legacy, Bytes>, c: Config)
    requires start.configs == base.configs && Found(env, base, legacy, configs)
    ensures var merged := Merged(env, start, configs).configs[c];
            if c == Versioning then
              merged == if OldFileEnables(env, legacy) || LockFound(env, base, legacy).Some? then env.enabledVersioning
                        else base.configs[Versioning]
            else merged == Shown(env, base, legacy, c)
  {
    MergedAt(env, start, configs, c);
  }

  /** What the collected configs are, by file. */
  ghost predicate Found(env: Env, base: Raw, legacy: map<Legacy, Bytes>, configs: map<Legacy, Bytes>) {
    && (EnablesLock(env, configs) <==> OldFileEnables(env, legacy))
    && (if ConfigFile(ObjectLock) in configs then LockFound(env, base, legacy) == Some(configs[ConfigFile(ObjectLock)])
        else LockFound(env, base, legacy) == None)
    && forall d: FileConfig :: d != ObjectLock ==>
         (ConfigFile(d) in configs <==> ConfigFile(d) in legacy)
         && (ConfigFile(d) in legacy ==> configs[ConfigFile(d)] == legacy[ConfigFile(d)])
  }

  lemma CollectedFiles(env: Env, base: Raw, legacy: map<Legacy, Bytes>)
    ensures Found(env, base, legacy, Collect(env, base, legacy))
    ensures LocksAgree(env, base, legacy) ==> !LockConflict(env, Collect(env, base, legacy))
  {
  }

  // ---------- the conversion ----------

  /** The metadata that is shown: the stored one with every config as the files say and the old flag off. */
  function ShownRaw(env: Env, base: Raw, legacy: map<Legacy, Bytes>): Raw {
    base.(lockEnabled := false, configs := map c: Config :: Shown(env, base, legacy, c))
  }

  lemma ShownAt(env: Env, base: Raw, legacy: map<Legacy, Bytes>, c: Config)
    ensures ShownRaw(env, base, legacy).configs[c] == Shown(env, base, legacy, c)
  {
  }

  lemma ShownIsForced(env: Env, base: Raw, legacy: map<Legacy, Bytes>)
    ensures Forced(env, ShownRaw(env, base, legacy))
  {
    ShownAt(env, base, legacy, ObjectLock);
    ShownAt(env, base, legacy, Versioning);
  }

  lemma FoldsToShown(env: Env, base: Raw, legacy: map<Legacy, Bytes>, order: seq<Legacy>)
    requires LocksAgree(env, base, legacy) && IsWalk(order, Collect(env, base, legacy))
    ensures FixVersioning(env, ApplyOrder(env, base.(lockEnabled := false), order, Collect(env, base, legacy)))
         == ShownRaw(env, base, legacy)
  {
    var configs, start := Collect(env, base, legacy), base.(lockEnabled := false);
    CollectedFiles(env, base, legacy);
    MigrationIsOrderIndependent(env, start, order, configs);
    var a, b := FixVersioning(env, Merged(env, start, configs)), ShownRaw(env, base, legacy);
    forall c: Config ensures a.configs[c] == b.configs[c] {
      CollectedConfig(env, base, legacy, c);
      ShownAt(env, base, legacy, c);
    }
    SameConfigs(a.configs, b.configs);
  }

  lemma NothingToFold(env: Env, base: Raw)
    requires !base.lockEnabled
    ensures FixVersioning(env, base) == ShownRaw(env, base, map[])
  {
    var a, b := FixVersioning(env, base), ShownRaw(env, base, map[]);
    forall c: Config ensures a.configs[c] == b.configs[c] {
      FixedAt(env, base, c);
      ShownAt(env, base, map[], c);
    }
    SameConfigs(a.configs, b.configs);
  }

  /** The conversion is the parse of what is shown, stored if there was anything to fold in. */
  lemma ConvertExactly(env: Env, files: Files, ch: Choice)
    requires FullOrder(ch.order) && LocksAgree(env, Base(files, ch.now), files.legacy)
    ensures var base := Base(files, ch.now);
            var shown := ParseAll(env, ShownRaw(env, base, files.legacy), DefaultDocs(env));
            Convert(env, files, base, WalkOf(env, files, ch), ch.undeleted) ==
              (shown,
               if shown.None? || (files.legacy == map[] && !base.lockEnabled) then files
               else Files(Some(ShownRaw(env, base, files.legacy)), Remaining(files.legacy, ch.undeleted)))
  {
    var base := Base(files, ch.now);
    ShownIsForced(env, base, files.legacy);
    FixedAlready(env, ShownRaw(env, base, files.legacy));
    NothingCollected(env, base, files.legacy);
    if files.legacy == map[] && !base.lockEnabled {
      NothingToFold(env, base);
      ParseOfFixed(env, base, ShownRaw(env, base, files.legacy), DefaultDocs(env));
    } else {
      var order, configs := WalkOf(env, files, ch), Collect(env, base, files.legacy);
      WalkIsWalk(ch.order, configs);
      FoldsToShown(env, base, files.legacy, order);
      ParseOfFixed(env, ApplyOrder(env, base.(lockEnabled := false), order, configs), ShownRaw(env, base, files.legacy), DefaultDocs(env));
    }
  }

  // ---------- the load ----------

  /** Targets that are neither encrypted nor empty, where there is a KMS. */
  predicate ToEncrypt(env: Env, shown: Raw) {
    env.kms && shown.configs[Targets] != [] && shown.targetsMeta == []
  }

  /** What is shown, with targets encrypted where they are to be. */
  ghost predicate Settled(env: Env, shown: Raw, nonce: int, raw: Raw) {
    && raw.created == shown.created && raw.lockEnabled == shown.lockEnabled && raw.updated == shown.updated
    && (forall c: Config :: c != Targets ==> raw.configs[c] == shown.configs[c])
    && (if ToEncrypt(env, shown) then env.encrypt(shown.configs[Targets], nonce) == Some((raw.configs[Targets], raw.targetsMeta))
        else raw == shown)
  }

  /** Targets are to be encrypted, and cannot be, or cannot be read afterwards. */
  ghost predicate EncryptionFails(env: Env, shown: Raw, nonce: int) {
    var e := env.encrypt(shown.configs[Targets], nonce);
    ToEncrypt(env, shown) && (e.None? || (e.value.0 != [] && env.parseTargets(e.value.0, e.value.1).None?))
  }

  lemma MigrateExactly(env: Env, m: Meta, files: Files, nonce: int) returns (r: Option<Meta>, left: Files)
    requires Forced(env, m.raw) && Readable(env, m.raw)
    ensures (r, left) == MigrateTargets(env, m, files, nonce)
    ensures r.None? == EncryptionFails(env, m.raw, nonce)
    ensures r.Some? ==> Settled(env, m.raw, nonce, r.value.raw)
    ensures r.Some? ==> left == if ToEncrypt(env, m.raw) then files.(meta := Some(r.value.raw)) else files
  {
    r, left := MigrateTargets(env, m, files, nonce).0, MigrateTargets(env, m, files, nonce).1;
    if ToEncrypt(env, m.raw) {
      var e := env.encrypt(m.raw.configs[Targets], nonce);
      if e.Some? {
        Encrypted(env, m.raw, e.value.0, e.value.1);
        ParsesExactly(env, PutTargets(m.raw, e.value.0, e.value.1), m.docs);
      }
    }
  }

  lemma Encrypted(env: Env, raw: Raw, data: Bytes, mark: Bytes)
    requires Forced(env, raw) && Readable(env, raw)
    ensures var r := PutTargets(raw, data, mark);
            && Forced(env, r) && r.configs[Targets] == data
            && (forall c: Config :: c != Targets ==> r.configs[c] == raw.configs[c])
            && (Readable(env, r) <==> (data != [] ==> env.parseTargets(data, mark).Some?))
  {
    var r := PutTargets(raw, data, mark);
    forall c: Config ensures r.configs[c] == if c == Targets then data else raw.configs[c] {
      PutAt(raw.configs, Targets, data, c);
    }
    forall c: Config | c != Targets ensures r.configs[c] != [] ==> ReadDoc(env, r, c).Some? {
      assert ReadDoc(env, r, c) == ReadDoc(env, raw, c);
    }
    assert ReadDoc(env, r, Targets) == env.parseTargets(data, mark);
  }

  /** The times of the configs that carry one default to the creation time. */
  lemma DefaultTimesExactly(raw: Raw, c: Config)
    ensures DefaultTimes(raw).updated[c] == if Dated(c) && raw.updated[c] == 0 then raw.created else raw.updated[c]
    ensures DefaultTimes(raw).(updated := raw.updated) == raw
  {
  }

  /** The load before the times are set. */
  lemma LoadStages(env: Env, files: Files, ch: Choice) returns (m: Option<Meta>, left: Files)
    requires FullOrder(ch.order) && ch.readable && LocksAgree(env, Base(files, ch.now), files.legacy)
    ensures LoadFiles(env, files, ch) == (WithTimes(m), left)
    ensures var shown := ShownRaw(env, Base(files, ch.now), files.legacy);
            && m.None? == (!Readable(env, shown) || EncryptionFails(env, shown, ch.nonce))
            && (m.Some? ==>
                  && Settled(env, shown, ch.nonce, m.value.raw)
                  && left.legacy == Remaining(files.legacy, ch.undeleted)
                  && left.meta == (if files.legacy == map[] && !Base(files, ch.now).lockEnabled && !ToEncrypt(env, shown)
                                   then files.meta else Some(m.value.raw)))
  {
    var base := Base(files, ch.now);
    var shown := ShownRaw(env, base, files.legacy);
    var p := ParseAll(env, shown, DefaultDocs(env));
    assert p.Some? == Readable(env, shown) && (p.Some? ==> p.value.raw == shown) && Forced(env, shown) by {
      ShownIsForced(env, base, files.legacy);
      ParsesExactly(env, shown, DefaultDocs(env));
    }
    ConvertExactly(env, files, ch);
    assert files.legacy == map[] ==> Remaining(files.legacy, ch.undeleted) == map[];
    m, left := None, Convert(env, files, base, WalkOf(env, files, ch), ch.undeleted).1;
    if p.Some? {
      m, left := MigrateExactly(env, p.value, left, ch.nonce);
    }
  }

  /**
   A load whose files can be read and whose lock files agree: it fails exactly if something that is shown
   does not parse, or targets cannot be encrypted; otherwise it gives what is shown, with targets
   encrypted and times set, and what it stores is that without the times, if there was anything to change.
   */
  lemma LoadExactly(env: Env, files: Files, ch: Choice, c: Config)
    requires FullOrder(ch.order) && ch.readable && LocksAgree(env, Base(files, ch.now), files.legacy)
    ensures var shown := ShownRaw(env, Base(files, ch.now), files.legacy);
            var r := LoadFiles(env, files, ch);
            && r.0.None? == (!Readable(env, shown) || EncryptionFails(env, shown, ch.nonce))
            && (r.0.Some? ==>
                  var raw := r.0.value.raw;
                  && Settled(env, shown, ch.nonce, raw.(updated := shown.updated))
                  && raw.updated[c] == (if Dated(c) && shown.updated[c] == 0 then shown.created else shown.updated[c])
                  && r.1.legacy == (map l | l in files.legacy && l in ch.undeleted :: files.legacy[l])
                  && r.1.meta == (if files.legacy == map[] && !Base(files, ch.now).lockEnabled && !ToEncrypt(env, shown)
                                  then files.meta else Some(raw.(updated := shown.updated))))
  {
    var m, left := LoadStages(env, files, ch);
    if m.Some? { DefaultTimesExactly(m.value.raw, c); }
  }

  /** A load that cannot read its files fails and changes nothing. */
  lemma UnreadableFails(env: Env, files: Files, ch: Choice)
    requires !ch.readable
    ensures LoadFiles(env, files, ch) == (None, files)
  {
  }
}
