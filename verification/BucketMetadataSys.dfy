/**
 The bucket metadata cache (cmd/bucket-metadata-sys.go) over the stored files: every operation is one
 atomic step, and each cached entry stays what a reload would give.
 */
module BucketMetadataSys {
  import opened Prelude
  import opened BucketMetadata

  /** What the outside decides during one load: clock, KMS key, map order, failed deletions, failed reads. */
  datatype Choice = Choice(now: Time, nonce: int, order: seq<Legacy>, undeleted: set<Legacy>, readable: bool)

  /** Everything is read before anything is written, so a file that cannot be read fails the load alone. */
  function LoadFiles(env: Env, files: Files, ch: Choice): (Option<Meta>, Files) {
    if !ch.readable then (None, files)
    else Load(env, files, ch.now, ch.nonce, WalkOf(env, files, ch), ch.undeleted)
  }

  function WalkOf(env: Env, files: Files, ch: Choice): (r: seq<Legacy>)
    ensures forall i :: 0 <= i < |r| ==> r[i] in Collect(env, Base(files, ch.now), files.legacy)
  {
    Walk(ch.order, Collect(env, Base(files, ch.now), files.legacy))
  }

  function WithTimes(m: Option<Meta>): Option<Meta> {
    if m.None? then None else Some(m.value.(raw := DefaultTimes(m.value.raw)))
  }

  /** The metadata that a stored file stands for. */
  function MetaOf(env: Env, raw: Raw): Option<Meta> {
    WithTimes(ParseAll(env, raw, DefaultDocs(env)))
  }

  /** Constants that are not empty, and encryption that always leaves its mark. */
  ghost predicate Sane(env: Env) {
    && env.enabledLock != [] && env.enabledVersioning != []
    && (forall d, n :: env.encrypt(d, n).Some? ==> env.encrypt(d, n).value.1 != [])
  }

  /** The entry is what the stored file gives, legacy files aside. */
  ghost predicate StoredOk(env: Env, m: Meta, raw: Raw) {
    !raw.lockEnabled && TargetsSettled(env, raw) && MetaOf(env, raw) == Some(m)
  }

  /** The entry is what the files give: a legacy file that could not be deleted says what the entry says. */
  ghost predicate EntryOk(env: Env, m: Meta, files: Files) {
    FileOk(env, m, files) && Absorbed(env, m.raw, files.legacy)
  }

  /** A bucket without a stored file has no legacy files either once it is cached. */
  ghost predicate FileOk(env: Env, m: Meta, files: Files) {
    match files.meta
    case Some(raw) => StoredOk(env, m, raw)
    case None => files.legacy == map[] && MetaOf(env, NewRaw(m.raw.created)) == Some(m)
  }

  // ---------- what a reload gives ----------

  lemma NewIsUnfixed(env: Env, t: Time)
    requires Sane(env)
    ensures FixVersioning(env, NewRaw(t)) == NewRaw(t) && TargetsSettled(env, NewRaw(t))
  {
    assert NewRaw(t).configs[ObjectLock] == NoData(ObjectLock);
    assert NewRaw(t).configs[Targets] == NoData(Targets);
  }

  lemma NewParsesAlike(env: Env, t: Time, u: Time)
    requires Sane(env) && ParseAll(env, NewRaw(t), DefaultDocs(env)).Some?
    ensures ParseAll(env, NewRaw(u), DefaultDocs(env))
         == Some(Meta(NewRaw(u), ParseAll(env, NewRaw(t), DefaultDocs(env)).value.docs))
  {
    NewIsUnfixed(env, t);
    NewIsUnfixed(env, u);
    var docs := DefaultDocs(env);
    ParsesAlike(env, NewRaw(t), docs, NewRaw(u), docs);
  }

  lemma NothingCollected(env: Env, raw: Raw, legacy: map<Legacy, Bytes>)
    ensures Collect(env, raw, legacy) == map[] <==> !raw.lockEnabled && legacy == map[]
  {
    assert raw.lockEnabled ==> ConfigFile(ObjectLock) in Collect(env, raw, legacy);
    assert forall l :: l in legacy ==> l in Collect(env, raw, legacy);
  }

  /** Files that are left after a load that found any. */
  function LeftAfter(legacy: map<Legacy, Bytes>, undeleted: set<Legacy>): map<Legacy, Bytes> {
    if legacy == map[] then map[] else Remaining(legacy, undeleted)
  }

  /** Metadata with the lock flag off, converted: the merge with the legacy files, parsed. */
  lemma ConvertMerges(env: Env, files: Files, base: Raw, ch: Choice)
    requires base == Base(files, ch.now) && !base.lockEnabled && !LockConflict(env, files.legacy) && FullOrder(ch.order)
    ensures Collect(env, base, files.legacy) == files.legacy
    ensures var p := ParseAll(env, Merged(env, base, files.legacy), DefaultDocs(env));
              Convert(env, files, base, WalkOf(env, files, ch), ch.undeleted)
              == (p, if p.None? || files.legacy == map[] then files
                     else Files(Some(p.value.raw), Remaining(files.legacy, ch.undeleted)))
  {
    var left, order := files.legacy, WalkOf(env, files, ch);
    assert Collect(env, base, left) == left;
    assert IsWalk(order, left) by { WalkIsWalk(ch.order, left); }
    MigrationIsOrderIndependent(env, base, order, left);
    assert base.(lockEnabled := false) == base;
    if left == map[] {
      MergedNothing(env, base);
    }
  }

  lemma MergedNothing(env: Env, raw: Raw)
    ensures Merged(env, raw, map[]) == raw
  {
    RemergeIsIdentity(env, raw, map[]);
  }

  /** Parsing sees the configs with versioning forced where the lock forces it. */
  lemma ParseOfFixed(env: Env, r: Raw, r': Raw, docs: Docs)
    requires FixVersioning(env, r) == FixVersioning(env, r')
    ensures ParseAll(env, r, docs) == ParseAll(env, r', docs)
  {
  }

  lemma TimesKeepConfigs(m: Meta)
    ensures DefaultTimes(m.raw).configs == m.raw.configs && DefaultTimes(m.raw).targetsMeta == m.raw.targetsMeta
    ensures DefaultTimes(m.raw).lockEnabled == m.raw.lockEnabled
  {
  }

  lemma AbsorbedByConfigs(env: Env, r: Raw, r': Raw, legacy: map<Legacy, Bytes>)
    requires r.configs == r'.configs
    ensures Absorbed(env, r, legacy) <==> Absorbed(env, r', legacy)
  {
  }

  lemma AbsorbedPart(env: Env, r: Raw, legacy: map<Legacy, Bytes>, undeleted: set<Legacy>)
    requires Absorbed(env, r, legacy)
    ensures Absorbed(env, r, LeftAfter(legacy, undeleted))
  {
  }

  /** What an entry of a stored file says about that file. */
  lemma EntryOfStored(env: Env, m: Meta, raw: Raw, p: Meta)
    requires StoredOk(env, m, raw) && ParseAll(env, raw, DefaultDocs(env)) == Some(p)
    ensures m == p.(raw := DefaultTimes(p.raw)) && m.raw.configs == FixVersioning(env, raw).configs
    ensures m.raw.targetsMeta == raw.targetsMeta && p.raw == FixVersioning(env, raw) && !p.raw.lockEnabled
    ensures TargetsSettled(env, p.raw)
  {
    ParsedRaw(env, raw, DefaultDocs(env), p);
    TimesKeepConfigs(p);
    FixedAt(env, raw, Targets);
  }

  /** A reload whose leftover files were absorbed gives the entry again. */
  lemma AbsorbedReload(env: Env, m: Meta, files: Files, ch: Choice)
    requires files.meta.Some? && StoredOk(env, m, files.meta.value) && Absorbed(env, m.raw, files.legacy)
    requires ch.readable && FullOrder(ch.order)
    ensures LoadFiles(env, files, ch).0 == Some(m)
    ensures LoadFiles(env, files, ch).1
         == if files.legacy == map[] then files
            else Files(Some(FixVersioning(env, files.meta.value)), Remaining(files.legacy, ch.undeleted))
  {
    var raw, left, docs := files.meta.value, files.legacy, DefaultDocs(env);
    var p := ParseAll(env, raw, docs).value;
    EntryOfStored(env, m, raw, p);
    AbsorbedByConfigs(env, m.raw, FixVersioning(env, raw), left);
    AbsorbedHasNoConflict(env, m.raw, left);
    AbsorbedMerge(env, raw, left);
    ParseOfFixed(env, Merged(env, raw, left), raw, docs);
    ConvertMerges(env, files, raw, ch);
  }

  lemma SettledLoadNew(env: Env, files: Files, ch: Choice, m: Meta)
    requires Sane(env) && files == Files(None, map[]) && ch.readable
    requires ParseAll(env, NewRaw(ch.now), DefaultDocs(env)) == Some(m)
    ensures LoadFiles(env, files, ch) == (WithTimes(Some(m)), files)
  {
    NewIsUnfixed(env, ch.now);
    NothingCollected(env, NewRaw(ch.now), files.legacy);
  }

  /**
   What coherence means: a reload of an entry's files that can be read succeeds and gives the entry
   again, with another creation time if the bucket has no stored file.
   */
  lemma ReloadGivesEntry(env: Env, m: Meta, files: Files, ch: Choice)
    requires Sane(env) && EntryOk(env, m, files) && ch.readable && FullOrder(ch.order)
    ensures LoadFiles(env, files, ch).0
         == Some(if files.meta.Some? then m else Meta(DefaultTimes(NewRaw(ch.now)), m.docs))
    ensures files.meta.None? ==> m.raw == DefaultTimes(NewRaw(m.raw.created))
  {
    match files.meta
    case Some(raw) => AbsorbedReload(env, m, files, ch);
    case None =>
      NewIsUnfixed(env, ch.now);
      NewIsUnfixed(env, m.raw.created);
      NewParsesAlike(env, m.raw.created, ch.now);
      SettledLoadNew(env, files, ch, ParseAll(env, NewRaw(ch.now), DefaultDocs(env)).value);
  }

  /** A reload leaves the entry right, whatever it deletes. */
  lemma ReloadKeepsEntry(env: Env, m: Meta, files: Files, ch: Choice)
    requires Sane(env) && EntryOk(env, m, files) && FullOrder(ch.order)
    ensures EntryOk(env, m, LoadFiles(env, files, ch).1)
  {
    if ch.readable {
      match files.meta
      case Some(raw) =>
        AbsorbedReload(env, m, files, ch);
        if files.legacy != map[] {
          SavedFixed(env, m, raw);
          AbsorbedPart(env, m.raw, files.legacy, ch.undeleted);
        }
      case None =>
        NewIsUnfixed(env, ch.now);
        NewParsesAlike(env, m.raw.created, ch.now);
        SettledLoadNew(env, files, ch, ParseAll(env, NewRaw(ch.now), DefaultDocs(env)).value);
    }
  }

  /** Saving the file with versioning forced changes nothing for the entry. */
  lemma SavedFixed(env: Env, m: Meta, raw: Raw)
    requires StoredOk(env, m, raw)
    ensures StoredOk(env, m, FixVersioning(env, raw))
  {
    FixIsIdempotent(env, raw);
    ParseOfFixed(env, FixVersioning(env, raw), raw, DefaultDocs(env));
    FixedAt(env, raw, Targets);
  }

  /**
   The exact condition on files left behind: beside a stored file that gives the entry, a reload gives
   the entry if and only if the files left were absorbed into it.
   */
  lemma ReloadExactly(env: Env, m: Meta, files: Files, ch: Choice)
    requires Sane(env) && files.meta.Some? && StoredOk(env, m, files.meta.value)
    requires ch.readable && FullOrder(ch.order) && !LockConflict(env, files.legacy)
    ensures LoadFiles(env, files, ch).0 == Some(m) <==> Absorbed(env, m.raw, files.legacy)
  {
    if Absorbed(env, m.raw, files.legacy) {
      AbsorbedReload(env, m, files, ch);
    } else if LoadFiles(env, files, ch).0 == Some(m) {
      var raw, left := files.meta.value, files.legacy;
      var p := ParseAll(env, raw, DefaultDocs(env)).value;
      EntryOfStored(env, m, raw, p);
      ConvertMerges(env, files, raw, ch);
      ReloadedConfigs(env, m, files, raw, ch);
      RemergeExactly(env, raw, left);
      AbsorbedByConfigs(env, m.raw, FixVersioning(env, raw), left);
      assert false;
    }
  }

  lemma ReloadedConfigs(env: Env, m: Meta, files: Files, raw: Raw, ch: Choice)
    requires Sane(env) && files.meta == Some(raw) && !raw.lockEnabled && m.raw.targetsMeta == raw.targetsMeta
    requires ch.readable && FullOrder(ch.order) && !LockConflict(env, files.legacy)
    requires LoadFiles(env, files, ch).0 == Some(m)
    ensures m.raw.configs == FixVersioning(env, Merged(env, raw, files.legacy)).configs
  {
    ConvertMerges(env, files, raw, ch);
    var merged := Merged(env, raw, files.legacy);
    var q := ParseAll(env, merged, DefaultDocs(env)).value;
    ParsedRaw(env, merged, DefaultDocs(env), q);
    LoadFromConverted(env, files, ch.now, ch.nonce, WalkOf(env, files, ch), ch.undeleted, q);
    var r := MigrateTargets(env, q, Files(Some(q.raw), map[]), ch.nonce).0.value;
    TimesKeepConfigs(r);
    UnmarkedIsSame(env, q, Files(Some(q.raw), map[]), ch.nonce, r);
  }

  /** Encryption shows in the mark: metadata whose mark did not change was left alone. */
  lemma UnmarkedIsSame(env: Env, q: Meta, files: Files, nonce: int, r: Meta)
    requires Sane(env) && MigrateTargets(env, q, files, nonce).0 == Some(r) && r.raw.targetsMeta == q.raw.targetsMeta
    ensures r == q
  {
    if !TargetsSettled(env, q.raw) {
      var e := env.encrypt(q.raw.configs[Targets], nonce).value;
      ParsedRaw(env, PutTargets(q.raw, e.0, e.1), q.docs, r);
      assert false;
    }
  }

  // ---------- what a load caches ----------

  /** Parsed fields kept from before are those of a fresh parse, if the kept ones are at their defaults. */
  lemma CarriedIsFresh(env: Env, raw: Raw, docs: Docs)
    requires forall c: Config ::
      KeptWhenEmpty(c) && FixVersioning(env, raw).configs[c] == [] ==> docs[c] == DefaultDoc(env, c)
    ensures ParseAll(env, raw, docs) == ParseAll(env, raw, DefaultDocs(env))
  {
    var r, defaults := FixVersioning(env, raw), DefaultDocs(env);
    forall c: Config ensures ParseOne(env, r, c, docs[c]) == ParseOne(env, r, c, defaults[c]) {
      assert defaults[c] == DefaultDoc(env, c);
    }
    ParsesAlike(env, r, docs, r, defaults);
  }

  lemma EmptyIsDefault(env: Env, raw: Raw, m: Meta, c: Config)
    requires ParseAll(env, raw, DefaultDocs(env)) == Some(m) && m.raw.configs[c] == []
    ensures m.docs[c] == DefaultDoc(env, c)
  {
    ParsedDocAt(env, raw, DefaultDocs(env), m, c);
    assert DefaultDocs(env)[c] == DefaultDoc(env, c);
  }

  /** What holds between the conversion and the rest of a load. */
  ghost predicate Converted(env: Env, m: Meta, files: Files, now: Time) {
    && !m.raw.lockEnabled && !Base(files, now).lockEnabled && (files.meta.None? ==> files.legacy == map[])
    && ParseAll(env, Base(files, now), DefaultDocs(env)) == Some(m)
    && ParseAll(env, m.raw, DefaultDocs(env)) == Some(m)
  }

  lemma ConvertGives(env: Env, files: Files, now: Time, order: seq<Legacy>, undeleted: set<Legacy>)
    requires forall i :: 0 <= i < |order| ==> order[i] in Collect(env, Base(files, now), files.legacy)
    ensures var r := Convert(env, files, Base(files, now), order, undeleted);
            r.0.None? || Converted(env, r.0.value, r.1, now)
  {
    var base := Base(files, now);
    var configs := Collect(env, base, files.legacy);
    var r := Convert(env, files, base, order, undeleted);
    if r.0.Some? {
      if configs == map[] {
        NothingCollected(env, base, files.legacy);
        PlainConverted(env, files, now, r.0.value);
      } else {
        FoldedConverted(env, base.(lockEnabled := false), order, configs, r.0.value, r.1, now);
      }
    }
  }

  lemma PlainConverted(env: Env, files: Files, now: Time, m: Meta)
    requires files.legacy == map[] && !Base(files, now).lockEnabled
    requires ParseAll(env, Base(files, now), DefaultDocs(env)) == Some(m)
    ensures Converted(env, m, files, now)
  {
    ParsedRaw(env, Base(files, now), DefaultDocs(env), m);
    ParseAgain(env, Base(files, now), DefaultDocs(env));
  }

  lemma FoldedConverted(
    env: Env, start: Raw, order: seq<Legacy>, configs: map<Legacy, Bytes>, m: Meta, files: Files, now: Time)
    requires !start.lockEnabled && forall i :: 0 <= i < |order| ==> order[i] in configs
    requires ParseAll(env, ApplyOrder(env, start, order, configs), DefaultDocs(env)) == Some(m) && files.meta == Some(m.raw)
    ensures Converted(env, m, files, now)
  {
    var merged := ApplyOrder(env, start, order, configs);
    ApplyOrderFrame(env, start, order, configs);
    ParsedRaw(env, merged, DefaultDocs(env), m);
    ParseAgain(env, merged, DefaultDocs(env));
  }

  lemma MigrateGives(env: Env, m: Meta, files: Files, now: Time, nonce: int)
    requires Sane(env) && Converted(env, m, files, now)
    ensures var r := MigrateTargets(env, m, files, nonce);
            r.0.None? || FileOk(env, r.0.value.(raw := DefaultTimes(r.0.value.raw)), r.1)
  {
    var r := MigrateTargets(env, m, files, nonce);
    if TargetsSettled(env, m.raw) {
      SettledIsOk(env, m, files, now);
    } else if r.0.Some? {
      var e := env.encrypt(m.raw.configs[Targets], nonce).value;
      var raw := PutTargets(m.raw, e.0, e.1);
      assert forall c: Config :: c != Targets ==> raw.configs[c] == m.raw.configs[c] by {
        forall c: Config { PutAt(m.raw.configs, Targets, e.0, c); }
      }
      TargetsChanged(env, m, raw, r.0.value);
      SavedParseIsOk(env, r.0.value);
    }
  }

  /** Saved metadata that parses to itself is what the cache should hold, once its times are defaulted. */
  lemma SavedParseIsOk(env: Env, m: Meta)
    requires !m.raw.lockEnabled && TargetsSettled(env, m.raw) && ParseAll(env, m.raw, DefaultDocs(env)) == Some(m)
    ensures StoredOk(env, m.(raw := DefaultTimes(m.raw)), m.raw)
  {
  }

  lemma SettledIsOk(env: Env, m: Meta, files: Files, now: Time)
    requires Converted(env, m, files, now) && TargetsSettled(env, m.raw)
    ensures FileOk(env, m.(raw := DefaultTimes(m.raw)), files)
  {
    FixedAt(env, Base(files, now), Targets);
  }

  lemma TargetsChanged(env: Env, m: Meta, raw: Raw, m': Meta)
    requires ParseAll(env, m.raw, DefaultDocs(env)) == Some(m) && !m.raw.lockEnabled
    requires raw.lockEnabled == m.raw.lockEnabled && raw.targetsMeta != []
    requires forall c: Config :: c != Targets ==> raw.configs[c] == m.raw.configs[c]
    requires ParseAll(env, raw, m.docs) == Some(m')
    ensures !m'.raw.lockEnabled && TargetsSettled(env, m'.raw)
    ensures ParseAll(env, m'.raw, DefaultDocs(env)) == Some(m')
  {
    ParsedRaw(env, raw, m.docs, m');
    TargetsCarry(env, m, raw);
    ParseAgain(env, raw, DefaultDocs(env));
  }

  lemma TargetsCarry(env: Env, m: Meta, raw: Raw)
    requires ParseAll(env, m.raw, DefaultDocs(env)) == Some(m)
    requires forall c: Config :: c != Targets ==> raw.configs[c] == m.raw.configs[c]
    ensures ParseAll(env, raw, m.docs) == ParseAll(env, raw, DefaultDocs(env))
  {
    forall c: Config | KeptWhenEmpty(c) && FixVersioning(env, raw).configs[c] == []
      ensures m.docs[c] == DefaultDoc(env, c)
    {
      FixedAt(env, raw, c);
      FixedAt(env, m.raw, c);
      EmptyIsDefault(env, m.raw, m, c);
    }
    CarriedIsFresh(env, raw, m.docs);
  }

  /** Whatever the files were, what a load returns is what the file it leaves gives. */
  lemma LoadGives(env: Env, files: Files, ch: Choice)
    requires Sane(env)
    ensures var r := LoadFiles(env, files, ch);
            r.0.None? || FileOk(env, r.0.value, r.1)
  {
    if ch.readable {
      var order := WalkOf(env, files, ch);
      ConvertGives(env, files, ch.now, order, ch.undeleted);
      var c := Convert(env, files, Base(files, ch.now), order, ch.undeleted);
      if c.0.Some? {
        MigrateGives(env, c.0.value, c.1, ch.now, ch.nonce);
      }
    }
  }

  lemma MigrateTouchesTargets(env: Env, m: Meta, files: Files, nonce: int)
    requires ParseAll(env, m.raw, DefaultDocs(env)) == Some(m) && MigrateTargets(env, m, files, nonce).0.Some?
    ensures forall c: Config :: c != Targets ==>
              MigrateTargets(env, m, files, nonce).0.value.raw.configs[c] == m.raw.configs[c]
    ensures MigrateTargets(env, m, files, nonce).1.legacy == files.legacy
  {
    if !TargetsSettled(env, m.raw) {
      var e := env.encrypt(m.raw.configs[Targets], nonce).value;
      var raw := PutTargets(m.raw, e.0, e.1);
      var m' := ParseAll(env, raw, m.docs).value;
      ParsedRaw(env, raw, m.docs, m');
      ParsedRaw(env, m.raw, DefaultDocs(env), m);
      forall c: Config | c != Targets ensures m'.raw.configs[c] == m.raw.configs[c] {
        PutAt(m.raw.configs, Targets, e.0, c);
        PutAt(m.raw.configs, Targets, e.0, ObjectLock);
        FixedAt(env, raw, c);
        FixedAt(env, m.raw, c);
      }
    }
  }

  /** Whether targets found in a legacy file are stored as they are: nothing to encrypt, or a cipher that changes nothing. */
  predicate StoredPlain(env: Env, mark: Bytes, data: Bytes, nonce: int) {
    data == [] || !env.kms || mark != []
    || (env.encrypt(data, nonce).Some? && env.encrypt(data, nonce).value.0 == data)
  }

  /**
   The files whose deletion fails do not matter to what a load caches: if the lock files disagree, the
   one that the walk met first is deleted, and a targets file that is encrypted is deleted.
   */
  ghost predicate LoadLeftOk(env: Env, files: Files, ch: Choice) {
    var base, left := Base(files, ch.now), Remaining(files.legacy, ch.undeleted);
    && (LockConflict(env, Collect(env, base, files.legacy)) ==> Loser(WalkOf(env, files, ch)) !in left)
    && (ConfigFile(Targets) in left ==> StoredPlain(env, base.targetsMeta, left[ConfigFile(Targets)], ch.nonce))
  }

  lemma AbsorbedTargets(env: Env, r: Raw, r': Raw, left: map<Legacy, Bytes>)
    requires forall c: Config :: c != Targets ==> r'.configs[c] == r.configs[c]
    requires ConfigFile(Targets) in left ==> r.configs[Targets] == left[ConfigFile(Targets)]
    ensures Absorbed(env, r', left)
       <==> Absorbed(env, r, left) && (ConfigFile(Targets) in left ==> r'.configs[Targets] == left[ConfigFile(Targets)])
  {
    var t: FileConfig := Targets;
    assert ConfigFile(t) in left && Absorbed(env, r', left) ==> r'.configs[t] == left[ConfigFile(t)];
  }

  /** The targets after encryption, from those before it. */
  lemma MigratedTargets(env: Env, m: Meta, files: Files, nonce: int)
    requires MigrateTargets(env, m, files, nonce).0.Some?
    ensures MigrateTargets(env, m, files, nonce).0.value.raw.configs[Targets] == m.raw.configs[Targets]
       <==> StoredPlain(env, m.raw.targetsMeta, m.raw.configs[Targets], nonce)
  {
    if !TargetsSettled(env, m.raw) {
      var e := env.encrypt(m.raw.configs[Targets], nonce).value;
      var raw := PutTargets(m.raw, e.0, e.1);
      ParsedRaw(env, raw, m.docs, ParseAll(env, raw, m.docs).value);
      PutAt(m.raw.configs, Targets, e.0, Targets);
      FixedAt(env, raw, Targets);
    }
  }

  /** What the conversion leaves behind, against what it stores. */
  lemma ConvertLeaves(env: Env, files: Files, ch: Choice)
    requires FullOrder(ch.order)
    ensures var base, left := Base(files, ch.now), Remaining(files.legacy, ch.undeleted);
            var c := Convert(env, files, base, WalkOf(env, files, ch), ch.undeleted);
            c.0.None? ||
            (&& c.1.legacy == left && c.0.value.raw.targetsMeta == base.targetsMeta
             && (ConfigFile(Targets) in left ==> c.0.value.raw.configs[Targets] == left[ConfigFile(Targets)])
             && (Absorbed(env, c.0.value.raw, left) <==>
                 (LockConflict(env, Collect(env, base, files.legacy)) ==> Loser(WalkOf(env, files, ch)) !in left)))
  {
    var base, order, left := Base(files, ch.now), WalkOf(env, files, ch), Remaining(files.legacy, ch.undeleted);
    var configs := Collect(env, base, files.legacy);
    var c := Convert(env, files, base, order, ch.undeleted);
    if c.0.Some? {
      if configs == map[] {
        NothingCollected(env, base, files.legacy);
        ParsedRaw(env, base, DefaultDocs(env), c.0.value);
      } else {
        var start := base.(lockEnabled := false);
        assert IsWalk(order, configs) by { WalkIsWalk(ch.order, configs); }
        FoldLeaves(env, start, order, configs, left, c.0.value);
      }
    }
  }

  lemma FoldLeaves(
    env: Env, start: Raw, order: seq<Legacy>, configs: map<Legacy, Bytes>, left: map<Legacy, Bytes>, m: Meta)
    requires IsWalk(order, configs) && forall l :: l in left ==> l in configs && configs[l] == left[l]
    requires ParseAll(env, ApplyOrder(env, start, order, configs), DefaultDocs(env)) == Some(m)
    ensures m.raw.targetsMeta == start.targetsMeta
    ensures ConfigFile(Targets) in left ==> m.raw.configs[Targets] == left[ConfigFile(Targets)]
    ensures Absorbed(env, m.raw, left) == (LockConflict(env, configs) ==> Loser(order) !in left)
  {
    var kept := FoldedRaw(env, start, order, configs, m);
    LeftAbsorbedExactly(env, start, order, configs, left);
    FoldedTargets(env, start, order, configs, left, kept);
  }

  lemma FoldedRaw(env: Env, start: Raw, order: seq<Legacy>, configs: map<Legacy, Bytes>, m: Meta)
    returns (kept: map<Legacy, Bytes>)
    requires IsWalk(order, configs)
    requires ParseAll(env, ApplyOrder(env, start, order, configs), DefaultDocs(env)) == Some(m)
    ensures kept == Effective(env, configs, order) && m.raw == FixVersioning(env, Merged(env, start, kept))
    ensures m.raw.targetsMeta == start.targetsMeta
  {
    kept := Effective(env, configs, order);
    WalkMerges(env, start, order, configs);
    ParsedRaw(env, Merged(env, start, kept), DefaultDocs(env), m);
  }

  lemma FoldedTargets(
    env: Env, start: Raw, order: seq<Legacy>, configs: map<Legacy, Bytes>, left: map<Legacy, Bytes>, kept: map<Legacy, Bytes>)
    requires kept == Effective(env, configs, order) && forall l :: l in left ==> l in configs && configs[l] == left[l]
    ensures ConfigFile(Targets) in left ==>
              FixVersioning(env, Merged(env, start, kept)).configs[Targets] == left[ConfigFile(Targets)]
  {
    if ConfigFile(Targets) in left {
      EffectiveKeeps(env, configs, order, ConfigFile(Targets));
      MergedTargets(env, start, kept);
    }
  }

  lemma EffectiveKeeps(env: Env, configs: map<Legacy, Bytes>, order: seq<Legacy>, l: Legacy)
    requires l in configs && l != LockEnabledFile && l != ConfigFile(ObjectLock)
    ensures l in Effective(env, configs, order) && Effective(env, configs, order)[l] == configs[l]
  {
  }

  lemma MergedTargets(env: Env, raw: Raw, legacy: map<Legacy, Bytes>)
    requires ConfigFile(Targets) in legacy
    ensures FixVersioning(env, Merged(env, raw, legacy)).configs[Targets] == legacy[ConfigFile(Targets)]
  {
    FixedAt(env, Merged(env, raw, legacy), Targets);
    MergedAt(env, raw, legacy, Targets);
  }

  /** What a load caches was absorbed from the files it leaves, exactly under the condition on the inputs. */
  lemma LoadAbsorbsExactly(env: Env, files: Files, ch: Choice)
    requires FullOrder(ch.order) && LoadFiles(env, files, ch).0.Some?
    ensures var r := LoadFiles(env, files, ch);
            Absorbed(env, r.0.value.raw, r.1.legacy) <==> LoadLeftOk(env, files, ch)
  {
    var base, order := Base(files, ch.now), WalkOf(env, files, ch);
    ConvertLeaves(env, files, ch);
    ConvertGives(env, files, ch.now, order, ch.undeleted);
    var c := Convert(env, files, base, order, ch.undeleted);
    LeavesMigrated(env, c.0.value, c.1, ch.nonce);
  }

  lemma LeavesMigrated(env: Env, m: Meta, files: Files, nonce: int)
    requires ParseAll(env, m.raw, DefaultDocs(env)) == Some(m) && MigrateTargets(env, m, files, nonce).0.Some?
    requires ConfigFile(Targets) in files.legacy ==> m.raw.configs[Targets] == files.legacy[ConfigFile(Targets)]
    ensures var r := MigrateTargets(env, m, files, nonce);
            var t := files.legacy;
            && r.1.legacy == t
            && (Absorbed(env, DefaultTimes(r.0.value.raw), t) <==>
                Absorbed(env, m.raw, t)
                && (ConfigFile(Targets) in t ==> StoredPlain(env, m.raw.targetsMeta, t[ConfigFile(Targets)], nonce)))
  {
    var r := MigrateTargets(env, m, files, nonce);
    MigrateTouchesTargets(env, m, files, nonce);
    MigratedTargets(env, m, files, nonce);
    TimesKeepConfigs(r.0.value);
    AbsorbedTargets(env, m.raw, DefaultTimes(r.0.value.raw), files.legacy);
  }

  /** A load caches what a reload gives, exactly if the files it leaves behind do not matter. */
  lemma LoadIsOkExactly(env: Env, files: Files, ch: Choice)
    requires Sane(env) && FullOrder(ch.order) && LoadFiles(env, files, ch).0.Some?
    ensures var r := LoadFiles(env, files, ch);
            EntryOk(env, r.0.value, r.1) <==> LoadLeftOk(env, files, ch)
  {
    LoadGives(env, files, ch);
    LoadAbsorbsExactly(env, files, ch);
  }

  // ---------- updates ----------

  /** The config replaced and stamped; targets go through encryption if there is a KMS. */
  function SetConfig(env: Env, raw: Raw, c: Config, data: Bytes, now: Time, nonce: int): (r: Option<Raw>) {
    if c != Targets then Some(raw.(configs := PutConfig(raw.configs, c, data), updated := Stamp(raw.updated, c, now)))
    else if !env.kms then Some(PutTargets(raw, data, []))
    else
      var e := env.encrypt(data, nonce);
      if e.None? then None else Some(PutTargets(raw, e.value.0, e.value.1))
  }

  lemma SetConfigAt(env: Env, raw: Raw, c: Config, data: Bytes, now: Time, nonce: int, d: Config)
    requires SetConfig(env, raw, c, data, now, nonce).Some?
    ensures var r := SetConfig(env, raw, c, data, now, nonce).value;
            if d != c then r.configs[d] == raw.configs[d] else c != Targets ==> r.configs[c] == data
  {
    if c != Targets {
      PutAt(raw.configs, c, data, d);
    } else {
      var r := SetConfig(env, raw, c, data, now, nonce).value;
      PutAt(raw.configs, Targets, r.configs[Targets], d);
    }
  }

  function Stamp(updated: Times, c: Config, now: Time): Times {
    if Timed(c) then updated[c := now] else updated
  }

  /** Update on one bucket: load, replace, save. */
  function UpdateFiles(env: Env, files: Files, ch: Choice, c: Config, data: Bytes, now: Time, nonce: int)
    : (Option<Meta>, Files)
  {
    var (m, files1) := LoadFiles(env, files, ch);
    if m.None? then (None, files1) else SaveConfig(env, m.value, files1, c, data, now, nonce)
  }

  function SaveConfig(env: Env, m: Meta, files: Files, c: Config, data: Bytes, now: Time, nonce: int): (Option<Meta>, Files) {
    var r := SetConfig(env, m.raw, c, data, now, nonce);
    if r.None? then (None, files)
    else
      var m' := ParseAll(env, r.value, m.docs);
      if m'.None? then (None, files) else (m', files.(meta := Some(m'.value.raw)))
  }

  /** The configs whose last update is kept and handed out with them. */
  predicate Dated(c: Config) {
    match c
    case Policy => true
    case SSE => true
    case Tagging => true
    case Quota => true
    case ObjectLock => true
    case Versioning => true
    case Replication => true
    case Notification => false
    case Lifecycle => false
    case Targets => false
  }

  /** The time of an update is that of its config, if it carries one, and no other time changes. */
  ghost predicate TimesUpdated(before: Raw, after: Raw, c: Config, now: Time) {
    && after.created == before.created
    && after.updated[c] == (if Dated(c) then now else before.updated[c])
    && forall d: Config :: d != c ==> after.updated[d] == before.updated[d]
  }

  /** The data is in its config and no other changes, but for versioning, which the default lock forces. */
  ghost predicate ConfigsUpdated(env: Env, before: Raw, after: Raw, c: Config, data: Bytes, nonce: int) {
    && (c != Targets && c != Versioning ==> after.configs[c] == data)
    && (c == Targets && !env.kms ==> after.configs[c] == data && after.targetsMeta == [])
    && (c == Targets && env.kms ==> Some((after.configs[c], after.targetsMeta)) == env.encrypt(data, nonce))
    && (c != Targets ==> after.targetsMeta == before.targetsMeta)
    && (forall d: Config :: d != c && d != Versioning ==> after.configs[d] == before.configs[d])
    && after.configs[Versioning]
       == (if after.configs[ObjectLock] == env.enabledLock then env.enabledVersioning
           else if c == Versioning then data
           else before.configs[Versioning])
  }

  lemma TimesAreUpdated(env: Env, raw: Raw, c: Config, data: Bytes, now: Time, nonce: int)
    requires SetConfig(env, raw, c, data, now, nonce).Some?
    ensures TimesUpdated(raw, FixVersioning(env, SetConfig(env, raw, c, data, now, nonce).value), c, now)
  {
    var r := FixVersioning(env, SetConfig(env, raw, c, data, now, nonce).value);
    assert r.created == raw.created && r.updated == if c == Targets then raw.updated else Stamp(raw.updated, c, now);
    Stamped(raw.updated, c, now);
  }

  lemma Stamped(updated: Times, c: Config, now: Time)
    ensures Stamp(updated, c, now)[c] == if Dated(c) then now else updated[c]
    ensures forall d: Config :: d != c ==> Stamp(updated, c, now)[d] == updated[d]
  {
  }

  lemma ConfigsAreUpdated(env: Env, raw: Raw, c: Config, data: Bytes, now: Time, nonce: int)
    requires SetConfig(env, raw, c, data, now, nonce).Some?
    ensures ConfigsUpdated(env, raw, FixVersioning(env, SetConfig(env, raw, c, data, now, nonce).value), c, data, nonce)
  {
    var r := SetConfig(env, raw, c, data, now, nonce).value;
    forall d: Config
      ensures d != c && d != Versioning ==> FixVersioning(env, r).configs[d] == raw.configs[d]
    {
      SetConfigAt(env, raw, c, data, now, nonce, d);
      FixedAt(env, r, d);
    }
    SetConfigAt(env, raw, c, data, now, nonce, Versioning);
    SetConfigAt(env, raw, c, data, now, nonce, ObjectLock);
    FixedAt(env, r, c);
    FixedAt(env, r, ObjectLock);
    FixedAt(env, r, Versioning);
    if c == Targets { TargetsSet(env, raw, data, now, nonce); }
  }

  /**
   What an update that succeeds leaves, from the fields: its data and its time in its config, nothing
   else of the loaded metadata changed, and all of it stored.
   */
  lemma UpdateExactly(env: Env, files: Files, ch: Choice, c: Config, data: Bytes, now: Time, nonce: int)
    requires UpdateFiles(env, files, ch, c, data, now, nonce).0.Some?
    ensures var (l, left) := LoadFiles(env, files, ch);
            var r := UpdateFiles(env, files, ch, c, data, now, nonce);
            && l.Some? && r.1 == Files(Some(r.0.value.raw), left.legacy)
            && TimesUpdated(l.value.raw, r.0.value.raw, c, now)
            && ConfigsUpdated(env, l.value.raw, r.0.value.raw, c, data, nonce)
  {
    var m := LoadFiles(env, files, ch).0.value;
    TimesAreUpdated(env, m.raw, c, data, now, nonce);
    ConfigsAreUpdated(env, m.raw, c, data, now, nonce);
    ParsedRaw(env, SetConfig(env, m.raw, c, data, now, nonce).value, m.docs, UpdateFiles(env, files, ch, c, data, now, nonce).0.value);
  }

  lemma TargetsSet(env: Env, raw: Raw, data: Bytes, now: Time, nonce: int)
    requires SetConfig(env, raw, Targets, data, now, nonce).Some?
    ensures var r := SetConfig(env, raw, Targets, data, now, nonce).value;
            if env.kms then Some((r.configs[Targets], r.targetsMeta)) == env.encrypt(data, nonce)
            else r.configs[Targets] == data && r.targetsMeta == []
  {
    if env.kms {
      PutAt(raw.configs, Targets, env.encrypt(data, nonce).value.0, Targets);
    } else {
      PutAt(raw.configs, Targets, data, Targets);
    }
  }

  /** An empty config whose parsed field keeps a value that is not the default. */
  predicate KeepsOldDoc(env: Env, m: Meta, c: Config, data: Bytes) {
    && KeptWhenEmpty(c) && data == [] && m.docs[c] != DefaultDoc(env, c)
    && !(c == Versioning && m.raw.configs[ObjectLock] == env.enabledLock)
  }

  /** What holds of metadata that a load returned. */
  ghost predicate Loaded(env: Env, m: Meta) {
    && !m.raw.lockEnabled && TargetsSettled(env, m.raw) && TimesSet(m.raw)
    && forall c: Config :: m.raw.configs[c] == [] ==> m.docs[c] == DefaultDoc(env, c)
  }

  /** No time left to default. */
  ghost predicate TimesSet(raw: Raw) {
    forall c: Config :: Timed(c) && raw.updated[c] == 0 ==> raw.created == 0
  }

  lemma SetTimesStay(raw: Raw)
    requires TimesSet(raw)
    ensures DefaultTimes(raw) == raw
  {
    assert forall c: Config :: DefaultTime(raw, c) == raw.updated[c];
  }

  lemma DefaultTimesSet(raw: Raw)
    ensures TimesSet(DefaultTimes(raw))
  {
    var r := DefaultTimes(raw);
    forall c: Config | Timed(c) && r.updated[c] == 0 ensures r.created == 0 {
      assert r.updated[c] == DefaultTime(raw, c);
    }
  }

  lemma OkIsLoaded(env: Env, m: Meta, files: Files)
    requires Sane(env) && FileOk(env, m, files)
    ensures Loaded(env, m)
  {
    var raw := if files.meta.Some? then files.meta.value else NewRaw(m.raw.created);
    NewIsUnfixed(env, m.raw.created);
    var p := ParseAll(env, raw, DefaultDocs(env)).value;
    DefaultTimesSet(p.raw);
    FixedAt(env, raw, Targets);
    forall c: Config | m.raw.configs[c] == [] ensures m.docs[c] == DefaultDoc(env, c) {
      EmptyIsDefault(env, raw, p, c);
    }
  }

  lemma StampedTimes(env: Env, raw: Raw, c: Config, data: Bytes, now: Time, nonce: int, r: Raw)
    requires TimesSet(raw) && now != 0 && SetConfig(env, raw, c, data, now, nonce) == Some(r)
    ensures DefaultTimes(FixVersioning(env, r)) == FixVersioning(env, r)
  {
    assert r.created == raw.created;
    forall d: Config | Timed(d) && r.updated[d] == 0 ensures r.created == 0 {
      assert d != c && r.updated[d] == raw.updated[d];
    }
    SetTimesStay(FixVersioning(env, r));
  }

  /** The parse of an update agrees with a fresh parse unless an old parsed field is kept. */
  lemma UpdateParsesFresh(env: Env, m: Meta, c: Config, data: Bytes, raw: Raw)
    requires Sane(env) && Loaded(env, m) && !KeepsOldDoc(env, m, c, data)
    requires c != Targets ==> raw.configs[c] == data
    requires forall d: Config :: d != c ==> raw.configs[d] == m.raw.configs[d]
    ensures ParseAll(env, raw, m.docs) == ParseAll(env, raw, DefaultDocs(env))
  {
    forall d: Config | KeptWhenEmpty(d) && FixVersioning(env, raw).configs[d] == []
      ensures m.docs[d] == DefaultDoc(env, d)
    {
      KeptIsDefault(env, m, c, data, raw, d);
    }
    CarriedIsFresh(env, raw, m.docs);
  }

  lemma KeptIsDefault(env: Env, m: Meta, c: Config, data: Bytes, raw: Raw, d: Config)
    requires Sane(env) && Loaded(env, m) && !KeepsOldDoc(env, m, c, data)
    requires c != Targets ==> raw.configs[c] == data
    requires forall d: Config :: d != c ==> raw.configs[d] == m.raw.configs[d]
    requires KeptWhenEmpty(d) && FixVersioning(env, raw).configs[d] == []
    ensures m.docs[d] == DefaultDoc(env, d)
  {
    FixedAt(env, raw, d);
    if d == c {
      assert raw.configs[ObjectLock] == m.raw.configs[ObjectLock];
    }
  }

  lemma TargetsStaySettled(env: Env, raw: Raw, c: Config, data: Bytes, now: Time, nonce: int, r: Raw)
    requires Sane(env) && TargetsSettled(env, raw) && SetConfig(env, raw, c, data, now, nonce) == Some(r)
    ensures TargetsSettled(env, FixVersioning(env, r))
  {
    FixedAt(env, r, Targets);
    SetConfigAt(env, raw, c, data, now, nonce, Targets);
  }

  lemma UpdateParsesAgain(env: Env, m: Meta, c: Config, data: Bytes, now: Time, nonce: int, r: Raw, m': Meta)
    requires Sane(env) && Loaded(env, m) && !KeepsOldDoc(env, m, c, data)
    requires SetConfig(env, m.raw, c, data, now, nonce) == Some(r) && ParseAll(env, r, m.docs) == Some(m')
    ensures ParseAll(env, m'.raw, DefaultDocs(env)) == Some(m')
  {
    forall d: Config
      ensures d == c && c != Targets ==> r.configs[c] == data
      ensures d != c ==> r.configs[d] == m.raw.configs[d]
    {
      SetConfigAt(env, m.raw, c, data, now, nonce, d);
    }
    UpdateParsesFresh(env, m, c, data, r);
    ParseAgain(env, r, DefaultDocs(env));
  }

  lemma SetConfigKeepsLock(env: Env, raw: Raw, c: Config, data: Bytes, now: Time, nonce: int, r: Raw)
    requires SetConfig(env, raw, c, data, now, nonce) == Some(r)
    ensures r.lockEnabled == raw.lockEnabled
  {
  }

  lemma SavedIsOk(env: Env, m: Meta, c: Config, data: Bytes, now: Time, nonce: int, r: Raw, m': Meta)
    requires Sane(env) && Loaded(env, m) && now != 0 && !KeepsOldDoc(env, m, c, data)
    requires SetConfig(env, m.raw, c, data, now, nonce) == Some(r) && ParseAll(env, r, m.docs) == Some(m')
    ensures StoredOk(env, m', m'.raw)
  {
    ParsedRaw(env, r, m.docs, m');
    SetConfigKeepsLock(env, m.raw, c, data, now, nonce, r);
    UpdateParsesAgain(env, m, c, data, now, nonce, r, m');
    StampedTimes(env, m.raw, c, data, now, nonce, r);
    TargetsStaySettled(env, m.raw, c, data, now, nonce, r);
    StampedIsOk(env, m');
  }

  lemma StampedIsOk(env: Env, m: Meta)
    requires DefaultTimes(m.raw) == m.raw
    requires !m.raw.lockEnabled && TargetsSettled(env, m.raw) && ParseAll(env, m.raw, DefaultDocs(env)) == Some(m)
    ensures StoredOk(env, m, m.raw)
  {
    SavedParseIsOk(env, m);
    assert m.(raw := DefaultTimes(m.raw)) == m;
  }

  lemma KeptDoc(env: Env, raw: Raw, docs: Docs, m: Meta, c: Config)
    requires ParseAll(env, raw, docs) == Some(m) && m.raw.configs[c] == [] && KeptWhenEmpty(c)
    ensures m.docs[c] == docs[c]
  {
    ParsedDocAt(env, raw, docs, m, c);
  }

  lemma KeptDocIsStale(env: Env, m: Meta, c: Config, data: Bytes, now: Time, nonce: int, r: Raw, m': Meta)
    requires KeepsOldDoc(env, m, c, data)
    requires SetConfig(env, m.raw, c, data, now, nonce) == Some(r) && ParseAll(env, r, m.docs) == Some(m')
    ensures MetaOf(env, m'.raw) != Some(m')
  {
    assert m'.raw.configs[c] == [] by {
      SetConfigAt(env, m.raw, c, data, now, nonce, c);
      SetConfigAt(env, m.raw, c, data, now, nonce, ObjectLock);
      FixedAt(env, r, c);
    }
    KeptDoc(env, r, m.docs, m', c);
    assert FixVersioning(env, m'.raw) == m'.raw by { FixIsIdempotent(env, r); }
    ReparsedDoc(env, m', c);
  }

  /** A fresh parse puts an empty config at its default. */
  lemma ReparsedDoc(env: Env, m: Meta, c: Config)
    requires FixVersioning(env, m.raw) == m.raw && m.raw.configs[c] == [] && m.docs[c] != DefaultDoc(env, c)
    ensures MetaOf(env, m.raw) != Some(m)
  {
    var q := ParseAll(env, m.raw, DefaultDocs(env));
    if q.Some? {
      EmptyIsDefault(env, m.raw, q.value, c);
    }
  }

  /** The bytes an update stores for its config. */
  function StoredData(env: Env, c: Config, data: Bytes, nonce: int): Option<Bytes> {
    if c != Targets || !env.kms then Some(data)
    else
      var e := env.encrypt(data, nonce);
      if e.None? then None else Some(e.value.0)
  }

  /**
   The legacy files still there say what an update of `c` to `data` makes of the loaded metadata: the one
   for `c` holds the bytes stored, the others what was loaded; the file that enables the lock asks for
   the default lock config, and any lock file for enabled versioning, which the default lock forces.
   */
  ghost predicate UpdateLeftOk(env: Env, m: Meta, left: map<Legacy, Bytes>, c: Config, data: Bytes, nonce: int) {
    var lock := if c == ObjectLock then data else m.raw.configs[ObjectLock];
    var versioning := if c == Versioning then data else m.raw.configs[Versioning];
    && (forall d: FileConfig :: d != c && ConfigFile(d) in left ==> m.raw.configs[d] == left[ConfigFile(d)])
    && (c != Versioning && ConfigFile(c) in left ==> StoredData(env, c, data, nonce) == Some(left[ConfigFile(c)]))
    && (EnablesLock(env, left) ==> lock == env.enabledLock)
    && (EnablesLock(env, left) || ConfigFile(ObjectLock) in left ==>
          lock == env.enabledLock || versioning == env.enabledVersioning)
  }

  /** A config after an update, from the inputs. */
  lemma UpdatedAt(env: Env, m: Meta, c: Config, data: Bytes, now: Time, nonce: int, raw: Raw, d: Config)
    requires SetConfig(env, m.raw, c, data, now, nonce) == Some(raw)
    ensures d != Versioning ==>
              FixVersioning(env, raw).configs[d]
              == if d == c then StoredData(env, c, data, nonce).value else m.raw.configs[d]
    ensures FixVersioning(env, raw).configs[Versioning]
         == if FixVersioning(env, raw).configs[ObjectLock] == env.enabledLock then env.enabledVersioning
            else if c == Versioning then data else m.raw.configs[Versioning]
  {
    SetConfigAt(env, m.raw, c, data, now, nonce, d);
    SetConfigAt(env, m.raw, c, data, now, nonce, ObjectLock);
    SetConfigAt(env, m.raw, c, data, now, nonce, Versioning);
    FixedAt(env, raw, d);
    FixedAt(env, raw, ObjectLock);
    FixedAt(env, raw, Versioning);
    if c == Targets {
      PutAt(m.raw.configs, Targets, StoredData(env, c, data, nonce).value, d);
    }
  }

  lemma UpdateAbsorbsExactly(env: Env, m: Meta, left: map<Legacy, Bytes>, c: Config, data: Bytes, now: Time, nonce: int, raw: Raw)
    requires SetConfig(env, m.raw, c, data, now, nonce) == Some(raw)
    ensures Absorbed(env, FixVersioning(env, raw), left) <==> UpdateLeftOk(env, m, left, c, data, nonce)
  {
    var r := FixVersioning(env, raw);
    forall d: FileConfig
      ensures (ConfigFile(d) in left ==> r.configs[d] == left[ConfigFile(d)])
         <==> (if d == c then ConfigFile(d) in left ==> StoredData(env, c, data, nonce) == Some(left[ConfigFile(d)])
               else ConfigFile(d) in left ==> m.raw.configs[d] == left[ConfigFile(d)])
    {
      UpdatedAt(env, m, c, data, now, nonce, raw, d);
    }
    UpdatedAt(env, m, c, data, now, nonce, raw, ObjectLock);
    AbsorbedAsUpdated(env, m, left, c, data, nonce, r);
  }

  lemma AbsorbedAsUpdated(env: Env, m: Meta, left: map<Legacy, Bytes>, c: Config, data: Bytes, nonce: int, r: Raw)
    requires forall d: FileConfig ::
      (ConfigFile(d) in left ==> r.configs[d] == left[ConfigFile(d)])
      <==> (if d == c then ConfigFile(d) in left ==> StoredData(env, c, data, nonce) == Some(left[ConfigFile(d)])
            else ConfigFile(d) in left ==> m.raw.configs[d] == left[ConfigFile(d)])
    requires r.configs[ObjectLock] == if c == ObjectLock then data else m.raw.configs[ObjectLock]
    requires r.configs[Versioning]
          == if r.configs[ObjectLock] == env.enabledLock then env.enabledVersioning
             else if c == Versioning then data else m.raw.configs[Versioning]
    ensures Absorbed(env, r, left) <==> UpdateLeftOk(env, m, left, c, data, nonce)
  {
    if Absorbed(env, r, left) {
      if c != Versioning {
        var d: FileConfig := c;
        assert ConfigFile(d) in left ==> r.configs[d] == left[ConfigFile(d)];
      }
      assert UpdateLeftOk(env, m, left, c, data, nonce);
    } else if UpdateLeftOk(env, m, left, c, data, nonce) {
      forall d: FileConfig | ConfigFile(d) in left ensures r.configs[d] == left[ConfigFile(d)] {
        assert d != c ==> m.raw.configs[d] == left[ConfigFile(d)];
      }
      assert false;
    }
  }

  /**
   An update that succeeds caches what a reload gives, exactly unless it empties a notification,
   versioning or quota config that was in force, whose old parsed form then stays in the cache, or a
   legacy file that could not be deleted disagrees with what was saved.
   */
  lemma UpdateIsOkExactly(
    env: Env, files: Files, ch: Choice, c: Config, data: Bytes, now: Time, nonce: int)
    requires Sane(env) && now != 0
    ensures var l := LoadFiles(env, files, ch);
            var r := UpdateFiles(env, files, ch, c, data, now, nonce);
            r.0.None? ||
            (&& l.0.Some?
             && EntryOk(env, r.0.value, r.1)
                == (!KeepsOldDoc(env, l.0.value, c, data) && UpdateLeftOk(env, l.0.value, l.1.legacy, c, data, nonce)))
  {
    LoadGives(env, files, ch);
    var l := LoadFiles(env, files, ch);
    if l.0.Some? {
      OkIsLoaded(env, l.0.value, l.1);
      SaveIsOkExactly(env, l.0.value, l.1, c, data, now, nonce);
      SaveAbsorbsExactly(env, l.0.value, l.1, c, data, now, nonce);
    }
  }

  lemma SaveAbsorbsExactly(env: Env, m: Meta, files: Files, c: Config, data: Bytes, now: Time, nonce: int)
    ensures var s := SaveConfig(env, m, files, c, data, now, nonce);
            s.0.None? ||
            (&& s.1.legacy == files.legacy
             && Absorbed(env, s.0.value.raw, s.1.legacy) == UpdateLeftOk(env, m, files.legacy, c, data, nonce))
  {
    var s := SaveConfig(env, m, files, c, data, now, nonce);
    if s.0.Some? {
      var raw := SetConfig(env, m.raw, c, data, now, nonce).value;
      ParsedRaw(env, raw, m.docs, s.0.value);
      UpdateAbsorbsExactly(env, m, files.legacy, c, data, now, nonce, raw);
    }
  }

  lemma SaveIsOkExactly(env: Env, m: Meta, files: Files, c: Config, data: Bytes, now: Time, nonce: int)
    requires Sane(env) && Loaded(env, m) && now != 0
    ensures var s := SaveConfig(env, m, files, c, data, now, nonce);
            s.0.None? || FileOk(env, s.0.value, s.1) == !KeepsOldDoc(env, m, c, data)
  {
    var s := SaveConfig(env, m, files, c, data, now, nonce);
    if s.0.Some? {
      var raw := SetConfig(env, m.raw, c, data, now, nonce).value;
      assert s.1 == files.(meta := Some(s.0.value.raw));
      SavedExactly(env, m, c, data, now, nonce, raw, s.0.value);
    }
  }

  lemma SavedExactly(env: Env, m: Meta, c: Config, data: Bytes, now: Time, nonce: int, r: Raw, m': Meta)
    requires Sane(env) && Loaded(env, m) && now != 0
    requires SetConfig(env, m.raw, c, data, now, nonce) == Some(r) && ParseAll(env, r, m.docs) == Some(m')
    ensures StoredOk(env, m', m'.raw) <==> !KeepsOldDoc(env, m, c, data)
  {
    if KeepsOldDoc(env, m, c, data) {
      KeptDocIsStale(env, m, c, data, now, nonce, r, m');
    } else {
      SavedIsOk(env, m, c, data, now, nonce, r, m');
    }
  }

  // ---------- the cache and the store ----------

  datatype State = State(cache: map<string, Meta>, store: map<string, Files>)

  function FilesOf(store: map<string, Files>, bucket: string): Files {
    if bucket in store then store[bucket] else Files(None, map[])
  }

  function MetaBucket(): string { ".uitstor.sys" }

  /** Parsing may depend on the bucket's name, so each bucket has its own environment. */
  type Envs = string -> Env

  ghost predicate BucketOk(envs: Envs, st: State, b: string) {
    b in st.cache ==> EntryOk(envs(b), st.cache[b], FilesOf(st.store, b))
  }

  ghost predicate Coherent(envs: Envs, st: State) {
    forall b :: BucketOk(envs, st, b)
  }

  datatype Op =
    | Update(bucket: string, config: Config, data: Bytes, ch: Choice, now: Time, nonce: int)
    | GetConfig(bucket: string, ch: Choice)
    | Remove(bucket: string)
    | Reset
    | LoadOne(bucket: string, ch: Choice)

  function StepUpdate(
    envs: Envs, st: State, bucket: string, c: Config, data: Bytes, ch: Choice, now: Time, nonce: int): State
  {
    if bucket == MetaBucket() then st
    else
      var (m, files) := UpdateFiles(envs(bucket), FilesOf(st.store, bucket), ch, c, data, now, nonce);
      Put(st, bucket, m, files)
  }

  /** The files written back, and the entry cached if there is one. */
  function Put(st: State, bucket: string, m: Option<Meta>, files: Files): State {
    State(if m.Some? then st.cache[bucket := m.value] else st.cache, st.store[bucket := files])
  }

  /** A load into the cache: concurrentLoad for one bucket. */
  function StepLoad(envs: Envs, st: State, bucket: string, ch: Choice): State {
    var (m, files) := LoadFiles(envs(bucket), FilesOf(st.store, bucket), ch);
    Put(st, bucket, m, files)
  }

  function StepLoadAll(envs: Envs, st: State, buckets: seq<string>, chs: seq<Choice>): State
    decreases |buckets|
  {
    if buckets == [] || chs == [] then st
    else StepLoadAll(envs, StepLoad(envs, st, buckets[0], chs[0]), buckets[1..], chs[1..])
  }

  function Step(envs: Envs, st: State, op: Op): State {
    match op
    case Update(b, c, data, ch, now, nonce) => StepUpdate(envs, st, b, c, data, ch, now, nonce)
    case GetConfig(b, ch) => if b == MetaBucket() || b in st.cache then st else StepLoad(envs, st, b, ch)
    case Remove(b) => st.(cache := st.cache - {b})
    case Reset => st.(cache := map[])
    case LoadOne(b, ch) => StepLoad(envs, st, b, ch)
  }

  ghost predicate AllSane(envs: Envs) {
    forall b: string :: Sane(envs(b))
  }

  /** Map orders are orders, and the clock of an update reads. */
  ghost predicate Proper(op: Op) {
    match op
    case Update(_, _, _, ch, now, _) => FullOrder(ch.order) && now != 0
    case GetConfig(_, ch) => FullOrder(ch.order)
    case LoadOne(_, ch) => FullOrder(ch.order)
    case _ => true
  }

  /** A load that fails, or whose files left behind do not matter. */
  ghost predicate CarefulLoad(env: Env, files: Files, ch: Choice) {
    LoadFiles(env, files, ch).0.None? || LoadLeftOk(env, files, ch)
  }

  /** The same of an update, which must not empty a config whose parsed form is kept either. */
  ghost predicate CarefulUpdate(env: Env, files: Files, ch: Choice, c: Config, data: Bytes, now: Time, nonce: int) {
    var l := LoadFiles(env, files, ch);
    || UpdateFiles(env, files, ch, c, data, now, nonce).0.None? || l.0.None?
    || (!KeepsOldDoc(env, l.0.value, c, data) && UpdateLeftOk(env, l.0.value, l.1.legacy, c, data, nonce))
  }

  ghost predicate Careful(envs: Envs, st: State, op: Op) {
    match op
    case Update(b, c, data, ch, now, nonce) =>
      b == MetaBucket() || CarefulUpdate(envs(b), FilesOf(st.store, b), ch, c, data, now, nonce)
    case GetConfig(b, ch) => b == MetaBucket() || b in st.cache || CarefulLoad(envs(b), FilesOf(st.store, b), ch)
    case LoadOne(b, ch) => CarefulLoad(envs(b), FilesOf(st.store, b), ch)
    case _ => true
  }

  /** A step on one bucket concerns that bucket alone. */
  lemma CoherentPut(envs: Envs, st: State, bucket: string, m: Option<Meta>, files: Files)
    requires Coherent(envs, st)
    requires m.None? && bucket in st.cache ==> EntryOk(envs(bucket), st.cache[bucket], files)
    ensures Coherent(envs, Put(st, bucket, m, files)) <==> (m.Some? ==> EntryOk(envs(bucket), m.value, files))
  {
    var st' := Put(st, bucket, m, files);
    PutHere(envs, st, bucket, m, files);
    if m.Some? ==> EntryOk(envs(bucket), m.value, files) {
      forall b ensures BucketOk(envs, st', b) {
        if b != bucket {
          assert BucketOk(envs, st, b);
          PutElsewhere(envs, st, bucket, m, files, b);
        }
      }
    } else {
      assert !BucketOk(envs, st', bucket);
    }
  }

  lemma PutHere(envs: Envs, st: State, bucket: string, m: Option<Meta>, files: Files)
    requires m.None? && bucket in st.cache ==> EntryOk(envs(bucket), st.cache[bucket], files)
    ensures BucketOk(envs, Put(st, bucket, m, files), bucket) == (m.Some? ==> EntryOk(envs(bucket), m.value, files))
  {
    var st' := Put(st, bucket, m, files);
    assert FilesOf(st'.store, bucket) == files;
    assert bucket in st'.cache <==> m.Some? || bucket in st.cache;
    assert bucket in st'.cache ==> st'.cache[bucket] == if m.Some? then m.value else st.cache[bucket];
  }

  lemma PutElsewhere(envs: Envs, st: State, bucket: string, m: Option<Meta>, files: Files, b: string)
    requires b != bucket
    ensures BucketOk(envs, Put(st, bucket, m, files), b) == BucketOk(envs, st, b)
  {
    var st' := Put(st, bucket, m, files);
    assert FilesOf(st'.store, b) == FilesOf(st.store, b);
    assert b in st'.cache <==> b in st.cache;
    assert b in st.cache ==> st'.cache[b] == st.cache[b];
  }

  lemma LoadStep(envs: Envs, st: State, bucket: string, ch: Choice)
    requires AllSane(envs) && Coherent(envs, st) && FullOrder(ch.order)
    ensures Coherent(envs, StepLoad(envs, st, bucket, ch)) <==> CarefulLoad(envs(bucket), FilesOf(st.store, bucket), ch)
  {
    var env, files := envs(bucket), FilesOf(st.store, bucket);
    if LoadFiles(env, files, ch).0.Some? { LoadIsOkExactly(env, files, ch); }
    assert BucketOk(envs, st, bucket);
    if bucket in st.cache {
      ReloadKeepsEntry(env, st.cache[bucket], files, ch);
    }
    var r := LoadFiles(env, files, ch);
    CoherentPut(envs, st, bucket, r.0, r.1);
  }

  /** An update that fails has written what its load wrote. */
  lemma FailedUpdate(env: Env, files: Files, ch: Choice, c: Config, data: Bytes, now: Time, nonce: int)
    requires UpdateFiles(env, files, ch, c, data, now, nonce).0.None?
    ensures UpdateFiles(env, files, ch, c, data, now, nonce).1 == LoadFiles(env, files, ch).1
  {
  }

  lemma UpdateStep(envs: Envs, st: State, bucket: string, c: Config, data: Bytes, ch: Choice, now: Time, nonce: int)
    requires AllSane(envs) && Coherent(envs, st) && FullOrder(ch.order) && now != 0 && bucket != MetaBucket()
    ensures Coherent(envs, StepUpdate(envs, st, bucket, c, data, ch, now, nonce))
       <==> CarefulUpdate(envs(bucket), FilesOf(st.store, bucket), ch, c, data, now, nonce)
  {
    var env, files := envs(bucket), FilesOf(st.store, bucket);
    var r := UpdateFiles(env, files, ch, c, data, now, nonce);
    UpdateIsOkExactly(env, files, ch, c, data, now, nonce);
    assert r.0.None? && bucket in st.cache ==> EntryOk(env, st.cache[bucket], r.1) by {
      if r.0.None? && bucket in st.cache {
        assert BucketOk(envs, st, bucket);
        FailedUpdate(env, files, ch, c, data, now, nonce);
        ReloadKeepsEntry(env, st.cache[bucket], files, ch);
      }
    }
    CoherentPut(envs, st, bucket, r.0, r.1);
  }

  /** From a coherent cache, a step leads to a coherent cache exactly if it is careful. */
  lemma StepKeepsCoherence(envs: Envs, st: State, op: Op)
    requires AllSane(envs) && Coherent(envs, st) && Proper(op)
    ensures Coherent(envs, Step(envs, st, op)) <==> Careful(envs, st, op)
  {
    match op
    case Update(b, c, data, ch, now, nonce) =>
      if b != MetaBucket() { UpdateStep(envs, st, b, c, data, ch, now, nonce); }
    case GetConfig(b, ch) =>
      if b != MetaBucket() && b !in st.cache { LoadStep(envs, st, b, ch); }
    case Remove(b) => ForgetKeeps(envs, st, st.cache - {b});
    case Reset => ForgetKeeps(envs, st, map[]);
    case LoadOne(b, ch) => LoadStep(envs, st, b, ch);
  }

  lemma ForgetKeeps(envs: Envs, st: State, cache: map<string, Meta>)
    requires Coherent(envs, st) && forall b :: b in cache ==> b in st.cache && cache[b] == st.cache[b]
    ensures Coherent(envs, st.(cache := cache))
  {
    forall b ensures BucketOk(envs, st.(cache := cache), b) {
      assert BucketOk(envs, st, b);
    }
  }

  function Run(envs: Envs, st: State, ops: seq<Op>): State
    decreases |ops|
  {
    if ops == [] then st else Run(envs, Step(envs, st, ops[0]), ops[1..])
  }

  ghost predicate CarefulRun(envs: Envs, st: State, ops: seq<Op>)
    decreases |ops|
  {
    ops == [] || (Careful(envs, st, ops[0]) && CarefulRun(envs, Step(envs, st, ops[0]), ops[1..]))
  }

  /** The cache is coherent before every step of the run and at its end. */
  ghost predicate AlwaysCoherent(envs: Envs, st: State, ops: seq<Op>)
    decreases |ops|
  {
    Coherent(envs, st) && (ops == [] || AlwaysCoherent(envs, Step(envs, st, ops[0]), ops[1..]))
  }

  /** Over a run, the cache is coherent all along exactly if every step is careful. */
  lemma {:induction false} CoherentExactly(envs: Envs, st: State, ops: seq<Op>)
    requires AllSane(envs) && Coherent(envs, st) && forall i :: 0 <= i < |ops| ==> Proper(ops[i])
    ensures AlwaysCoherent(envs, st, ops) <==> CarefulRun(envs, st, ops)
    ensures CarefulRun(envs, st, ops) ==> Coherent(envs, Run(envs, st, ops))
    decreases |ops|
  {
    if ops != [] {
      StepKeepsCoherence(envs, st, ops[0]);
      if Careful(envs, st, ops[0]) {
        CoherentExactly(envs, Step(envs, st, ops[0]), ops[1..]);
      }
    }
  }

  /**
   Cache coherence: from an empty cache over any store, after every careful run, a reload of a cached
   bucket that can be read succeeds and gives the cached entry, up to the creation time of a bucket
   that has no stored file.
   */
  lemma CacheIsWhatReloadGives(envs: Envs, st: State, ops: seq<Op>, bucket: string, ch: Choice)
    requires AllSane(envs) && st.cache == map[] && forall i :: 0 <= i < |ops| ==> Proper(ops[i])
    requires CarefulRun(envs, st, ops) && bucket in Run(envs, st, ops).cache
    requires ch.readable && FullOrder(ch.order)
    ensures var end := Run(envs, st, ops);
            var files := FilesOf(end.store, bucket);
            var m := LoadFiles(envs(bucket), files, ch).0;
            && m.Some? && m.value.docs == end.cache[bucket].docs
            && (files.meta.Some? ==> m.value == end.cache[bucket])
            && (files.meta.None? ==>
                  && m.value.raw == DefaultTimes(NewRaw(ch.now))
                  && end.cache[bucket].raw == DefaultTimes(NewRaw(end.cache[bucket].raw.created)))
  {
    CoherentExactly(envs, st, ops);
    var end := Run(envs, st, ops);
    assert BucketOk(envs, end, bucket);
    ReloadGivesEntry(envs(bucket), end.cache[bucket], FilesOf(end.store, bucket), ch);
  }

  // ---------- legacy files that could not be deleted ----------

  /** The lock config that a load shows is the one its walk ended with. */
  lemma LoadedLock(env: Env, files: Files, ch: Choice, walk: seq<Legacy>, lock: Bytes)
    requires files.meta.Some? && !files.meta.value.lockEnabled && files.legacy != map[] && ch.readable
    requires IsWalk(walk, files.legacy) && Walk(ch.order, files.legacy) == walk
    requires ApplyOrder(env, files.meta.value, walk, files.legacy).configs[ObjectLock] == lock
    ensures var m := LoadFiles(env, files, ch).0;
            m.None? || m.value.raw.configs[ObjectLock] == lock
  {
    var raw := files.meta.value;
    assert Collect(env, raw, files.legacy) == files.legacy && raw.(lockEnabled := false) == raw;
    var merged := ApplyOrder(env, raw, walk, files.legacy);
    var q := ParseAll(env, merged, DefaultDocs(env));
    if q.Some? && LoadFiles(env, files, ch).0.Some? {
      ParsedRaw(env, merged, DefaultDocs(env), q.value);
      FixedAt(env, merged, ObjectLock);
      LoadFromConverted(env, files, ch.now, ch.nonce, walk, ch.undeleted, q.value);
      MigrateKeepsConfig(env, q.value, Files(Some(q.value.raw), map[]), ch.nonce, ObjectLock);
    }
  }

  /** Conflicting lock files left behind: some order of the map makes a reload differ from the entry. */
  lemma ConflictBreaksReload(env: Env, m: Meta, files: Files) returns (ch: Choice)
    requires files.meta.Some? && !files.meta.value.lockEnabled && LockConflict(env, files.legacy)
    ensures ch.readable && FullOrder(ch.order) && LoadFiles(env, files, ch).0 != Some(m)
  {
    var a, b, left := LockEnabledFile, ConfigFile(ObjectLock), files.legacy;
    var rest := SomeWalk(left.Keys - {a, b});
    assert forall i :: 0 <= i < |rest| ==> rest[i] in rest;
    var lastEnabled := m.raw.configs[ObjectLock] == left[b];
    var x, y := if lastEnabled then b else a, if lastEnabled then a else b;
    WalkThenPair(rest, x, y, left);
    var walk := rest + [x, y];
    var order := WalkHasOrder(walk, left);
    ch := Choice(0, 0, order, {}, true);
    if lastEnabled {
      EndsWithEnabledFile(env, files.meta.value, rest, left);
      LoadedLock(env, files, ch, walk, env.enabledLock);
    } else {
      EndsWithConfigFile(env, files.meta.value, rest, left);
      LoadedLock(env, files, ch, walk, left[b]);
    }
  }

  /** Every reload that can be read gives the entry. */
  ghost predicate Reproduced(env: Env, m: Meta, files: Files) {
    forall ch: Choice :: ch.readable && FullOrder(ch.order) ==> LoadFiles(env, files, ch).0 == Some(m)
  }

  /**
   The exact condition, conflicts included: beside a stored file that gives the entry, every reload
   gives the entry if and only if the files left behind were absorbed into it.
   */
  lemma ReproducedExactly(env: Env, m: Meta, files: Files)
    requires Sane(env) && files.meta.Some? && StoredOk(env, m, files.meta.value)
    ensures Reproduced(env, m, files) <==> Absorbed(env, m.raw, files.legacy)
  {
    if Absorbed(env, m.raw, files.legacy) {
      forall ch: Choice | ch.readable && FullOrder(ch.order) ensures LoadFiles(env, files, ch).0 == Some(m) {
        AbsorbedReload(env, m, files, ch);
      }
    } else if LockConflict(env, files.legacy) {
      var ch := ConflictBreaksReload(env, m, files);
    } else {
      var walk := SomeWalk(files.legacy.Keys);
      assert IsWalk(walk, files.legacy);
      var order := WalkHasOrder(walk, files.legacy);
      var ch := Choice(0, 0, order, {}, true);
      ReloadExactly(env, m, files, ch);
    }
  }

  /** A legacy file that is still there decides its config on every load. */
  lemma LegacyFileWins(env: Env, files: Files, ch: Choice, c: FileConfig)
    requires files.meta.Some? && !files.meta.value.lockEnabled && FullOrder(ch.order)
    requires c != Targets && ConfigFile(c) in files.legacy && !LockConflict(env, files.legacy)
    requires LoadFiles(env, files, ch).0.Some?
    ensures LoadFiles(env, files, ch).0.value.raw.configs[c] == files.legacy[ConfigFile(c)]
  {
    var raw := files.meta.value;
    ConvertMerges(env, files, raw, ch);
    var merged := Merged(env, raw, files.legacy);
    var q := ParseAll(env, merged, DefaultDocs(env)).value;
    ParsedRaw(env, merged, DefaultDocs(env), q);
    SameMergeFile(env, raw, files.legacy, c);
    var files1 := Convert(env, files, raw, WalkOf(env, files, ch), ch.undeleted).1;
    MigrateKeepsConfig(env, q, files1, ch.nonce, c);
  }

  /**
   The update that fails to stick: it succeeds and caches the new data, while a legacy file of the same
   config, whose deletion failed, makes every reload give the old data or fail.
   */
  lemma UpdateLosesToLegacyFile(
    env: Env, files: Files, ch: Choice, c: FileConfig, data: Bytes, now: Time, nonce: int, later: Choice)
    requires Sane(env) && c != Targets && FullOrder(later.order)
    requires UpdateFiles(env, files, ch, c, data, now, nonce).0.Some?
    requires var left := UpdateFiles(env, files, ch, c, data, now, nonce).1.legacy;
             ConfigFile(c) in left && left[ConfigFile(c)] != data && !LockConflict(env, left)
    ensures var r := UpdateFiles(env, files, ch, c, data, now, nonce);
            var again := LoadFiles(env, r.1, later).0;
            && r.0.value.raw.configs[c] == data
            && (again.None? || again.value.raw.configs[c] == r.1.legacy[ConfigFile(c)] != data)
            && again != r.0
  {
    var l := LoadFiles(env, files, ch);
    var r := UpdateFiles(env, files, ch, c, data, now, nonce);
    assert !l.0.value.raw.lockEnabled by {
      LoadGives(env, files, ch);
      OkIsLoaded(env, l.0.value, l.1);
    }
    SavedShows(env, l.0.value, l.1, c, data, now, nonce);
    if LoadFiles(env, r.1, later).0.Some? {
      LegacyFileWins(env, r.1, later, c);
    }
  }

  /** What a saved update shows: the new data, and the lock flag as it was. */
  lemma SavedShows(env: Env, m: Meta, files: Files, c: FileConfig, data: Bytes, now: Time, nonce: int)
    requires c != Targets && SaveConfig(env, m, files, c, data, now, nonce).0.Some?
    ensures var r := SaveConfig(env, m, files, c, data, now, nonce);
            && r.0.value.raw.configs[c] == data && r.0.value.raw.lockEnabled == m.raw.lockEnabled
            && r.1 == files.(meta := Some(r.0.value.raw))
  {
    var r := SaveConfig(env, m, files, c, data, now, nonce);
    var raw := SetConfig(env, m.raw, c, data, now, nonce).value;
    SetConfigAt(env, m.raw, c, data, now, nonce, c);
    SetConfigKeepsLock(env, m.raw, c, data, now, nonce, raw);
    ParsedRaw(env, raw, m.docs, r.0.value);
    FixedAt(env, raw, c);
  }

  lemma MigrateKeepsConfig(env: Env, m: Meta, files: Files, nonce: int, c: Config)
    requires c != Targets && c != Versioning && MigrateTargets(env, m, files, nonce).0.Some?
    ensures MigrateTargets(env, m, files, nonce).0.value.raw.configs[c] == m.raw.configs[c]
  {
    if !TargetsSettled(env, m.raw) {
      var e := env.encrypt(m.raw.configs[Targets], nonce).value;
      var raw := PutTargets(m.raw, e.0, e.1);
      PutAt(m.raw.configs, Targets, e.0, c);
      FixedAt(env, raw, c);
    }
  }

  // ---------- parsers that accept everything ----------

  /** No KMS, and every config parses. */
  ghost predicate Lenient(env: Env) {
    && !env.kms && (forall c, data :: env.parse(c, data).Some?)
    && (forall data, mark :: env.parseTargets(data, mark).Some?)
  }

  lemma LenientParses(env: Env, raw: Raw, docs: Docs)
    requires Lenient(env)
    ensures ParseAll(env, raw, docs).Some?
  {
    var r := FixVersioning(env, raw);
    forall c: Config ensures ParseOne(env, r, c, docs[c]).Parsed? { }
  }

  /** A stored file without legacy files loads, and shows its lock config. */
  lemma LenientLoads(env: Env, files: Files, raw: Raw, ch: Choice)
    requires Lenient(env) && files == Files(Some(raw), map[]) && !raw.lockEnabled && ch.readable
    ensures var r := LoadFiles(env, files, ch);
            r.0.Some? && r.1 == files && r.0.value.raw.configs[ObjectLock] == raw.configs[ObjectLock]
  {
    NothingCollected(env, raw, files.legacy);
    LenientParses(env, raw, DefaultDocs(env));
    var m := ParseAll(env, raw, DefaultDocs(env)).value;
    ParsedRaw(env, raw, DefaultDocs(env), m);
    FixedAt(env, raw, ObjectLock);
    TimesKeepConfigs(m);
  }

  lemma LenientSaves(env: Env, m: Meta, files: Files, c: Config, data: Bytes, now: Time, nonce: int)
    requires Lenient(env)
    ensures SaveConfig(env, m, files, c, data, now, nonce).0.Some?
  {
    var r := SetConfig(env, m.raw, c, data, now, nonce);
    LenientParses(env, r.value, m.docs);
  }

  /** A load that finds legacy files succeeds and leaves those whose deletion fails. */
  lemma LenientLeaves(env: Env, files: Files, ch: Choice)
    requires Lenient(env) && ch.readable && files.legacy != map[]
    ensures var r := LoadFiles(env, files, ch);
            r.0.Some? && r.1.legacy == Remaining(files.legacy, ch.undeleted)
  {
    var base := Base(files, ch.now);
    NothingCollected(env, base, files.legacy);
    var configs := Collect(env, base, files.legacy);
    LenientParses(env, ApplyOrder(env, base.(lockEnabled := false), WalkOf(env, files, ch), configs), DefaultDocs(env));
  }

  /**
   The failing input: where every config parses, an update beside a legacy file of the same config with
   other data, whose deletion fails, succeeds, and its entry is not what any reload gives.
   */
  lemma FailedDeletionBreaksCoherence(
    env: Env, files: Files, ch: Choice, c: FileConfig, data: Bytes, now: Time, nonce: int, later: Choice)
    requires Sane(env) && Lenient(env) && ch.readable && FullOrder(later.order) && c != Targets
    requires ConfigFile(c) in files.legacy && files.legacy[ConfigFile(c)] != data && ch.undeleted == {ConfigFile(c)}
    ensures var r := UpdateFiles(env, files, ch, c, data, now, nonce);
            r.0.Some? && !EntryOk(env, r.0.value, r.1) && LoadFiles(env, r.1, later).0 != r.0
  {
    var m, left := LenientUpdates(env, files, ch, c, data, now, nonce);
    OneFileLeft(env, files.legacy, ch.undeleted, c);
    UpdateLosesToLegacyFile(env, files, ch, c, data, now, nonce, later);
    NotAbsorbed(env, m.raw, left.legacy, c);
  }

  lemma OneFileLeft(env: Env, legacy: map<Legacy, Bytes>, undeleted: set<Legacy>, c: FileConfig)
    requires ConfigFile(c) in legacy && undeleted == {ConfigFile(c)}
    ensures var left := Remaining(legacy, undeleted);
            ConfigFile(c) in left && left[ConfigFile(c)] == legacy[ConfigFile(c)] && !LockConflict(env, left)
  {
    assert LockEnabledFile !in Remaining(legacy, undeleted);
  }

  lemma LenientUpdates(env: Env, files: Files, ch: Choice, c: Config, data: Bytes, now: Time, nonce: int)
    returns (m: Meta, left: Files)
    requires Lenient(env) && ch.readable && files.legacy != map[]
    ensures UpdateFiles(env, files, ch, c, data, now, nonce) == (Some(m), left)
    ensures left.legacy == Remaining(files.legacy, ch.undeleted)
  {
    LenientLeaves(env, files, ch);
    var l := LoadFiles(env, files, ch);
    LenientSaves(env, l.0.value, l.1, c, data, now, nonce);
    var r := SaveConfig(env, l.0.value, l.1, c, data, now, nonce);
    m, left := r.0.value, r.1;
  }

  lemma NotAbsorbed(env: Env, raw: Raw, legacy: map<Legacy, Bytes>, c: FileConfig)
    requires ConfigFile(c) in legacy && raw.configs[c] != legacy[ConfigFile(c)]
    ensures !Absorbed(env, raw, legacy)
  {
  }

  // ---------- the code ----------

  datatype Failure = InvalidArgument | NotSaved

  class Sys {
    const envs: Envs
    var metadataMap: map<string, Meta>
    var store: map<string, Files>

    constructor (envs: Envs, store: map<string, Files>)
      ensures this.envs == envs && Abstract() == State(map[], store)
    {
      this.envs, this.metadataMap, this.store := envs, map[], store;
    }

    ghost function Abstract(): State
      reads this
    {
      State(metadataMap, store)
    }

    /** loadBucketMetadata on a bucket's files. */
    method LoadBucketMetadata(bucket: string, ch: Choice) returns (ok: bool, b: Bucket)
      requires FullOrder(ch.order)
      ensures fresh(b)
      ensures var r := LoadFiles(envs(bucket), FilesOf(store, bucket), ch);
              b.files == r.1 && (ok <==> r.0.Some?) && (ok ==> Meta(b.raw, b.docs) == r.0.value)
    {
      b := new Bucket(envs(bucket), ch.now, FilesOf(store, bucket));
      ok := b.LoadBucketMetadata(envs(bucket), ch.now, ch.nonce, ch.order, ch.undeleted, ch.readable);
    }

    /** Set: cached but not persisted. */
    method Set(bucket: string, meta: Meta)
      modifies this`metadataMap
      ensures metadataMap == if bucket == MetaBucket() then old(metadataMap) else old(metadataMap)[bucket := meta]
    {
      if bucket != MetaBucket() {
        metadataMap := metadataMap[bucket := meta];
      }
    }

    method Update(bucket: string, c: Config, data: Bytes, ch: Choice, now: Time, nonce: int) returns (r: Result<Time, Failure>)
      requires FullOrder(ch.order)
      modifies this
      ensures Abstract() == StepUpdate(envs, old(Abstract()), bucket, c, data, ch, now, nonce)
      ensures r == if bucket == MetaBucket() then Err(InvalidArgument)
                   else if UpdateFiles(envs(bucket), FilesOf(old(store), bucket), ch, c, data, now, nonce).0.Some? then Ok(now)
                   else Err(NotSaved)
      ensures r.Ok? ==>
                var (l, left) := LoadFiles(envs(bucket), FilesOf(old(store), bucket), ch);
                && r.value == now && l.Some? && bucket in metadataMap
                && FilesOf(store, bucket) == Files(Some(metadataMap[bucket].raw), left.legacy)
                && TimesUpdated(l.value.raw, metadataMap[bucket].raw, c, now)
                && ConfigsUpdated(envs(bucket), l.value.raw, metadataMap[bucket].raw, c, data, nonce)
    {
      if bucket == MetaBucket() {
        return Err(InvalidArgument);
      }
      var ok, b := LoadAndSave(bucket, c, data, ch, now, nonce);
      store := store[bucket := b.files];
      if !ok {
        return Err(NotSaved);
      }
      UpdateExactly(envs(bucket), FilesOf(old(store), bucket), ch, c, data, now, nonce);
      Set(bucket, Meta(b.raw, b.docs));
      return Ok(now);
    }

    method LoadAndSave(bucket: string, c: Config, data: Bytes, ch: Choice, now: Time, nonce: int) returns (ok: bool, b: Bucket)
      requires FullOrder(ch.order)
      ensures var r := UpdateFiles(envs(bucket), FilesOf(store, bucket), ch, c, data, now, nonce);
              b.files == r.1 && (ok <==> r.0.Some?) && (ok ==> Meta(b.raw, b.docs) == r.0.value)
    {
      ok, b := LoadBucketMetadata(bucket, ch);
      if ok {
        ok := SaveUpdated(envs(bucket), b, c, data, now, nonce);
      }
    }

    /** The config replaced in the loaded metadata, and the metadata saved. */
    method SaveUpdated(env: Env, b: Bucket, c: Config, data: Bytes, now: Time, nonce: int) returns (ok: bool)
      modifies b
      ensures var s := SaveConfig(env, Meta(old(b.raw), old(b.docs)), old(b.files), c, data, now, nonce);
              b.files == s.1 && (ok <==> s.0.Some?) && (ok ==> Meta(b.raw, b.docs) == s.0.value)
    {
      var raw := SetConfig(env, b.raw, c, data, now, nonce);
      if raw.None? {
        return false;
      }
      b.raw := raw.value;
      ok := b.Save(env);
    }

    method Get(bucket: string) returns (m: Option<Meta>)
      ensures m == if bucket != MetaBucket() && bucket in metadataMap then Some(metadataMap[bucket]) else None
    {
      if bucket == MetaBucket() || bucket !in metadataMap {
        return None;
      }
      return Some(metadataMap[bucket]);
    }

    /** GetConfig: from the cache, or loaded and cached. */
    method GetConfig(bucket: string, ch: Choice) returns (m: Option<Meta>)
      requires FullOrder(ch.order)
      modifies this
      ensures Abstract() == Step(envs, old(Abstract()), Op.GetConfig(bucket, ch))
      ensures bucket == MetaBucket() ==> m.None?
      ensures bucket != MetaBucket() ==>
        m == if bucket in metadataMap then Some(metadataMap[bucket]) else None
      ensures bucket == MetaBucket() || bucket in old(metadataMap) ==> metadataMap == old(metadataMap) && store == old(store)
      ensures bucket != MetaBucket() && bucket !in old(metadataMap) ==>
                var (l, left) := LoadFiles(envs(bucket), FilesOf(old(store), bucket), ch);
                && m == l && store == old(store)[bucket := left]
                && metadataMap == if l.Some? then old(metadataMap)[bucket := l.value] else old(metadataMap)
    {
      if bucket == MetaBucket() {
        return None;
      }
      if bucket in metadataMap {
        return Some(metadataMap[bucket]);
      }
      var ok, b := LoadBucketMetadata(bucket, ch);
      store := store[bucket := b.files];
      if !ok {
        return None;
      }
      m := Some(Meta(b.raw, b.docs));
      metadataMap := metadataMap[bucket := m.value];
    }

    method Remove(bucket: string)
      modifies this`metadataMap
      ensures Abstract() == Step(envs, old(Abstract()), Op.Remove(bucket))
      ensures metadataMap == old(metadataMap) - {bucket}
    {
      metadataMap := metadataMap - {bucket};
    }

    method Reset()
      modifies this`metadataMap
      ensures Abstract() == Step(envs, old(Abstract()), Op.Reset)
      ensures metadataMap == map[]
    {
      var keys := metadataMap.Keys;
      while keys != {}
        invariant keys == metadataMap.Keys
        decreases |keys|
      {
        var k :| k in keys;
        metadataMap := metadataMap - {k};
        keys := keys - {k};
      }
      assert metadataMap == map[];
    }

    /** concurrentLoad, one bucket after the other. */
    method ConcurrentLoad(buckets: seq<string>, chs: seq<Choice>)
      requires |chs| == |buckets| && forall i :: 0 <= i < |chs| ==> FullOrder(chs[i].order)
      modifies this
      ensures Abstract() == StepLoadAll(envs, old(Abstract()), buckets, chs)
    {
      var i := 0;
      while i < |buckets|
        invariant 0 <= i <= |buckets|
        invariant StepLoadAll(envs, Abstract(), buckets[i..], chs[i..]) == StepLoadAll(envs, old(Abstract()), buckets, chs)
      {
        assert buckets[i..][1..] == buckets[i + 1..] && chs[i..][1..] == chs[i + 1..];
        var ok, b := LoadBucketMetadata(buckets[i], chs[i]);
        store := store[buckets[i] := b.files];
        if ok {
          metadataMap := metadataMap[buckets[i] := Meta(b.raw, b.docs)];
        }
        i := i + 1;
      }
    }

    /** load: batches of a hundred until fewer are left. */
    method Load(buckets: seq<string>, chs: seq<Choice>)
      requires |chs| == |buckets| && forall i :: 0 <= i < |chs| ==> FullOrder(chs[i].order)
      modifies this
      ensures Abstract() == StepLoadAll(envs, old(Abstract()), buckets, chs)
    {
      var rest, restChs := buckets, chs;
      while |rest| >= 100
        invariant |restChs| == |rest| && forall i :: 0 <= i < |restChs| ==> FullOrder(restChs[i].order)
        invariant StepLoadAll(envs, Abstract(), rest, restChs) == StepLoadAll(envs, old(Abstract()), buckets, chs)
        decreases |rest|
      {
        LoadAllSplit(envs, Abstract(), rest, restChs, 100);
        ConcurrentLoad(rest[..100], restChs[..100]);
        rest, restChs := rest[100..], restChs[100..];
      }
      ConcurrentLoad(rest, restChs);
    }
  }

  lemma TailOfParts<T>(s: seq<T>, n: nat)
    requires 0 < n <= |s|
    ensures s[1..][..n - 1] == s[..n][1..] && s[1..][n - 1..] == s[n..]
  {
  }

  lemma {:induction false} LoadAllSplit(envs: Envs, st: State, buckets: seq<string>, chs: seq<Choice>, n: nat)
    requires |chs| == |buckets| && n <= |buckets|
    ensures StepLoadAll(envs, st, buckets, chs)
         == StepLoadAll(envs, StepLoadAll(envs, st, buckets[..n], chs[..n]), buckets[n..], chs[n..])
    decreases n
  {
    if n == 0 {
      assert buckets[0..] == buckets && chs[0..] == chs;
    } else {
      var st' := StepLoad(envs, st, buckets[0], chs[0]);
      calc {
        StepLoadAll(envs, st, buckets, chs);
        StepLoadAll(envs, st', buckets[1..], chs[1..]);
        { LoadAllSplit(envs, st', buckets[1..], chs[1..], n - 1); TailOfParts(buckets, n); TailOfParts(chs, n); }
        StepLoadAll(envs, StepLoadAll(envs, st', buckets[..n][1..], chs[..n][1..]), buckets[n..], chs[n..]);
        StepLoadAll(envs, StepLoadAll(envs, st, buckets[..n], chs[..n]), buckets[n..], chs[n..]);
      }
    }
  }
}
