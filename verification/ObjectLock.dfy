/**
 Object-lock (WORM) enforcement on one object version (cmd/bucket-object-lock.go) of a lock-enabled
 bucket.  Every request that can change or remove the version is a step; IAM answers are arbitrary
 and the clock may fail.
 */
module ObjectLock {
  import opened Prelude

  // ---------- data ----------

  /** Nanoseconds since the epoch. */
  type Time = int

  const SECOND: int := 1_000_000_000
  const MILLISECOND: int := 1_000_000

  /** The zero time, 1 January of year 1. */
  const ZERO_TIME: Time := -62135596800 * SECOND

  /**
   1 January of year 10000.  Dates are stored as text, and from here on the text has five digits for the
   year and cannot be read back.
   */
  const FAR: Time := 253402300800 * SECOND

  datatype RetMode = NoMode | Governance | Compliance {
    predicate Valid() { this != NoMode }
  }

  datatype LegalHold = NoHold | HoldOn | HoldOff

  datatype Retention = Retention(mode: RetMode, until: Time)

  function NoRetention(): Retention { Retention(NoMode, ZERO_TIME) }

  /** A stored version; `content` stands for its data. */
  datatype Version = Version(content: int, deleteMarker: bool, retention: Retention, hold: LegalHold)

  /** Dates are stored as text: PutObjectRetention writes whole seconds, PutObject whole milliseconds. */
  function Truncate(t: Time, unit: int): Time
    requires unit > 0
  {
    t - t % unit
  }

  // ---------- decisions ----------

  datatype ErrorCode =
    | ErrNone
    | ErrObjectLocked
    | ErrAccessDenied
    | ErrInvalidLockConfig
    | ErrMalformed
    | ErrLookup

  /** enforceRetentionForDeletion: may lifecycle remove the version? */
  predicate LockedForLifecycle(v: Version, clock: Option<Time>) {
    if v.deleteMarker then false
    else if v.hold == HoldOn then true
    else if v.retention.mode == Compliance || v.retention.mode == Governance then
      clock.None? || v.retention.until > clock.value
    else false
  }

  /** What GetObjectInfo answered before a delete or an overwrite. */
  datatype Lookup =
    | Found(info: Version)
    | Missing
    | NotAllowed(markerOrPurge: bool)
    | LookupFailed

  /** enforceRetentionBypassForDelete. */
  function DeleteDecision(
    lookup: Lookup, bypass: bool, mayBypass: bool, mayGetConfig: bool, clock: Option<Time>): ErrorCode
  {
    match lookup
    case Missing => ErrNone
    case NotAllowed(markerOrPurge) => if markerOrPurge then ErrNone else ErrLookup
    case LookupFailed => ErrLookup
    case Found(v) =>
      if v.hold == HoldOn then ErrObjectLocked
      else match v.retention.mode
        case NoMode => ErrNone
        case Compliance =>
          if clock.None? || !(v.retention.until < clock.value) then ErrObjectLocked else ErrNone
        case Governance =>
          if !bypass then
            if clock.None? || !(v.retention.until < clock.value) then ErrObjectLocked else ErrNone
          else if !mayBypass && !mayGetConfig then ErrAccessDenied
          else ErrNone
  }

  /** ParseObjectRetention: the request body must be consistent and not in the past. */
  predicate ParsesRetention(r: Retention, clock: Option<Time>) {
    && (r.mode.Valid() <==> r.until != ZERO_TIME)
    && clock.Some?
    && (r.until != ZERO_TIME ==> r.until >= clock.value)
  }

  /** enforceRetentionBypassForPut; `allowed` is the IAM answer. */
  function PutRetentionDecision(
    v: Version, r: Retention, bypass: bool, allowed: bool, clock: Option<Time>): ErrorCode
  {
    var perm := if allowed then ErrNone else ErrAccessDenied;
    if clock.None? then ErrObjectLocked
    else if !v.retention.mode.Valid() then perm
    else if v.retention.until < clock.value then perm
    else if v.retention.mode == Governance then
      if !bypass && (r.mode != Governance || r.until < v.retention.until) then ErrObjectLocked else perm
    else
      if r.mode != Compliance || r.until < v.retention.until then ErrObjectLocked else perm
  }

  /** The object-lock headers of a PUT: absent, unparsable, or a value. */
  datatype Header<T> = Absent | Bad | Given(value: T)

  /** Bucket configuration: lock enabled, default mode and validity (0 when there is no default rule). */
  datatype LockConfig = LockConfig(enabled: bool, mode: RetMode, validity: nat)

  datatype PutRequest = PutRequest(
    content: int,
    explicitVersion: bool,
    replica: bool,
    hold: Header<LegalHold>,
    retention: Header<Retention>,
    mayPutRetention: bool)

  /** Retention and hold of the new object, or the refusal. */
  datatype PutOutcome = Refused(code: ErrorCode) | Accepted(retention: Retention, hold: LegalHold)

  /** The version checkPutObjectLockAllowed inspects: only with an explicit id, not for replicas, and only if found. */
  function Inspected(req: PutRequest, lookup: Lookup): Option<Version> {
    if req.explicitVersion && !req.replica && lookup.Found? then Some(lookup.info) else None
  }

  /** Whether the inspected version blocks the overwrite. */
  predicate BlocksOverwrite(prior: Option<Version>, clock: Option<Time>) {
    prior.Some? &&
    (clock.None?
     || (prior.value.retention.mode == Compliance && prior.value.retention.until > clock.value)
     || prior.value.hold == HoldOn)
  }

  /** Whether the headers themselves are refused.  A malformed legal-hold header is not: its error is dropped. */
  predicate HeadersRefused(req: PutRequest, cfg: LockConfig, clock: Option<Time>) {
    && req.hold != Bad
    && match req.retention
       case Bad => true
       case Given(_) => !req.mayPutRetention
       case Absent => !req.replica && cfg.validity > 0 && (!req.mayPutRetention || clock.None?)
  }

  function PriorRetention(prior: Option<Version>): Retention {
    if prior.Some? then prior.value.retention else NoRetention()
  }

  /** The retention of an accepted object. */
  function PutRetention(prior: Option<Version>, req: PutRequest, cfg: LockConfig, clock: Option<Time>): Retention {
    if req.hold == Bad then PriorRetention(prior)
    else if req.retention.Given? then req.retention.value
    else if req.replica then NoRetention()
    else if cfg.validity > 0 then
      if req.hold == Absent && clock.Some? then Retention(cfg.mode, clock.value + cfg.validity) else NoRetention()
    else PriorRetention(prior)
  }

  /** The hold that the accepted object gets: the header, or what an overwritten version carried. */
  function PutHold(prior: Option<Version>, req: PutRequest): LegalHold {
    if req.hold.Given? then req.hold.value
    else if req.hold == Absent && req.retention == Absent && prior.Some? then prior.value.hold
    else NoHold
  }

  /** What a PUT to a lock-enabled bucket comes to. */
  function PutDecision(cfg: LockConfig, req: PutRequest, lookup: Lookup, clock: Option<Time>): PutOutcome {
    var prior := Inspected(req, lookup);
    if BlocksOverwrite(prior, clock) then Refused(ErrObjectLocked)
    else if HeadersRefused(req, cfg, clock) then
      Refused(if req.retention == Bad then ErrMalformed
              else if !req.mayPutRetention then ErrAccessDenied else ErrObjectLocked)
    else Accepted(PutRetention(prior, req, cfg, clock), PutHold(prior, req))
  }

  /** The same for any bucket: without object lock, headers are refused and nothing is checked. */
  function PutOutcomeFor(cfg: LockConfig, req: PutRequest, lookup: Lookup, clock: Option<Time>): PutOutcome {
    if cfg.enabled then PutDecision(cfg, req, lookup, clock)
    else if req.hold == Absent && req.retention == Absent then Accepted(NoRetention(), NoHold)
    else Refused(ErrInvalidLockConfig)
  }

  /** checkPutObjectLockAllowed. */
  method CheckPutObjectLockAllowed(cfg: LockConfig, req: PutRequest, lookup: Lookup, clock: Option<Time>)
    returns (r: PutOutcome)
    ensures r == PutOutcomeFor(cfg, req, lookup, clock)
    ensures cfg.enabled && req.explicitVersion && !req.replica && lookup.Found? && lookup.info.hold == HoldOn ==>
              r == Refused(ErrObjectLocked)
    ensures cfg.enabled && req.retention.Given? && req.hold != Bad && r.Accepted? ==> r.retention == req.retention.value
    ensures cfg.enabled && cfg.validity > 0 && req.retention == Absent && req.hold == Absent && !req.replica && r.Accepted? ==>
              clock.Some? && r.retention.mode == cfg.mode && r.retention.until == clock.value + cfg.validity
  {
    var mode, until, hold := NoMode, ZERO_TIME, NoHold;
    if !cfg.enabled {
      if req.hold != Absent || req.retention != Absent {
        return Refused(ErrInvalidLockConfig);
      }
      return Accepted(Retention(mode, until), hold);
    }
    if req.explicitVersion && !req.replica {
      if lookup.Found? {
        var v := lookup.info;
        if clock.None? {
          return Refused(ErrObjectLocked);
        }
        if v.retention.mode == Compliance && v.retention.until > clock.value {
          return Refused(ErrObjectLocked);
        }
        mode, until, hold := v.retention.mode, v.retention.until, v.hold;
        if hold == HoldOn {
          return Refused(ErrObjectLocked);
        }
      }
    }
    if req.hold != Absent {
      if req.hold == Bad {
        // The parse error is lost: the caller sees success and no hold.
        return Accepted(Retention(mode, until), NoHold);
      }
      hold := req.hold.value;
    }
    if req.retention != Absent {
      var newHold := if req.hold.Given? then req.hold.value else NoHold;
      if req.retention == Bad {
        return Refused(ErrMalformed);
      }
      if !req.mayPutRetention {
        return Refused(ErrAccessDenied);
      }
      return Accepted(req.retention.value, newHold);
    }
    if req.replica {
      return Accepted(NoRetention(), hold);
    }
    if cfg.validity > 0 {
      if !req.mayPutRetention {
        return Refused(ErrAccessDenied);
      }
      if clock.None? {
        return Refused(ErrObjectLocked);
      }
      if req.hold == Absent {
        return Accepted(Retention(cfg.mode, clock.value + cfg.validity), hold);
      }
      return Accepted(NoRetention(), hold);
    }
    return Accepted(Retention(mode, until), hold);
  }

  // ---------- what a PUT is granted, field by field ----------

  /** Which overwrites the stored version blocks: an explicit version under hold, in unexpired compliance, or beside a failed clock. */
  lemma OverwriteBlockedExactly(cfg: LockConfig, req: PutRequest, lookup: Lookup, clock: Option<Time>)
    requires cfg.enabled && req.mayPutRetention && req.hold == Absent && req.retention == Absent && cfg.validity == 0
    ensures PutOutcomeFor(cfg, req, lookup, clock).Refused? <==>
            && req.explicitVersion && !req.replica && lookup.Found?
            && (clock.None? || lookup.info.hold == HoldOn
                || (lookup.info.retention.mode == Compliance && clock.value < lookup.info.retention.until))
  {
  }

  /** A new version under a default rule is retained in the rule's mode, for the rule's time from now. */
  lemma DefaultRuleGrants(cfg: LockConfig, req: PutRequest, lookup: Lookup, clock: Option<Time>)
    requires cfg.enabled && cfg.validity > 0 && req.hold == Absent && req.retention == Absent && !req.replica
    requires !req.explicitVersion || !lookup.Found?
    ensures var r := PutOutcomeFor(cfg, req, lookup, clock);
            && (r.Accepted? <==> req.mayPutRetention && clock.Some?)
            && (r.Accepted? ==>
                  && r.retention.mode == cfg.mode && r.retention.until - clock.value == cfg.validity
                  && r.hold == NoHold)
            && (!req.mayPutRetention ==> r == Refused(ErrAccessDenied))
            && (req.mayPutRetention && clock.None? ==> r == Refused(ErrObjectLocked))
  {
  }

  /** A retention header is granted as it is, with the hold of its own header, to whoever may set it. */
  lemma HeaderGrants(cfg: LockConfig, req: PutRequest, lookup: Lookup, clock: Option<Time>, asked: Retention)
    requires cfg.enabled && req.retention == Given(asked) && req.hold != Bad
    requires !req.explicitVersion || req.replica || !lookup.Found?
    ensures var r := PutOutcomeFor(cfg, req, lookup, clock);
            && (req.mayPutRetention ==> r.Accepted? && r.retention == asked)
            && (!req.mayPutRetention ==> r == Refused(ErrAccessDenied))
            && (r.Accepted? && req.hold.Given? ==> r.hold == req.hold.value)
            && (r.Accepted? && req.hold == Absent ==> r.hold == NoHold)
  {
  }

  /** An accepted overwrite without headers and default rule keeps the retention and the hold of what it overwrites. */
  lemma OverwriteKeeps(cfg: LockConfig, req: PutRequest, v: Version, clock: Option<Time>)
    requires cfg.enabled && cfg.validity == 0 && req.hold == Absent && req.retention == Absent
    requires req.explicitVersion && !req.replica && PutOutcomeFor(cfg, req, Found(v), clock).Accepted?
    ensures PutOutcomeFor(cfg, req, Found(v), clock) == Accepted(v.retention, v.hold)
  {
  }

  /** A replica takes its retention from its headers alone: without them it has none, whatever the default rule. */
  lemma ReplicaGrants(cfg: LockConfig, req: PutRequest, lookup: Lookup, clock: Option<Time>)
    requires cfg.enabled && req.replica && req.retention == Absent && req.hold != Bad
    ensures var r := PutOutcomeFor(cfg, req, lookup, clock);
            && r.Accepted? && r.retention.mode == NoMode
            && r.hold == if req.hold.Given? then req.hold.value else NoHold
  {
  }

  /** Headers that cannot be read: a retention is refused as malformed; a hold is dropped, and with it every other check. */
  lemma BadHeaders(cfg: LockConfig, req: PutRequest, lookup: Lookup, clock: Option<Time>)
    requires cfg.enabled && (!req.explicitVersion || req.replica || !lookup.Found?)
    ensures req.retention == Bad && req.hold != Bad ==> PutOutcomeFor(cfg, req, lookup, clock) == Refused(ErrMalformed)
    ensures req.hold == Bad ==> PutOutcomeFor(cfg, req, lookup, clock) == Accepted(NoRetention(), NoHold)
  {
  }

  /** Where there is no object lock every lock header is refused, and nothing else is. */
  lemma UnlockedGrants(cfg: LockConfig, req: PutRequest, lookup: Lookup, clock: Option<Time>)
    requires !cfg.enabled
    ensures var r := PutOutcomeFor(cfg, req, lookup, clock);
            && (r.Accepted? <==> req.hold == Absent && req.retention == Absent)
            && (r.Accepted? ==> r.retention.mode == NoMode && r.hold == NoHold)
            && (r.Refused? ==> r.code == ErrInvalidLockConfig)
  {
  }

  // ---------- the life of one version ----------

  datatype Request =
    | RetentionPut(retention: Retention, bypass: bool, allowed: bool)
    | LegalHoldPut(status: LegalHold)
    | VersionDelete(answer: Answer, bypass: bool, mayBypass: bool, mayGetConfig: bool)
    | LifecycleDelete
    | ObjectPut(put: PutRequest, answer: Answer, cfg: LockConfig)

  /** Outcome of the lookup that precedes a delete or an overwrite. */
  datatype Answer = Succeeds | ReportsMissing | ReportsNotAllowed(markerOrPurge: bool) | Fails

  /** A request at time `now`; the clock either tells `now` or fails. */
  datatype Event = Event(now: Time, clockWorks: bool, req: Request) {
    function Clock(): Option<Time> { if clockWorks then Some(now) else None }
  }

  function LookupOf(a: Answer, v: Version): Lookup {
    match a
    case Succeeds => Found(v)
    case ReportsMissing => Missing
    case ReportsNotAllowed(m) => NotAllowed(m)
    case Fails => LookupFailed
  }

  /** The date read back from its text: the error of a text that does not parse is dropped, and the date is zero. */
  function ReadBack(t: Time): Time {
    if t < FAR then t else ZERO_TIME
  }

  function StoredRetention(r: Retention, unit: int): Retention
    requires unit > 0
  {
    if r.mode.Valid() then Retention(r.mode, ReadBack(Truncate(r.until, unit))) else NoRetention()
  }

  /** What an accepted PUT stores. */
  function StoredVersion(content: int, outcome: PutOutcome): Version
    requires outcome.Accepted?
  {
    Version(content, false, StoredRetention(outcome.retention, MILLISECOND), outcome.hold)
  }

  /** Effect of one request on the version; None once it is gone. */
  function Step(s: Option<Version>, e: Event): Option<Version> {
    if s.None? then None
    else
      var v, clock := s.value, e.Clock();
      match e.req
      case RetentionPut(r, bypass, allowed) =>
        if ParsesRetention(r, clock) && PutRetentionDecision(v, r, bypass, allowed, clock) == ErrNone
        then Some(v.(retention := StoredRetention(r, SECOND)))
        else s
      case LegalHoldPut(status) =>
        if status == NoHold then s else Some(v.(hold := status))
      case VersionDelete(answer, bypass, mayBypass, mayGetConfig) =>
        if DeleteDecision(LookupOf(answer, v), bypass, mayBypass, mayGetConfig, clock) == ErrNone then None else s
      case LifecycleDelete =>
        if LockedForLifecycle(v, clock) then s else None
      case ObjectPut(put, answer, cfg) =>
        if !put.explicitVersion then s
        else
          var outcome := PutOutcomeFor(cfg, put, LookupOf(answer, v), clock);
          if outcome.Refused? then s
          else Some(StoredVersion(put.content, outcome))
  }

  function Run(s: Option<Version>, events: seq<Event>): Option<Version>
    decreases |events|
  {
    if events == [] then s else Run(Step(s, events[0]), events[1..])
  }

  /** Whether a retention no longer binds at the time the clock tells. */
  predicate Lapsed(r: Retention, e: Event) {
    r.mode == NoMode || (e.clockWorks && r.until < e.now)
  }

  /**
   The requests that remove a version, from the fields: a delete whose lookup does not see it; a delete
   that sees neither a hold nor a binding retention, or bypasses governance by permission; a lifecycle
   delete of a delete marker, or without a hold once the date is reached.
   */
  lemma RemovedExactly(v: Version, e: Event)
    ensures Step(Some(v), e).None? <==>
            match e.req
            case VersionDelete(ReportsMissing, _, _, _) => true
            case VersionDelete(ReportsNotAllowed(markerOrPurge), _, _, _) => markerOrPurge
            case VersionDelete(Fails, _, _, _) => false
            case VersionDelete(Succeeds, bypass, mayBypass, mayGetConfig) =>
              v.hold != HoldOn
              && if v.retention.mode == Governance && bypass then mayBypass || mayGetConfig else Lapsed(v.retention, e)
            case LifecycleDelete =>
              v.deleteMarker
              || (v.hold != HoldOn && (v.retention.mode == NoMode || (e.clockWorks && v.retention.until <= e.now)))
            case _ => false
  {
  }

  /**
   The retention puts that take effect, from the fields: a well-formed date that is not in the past, put
   by someone allowed to, on a version whose retention no longer binds, is kept in mode and not
   shortened, or is governance and bypassed.  Whole seconds before year 10000 are stored as they are.
   */
  lemma RetentionPutExactly(v: Version, e: Event, r: Retention, bypass: bool, allowed: bool)
    requires e.req == RetentionPut(r, bypass, allowed) && r.until % 1_000_000_000 == 0 && r.until < FAR
    ensures var accepted :=
              && e.clockWorks && allowed
              && (if r.mode == NoMode then r.until == ZERO_TIME else r.until != ZERO_TIME && r.until >= e.now)
              && (|| Lapsed(v.retention, e)
                  || (r.mode == v.retention.mode && v.retention.until <= r.until)
                  || (v.retention.mode == Governance && bypass));
            Step(Some(v), e) == Some(if accepted then v.(retention := r) else v)
  {
  }

  /** A hold put sets the hold, on or off, and nothing else; without a status it changes nothing. */
  lemma HoldPutExactly(v: Version, e: Event, status: LegalHold)
    requires e.req == LegalHoldPut(status)
    ensures Step(Some(v), e).Some?
    ensures var v' := Step(Some(v), e).value;
            && v'.hold == (if status == HoldOn then HoldOn else if status == HoldOff then HoldOff else v.hold)
            && v'.(hold := v.hold) == v
  {
  }

  ghost predicate AllBefore(events: seq<Event>, d: Time) {
    forall i :: 0 <= i < |events| ==> events[i].now < d
  }

  /** Lookups answer with the stored version and the bucket's lock config, and no write claims to come from a replication source. */
  predicate Seen(e: Event) {
    match e.req
    case VersionDelete(answer, _, _, _) => answer == Succeeds
    case ObjectPut(put, answer, cfg) => answer == Succeeds && cfg.enabled && !put.replica
    case _ => true
  }

  ghost predicate AllSeen(events: seq<Event>) {
    forall i :: 0 <= i < |events| ==> Seen(events[i])
  }

  /** The same, and no retention put asks for a date that cannot be read back. */
  predicate Guarded(e: Event) {
    Seen(e) && (e.req.RetentionPut? ==> e.req.retention.until < FAR)
  }

  ghost predicate AllGuarded(events: seq<Event>) {
    forall i :: 0 <= i < |events| ==> Guarded(events[i])
  }

  /** The version is still there, with its data, in the given mode until at least `d`. */
  ghost predicate Protected(s: Option<Version>, content: int, mode: RetMode, d: Time) {
    s.Some? && !s.value.deleteMarker && s.value.content == content
    && s.value.retention.mode == mode && s.value.retention.until >= d
  }

  lemma TruncateKeepsWholeBound(t: Time, d: Time, unit: int)
    requires unit > 0 && d <= t && d % unit == 0
    ensures d <= Truncate(t, unit)
  {
    var q, p := t / unit, d / unit;
    assert Truncate(t, unit) == unit * q && d == unit * p;
    assert unit * (p - q) == unit * p - unit * q;
    if p > q {
      MulAtLeast(unit, p - q);
      assert false;
    }
    assert unit * (q - p) >= 0;
  }

  /** Below year 10000 a date is stored to the unit; from there on it is lost. */
  lemma StoredDate(t: Time, d: Time)
    requires d <= t && d % SECOND == 0
    ensures ReadBack(Truncate(t, SECOND)) >= d <==> t < FAR || d <= ZERO_TIME
  {
    TruncateKeepsWholeBound(t, d, SECOND);
    if t >= FAR {
      assert FAR % SECOND == 0;
      TruncateKeepsWholeBound(t, FAR, SECOND);
    }
  }

  /** A retention put that is accepted although its date cannot be read back. */
  predicate FarPut(s: Option<Version>, e: Event) {
    && s.Some? && e.req.RetentionPut? && e.req.retention.until >= FAR
    && ParsesRetention(e.req.retention, e.Clock())
    && PutRetentionDecision(s.value, e.req.retention, e.req.bypass, e.req.allowed, e.Clock()) == ErrNone
  }

  /** One request whose lookups see the version keeps a compliance date exactly if it is not such a put. */
  lemma ComplianceStep(s: Option<Version>, e: Event, content: int, d: Time)
    requires Protected(s, content, Compliance, d) && d % SECOND == 0
    requires e.now < d && Seen(e)
    ensures Protected(Step(s, e), content, Compliance, d) <==> !FarPut(s, e) || d <= ZERO_TIME
  {
    match e.req
    case RetentionPut(r, _, _) =>
      if r.until >= d { StoredDate(r.until, d); }
    case _ =>
  }

  /** The version is protected before every request of the run and at its end. */
  ghost predicate AlwaysProtected(s: Option<Version>, events: seq<Event>, content: int, mode: RetMode, d: Time)
    decreases |events|
  {
    Protected(s, content, mode, d)
    && (events == [] || AlwaysProtected(Step(s, events[0]), events[1..], content, mode, d))
  }

  /** No request of the run is a retention put whose date is lost. */
  predicate NoFarPut(s: Option<Version>, events: seq<Event>)
    decreases |events|
  {
    events == [] || (!FarPut(s, events[0]) && NoFarPut(Step(s, events[0]), events[1..]))
  }

  lemma {:induction false} GuardedHasNoFarPut(s: Option<Version>, events: seq<Event>)
    requires AllGuarded(events)
    ensures NoFarPut(s, events)
    decreases |events|
  {
    if events != [] {
      assert Guarded(events[0]);
      GuardedHasNoFarPut(Step(s, events[0]), events[1..]);
    }
  }

  /**
   WORM over whole runs, exactly: a version in compliance mode until the whole second `d` stays so, with
   its data and a retain-until date of at least `d`, through a run of requests made before `d` if and
   only if no accepted retention put asks for a date from year 10000 on.  (A date that is lost reads as
   the zero time, which still satisfies a `d` that is no later.)
   */
  lemma {:induction false} ComplianceExactly(s: Option<Version>, events: seq<Event>, content: int, d: Time)
    requires Protected(s, content, Compliance, d) && d % SECOND == 0
    requires AllBefore(events, d) && AllSeen(events)
    ensures AlwaysProtected(s, events, content, Compliance, d) <==> NoFarPut(s, events) || d <= ZERO_TIME
    ensures NoFarPut(s, events) || d <= ZERO_TIME ==> Protected(Run(s, events), content, Compliance, d)
    decreases |events|
  {
    if events != [] {
      assert Seen(events[0]);
      ComplianceStep(s, events[0], content, d);
      if !FarPut(s, events[0]) || d <= ZERO_TIME {
        ComplianceExactly(Step(s, events[0]), events[1..], content, d);
      }
    }
  }

  lemma GuardedIsSeen(events: seq<Event>)
    requires AllGuarded(events)
    ensures AllSeen(events)
  {
    forall i | 0 <= i < |events| ensures Seen(events[i]) {
      assert Guarded(events[i]);
    }
  }

  /** So it survives every run of guarded requests made before `d`. */
  lemma ComplianceHolds(s: Option<Version>, events: seq<Event>, content: int, d: Time)
    requires Protected(s, content, Compliance, d) && d % SECOND == 0
    requires AllBefore(events, d) && AllGuarded(events)
    ensures Protected(Run(s, events), content, Compliance, d)
  {
    GuardedIsSeen(events);
    GuardedHasNoFarPut(s, events);
    ComplianceExactly(s, events, content, d);
  }

  /**
   The failing family, in either mode and without a bypass: a retention put with a date from year 10000
   on is accepted as an extension, its date is lost, and the version can be deleted at once.
   */
  lemma FarDateRemoval(v: Version, now: Time, far: Time) returns (events: seq<Event>)
    requires v.retention.mode.Valid() && !v.deleteMarker && ZERO_TIME < now < v.retention.until < FAR <= far
    ensures AllBefore(events, v.retention.until) && AllSeen(events) && AllUnprivileged(events)
    ensures v.hold != HoldOn ==> Run(Some(v), events) == None
    ensures !Protected(Run(Some(v), events), v.content, v.retention.mode, v.retention.until)
  {
    var extend := Event(now, true, RetentionPut(Retention(v.retention.mode, far), false, true));
    var remove := Event(now, true, VersionDelete(Succeeds, false, false, false));
    events := [extend, remove];
    assert FAR % SECOND == 0;
    TruncateKeepsWholeBound(far, FAR, SECOND);
    var s1 := Step(Some(v), extend);
    assert s1 == Some(v.(retention := Retention(v.retention.mode, ZERO_TIME)));
    assert Run(Some(v), events) == Run(s1, [remove]) == Run(Step(s1, remove), []);
  }

  /** The guarantee a compliance date gives on all guarded runs. */
  ghost predicate GuaranteedUntil(v: Version, d: Time) {
    forall events :: AllBefore(events, d) && AllGuarded(events) ==>
      Protected(Run(Some(v), events), v.content, Compliance, d)
  }

  /**
   The exact condition on the date: retention dates rewritten by PutObjectRetention lose their
   sub-second part, so a compliance date that can be read back is honoured on all guarded runs if and
   only if it is a whole second.
   */
  lemma CompliancePrecision(v: Version)
    requires v.retention.mode == Compliance && !v.deleteMarker && ZERO_TIME < v.retention.until < FAR
    ensures GuaranteedUntil(v, v.retention.until) <==> v.retention.until % SECOND == 0
  {
    var d := v.retention.until;
    if d % SECOND == 0 {
      forall events | AllBefore(events, d) && AllGuarded(events)
        ensures Protected(Run(Some(v), events), v.content, Compliance, d)
      {
        ComplianceHolds(Some(v), events, v.content, d);
      }
    } else {
      var events := EarlyRemoval(v);
      assert !Protected(Run(Some(v), events), v.content, Compliance, d);
    }
  }

  /**
   The failing family, in either mode and without a bypass: renewing a sub-second date with itself
   shortens it, and lifecycle may then remove the version.
   */
  lemma EarlyRemoval(v: Version) returns (events: seq<Event>)
    requires v.retention.mode.Valid() && !v.deleteMarker
    requires v.retention.until % SECOND != 0 && ZERO_TIME < v.retention.until < FAR
    ensures AllBefore(events, v.retention.until) && AllGuarded(events) && AllUnprivileged(events)
    ensures v.hold != HoldOn ==> Run(Some(v), events) == None
    ensures !Protected(Run(Some(v), events), v.content, v.retention.mode, v.retention.until)
  {
    var d := v.retention.until;
    var t := Truncate(d, SECOND);
    assert t < d;
    var renew := Event(t, true, RetentionPut(v.retention, false, true));
    var expire := Event(t, true, LifecycleDelete);
    events := [renew, expire];
    var s1 := Step(Some(v), renew);
    assert s1 == Some(v.(retention := Retention(v.retention.mode, t)));
    assert Run(Some(v), events) == Run(s1, [expire]) == Run(Step(s1, expire), []);
  }

  /** Sub-second dates are still honoured up to their whole second. */
  lemma ComplianceHoldsToTheSecond(v: Version, events: seq<Event>)
    requires v.retention.mode == Compliance && !v.deleteMarker
    requires AllBefore(events, Truncate(v.retention.until, SECOND)) && AllGuarded(events)
    ensures Protected(Run(Some(v), events), v.content, Compliance, Truncate(v.retention.until, SECOND))
  {
    var d := v.retention.until;
    DivModUnique(Truncate(d, SECOND), SECOND, d / SECOND, 0);
    ComplianceHolds(Some(v), events, v.content, Truncate(d, SECOND));
  }

  lemma TruncateTwice(t: Time)
    ensures Truncate(Truncate(t, MILLISECOND), SECOND) == Truncate(t, SECOND)
  {
    var s := t - t % SECOND;
    var ms := t % SECOND - t % SECOND % MILLISECOND;
    DivModUnique(t, MILLISECOND, (t / SECOND) * 1000 + t % SECOND / MILLISECOND, t % SECOND % MILLISECOND);
    assert Truncate(t, MILLISECOND) == s + ms;
    DivModUnique(s + ms, SECOND, t / SECOND, ms);
  }

  /** A PUT stores its date to the millisecond, if it is before year 10000. */
  lemma StoredToTheMillisecond(content: int, outcome: PutOutcome)
    requires outcome.Accepted? && outcome.retention.mode.Valid() && outcome.retention.until < FAR
    ensures var v, until := StoredVersion(content, outcome), outcome.retention.until;
            && v.content == content && !v.deleteMarker && v.hold == outcome.hold && v.retention.mode == outcome.retention.mode
            && v.retention.until <= until < v.retention.until + 1_000_000 && v.retention.until % 1_000_000 == 0
  {
    var until := outcome.retention.until;
    DivModUnique(Truncate(until, MILLISECOND), MILLISECOND, until / MILLISECOND, 0);
  }

  /**
   A default compliance rule protects what is stored under it: a version put without lock headers at time
   `t` survives, with its data, every guarded run made before the whole second of `t` plus the rule's
   time, as long as that date is before year 10000.
   */
  lemma DefaultRuleProtects(cfg: LockConfig, put: PutRequest, lookup: Lookup, t: Time, events: seq<Event>)
    requires cfg.enabled && cfg.mode == Compliance && cfg.validity > 0 && t + cfg.validity < FAR
    requires put.hold == Absent && put.retention == Absent && !put.replica
    requires PutOutcomeFor(cfg, put, lookup, Some(t)).Accepted?
    requires AllBefore(events, Truncate(t + cfg.validity, SECOND)) && AllGuarded(events)
    ensures var stored := StoredVersion(put.content, PutOutcomeFor(cfg, put, lookup, Some(t)));
            Protected(Run(Some(stored), events), put.content, Compliance, Truncate(t + cfg.validity, SECOND))
  {
    var stored := DefaultRuleStores(cfg, put, lookup, t);
    ComplianceHoldsToTheSecond(stored, events);
  }

  lemma DefaultRuleStores(cfg: LockConfig, put: PutRequest, lookup: Lookup, t: Time) returns (stored: Version)
    requires cfg.enabled && cfg.mode == Compliance && cfg.validity > 0 && t + cfg.validity < FAR
    requires put.hold == Absent && put.retention == Absent && !put.replica
    requires PutOutcomeFor(cfg, put, lookup, Some(t)).Accepted?
    ensures stored == StoredVersion(put.content, PutOutcomeFor(cfg, put, lookup, Some(t)))
    ensures stored.retention.mode == Compliance && !stored.deleteMarker && stored.content == put.content
    ensures Truncate(stored.retention.until, SECOND) == Truncate(t + cfg.validity, SECOND)
  {
    stored := StoredVersion(put.content, PutOutcomeFor(cfg, put, lookup, Some(t)));
    assert stored.retention.until == Truncate(t + cfg.validity, MILLISECOND);
    TruncateTwice(t + cfg.validity);
  }

  /** From that year on the rule's date is lost, and the new version can be deleted at once. */
  lemma FarDefaultIsLost(cfg: LockConfig, put: PutRequest, t: Time) returns (events: seq<Event>)
    requires cfg.enabled && cfg.mode == Compliance && cfg.validity > 0 && ZERO_TIME < t < FAR <= t + cfg.validity
    requires put.hold == Absent && put.retention == Absent && !put.replica && put.mayPutRetention
    ensures AllBefore(events, FAR) && AllGuarded(events)
    ensures Run(Some(StoredVersion(put.content, PutOutcomeFor(cfg, put, Missing, Some(t)))), events) == None
  {
    var stored := StoredVersion(put.content, PutOutcomeFor(cfg, put, Missing, Some(t)));
    assert FAR % MILLISECOND == 0;
    TruncateKeepsWholeBound(t + cfg.validity, FAR, MILLISECOND);
    var remove := Event(t, true, VersionDelete(Succeeds, false, false, false));
    events := [remove];
    assert Run(Some(stored), events) == Run(Step(Some(stored), remove), []);
  }

  /** Requests that reach a version without the check having seen it. */
  predicate Unguarded(e: Event) {
    match e.req
    case VersionDelete(answer, _, _, _) => answer == ReportsMissing || answer == ReportsNotAllowed(true)
    case ObjectPut(put, answer, cfg) =>
      && put.explicitVersion
      && if cfg.enabled then (put.replica || answer != Succeeds) && !HeadersRefused(put, cfg, e.Clock())
         else put.hold == Absent && put.retention == Absent
    case _ => false
  }

  /** Which single requests break an unexpired compliance version: exactly those whose lookup did not see it or its bucket's lock. */
  lemma ComplianceBreach(v: Version, e: Event)
    requires v.retention.mode == Compliance && !v.deleteMarker && e.now < v.retention.until
    requires e.req.ObjectPut? ==> e.req.put.content != v.content
    ensures Unguarded(e) <==> (Step(Some(v), e).None? || Step(Some(v), e).value.content != v.content)
  {
  }

  // ---------- governance ----------

  /** No bypass header and no overwrite of an explicit version id. */
  predicate Unprivileged(e: Event) {
    match e.req
    case RetentionPut(_, bypass, _) => !bypass
    case VersionDelete(_, bypass, _, _) => !bypass
    case ObjectPut(put, _, _) => !put.explicitVersion
    case _ => true
  }

  ghost predicate AllUnprivileged(events: seq<Event>) {
    forall i :: 0 <= i < |events| ==> Unprivileged(events[i])
  }

  lemma GovernanceStep(s: Option<Version>, e: Event, content: int, d: Time)
    requires Protected(s, content, Governance, d) && d % SECOND == 0
    requires e.now < d && Seen(e) && Unprivileged(e)
    ensures Protected(Step(s, e), content, Governance, d) <==> !FarPut(s, e) || d <= ZERO_TIME
  {
    match e.req
    case RetentionPut(r, _, _) =>
      if r.until >= d { StoredDate(r.until, d); }
    case _ =>
  }

  /** The same in governance mode, for runs without bypass headers and explicit-version overwrites. */
  lemma {:induction false} GovernanceExactly(s: Option<Version>, events: seq<Event>, content: int, d: Time)
    requires Protected(s, content, Governance, d) && d % SECOND == 0
    requires AllBefore(events, d) && AllSeen(events) && AllUnprivileged(events)
    ensures AlwaysProtected(s, events, content, Governance, d) <==> NoFarPut(s, events) || d <= ZERO_TIME
    ensures NoFarPut(s, events) || d <= ZERO_TIME ==> Protected(Run(s, events), content, Governance, d)
    decreases |events|
  {
    if events != [] {
      assert Seen(events[0]) && Unprivileged(events[0]);
      GovernanceStep(s, events[0], content, d);
      if !FarPut(s, events[0]) || d <= ZERO_TIME {
        GovernanceExactly(Step(s, events[0]), events[1..], content, d);
      }
    }
  }

  lemma GovernanceHolds(s: Option<Version>, events: seq<Event>, content: int, d: Time)
    requires Protected(s, content, Governance, d) && d % SECOND == 0
    requires AllBefore(events, d) && AllGuarded(events) && AllUnprivileged(events)
    ensures Protected(Run(s, events), content, Governance, d)
  {
    GuardedIsSeen(events);
    GuardedHasNoFarPut(s, events);
    GovernanceExactly(s, events, content, d);
  }

  /** The guarantee a governance date gives on all guarded runs without privileges. */
  ghost predicate GovernedUntil(v: Version, d: Time) {
    forall events :: AllBefore(events, d) && AllGuarded(events) && AllUnprivileged(events) ==>
      Protected(Run(Some(v), events), v.content, Governance, d)
  }

  /** The exact condition on the date is the same as in compliance mode: a whole second. */
  lemma GovernancePrecision(v: Version)
    requires v.retention.mode == Governance && !v.deleteMarker && ZERO_TIME < v.retention.until < FAR
    ensures GovernedUntil(v, v.retention.until) <==> v.retention.until % SECOND == 0
  {
    var d := v.retention.until;
    if d % SECOND == 0 {
      forall events | AllBefore(events, d) && AllGuarded(events) && AllUnprivileged(events)
        ensures Protected(Run(Some(v), events), v.content, Governance, d)
      {
        GovernanceHolds(Some(v), events, v.content, d);
      }
    } else {
      var events := EarlyRemoval(v);
      assert !Protected(Run(Some(v), events), v.content, Governance, d);
    }
  }

  /** Governance dates with a fraction are honoured up to their whole second. */
  lemma GovernanceHoldsToTheSecond(v: Version, events: seq<Event>)
    requires v.retention.mode == Governance && !v.deleteMarker
    requires AllBefore(events, Truncate(v.retention.until, SECOND)) && AllGuarded(events) && AllUnprivileged(events)
    ensures Protected(Run(Some(v), events), v.content, Governance, Truncate(v.retention.until, SECOND))
  {
    var d := v.retention.until;
    DivModUnique(Truncate(d, SECOND), SECOND, d / SECOND, 0);
    GovernanceHolds(Some(v), events, v.content, Truncate(d, SECOND));
  }

  /** Which requests whose lookups see it break an unexpired governance version without a hold: a permitted bypass, or any accepted overwrite. */
  lemma GovernanceBreach(v: Version, e: Event)
    requires v.retention.mode == Governance && !v.deleteMarker && v.hold != HoldOn
    requires e.now < v.retention.until && Seen(e)
    requires e.req.ObjectPut? ==> e.req.put.content != v.content
    ensures (Step(Some(v), e).None? || Step(Some(v), e).value.content != v.content) <==>
            match e.req
            case VersionDelete(_, bypass, mayBypass, mayGetConfig) => bypass && (mayBypass || mayGetConfig)
            case ObjectPut(put, _, cfg) =>
              put.explicitVersion && cfg.enabled && e.clockWorks && !HeadersRefused(put, cfg, e.Clock())
            case _ => false
  {
  }

  // ---------- legal hold ----------

  /** Under legal hold the version survives every run that does not itself change the hold, whatever the time, mode or permissions. */
  lemma {:induction false} LegalHoldHolds(v: Version, events: seq<Event>)
    requires v.hold == HoldOn && !v.deleteMarker && AllSeen(events)
    requires forall i :: 0 <= i < |events| ==> !events[i].req.LegalHoldPut?
    ensures Run(Some(v), events).Some?
    ensures Run(Some(v), events).value.(retention := v.retention) == v
    decreases |events|
  {
    if events != [] {
      assert !events[0].req.LegalHoldPut? && Seen(events[0]);
      var s := Step(Some(v), events[0]);
      LegalHoldHolds(s.value, events[1..]);
    }
  }

  /** A hold that is put on sticks: the version survives every later run that leaves the hold alone. */
  lemma HeldFromThenOn(v: Version, put: Event, events: seq<Event>)
    requires put.req == LegalHoldPut(HoldOn) && !v.deleteMarker && AllSeen(events)
    requires forall i :: 0 <= i < |events| ==> !events[i].req.LegalHoldPut?
    ensures Run(Some(v), [put] + events).Some?
    ensures Run(Some(v), [put] + events).value.(retention := v.retention) == v.(hold := HoldOn)
  {
    assert ([put] + events)[1..] == events;
    LegalHoldHolds(v.(hold := HoldOn), events);
  }
}
