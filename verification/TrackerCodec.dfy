/**
 The generated MessagePack codec of the disk-healing tracker
 (cmd/background-newdisks-heal-ops_gen.go): a map from field names to values.
 */
module TrackerCodec {
  import opened Prelude
  import opened MsgPack
  import Obj = MsgPackObjects

  // ---------- the tracker ----------

  /** The persisted fields, in the order they are written. */
  datatype Field =
    | ID
    | PoolIndex
    | SetIndex
    | DiskIndex
    | Path
    | Endpoint
    | Started
    | LastUpdate
    | ObjectsTotalCount
    | ObjectsTotalSize
    | ItemsHealed
    | ItemsFailed
    | BytesDone
    | BytesFailed
    | Bucket
    | Object
    | ResumeItemsHealed
    | ResumeItemsFailed
    | ResumeBytesDone
    | ResumeBytesFailed
    | QueuedBuckets
    | HealedBuckets

  /** Times are nanoseconds since the epoch, strings are bytes. */
  datatype Tracker = Tracker(
    id: Bytes,
    poolIndex: Int64,
    setIndex: Int64,
    diskIndex: Int64,
    path: Bytes,
    endpoint: Bytes,
    started: int,
    lastUpdate: int,
    objectsTotalCount: Uint64,
    objectsTotalSize: Uint64,
    itemsHealed: Uint64,
    itemsFailed: Uint64,
    bytesDone: Uint64,
    bytesFailed: Uint64,
    bucket: Bytes,
    objectName: Bytes,
    resumeItemsHealed: Uint64,
    resumeItemsFailed: Uint64,
    resumeBytesDone: Uint64,
    resumeBytesFailed: Uint64,
    queuedBuckets: seq<Bytes>,
    healedBuckets: seq<Bytes>)

  datatype Value =
    | StrV(str: Bytes)
    | IntV(num: Int64)
    | UintV(count: Uint64)
    | TimeV(time: int)
    | ListV(list: seq<Bytes>)

  datatype Kind = Str | Int | Uint | Time | List

  function KindOf(f: Field): Kind {
    match f
    case ID => Str
    case PoolIndex => Int
    case SetIndex => Int
    case DiskIndex => Int
    case Path => Str
    case Endpoint => Str
    case Started => Time
    case LastUpdate => Time
    case ObjectsTotalCount => Uint
    case ObjectsTotalSize => Uint
    case ItemsHealed => Uint
    case ItemsFailed => Uint
    case BytesDone => Uint
    case BytesFailed => Uint
    case Bucket => Str
    case Object => Str
    case ResumeItemsHealed => Uint
    case ResumeItemsFailed => Uint
    case ResumeBytesDone => Uint
    case ResumeBytesFailed => Uint
    case QueuedBuckets => List
    case HealedBuckets => List
  }

  function KindOfValue(v: Value): Kind {
    match v
    case StrV(_) => Str
    case IntV(_) => Int
    case UintV(_) => Uint
    case TimeV(_) => Time
    case ListV(_) => List
  }

  function Get(t: Tracker, f: Field): (v: Value)
    ensures KindOfValue(v) == KindOf(f)
  {
    match f
    case ID => StrV(t.id)
    case PoolIndex => IntV(t.poolIndex)
    case SetIndex => IntV(t.setIndex)
    case DiskIndex => IntV(t.diskIndex)
    case Path => StrV(t.path)
    case Endpoint => StrV(t.endpoint)
    case Started => TimeV(t.started)
    case LastUpdate => TimeV(t.lastUpdate)
    case ObjectsTotalCount => UintV(t.objectsTotalCount)
    case ObjectsTotalSize => UintV(t.objectsTotalSize)
    case ItemsHealed => UintV(t.itemsHealed)
    case ItemsFailed => UintV(t.itemsFailed)
    case BytesDone => UintV(t.bytesDone)
    case BytesFailed => UintV(t.bytesFailed)
    case Bucket => StrV(t.bucket)
    case Object => StrV(t.objectName)
    case ResumeItemsHealed => UintV(t.resumeItemsHealed)
    case ResumeItemsFailed => UintV(t.resumeItemsFailed)
    case ResumeBytesDone => UintV(t.resumeBytesDone)
    case ResumeBytesFailed => UintV(t.resumeBytesFailed)
    case QueuedBuckets => ListV(t.queuedBuckets)
    case HealedBuckets => ListV(t.healedBuckets)
  }

  /** Assigns a field. */
  function Put(t: Tracker, f: Field, v: Value): Tracker
    requires KindOfValue(v) == KindOf(f)
  {
    match f
    case ID => t.(id := v.str)
    case PoolIndex => t.(poolIndex := v.num)
    case SetIndex => t.(setIndex := v.num)
    case DiskIndex => t.(diskIndex := v.num)
    case Path => t.(path := v.str)
    case Endpoint => t.(endpoint := v.str)
    case Started => t.(started := v.time)
    case LastUpdate => t.(lastUpdate := v.time)
    case ObjectsTotalCount => t.(objectsTotalCount := v.count)
    case ObjectsTotalSize => t.(objectsTotalSize := v.count)
    case ItemsHealed => t.(itemsHealed := v.count)
    case ItemsFailed => t.(itemsFailed := v.count)
    case BytesDone => t.(bytesDone := v.count)
    case BytesFailed => t.(bytesFailed := v.count)
    case Bucket => t.(bucket := v.str)
    case Object => t.(objectName := v.str)
    case ResumeItemsHealed => t.(resumeItemsHealed := v.count)
    case ResumeItemsFailed => t.(resumeItemsFailed := v.count)
    case ResumeBytesDone => t.(resumeBytesDone := v.count)
    case ResumeBytesFailed => t.(resumeBytesFailed := v.count)
    case QueuedBuckets => t.(queuedBuckets := v.list)
    case HealedBuckets => t.(healedBuckets := v.list)
  }

  lemma GetAfterPut(t: Tracker, f: Field, v: Value, g: Field)
    requires KindOfValue(v) == KindOf(f)
    ensures Get(Put(t, f, v), g) == if g == f then v else Get(t, g)
  {
    if g == f { GetSame(t, f, v); } else { GetOther(t, f, v, g); }
  }

  lemma GetSame(t: Tracker, f: Field, v: Value)
    requires KindOfValue(v) == KindOf(f)
    ensures Get(Put(t, f, v), f) == v
  {
  }

  lemma GetOther(t: Tracker, f: Field, v: Value, g: Field)
    requires KindOfValue(v) == KindOf(f) && g != f
    ensures Get(Put(t, f, v), g) == Get(t, g)
  {
  }

  /** A tracker is determined by its fields. */
  lemma SameFieldsSameTracker(s: Tracker, t: Tracker)
    requires forall f :: Get(s, f) == Get(t, f)
    ensures s == t
  {
    SameIdentity(s, t);
    SameProgress(s, t);
    SameResume(s, t);
  }

  lemma SameIdentity(s: Tracker, t: Tracker)
    requires forall f :: Get(s, f) == Get(t, f)
    ensures s.id == t.id
    ensures s.poolIndex == t.poolIndex
    ensures s.setIndex == t.setIndex
    ensures s.diskIndex == t.diskIndex
    ensures s.path == t.path
    ensures s.endpoint == t.endpoint
    ensures s.started == t.started
    ensures s.lastUpdate == t.lastUpdate
  {
    assert Get(s, ID) == Get(t, ID);
    assert Get(s, PoolIndex) == Get(t, PoolIndex);
    assert Get(s, SetIndex) == Get(t, SetIndex);
    assert Get(s, DiskIndex) == Get(t, DiskIndex);
    assert Get(s, Path) == Get(t, Path);
    assert Get(s, Endpoint) == Get(t, Endpoint);
    assert Get(s, Started) == Get(t, Started);
    assert Get(s, LastUpdate) == Get(t, LastUpdate);
  }

  lemma SameProgress(s: Tracker, t: Tracker)
    requires forall f :: Get(s, f) == Get(t, f)
    ensures s.objectsTotalCount == t.objectsTotalCount
    ensures s.objectsTotalSize == t.objectsTotalSize
    ensures s.itemsHealed == t.itemsHealed
    ensures s.itemsFailed == t.itemsFailed
    ensures s.bytesDone == t.bytesDone
    ensures s.bytesFailed == t.bytesFailed
    ensures s.bucket == t.bucket
    ensures s.objectName == t.objectName
  {
    assert Get(s, ObjectsTotalCount) == Get(t, ObjectsTotalCount);
    assert Get(s, ObjectsTotalSize) == Get(t, ObjectsTotalSize);
    assert Get(s, ItemsHealed) == Get(t, ItemsHealed);
    assert Get(s, ItemsFailed) == Get(t, ItemsFailed);
    assert Get(s, BytesDone) == Get(t, BytesDone);
    assert Get(s, BytesFailed) == Get(t, BytesFailed);
    assert Get(s, Bucket) == Get(t, Bucket);
    assert Get(s, Object) == Get(t, Object);
  }

  lemma SameResume(s: Tracker, t: Tracker)
    requires forall f :: Get(s, f) == Get(t, f)
    ensures s.resumeItemsHealed == t.resumeItemsHealed
    ensures s.resumeItemsFailed == t.resumeItemsFailed
    ensures s.resumeBytesDone == t.resumeBytesDone
    ensures s.resumeBytesFailed == t.resumeBytesFailed
    ensures s.queuedBuckets == t.queuedBuckets
    ensures s.healedBuckets == t.healedBuckets
  {
    assert Get(s, ResumeItemsHealed) == Get(t, ResumeItemsHealed);
    assert Get(s, ResumeItemsFailed) == Get(t, ResumeItemsFailed);
    assert Get(s, ResumeBytesDone) == Get(t, ResumeBytesDone);
    assert Get(s, ResumeBytesFailed) == Get(t, ResumeBytesFailed);
    assert Get(s, QueuedBuckets) == Get(t, QueuedBuckets);
    assert Get(s, HealedBuckets) == Get(t, HealedBuckets);
  }

  // ---------- field names ----------

  function Name(f: Field): (s: Bytes)
    ensures 0 < |s| < 32
  {
    match f
    case ID => [0x49, 0x44]
    case PoolIndex => [0x50, 0x6f, 0x6f, 0x6c, 0x49, 0x6e, 0x64, 0x65, 0x78]
    case SetIndex => [0x53, 0x65, 0x74, 0x49, 0x6e, 0x64, 0x65, 0x78]
    case DiskIndex => [0x44, 0x69, 0x73, 0x6b, 0x49, 0x6e, 0x64, 0x65, 0x78]
    case Path => [0x50, 0x61, 0x74, 0x68]
    case Endpoint => [0x45, 0x6e, 0x64, 0x70, 0x6f, 0x69, 0x6e, 0x74]
    case Started => [0x53, 0x74, 0x61, 0x72, 0x74, 0x65, 0x64]
    case LastUpdate => [0x4c, 0x61, 0x73, 0x74, 0x55, 0x70, 0x64, 0x61, 0x74, 0x65]
    case ObjectsTotalCount => [0x4f, 0x62, 0x6a, 0x65, 0x63, 0x74, 0x73, 0x54, 0x6f, 0x74, 0x61, 0x6c, 0x43, 0x6f, 0x75, 0x6e, 0x74]
    case ObjectsTotalSize => [0x4f, 0x62, 0x6a, 0x65, 0x63, 0x74, 0x73, 0x54, 0x6f, 0x74, 0x61, 0x6c, 0x53, 0x69, 0x7a, 0x65]
    case ItemsHealed => [0x49, 0x74, 0x65, 0x6d, 0x73, 0x48, 0x65, 0x61, 0x6c, 0x65, 0x64]
    case ItemsFailed => [0x49, 0x74, 0x65, 0x6d, 0x73, 0x46, 0x61, 0x69, 0x6c, 0x65, 0x64]
    case BytesDone => [0x42, 0x79, 0x74, 0x65, 0x73, 0x44, 0x6f, 0x6e, 0x65]
    case BytesFailed => [0x42, 0x79, 0x74, 0x65, 0x73, 0x46, 0x61, 0x69, 0x6c, 0x65, 0x64]
    case Bucket => [0x42, 0x75, 0x63, 0x6b, 0x65, 0x74]
    case Object => [0x4f, 0x62, 0x6a, 0x65, 0x63, 0x74]
    case ResumeItemsHealed => [0x52, 0x65, 0x73, 0x75, 0x6d, 0x65, 0x49, 0x74, 0x65, 0x6d, 0x73, 0x48, 0x65, 0x61, 0x6c, 0x65, 0x64]
    case ResumeItemsFailed => [0x52, 0x65, 0x73, 0x75, 0x6d, 0x65, 0x49, 0x74, 0x65, 0x6d, 0x73, 0x46, 0x61, 0x69, 0x6c, 0x65, 0x64]
    case ResumeBytesDone => [0x52, 0x65, 0x73, 0x75, 0x6d, 0x65, 0x42, 0x79, 0x74, 0x65, 0x73, 0x44, 0x6f, 0x6e, 0x65]
    case ResumeBytesFailed => [0x52, 0x65, 0x73, 0x75, 0x6d, 0x65, 0x42, 0x79, 0x74, 0x65, 0x73, 0x46, 0x61, 0x69, 0x6c, 0x65, 0x64]
    case QueuedBuckets => [0x51, 0x75, 0x65, 0x75, 0x65, 0x64, 0x42, 0x75, 0x63, 0x6b, 0x65, 0x74, 0x73]
    case HealedBuckets => [0x48, 0x65, 0x61, 0x6c, 0x65, 0x64, 0x42, 0x75, 0x63, 0x6b, 0x65, 0x74, 0x73]
  }

  /** The switch on the key read from the buffer. */
  function FieldOf(key: Bytes): Option<Field> {
    if key == Name(ID) then Some(ID)
    else if key == Name(PoolIndex) then Some(PoolIndex)
    else if key == Name(SetIndex) then Some(SetIndex)
    else if key == Name(DiskIndex) then Some(DiskIndex)
    else if key == Name(Path) then Some(Path)
    else if key == Name(Endpoint) then Some(Endpoint)
    else if key == Name(Started) then Some(Started)
    else if key == Name(LastUpdate) then Some(LastUpdate)
    else if key == Name(ObjectsTotalCount) then Some(ObjectsTotalCount)
    else if key == Name(ObjectsTotalSize) then Some(ObjectsTotalSize)
    else if key == Name(ItemsHealed) then Some(ItemsHealed)
    else if key == Name(ItemsFailed) then Some(ItemsFailed)
    else if key == Name(BytesDone) then Some(BytesDone)
    else if key == Name(BytesFailed) then Some(BytesFailed)
    else if key == Name(Bucket) then Some(Bucket)
    else if key == Name(Object) then Some(Object)
    else if key == Name(ResumeItemsHealed) then Some(ResumeItemsHealed)
    else if key == Name(ResumeItemsFailed) then Some(ResumeItemsFailed)
    else if key == Name(ResumeBytesDone) then Some(ResumeBytesDone)
    else if key == Name(ResumeBytesFailed) then Some(ResumeBytesFailed)
    else if key == Name(QueuedBuckets) then Some(QueuedBuckets)
    else if key == Name(HealedBuckets) then Some(HealedBuckets)
    else None
  }

  lemma FieldOfName(f: Field)
    ensures FieldOf(Name(f)) == Some(f)
  {
    if f.ID? || f.PoolIndex? || f.SetIndex? || f.DiskIndex? || f.Path? || f.Endpoint? || f.Started? || f.LastUpdate? {
      FieldOfIdentity(f);
    } else if f.ResumeItemsHealed? || f.ResumeItemsFailed? || f.ResumeBytesDone? || f.ResumeBytesFailed?
              || f.QueuedBuckets? || f.HealedBuckets? {
      FieldOfResume(f);
    } else {
      FieldOfProgress(f);
    }
  }

  lemma FieldOfIdentity(f: Field)
    requires f == ID || f == PoolIndex || f == SetIndex || f == DiskIndex || f == Path || f == Endpoint || f == Started || f == LastUpdate
    ensures FieldOf(Name(f)) == Some(f)
  {
  }

  lemma FieldOfProgress(f: Field)
    requires f == ObjectsTotalCount || f == ObjectsTotalSize || f == ItemsHealed || f == ItemsFailed || f == BytesDone || f == BytesFailed || f == Bucket || f == Object
    ensures FieldOf(Name(f)) == Some(f)
  {
  }

  lemma FieldOfResume(f: Field)
    requires f == ResumeItemsHealed || f == ResumeItemsFailed || f == ResumeBytesDone || f == ResumeBytesFailed || f == QueuedBuckets || f == HealedBuckets
    ensures FieldOf(Name(f)) == Some(f)
  {
  }

  // ---------- values ----------

  /** Lengths fit in 32 bits and times in 64, as the formats require. */
  ghost predicate Fits(v: Value) {
    match v
    case StrV(x) => |x| < MAX_LENGTH
    case TimeV(t) => Timestamp(t)
    case ListV(l) => |l| < MAX_LENGTH && forall i :: 0 <= i < |l| ==> |l[i]| < MAX_LENGTH
    case _ => true
  }

  ghost predicate Encodable(t: Tracker) {
    forall f :: Fits(Get(t, f))
  }

  function AppendStrings(ss: seq<Bytes>): Bytes {
    if ss == [] then [] else AppendString(ss[0]) + AppendStrings(ss[1..])
  }

  function AppendValue(v: Value): Bytes {
    match v
    case StrV(x) => AppendString(x)
    case IntV(i) => AppendInt64(i)
    case UintV(u) => AppendUint64(u)
    case TimeV(t) => AppendTime(t)
    case ListV(l) => AppendArrayHeader(|l|) + AppendStrings(l)
  }

  function ReadStrings(n: nat, b: Bytes): Parsed<seq<Bytes>>
    decreases n
  {
    if n == 0 then Got([], b)
    else
      var p := ReadString(b);
      if p.Malformed? then Malformed
      else
        Prefixed([p.value], ReadStrings(n - 1, p.rest))
  }

  /** Strings read earlier put in front of those read next. */
  function Prefixed(l: seq<Bytes>, p: Parsed<seq<Bytes>>): Parsed<seq<Bytes>> {
    if p.Malformed? then Malformed else Got(l + p.value, p.rest)
  }

  lemma PrefixedTwice(l: seq<Bytes>, x: Bytes, p: Parsed<seq<Bytes>>)
    ensures Prefixed(l, Prefixed([x], p)) == Prefixed(l + [x], p)
  {
    if p.Got? { ConcatAssoc(l, [x], p.value); }
  }

  lemma PrefixedNothing(p: Parsed<seq<Bytes>>)
    ensures Prefixed([], p) == p
  {
    if p.Got? { assert [] + p.value == p.value; }
  }

  function ReadList(b: Bytes): Parsed<seq<Bytes>> {
    var h := ReadArrayHeader(b);
    if h.Malformed? then Malformed else ReadStrings(h.value, h.rest)
  }

  /** Reads what the field's type asks for. */
  function ReadValue(k: Kind, b: Bytes): (p: Parsed<Value>)
    ensures p.Got? ==> KindOfValue(p.value) == k
  {
    match k
    case Str => (var p := ReadString(b); if p.Got? then Got(StrV(p.value), p.rest) else Malformed)
    case Int => (var p := ReadInt64(b); if p.Got? then Got(IntV(p.value), p.rest) else Malformed)
    case Uint => (var p := ReadUint64(b); if p.Got? then Got(UintV(p.value), p.rest) else Malformed)
    case Time => (var p := ReadTime(b); if p.Got? then Got(TimeV(p.value), p.rest) else Malformed)
    case List => (var p := ReadList(b); if p.Got? then Got(ListV(p.value), p.rest) else Malformed)
  }

  lemma {:induction false} StringsRoundTrip(ss: seq<Bytes>, rest: Bytes)
    requires forall i :: 0 <= i < |ss| ==> |ss[i]| < MAX_LENGTH
    ensures ReadStrings(|ss|, AppendStrings(ss) + rest) == Got(ss, rest)
    decreases |ss|
  {
    if ss == [] {
      assert AppendStrings(ss) + rest == rest;
    } else {
      var more := AppendStrings(ss[1..]) + rest;
      ConcatAssoc(AppendString(ss[0]), AppendStrings(ss[1..]), rest);
      StringRoundTrip(ss[0], more);
      StringsRoundTrip(ss[1..], rest);
      assert ss == [ss[0]] + ss[1..];
    }
  }

  lemma ValueRoundTrip(v: Value, rest: Bytes)
    requires Fits(v)
    ensures ReadValue(KindOfValue(v), AppendValue(v) + rest) == Got(v, rest)
  {
    match v
    case StrV(x) => StringRoundTrip(x, rest);
    case IntV(i) => Int64RoundTrip(i, rest);
    case UintV(u) => Uint64RoundTrip(u, rest);
    case TimeV(t) => TimeRoundTrip(t, rest);
    case ListV(l) => ListRoundTrip(l, rest);
  }

  lemma {:induction false} ListRoundTrip(l: seq<Bytes>, rest: Bytes)
    requires Fits(ListV(l))
    ensures ReadList(AppendArrayHeader(|l|) + AppendStrings(l) + rest) == Got(l, rest)
  {
    var b, more := AppendArrayHeader(|l|) + AppendStrings(l) + rest, AppendStrings(l) + rest;
    assert ReadArrayHeader(b) == Got(|l|, more) by {
      ConcatAssoc(AppendArrayHeader(|l|), AppendStrings(l), rest);
      ArrayHeaderRoundTrip(|l|, more);
    }
    assert ReadStrings(|l|, more) == Got(l, rest) by { StringsRoundTrip(l, rest); }
  }

  // ---------- map entries ----------

  /** An entry of the encoded map: a field with its value, or a key this version does not know. */
  datatype Entry =
    | Known(field: Field, value: Value)
    | Unknown(key: Bytes, obj: Obj.Object)

  ghost predicate WellFormed(e: Entry) {
    match e
    case Known(f, v) => KindOfValue(v) == KindOf(f) && Fits(v)
    case Unknown(key, obj) => |key| < MAX_LENGTH && FieldOf(key) == None && Obj.Fits(obj)
  }

  ghost predicate AllWellFormed(es: seq<Entry>) {
    forall i :: 0 <= i < |es| ==> WellFormed(es[i])
  }

  ghost function EntryBytes(e: Entry): Bytes
    requires WellFormed(e)
  {
    match e
    case Known(f, v) => AppendString(Name(f)) + AppendValue(v)
    case Unknown(key, obj) => AppendString(key) + Obj.Encode(obj)
  }

  ghost function EntriesBytes(es: seq<Entry>): Bytes
    requires AllWellFormed(es)
    decreases |es|
  {
    if es == [] then [] else EntryBytes(es[0]) + EntriesBytes(es[1..])
  }

  ghost function PutEntry(t: Tracker, e: Entry): Tracker
    requires WellFormed(e)
  {
    if e.Known? then Put(t, e.field, e.value) else t
  }

  /** The fields of the entries assigned in order. */
  ghost function PutAll(t: Tracker, es: seq<Entry>): Tracker
    requires AllWellFormed(es)
    decreases |es|
  {
    if es == [] then t else PutAll(PutEntry(t, es[0]), es[1..])
  }

  /** One round of the decoding loop: the entry at the front assigned to the tracker, and what follows it. */
  function DecodeEntry(z: Tracker, b: Bytes): Parsed<Tracker> {
    var key := ReadMapKey(b);
    if key.Malformed? then Malformed
    else match FieldOf(key.value)
      case None =>
        var s := Skip(key.rest, 1);
        if s.Malformed? then Malformed else Got(z, s.rest)
      case Some(f) =>
        var v := ReadValue(KindOf(f), key.rest);
        if v.Malformed? then Malformed else Got(Put(z, f, v.value), v.rest)
  }

  /** The decoding loop with any way to read one entry. */
  function Repeat(read: (Tracker, Bytes) -> Parsed<Tracker>, z: Tracker, n: nat, b: Bytes): Parsed<Tracker>
    decreases n
  {
    if n == 0 then Got(z, b)
    else
      var p := read(z, b);
      if p.Malformed? then Malformed else Repeat(read, p.value, n - 1, p.rest)
  }

  function DecodeFields(z: Tracker, n: nat, b: Bytes): Parsed<Tracker> {
    Repeat(DecodeEntry, z, n, b)
  }

  function DecodeTracker(z: Tracker, b: Bytes): Parsed<Tracker> {
    var h := ReadMapHeader(b);
    if h.Malformed? then Malformed else DecodeFields(z, h.value, h.rest)
  }

  lemma EntryRoundTrip(z: Tracker, e: Entry, rest: Bytes)
    requires WellFormed(e)
    ensures DecodeEntry(z, EntryBytes(e) + rest) == Got(PutEntry(z, e), rest)
  {
    match e
    case Known(f, v) =>
      ConcatAssoc(AppendString(Name(f)), AppendValue(v), rest);
      StringIsMapKey(Name(f), AppendValue(v) + rest);
      FieldOfName(f);
      ValueRoundTrip(v, rest);
    case Unknown(key, obj) =>
      ConcatAssoc(AppendString(key), Obj.Encode(obj), rest);
      StringIsMapKey(key, Obj.Encode(obj) + rest);
      var b := Obj.SkipFront(obj, rest);
  }

  lemma {:induction false} EntriesRoundTrip(z: Tracker, es: seq<Entry>, rest: Bytes)
    requires AllWellFormed(es)
    ensures DecodeFields(z, |es|, EntriesBytes(es) + rest) == Got(PutAll(z, es), rest)
    decreases |es|
  {
    if es == [] {
      assert EntriesBytes(es) + rest == rest;
    } else {
      var more := EntriesBytes(es[1..]) + rest;
      ConcatAssoc(EntryBytes(es[0]), EntriesBytes(es[1..]), rest);
      EntryRoundTrip(z, es[0], more);
      EntriesRoundTrip(PutEntry(z, es[0]), es[1..], rest);
    }
  }

  function MapHeader(n: nat): Bytes
    requires n < MAX_LENGTH
  {
    if n < 16 then [0x80 + n]
    else if n < 0x1_0000 then Tagged(0xde, 2, n)
    else Tagged(0xdf, 4, n)
  }

  lemma MapHeaderRoundTrip(n: nat, rest: Bytes)
    requires n < MAX_LENGTH
    ensures ReadMapHeader(MapHeader(n) + rest) == Got(n, rest)
  {
    Pow256Values();
    if n < 16 {
      assert ([0x80 + n] + rest)[1..] == rest;
    } else if n < 0x1_0000 {
      ReadTagged(0xde, 2, n, rest);
    } else {
      ReadTagged(0xdf, 4, n, rest);
    }
  }

  // ---------- any encoding of a tracker ----------

  /** The value that the last entry for a field gives it. */
  ghost function LastValue(es: seq<Entry>, f: Field): Option<Value> {
    if es == [] then None
    else
      var later := LastValue(es[1..], f);
      if later.Some? then later
      else if es[0].Known? && es[0].field == f then Some(es[0].value)
      else None
  }

  /** The entries give every field its value in `t` last, whatever they gave it before. */
  ghost predicate Carries(es: seq<Entry>, t: Tracker) {
    AllWellFormed(es) && forall f :: LastValue(es, f) == Some(Get(t, f))
  }

  /** The last entry for a field decides; a field without an entry keeps what the tracker held. */
  lemma {:induction false} PutAllGets(z: Tracker, es: seq<Entry>, f: Field)
    requires AllWellFormed(es)
    ensures Get(PutAll(z, es), f) == if LastValue(es, f).Some? then LastValue(es, f).value else Get(z, f)
    decreases |es|
  {
    if es != [] {
      PutAllGets(PutEntry(z, es[0]), es[1..], f);
      if es[0].Known? { GetAfterPut(z, es[0].field, es[0].value, f); }
    }
  }

  /** Entries that agree with `t` give it for every field they mention. */
  lemma {:induction false} AgreeingLast(es: seq<Entry>, t: Tracker, f: Field, k: nat)
    requires forall i :: 0 <= i < |es| && es[i].Known? ==> es[i].value == Get(t, es[i].field)
    requires k < |es| && es[k].Known? && es[k].field == f
    ensures LastValue(es, f) == Some(Get(t, f))
    decreases |es|
  {
    if k > 0 {
      assert es[1..][k - 1] == es[k];
      AgreeingLast(es[1..], t, f, k - 1);
    } else {
      LastAgrees(es[1..], t, f);
    }
  }

  lemma {:induction false} LastAgrees(es: seq<Entry>, t: Tracker, f: Field)
    requires forall i :: 0 <= i < |es| && es[i].Known? ==> es[i].value == Get(t, es[i].field)
    ensures LastValue(es, f).Some? ==> LastValue(es, f).value == Get(t, f)
    decreases |es|
  {
    if es != [] { LastAgrees(es[1..], t, f); }
  }

  /**
   Reordered, repeated and unknown keys: any map whose last entry for every field gives it the value in
   `t` decodes to `t`, whatever the tracker held before, and leaves exactly the bytes that follow.
   */
  lemma AnyOrderDecodes(z: Tracker, es: seq<Entry>, t: Tracker, rest: Bytes)
    requires Carries(es, t) && |es| < MAX_LENGTH
    ensures DecodeTracker(z, MapHeader(|es|) + EntriesBytes(es) + rest) == Got(t, rest)
  {
    var more := EntriesBytes(es) + rest;
    ConcatAssoc(MapHeader(|es|), EntriesBytes(es), rest);
    MapHeaderRoundTrip(|es|, more);
    EntriesRoundTrip(z, es, rest);
    forall f ensures Get(PutAll(z, es), f) == Get(t, f) {
      PutAllGets(z, es, f);
    }
    SameFieldsSameTracker(PutAll(z, es), t);
  }

  // ---------- the encoder ----------

  const NUM_FIELDS: nat := 22

  /** A map of 22 entries. */
  const HEADER: Bytes := [0xde, 0x00, 0x16]

  /** The order in which the fields are written. */
  function FieldAt(i: nat): Field
    requires i < NUM_FIELDS
  {
    match i
    case 0 => ID
    case 1 => PoolIndex
    case 2 => SetIndex
    case 3 => DiskIndex
    case 4 => Path
    case 5 => Endpoint
    case 6 => Started
    case 7 => LastUpdate
    case 8 => ObjectsTotalCount
    case 9 => ObjectsTotalSize
    case 10 => ItemsHealed
    case 11 => ItemsFailed
    case 12 => BytesDone
    case 13 => BytesFailed
    case 14 => Bucket
    case 15 => Object
    case 16 => ResumeItemsHealed
    case 17 => ResumeItemsFailed
    case 18 => ResumeBytesDone
    case 19 => ResumeBytesFailed
    case 20 => QueuedBuckets
    case _ => HealedBuckets
  }

  function PositionOf(f: Field): (i: nat)
    ensures i < NUM_FIELDS && FieldAt(i) == f
  {
    match f
    case ID => 0
    case PoolIndex => 1
    case SetIndex => 2
    case DiskIndex => 3
    case Path => 4
    case Endpoint => 5
    case Started => 6
    case LastUpdate => 7
    case ObjectsTotalCount => 8
    case ObjectsTotalSize => 9
    case ItemsHealed => 10
    case ItemsFailed => 11
    case BytesDone => 12
    case BytesFailed => 13
    case Bucket => 14
    case Object => 15
    case ResumeItemsHealed => 16
    case ResumeItemsFailed => 17
    case ResumeBytesDone => 18
    case ResumeBytesFailed => 19
    case QueuedBuckets => 20
    case HealedBuckets => 21
  }

  /** The first `k` fields fit. */
  ghost predicate FirstFit(t: Tracker, k: nat)
    requires k <= NUM_FIELDS
  {
    forall i :: 0 <= i < k ==> Fits(Get(t, FieldAt(i)))
  }

  ghost function FieldEntries(t: Tracker, k: nat): (es: seq<Entry>)
    requires k <= NUM_FIELDS && FirstFit(t, k)
    ensures |es| == k && AllWellFormed(es)
    ensures forall i :: 0 <= i < k ==> es[i] == Known(FieldAt(i), Get(t, FieldAt(i)))
  {
    if k == 0 then []
    else
      assert Fits(Get(t, FieldAt(k - 1)));
      FieldEntries(t, k - 1) + [Known(FieldAt(k - 1), Get(t, FieldAt(k - 1)))]
  }

  ghost function FieldBytes(t: Tracker, f: Field): Bytes {
    AppendString(Name(f)) + AppendValue(Get(t, f))
  }

  /** What MarshalMsg has written after `k` fields. */
  ghost function EncodedPrefix(t: Tracker, k: nat): Bytes
    requires k <= NUM_FIELDS
  {
    if k == 0 then HEADER else EncodedPrefix(t, k - 1) + FieldBytes(t, FieldAt(k - 1))
  }

  ghost function Encode(t: Tracker): Bytes {
    EncodedPrefix(t, NUM_FIELDS)
  }

  lemma {:induction false} EntriesSnoc(es: seq<Entry>, e: Entry)
    requires AllWellFormed(es) && WellFormed(e)
    ensures AllWellFormed(es + [e]) && EntriesBytes(es + [e]) == EntriesBytes(es) + EntryBytes(e)
    decreases |es|
  {
    if es == [] {
      assert es + [e] == [e] && [e][1..] == [];
    } else {
      var first, more := EntryBytes(es[0]), EntriesBytes(es[1..]);
      calc {
        EntriesBytes(es + [e]);
        { assert (es + [e])[0] == es[0] && (es + [e])[1..] == es[1..] + [e]; }
        first + EntriesBytes(es[1..] + [e]);
        { EntriesSnoc(es[1..], e); }
        first + (more + EntryBytes(e));
        { ConcatAssoc(first, more, EntryBytes(e)); }
        (first + more) + EntryBytes(e);
        EntriesBytes(es) + EntryBytes(e);
      }
    }
  }

  lemma EntriesGrow(t: Tracker, es: seq<Entry>, f: Field)
    requires Fits(Get(t, f)) && AllWellFormed(es)
    ensures var e := Known(f, Get(t, f));
            && AllWellFormed(es + [e])
            && (HEADER + EntriesBytes(es)) + FieldBytes(t, f) == HEADER + EntriesBytes(es + [e])
  {
    var e := Known(f, Get(t, f));
    assert WellFormed(e);
    EntriesSnoc(es, e);
    ConcatAssoc(HEADER, EntriesBytes(es), EntryBytes(e));
  }

  lemma {:induction false} PrefixIsEntries(t: Tracker, k: nat) returns (es: seq<Entry>)
    requires k <= NUM_FIELDS && FirstFit(t, k)
    ensures es == FieldEntries(t, k)
    ensures EncodedPrefix(t, k) == HEADER + EntriesBytes(es)
  {
    if k == 0 {
      es := [];
    } else {
      es := PrefixIsEntries(t, k - 1);
      es := PrefixGrows(t, k, es);
    }
  }

  lemma {:induction false} PrefixGrows(t: Tracker, k: nat, es: seq<Entry>) returns (es': seq<Entry>)
    requires 0 < k <= NUM_FIELDS && FirstFit(t, k) && es == FieldEntries(t, k - 1)
    requires EncodedPrefix(t, k - 1) == HEADER + EntriesBytes(es)
    ensures es' == FieldEntries(t, k)
    ensures EncodedPrefix(t, k) == HEADER + EntriesBytes(es')
  {
    es' := PrefixGrowsBy(t, k, es, FieldAt(k - 1));
  }

  lemma {:induction false} PrefixGrowsBy(t: Tracker, k: nat, es: seq<Entry>, f: Field) returns (es': seq<Entry>)
    requires 0 < k <= NUM_FIELDS && FirstFit(t, k) && f == FieldAt(k - 1) && es == FieldEntries(t, k - 1)
    requires EncodedPrefix(t, k - 1) == HEADER + EntriesBytes(es)
    ensures es' == FieldEntries(t, k)
    ensures EncodedPrefix(t, k) == HEADER + EntriesBytes(es')
  {
    es' := es + [Known(f, Get(t, f))];
    FieldEntriesGrow(t, k, es, f);
    calc {
      EncodedPrefix(t, k);
      (HEADER + EntriesBytes(es)) + FieldBytes(t, f);
      { EntriesGrow(t, es, f); }
      HEADER + EntriesBytes(es');
    }
  }

  lemma FieldEntriesGrow(t: Tracker, k: nat, es: seq<Entry>, f: Field)
    requires 0 < k <= NUM_FIELDS && FirstFit(t, k) && f == FieldAt(k - 1) && es == FieldEntries(t, k - 1)
    ensures FieldEntries(t, k) == es + [Known(f, Get(t, f))]
  {
  }

  lemma {:induction false} StringsSnoc(ss: seq<Bytes>, x: Bytes)
    ensures AppendStrings(ss + [x]) == AppendStrings(ss) + AppendString(x)
    decreases |ss|
  {
    if ss == [] {
      assert ss + [x] == [x] && [x][1..] == [];
      assert AppendStrings([x]) == AppendString(x) + [] == [] + AppendString(x);
    } else {
      calc {
        AppendStrings(ss + [x]);
        { assert (ss + [x])[0] == ss[0] && (ss + [x])[1..] == ss[1..] + [x]; }
        AppendString(ss[0]) + AppendStrings(ss[1..] + [x]);
        { StringsSnoc(ss[1..], x); }
        AppendString(ss[0]) + (AppendStrings(ss[1..]) + AppendString(x));
        { ConcatAssoc(AppendString(ss[0]), AppendStrings(ss[1..]), AppendString(x)); }
        AppendStrings(ss) + AppendString(x);
      }
    }
  }

  method AppendStringList(b: Bytes, l: seq<Bytes>) returns (o: Bytes)
    ensures o == b + AppendValue(ListV(l))
  {
    o := b + AppendArrayHeader(|l|);
    for i := 0 to |l|
      invariant o == b + (AppendArrayHeader(|l|) + AppendStrings(l[..i]))
    {
      var before := AppendStrings(l[..i]);
      assert AppendStrings(l[..i + 1]) == before + AppendString(l[i]) by {
        StringsSnoc(l[..i], l[i]);
        assert l[..i + 1] == l[..i] + [l[i]];
      }
      ConcatAssoc(b, AppendArrayHeader(|l|) + before, AppendString(l[i]));
      ConcatAssoc(AppendArrayHeader(|l|), before, AppendString(l[i]));
      o := o + AppendString(l[i]);
    }
    assert l[..|l|] == l;
  }

  /** Key and value of one field. */
  method AppendField(b: Bytes, t: Tracker, f: Field) returns (o: Bytes)
    ensures o == b + FieldBytes(t, f)
  {
    var v := Get(t, f);
    o := b + AppendString(Name(f));
    if v.ListV? {
      o := AppendStringList(o, v.list);
    } else {
      o := o + AppendValue(v);
    }
    ConcatAssoc(b, AppendString(Name(f)), AppendValue(v));
  }

  /** MarshalMsg: appends the encoded tracker to `b`; lengths of 2^32 and more wrap. */
  method MarshalMsg(b: Bytes, t: Tracker) returns (o: Bytes)
    ensures o == b + Encode(t)
  {
    o := b + HEADER;
    for k := 0 to NUM_FIELDS
      invariant o == b + EncodedPrefix(t, k)
    {
      o := AppendField(o, t, FieldAt(k));
      ConcatAssoc(b, EncodedPrefix(t, k), FieldBytes(t, FieldAt(k)));
    }
  }

  lemma FittingRoundTrip(z: Tracker, t: Tracker, rest: Bytes)
    requires Encodable(t)
    ensures DecodeTracker(z, Encode(t) + rest) == Got(t, rest)
  {
    var es := FieldEntries(t, NUM_FIELDS);
    forall f ensures LastValue(es, f) == Some(Get(t, f)) {
      AgreeingLast(es, t, f, PositionOf(f));
    }
    HeaderIsMapHeader();
    AnyOrderDecodes(z, es, t, rest);
    var all := PrefixIsEntries(t, NUM_FIELDS);
  }

  lemma HeaderIsMapHeader()
    ensures MapHeader(NUM_FIELDS) == HEADER
  {
    assert BigEndian(2, 22) == BigEndian(1, 0) + [22] && BigEndian(1, 0) == BigEndian(0, 0) + [0];
  }

  // ---------- lengths that do not fit ----------

  /** Lengths within 32 bits, which is what a decoder can read. */
  predicate Short(v: Value) {
    match v
    case StrV(x) => |x| < MAX_LENGTH
    case ListV(l) => |l| < MAX_LENGTH && forall i :: 0 <= i < |l| ==> |l[i]| < MAX_LENGTH
    case _ => true
  }

  /** Times are 64-bit seconds by their type. */
  ghost predicate TimesFit(t: Tracker) {
    forall f :: Get(t, f).TimeV? ==> Timestamp(Get(t, f).time)
  }

  lemma {:induction false} ReadStringsShort(n: nat, b: Bytes)
    ensures var p := ReadStrings(n, b);
            p.Got? ==> |p.value| == n && forall i :: 0 <= i < n ==> |p.value[i]| < MAX_LENGTH
    decreases n
  {
    if n > 0 {
      LengthsAreShort(b);
      var p := ReadString(b);
      if p.Got? { ReadStringsShort(n - 1, p.rest); }
    }
  }

  lemma ReadIsShort(k: Kind, b: Bytes)
    ensures ReadValue(k, b).Got? ==> Short(ReadValue(k, b).value)
  {
    LengthsAreShort(b);
    if k == List {
      var h := ReadArrayHeader(b);
      if h.Got? { ReadStringsShort(h.value, h.rest); }
    }
  }

  /** What every entry keeps of a tracker, decoding keeps. */
  lemma {:induction false} RepeatKeeps(
    read: (Tracker, Bytes) -> Parsed<Tracker>, keeps: Tracker -> bool, z: Tracker, n: nat, b: Bytes)
    requires keeps(z)
    requires forall z', b' :: keeps(z') && read(z', b').Got? ==> keeps(read(z', b').value)
    ensures Repeat(read, z, n, b).Malformed? || keeps(Repeat(read, z, n, b).value)
    decreases n
  {
    if n > 0 {
      var p := read(z, b);
      if p.Got? { RepeatKeeps(read, keeps, p.value, n - 1, p.rest); }
    }
  }

  /** A field that was short stays short whatever is decoded. */
  lemma DecodeKeepsShort(z: Tracker, b: Bytes, f: Field)
    requires Short(Get(z, f))
    ensures DecodeTracker(z, b).Malformed? || Short(Get(DecodeTracker(z, b).value, f))
  {
    var keeps := (t: Tracker) => Short(Get(t, f));
    forall z', b' | keeps(z') && DecodeEntry(z', b').Got? ensures keeps(DecodeEntry(z', b').value) {
      EntryKeepsShort(z', b', f, DecodeEntry(z', b'));
    }
    var h := ReadMapHeader(b);
    if h.Got? {
      RepeatKeeps(DecodeEntry, keeps, z, h.value, h.rest);
    }
  }

  lemma EntryKeepsShort(z: Tracker, b: Bytes, f: Field, p: Parsed<Tracker>)
    requires Short(Get(z, f)) && p == DecodeEntry(z, b) && p.Got?
    ensures Short(Get(p.value, f))
  {
    var key := ReadMapKey(b);
    var g := FieldOf(key.value);
    if g.Some? {
      ReadIsShort(KindOf(g.value), key.rest);
      GetAfterPut(z, g.value, ReadValue(KindOf(g.value), key.rest).value, f);
    }
  }

  /**
   UnmarshalMsg(MarshalMsg(t) ++ rest) returns the persisted fields of `t` and exactly `rest` for every
   tracker whose strings and lists are shorter than 2^32, and for no other unless the tracker decoded
   into held such a length before.
   */
  lemma RoundTrip(z: Tracker, t: Tracker, rest: Bytes)
    requires TimesFit(t)
    ensures (forall f :: Short(Get(t, f))) ==> DecodeTracker(z, Encode(t) + rest) == Got(t, rest)
    ensures (forall f :: Short(Get(z, f))) && DecodeTracker(z, Encode(t) + rest) == Got(t, rest) ==>
              forall f :: Short(Get(t, f))
  {
    if forall f :: Short(Get(t, f)) {
      forall f ensures Fits(Get(t, f)) {
        assert Short(Get(t, f));
      }
      FittingRoundTrip(z, t, rest);
    } else if forall f :: Short(Get(z, f)) {
      var f :| !Short(Get(t, f));
      DecodeKeepsShort(z, Encode(t) + rest, f);
    }
  }

  // ---------- the decoder ----------

  /** One string read off a list of `n`. */
  lemma StringRound(all: Parsed<seq<Bytes>>, l: seq<Bytes>, n: nat, rest: Bytes)
    requires n > 0 && all == Prefixed(l, ReadStrings(n, rest))
    ensures var x := ReadString(rest);
            if x.Malformed? then all == Malformed else all == Prefixed(l + [x.value], ReadStrings(n - 1, x.rest))
  {
    var x := ReadString(rest);
    if x.Got? {
      PrefixedTwice(l, x.value, ReadStrings(n - 1, x.rest));
    }
  }

  method ReadStringList(b: Bytes) returns (p: Parsed<seq<Bytes>>)
    ensures p == ReadList(b)
  {
    var h := ReadArrayHeader(b);
    if h.Malformed? {
      return Malformed;
    }
    var l: seq<Bytes>, rest := [], h.rest;
    ghost var all := ReadStrings(h.value, h.rest);
    PrefixedNothing(all);
    for i := 0 to h.value
      invariant all == Prefixed(l, ReadStrings(h.value - i, rest))
    {
      StringRound(all, l, h.value - i, rest);
      var x := ReadString(rest);
      if x.Malformed? {
        return Malformed;
      }
      l, rest := l + [x.value], x.rest;
    }
    assert l + [] == l;
    return Got(l, rest);
  }

  method ReadField(f: Field, b: Bytes) returns (p: Parsed<Value>)
    ensures p == ReadValue(KindOf(f), b)
  {
    if KindOf(f) != List {
      return ReadValue(KindOf(f), b);
    }
    var l := ReadStringList(b);
    return if l.Malformed? then Malformed else Got(ListV(l.value), l.rest);
  }

  /** UnmarshalMsg: assigns the fields found to `z0` and returns the bytes after the map. */
  method UnmarshalMsg(z0: Tracker, b: Bytes) returns (p: Parsed<Tracker>)
    ensures p == DecodeTracker(z0, b)
  {
    var h := ReadMapHeader(b);
    if h.Malformed? {
      return Malformed;
    }
    var z, bts, left := z0, h.rest, h.value;
    while left > 0
      invariant DecodeTracker(z0, b) == DecodeFields(z, left, bts)
    {
      left := left - 1;
      var key := ReadMapKey(bts);
      if key.Malformed? {
        return Malformed;
      }
      bts := key.rest;
      match FieldOf(key.value) {
        case None =>
          var s := Skip(bts, 1);
          if s.Malformed? {
            return Malformed;
          }
          bts := s.rest;
        case Some(f) =>
          var v := ReadField(f, bts);
          if v.Malformed? {
            return Malformed;
          }
          z, bts := Put(z, f, v.value), v.rest;
      }
    }
    return Got(z, bts);
  }

  // ---------- the size estimate ----------

  const STRING_PREFIX_SIZE: nat := 5
  const INT_SIZE: nat := 9
  const UINT64_SIZE: nat := 9
  const TIME_SIZE: nat := 15
  const ARRAY_HEADER_SIZE: nat := 5

  function StringsSize(ss: seq<Bytes>): nat {
    if ss == [] then 0 else STRING_PREFIX_SIZE + |ss[0]| + StringsSize(ss[1..])
  }

  function ValueSize(v: Value): nat {
    match v
    case StrV(x) => STRING_PREFIX_SIZE + |x|
    case IntV(_) => INT_SIZE
    case UintV(_) => UINT64_SIZE
    case TimeV(_) => TIME_SIZE
    case ListV(l) => ARRAY_HEADER_SIZE + StringsSize(l)
  }

  /** Size of a field's key, as the generated estimate counts it. */
  function KeySize(f: Field): nat {
    match f
    case ID => 3
    case PoolIndex => 10
    case SetIndex => 9
    case DiskIndex => 10
    case Path => 5
    case Endpoint => 9
    case Started => 8
    case LastUpdate => 11
    case ObjectsTotalCount => 18
    case ObjectsTotalSize => 17
    case ItemsHealed => 12
    case ItemsFailed => 12
    case BytesDone => 10
    case BytesFailed => 12
    case Bucket => 7
    case Object => 7
    case ResumeItemsHealed => 18
    case ResumeItemsFailed => 18
    case ResumeBytesDone => 16
    case ResumeBytesFailed => 18
    case QueuedBuckets => 14
    case HealedBuckets => 14
  }

  lemma KeySizeIsKeyLength(f: Field)
    ensures KeySize(f) == |AppendString(Name(f))|
  {
  }

  /** The first `k` terms of the estimate. */
  function SizeOfFields(t: Tracker, k: nat): nat
    requires k <= NUM_FIELDS
  {
    if k == 0 then 3 else SizeOfFields(t, k - 1) + KeySize(FieldAt(k - 1)) + ValueSize(Get(t, FieldAt(k - 1)))
  }

  function Msgsize(t: Tracker): nat {
    SizeOfFields(t, NUM_FIELDS)
  }

  lemma {:induction false} StringsWithinSize(ss: seq<Bytes>)
    ensures |AppendStrings(ss)| <= StringsSize(ss)
    decreases |ss|
  {
    if ss != [] {
      StringsWithinSize(ss[1..]);
    }
  }

  lemma ValueWithinSize(v: Value)
    ensures |AppendValue(v)| <= ValueSize(v)
  {
    if v.ListV? { StringsWithinSize(v.list); }
  }

  lemma FieldWithinSize(t: Tracker, f: Field)
    ensures |FieldBytes(t, f)| <= KeySize(f) + ValueSize(Get(t, f))
  {
    KeySizeIsKeyLength(f);
    ValueWithinSize(Get(t, f));
  }

  lemma {:induction false} PrefixWithinSize(t: Tracker, k: nat)
    requires k <= NUM_FIELDS
    ensures |EncodedPrefix(t, k)| <= SizeOfFields(t, k)
  {
    if k > 0 {
      PrefixWithinSize(t, k - 1);
      FieldWithinSize(t, FieldAt(k - 1));
    }
  }

  /** The buffer MarshalMsg reserves is never too small. */
  lemma EncodedWithinMsgsize(t: Tracker)
    ensures |Encode(t)| <= Msgsize(t)
  {
    PrefixWithinSize(t, NUM_FIELDS);
  }

  // ---------- the names in the file ----------

  /** The names of the fields, as text. */
  function Text(f: Field): (s: string)
    ensures 0 < |s| < 32
  {
    match f
    case ID => "ID"
    case PoolIndex => "PoolIndex"
    case SetIndex => "SetIndex"
    case DiskIndex => "DiskIndex"
    case Path => "Path"
    case Endpoint => "Endpoint"
    case Started => "Started"
    case LastUpdate => "LastUpdate"
    case ObjectsTotalCount => "ObjectsTotalCount"
    case ObjectsTotalSize => "ObjectsTotalSize"
    case ItemsHealed => "ItemsHealed"
    case ItemsFailed => "ItemsFailed"
    case BytesDone => "BytesDone"
    case BytesFailed => "BytesFailed"
    case Bucket => "Bucket"
    case Object => "Object"
    case ResumeItemsHealed => "ResumeItemsHealed"
    case ResumeItemsFailed => "ResumeItemsFailed"
    case ResumeBytesDone => "ResumeBytesDone"
    case ResumeBytesFailed => "ResumeBytesFailed"
    case QueuedBuckets => "QueuedBuckets"
    case HealedBuckets => "HealedBuckets"
  }

  /** Fields are stored under their names in ASCII. */
  lemma NamesInAscii(f: Field, i: nat)
    requires i < |Text(f)|
    ensures |Name(f)| == |Text(f)| && Name(f)[i] == Text(f)[i] as int
  {
    match f
    case ResumeItemsHealed => ResumeNamesInAscii(f, i);
    case ResumeItemsFailed => ResumeNamesInAscii(f, i);
    case ResumeBytesDone => ResumeNamesInAscii(f, i);
    case ResumeBytesFailed => ResumeNamesInAscii(f, i);
    case ObjectsTotalCount => TotalNamesInAscii(f, i);
    case ObjectsTotalSize => TotalNamesInAscii(f, i);
    case QueuedBuckets => TotalNamesInAscii(f, i);
    case HealedBuckets => TotalNamesInAscii(f, i);
    case _ =>
  }

  lemma ResumeNamesInAscii(f: Field, i: nat)
    requires i < |Text(f)| && (f.ResumeItemsHealed? || f.ResumeItemsFailed? || f.ResumeBytesDone? || f.ResumeBytesFailed?)
    ensures |Name(f)| == |Text(f)| && Name(f)[i] == Text(f)[i] as int
  {
  }

  lemma TotalNamesInAscii(f: Field, i: nat)
    requires i < |Text(f)| && (f.ObjectsTotalCount? || f.ObjectsTotalSize? || f.QueuedBuckets? || f.HealedBuckets?)
    ensures |Name(f)| == |Text(f)| && Name(f)[i] == Text(f)[i] as int
  {
  }

  /** Strings, indexes, times and lists are the tracker's components of their names. */
  lemma NamesAndPlacesByField(t: Tracker)
    ensures Get(t, ID) == StrV(t.id)
    ensures Get(t, PoolIndex) == IntV(t.poolIndex)
    ensures Get(t, SetIndex) == IntV(t.setIndex)
    ensures Get(t, DiskIndex) == IntV(t.diskIndex)
    ensures Get(t, Path) == StrV(t.path)
    ensures Get(t, Endpoint) == StrV(t.endpoint)
    ensures Get(t, Started) == TimeV(t.started)
    ensures Get(t, LastUpdate) == TimeV(t.lastUpdate)
    ensures Get(t, Bucket) == StrV(t.bucket)
    ensures Get(t, Object) == StrV(t.objectName)
    ensures Get(t, QueuedBuckets) == ListV(t.queuedBuckets)
    ensures Get(t, HealedBuckets) == ListV(t.healedBuckets)
  {
  }

  /** So are the totals and the live counters. */
  lemma ProgressByField(t: Tracker)
    ensures Get(t, ObjectsTotalCount) == UintV(t.objectsTotalCount)
    ensures Get(t, ObjectsTotalSize) == UintV(t.objectsTotalSize)
    ensures Get(t, ItemsHealed) == UintV(t.itemsHealed)
    ensures Get(t, ItemsFailed) == UintV(t.itemsFailed)
    ensures Get(t, BytesDone) == UintV(t.bytesDone)
    ensures Get(t, BytesFailed) == UintV(t.bytesFailed)
  {
  }

  /** And the resume counters. */
  lemma ResumeByField(t: Tracker)
    ensures Get(t, ResumeItemsHealed) == UintV(t.resumeItemsHealed)
    ensures Get(t, ResumeItemsFailed) == UintV(t.resumeItemsFailed)
    ensures Get(t, ResumeBytesDone) == UintV(t.resumeBytesDone)
    ensures Get(t, ResumeBytesFailed) == UintV(t.resumeBytesFailed)
  {
  }

  // ---------- the file is one MessagePack object ----------

  /** Every encoded value is one object, so a reader that does not know its field skips exactly it. */
  lemma ValueIsObject(v: Value) returns (o: Obj.Object)
    requires Fits(v)
    ensures Obj.Fits(o) && Obj.Encode(o) == AppendValue(v)
  {
    match v
    case StrV(x) => o := StringObject(x);
    case IntV(i) => o := Int64Object(i);
    case UintV(u) => o := Uint64Object(u);
    case TimeV(t) => o := TimeObject(t);
    case ListV(l) => o := ListObject(l);
  }

  lemma {:induction false} ListObject(l: seq<Bytes>) returns (o: Obj.Object)
    requires Fits(ListV(l))
    ensures Obj.Fits(o) && Obj.Encode(o) == AppendArrayHeader(|l|) + AppendStrings(l)
  {
    var items := StringObjects(l);
    o := ArrayObject(|l|, items);
  }

  lemma ArrayObject(n: nat, items: Obj.Objects) returns (o: Obj.Object)
    requires n < MAX_LENGTH && Obj.AllFit(items) && Obj.Count(items) == n
    ensures Obj.Fits(o) && Obj.Encode(o) == AppendArrayHeader(n) + Obj.EncodeAll(items)
  {
    o := Obj.Array(if n < 16 then Obj.InTag else if n < 0x1_0000 then Obj.Two else Obj.Four, items);
  }

  lemma StringObject(x: Bytes) returns (o: Obj.Object)
    requires |x| < MAX_LENGTH
    ensures Obj.Fits(o) && Obj.Encode(o) == AppendString(x)
  {
    var n := |x|;
    o := Obj.Str(if n < 32 then Obj.InTag else if n < 0x100 then Obj.One else if n < 0x1_0000 then Obj.Two else Obj.Four, x);
  }

  lemma {:induction false} StringObjects(l: seq<Bytes>) returns (os: Obj.Objects)
    requires forall i :: 0 <= i < |l| ==> |l[i]| < MAX_LENGTH
    ensures Obj.AllFit(os) && Obj.Count(os) == |l| && Obj.EncodeAll(os) == AppendStrings(l)
    decreases |l|
  {
    if l == [] {
      os := Obj.End;
    } else {
      var o := StringObject(l[0]);
      var more := StringObjects(l[1..]);
      os := Obj.More(o, more);
    }
  }

  lemma Uint64Object(u: Uint64) returns (o: Obj.Object)
    ensures Obj.Fits(o) && Obj.Encode(o) == AppendUint64(u)
  {
    if u < 0x80 { o := Obj.FixInt(u); }
    else if u < 0x100 { o := Obj.Number(0xcc, BigEndian(1, u)); }
    else if u < 0x1_0000 { o := Obj.Number(0xcd, BigEndian(2, u)); }
    else if u < 0x1_0000_0000 { o := Obj.Number(0xce, BigEndian(4, u)); }
    else { o := Obj.Number(0xcf, BigEndian(8, u)); }
  }

  lemma Int64Object(i: Int64) returns (o: Obj.Object)
    ensures Obj.Fits(o) && Obj.Encode(o) == AppendInt64(i)
  {
    if -32 <= i < 0x80 { o := Obj.FixInt(i); }
    else if -0x80 <= i < 0 { o := Obj.Number(0xd0, BigEndian(1, i + 0x100)); }
    else if -0x8000 <= i < 0x8000 { o := Obj.Number(0xd1, BigEndian(2, Unsigned(i, 0x1_0000))); }
    else if -0x8000_0000 <= i < 0x8000_0000 { o := Obj.Number(0xd2, BigEndian(4, Unsigned(i, 0x1_0000_0000))); }
    else { o := Obj.Number(0xd3, BigEndian(8, Unsigned(i, 0x1_0000_0000_0000_0000))); }
  }

  lemma TimeObject(t: int) returns (o: Obj.Object)
    ensures Obj.Fits(o) && Obj.Encode(o) == AppendTime(t)
  {
    var sec, nsec := BigEndian(8, (t / NANOS) % 0x1_0000_0000_0000_0000), BigEndian(4, t % NANOS);
    o := Obj.Ext(Obj.One, 5, sec + nsec);
    assert BigEndian(1, 12) == [12] by { assert BigEndian(0, 0) == []; }
    assert Tagged(0xc7, 1, 12) + ([5] + (sec + nsec)) == [0xc7, 12, 5] + sec + nsec;
  }
}
