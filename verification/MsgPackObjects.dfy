/**
 MessagePack objects of every format and their bytes (MessagePack specification, "Formats"), to say what
 skipping an object means: it takes exactly the bytes of one object off the front.
 */
module MsgPackObjects {
  import opened Prelude
  import opened MsgPack

  /** How a length is written: inside the tag, or in one, two or four bytes behind it. */
  datatype Form = InTag | One | Two | Four {
    function Width(): nat {
      match this case InTag => 0 case One => 1 case Two => 2 case Four => 4
    }

    /** Lengths below this one can be written. */
    function Limit(inTag: nat): nat {
      match this case InTag => inTag case One => 0x100 case Two => 0x1_0000 case Four => 0x1_0000_0000
    }
  }

  datatype Object =
    | Nil
    | Bool(value: bool)
    | FixInt(int8: int)
    | Number(tag: Byte, bits: Bytes)
    | Str(form: Form, text: Bytes)
    | Bin(form: Form, data: Bytes)
    | FixExt(kind: Byte, data: Bytes)
    | Ext(form: Form, kind: Byte, data: Bytes)
    | Array(form: Form, items: Objects)
    | Map(form: Form, entries: Objects)

  /** Objects in a row; in a map, keys and values in turn. */
  datatype Objects = End | More(first: Object, rest: Objects)

  function Count(os: Objects): nat {
    match os case End => 0 case More(_, rest) => 1 + Count(rest)
  }

  /** Bytes of a number behind its tag: floats, then unsigned and signed integers. */
  function NumberWidth(tag: Byte): Option<nat> {
    match tag
    case 0xca => Some(4)
    case 0xcb => Some(8)
    case 0xcc => Some(1)
    case 0xcd => Some(2)
    case 0xce => Some(4)
    case 0xcf => Some(8)
    case 0xd0 => Some(1)
    case 0xd1 => Some(2)
    case 0xd2 => Some(4)
    case 0xd3 => Some(8)
    case _ => None
  }

  /** The tag of an extension of a fixed size. */
  function FixExtTag(n: nat): Option<Byte> {
    match n
    case 1 => Some(0xd4)
    case 2 => Some(0xd5)
    case 4 => Some(0xd6)
    case 8 => Some(0xd7)
    case 16 => Some(0xd8)
    case _ => None
  }

  /** The object can be written: lengths fit their form, and the form exists. */
  predicate Fits(o: Object) {
    match o
    case Nil => true
    case Bool(_) => true
    case FixInt(i) => -32 <= i < 0x80
    case Number(tag, bits) => NumberWidth(tag) == Some(|bits|)
    case Str(form, text) => |text| < form.Limit(32)
    case Bin(form, data) => form != InTag && |data| < form.Limit(0)
    case FixExt(_, data) => FixExtTag(|data|).Some?
    case Ext(form, _, data) => form != InTag && |data| < form.Limit(0)
    case Array(form, items) => form != One && Count(items) < form.Limit(16) && AllFit(items)
    case Map(form, entries) =>
      form != One && Count(entries) % 2 == 0 && Count(entries) / 2 < form.Limit(16) && AllFit(entries)
  }

  predicate AllFit(os: Objects) {
    match os case End => true case More(o, rest) => Fits(o) && AllFit(rest)
  }

  /** A length header: `inTag` is the tag of length zero, `first` the tag of the next form. */
  function Header(form: Form, inTag: int, one: Byte, two: Byte, four: Byte, n: nat): (h: Bytes)
    requires n < form.Limit(32) && 0 <= inTag && inTag + 32 <= 0x100
    ensures |h| == 1 + form.Width()
  {
    match form
    case InTag => [inTag + n]
    case One => Tagged(one, 1, n)
    case Two => Tagged(two, 2, n)
    case Four => Tagged(four, 4, n)
  }

  function Encode(o: Object): Bytes
    requires Fits(o)
  {
    match o
    case Nil => [0xc0]
    case Bool(b) => [if b then 0xc3 else 0xc2]
    case FixInt(i) => [if i < 0 then i + 0x100 else i]
    case Number(tag, bits) => [tag] + bits
    case Str(form, text) => Header(form, 0xa0, 0xd9, 0xda, 0xdb, |text|) + text
    case Bin(form, data) => Header(form, 0, 0xc4, 0xc5, 0xc6, |data|) + data
    case FixExt(kind, data) => [FixExtTag(|data|).value] + ([kind] + data)
    case Ext(form, kind, data) => Header(form, 0, 0xc7, 0xc8, 0xc9, |data|) + ([kind] + data)
    case Array(form, items) => Header(form, 0x90, 0, 0xdc, 0xdd, Count(items)) + EncodeAll(items)
    case Map(form, entries) => Header(form, 0x80, 0, 0xde, 0xdf, Count(entries) / 2) + EncodeAll(entries)
  }

  function EncodeAll(os: Objects): Bytes
    requires AllFit(os)
  {
    match os case End => [] case More(o, rest) => Encode(o) + EncodeAll(rest)
  }

  // ---------- skipping takes exactly one object ----------

  /** The objects inside an object. */
  function Inside(o: Object): Objects {
    match o case Array(_, items) => items case Map(_, entries) => entries case _ => End
  }

  /** The bytes of an object: its own, and those of the objects inside it. */
  lemma Own(o: Object) returns (own: Bytes, inside: Bytes)
    requires Fits(o)
    ensures AllFit(Inside(o)) && inside == EncodeAll(Inside(o)) && Encode(o) == own + inside
    ensures ExtentOf(own) == Some(Extent(|own|, Count(Inside(o))))
  {
    inside := EncodeAll(Inside(o));
    match o
    case Array(form, items) => own := ListOwn(form, 1, 0x90, 0xdc, 0xdd, Count(items));
    case Map(form, entries) => own := ListOwn(form, 2, 0x80, 0xde, 0xdf, Count(entries) / 2);
    case _ =>
      own := Encode(o);
      LeafOwn(o);
  }

  lemma LeafOwn(o: Object)
    requires Fits(o) && !o.Array? && !o.Map?
    ensures ExtentOf(Encode(o)) == Some(Extent(|Encode(o)|, 0))
  {
    if o.Str? || o.Bin? || o.Ext? {
      SizedOwn(o);
    }
  }

  lemma SizedOwn(o: Object)
    requires Fits(o) && (o.Str? || o.Bin? || o.Ext?)
    ensures ExtentOf(Encode(o)) == Some(Extent(|Encode(o)|, 0))
  {
    match o
    case Str(form, text) => var b := SizedBytes(form, 0xa0, 0xd9, 0xda, 0xdb, |text|, text);
    case Bin(form, data) => var b := SizedBytes(form, 0, 0xc4, 0xc5, 0xc6, |data|, data);
    case Ext(form, kind, data) => var b := SizedBytes(form, 0, 0xc7, 0xc8, 0xc9, |data|, [kind] + data);
  }

  lemma SizedBytes(form: Form, inTag: int, one: Byte, two: Byte, four: Byte, n: nat, data: Bytes) returns (b: Bytes)
    requires (inTag == 0xa0 && one == 0xd9 && two == 0xda && four == 0xdb && |data| == n && n < form.Limit(32))
          || (inTag == 0 && one == 0xc4 && two == 0xc5 && four == 0xc6 && |data| == n && form != InTag && n < form.Limit(0))
          || (inTag == 0 && one == 0xc7 && two == 0xc8 && four == 0xc9 && |data| == n + 1 && form != InTag && n < form.Limit(0))
    ensures b == Header(form, inTag, one, two, four, n) + data && ExtentOf(b) == Some(Extent(|b|, 0))
  {
    b := Header(form, inTag, one, two, four, n) + data;
    HeaderReads(form, inTag, one, two, four, n, data);
  }

  /** The header of an array, with one object per element, or of a map, with two. */
  lemma ListOwn(form: Form, per: nat, inTag: Byte, two: Byte, four: Byte, n: nat) returns (own: Bytes)
    requires form != One && n < form.Limit(16)
    requires (per == 1 && inTag == 0x90 && two == 0xdc && four == 0xdd) || (per == 2 && inTag == 0x80 && two == 0xde && four == 0xdf)
    ensures own == Header(form, inTag, 0, two, four, n)
    ensures ExtentOf(own) == Some(Extent(|own|, per * n))
  {
    own := Header(form, inTag, 0, two, four, n);
    HeaderReads(form, inTag, 0, two, four, n, []);
    assert own + [] == own;
  }

  lemma HeaderReads(form: Form, inTag: int, one: Byte, two: Byte, four: Byte, n: nat, rest: Bytes)
    requires n < form.Limit(32) && 0 <= inTag && inTag + 32 <= 0x100
    ensures var b := Header(form, inTag, one, two, four, n) + rest;
            match form
            case InTag => b[0] == inTag + n
            case One => b[0] == one && ReadNumber(b, 1) == Got(n, rest)
            case Two => b[0] == two && ReadNumber(b, 2) == Got(n, rest)
            case Four => b[0] == four && ReadNumber(b, 4) == Got(n, rest)
  {
    Pow256Values();
    match form
    case InTag =>
    case One => ReadTagged(one, 1, n, rest);
    case Two => ReadTagged(two, 2, n, rest);
    case Four => ReadTagged(four, 4, n, rest);
  }

  lemma Concat(a: Bytes, b: Bytes, c: Bytes)
    ensures (a + b) + c == a + (b + c)
  {
  }

  /** How many bytes follow `n` skipped objects; -1 if they cannot be skipped. */
  function AfterSkip(b: Bytes, n: nat): int {
    if Skip(b, n).Got? then |Skip(b, n).rest| else -1
  }

  lemma {:induction false} SkipLeavesSuffix(b: Bytes, n: nat)
    requires Skip(b, n).Got?
    ensures |Skip(b, n).rest| <= |b| && Skip(b, n).rest == b[|b| - |Skip(b, n).rest|..]
    decreases |b|, n
  {
    if n > 0 {
      var e := ExtentOf(b).value;
      ExtentPositive(b);
      SkipLeavesSuffix(b[e.size..], n - 1 + e.inner);
    }
  }

  /** Taking an object's own bytes off and going on with the objects inside. */
  ghost predicate TakesOwn(after: (Bytes, nat) -> int, own: Bytes, inner: nat, tail: Bytes, n: nat) {
    ExtentOf(own) == Some(Extent(|own|, inner)) ==> after(own + tail, n + 1) == after(tail, inner + n)
  }

  /** What any way of skipping must do. */
  ghost predicate Steps(after: (Bytes, nat) -> int) {
    forall own: Bytes, inner: nat, tail: Bytes, n: nat :: TakesOwn(after, own, inner, tail, n)
  }

  lemma SkipSteps()
    ensures Steps(AfterSkip)
  {
    forall own: Bytes, inner: nat, tail: Bytes, n: nat ensures TakesOwn(AfterSkip, own, inner, tail, n) {
      if ExtentOf(own) == Some(Extent(|own|, inner)) {
        SkipOwn(own, inner, tail, n);
      }
    }
  }

  lemma SkipOwn(own: Bytes, inner: nat, tail: Bytes, n: nat)
    requires ExtentOf(own) == Some(Extent(|own|, inner))
    ensures AfterSkip(own + tail, n + 1) == AfterSkip(tail, inner + n)
  {
    ExtentStable(own, tail);
    SkipStep(own + tail, n + 1, Extent(|own|, inner));
    assert (own + tail)[|own|..] == tail;
  }

  /** Then it takes the bytes of one object off the front, whatever is inside it and follows it. */
  lemma {:induction false} AfterObject(after: (Bytes, nat) -> int, o: Object, n: nat, rest: Bytes)
    requires Steps(after) && Fits(o)
    ensures after(Encode(o) + rest, n + 1) == after(rest, n)
    decreases o
  {
    var own, inside := Own(o);
    assert Encode(o) + rest == own + (inside + rest) by { Concat(own, inside, rest); }
    assert TakesOwn(after, own, Count(Inside(o)), inside + rest, n);
    if o.Array? || o.Map? {
      AfterObjects(after, Inside(o), n, rest);
    } else {
      assert inside + rest == rest;
    }
  }

  lemma {:induction false} AfterObjects(after: (Bytes, nat) -> int, os: Objects, n: nat, rest: Bytes)
    requires Steps(after) && AllFit(os)
    ensures after(EncodeAll(os) + rest, Count(os) + n) == after(rest, n)
    decreases os
  {
    match os
    case End => assert EncodeAll(os) + rest == rest;
    case More(o, more) =>
      assert EncodeAll(os) + rest == Encode(o) + (EncodeAll(more) + rest) by { Concat(Encode(o), EncodeAll(more), rest); }
      AfterObject(after, o, Count(more) + n, EncodeAll(more) + rest);
      AfterObjects(after, more, n, rest);
  }

  // ---------- whatever is skipped is an object ----------

  lemma {:induction false} BigEndianOf(x: Bytes)
    ensures BigEndian(|x|, FromBigEndian(x)) == x && FromBigEndian(x) < Pow256(|x|)
    decreases |x|
  {
    if x != [] {
      var y, last := x[..|x| - 1], x[|x| - 1];
      BigEndianOf(y);
      DivModUnique(FromBigEndian(x), 256, FromBigEndian(y), last);
      assert x == y + [last];
    }
  }

  /** The tag and the number behind it, as written. */
  lemma TaggedOf(b: Bytes, width: nat, n: nat)
    requires |b| >= 1 + width && ReadNumber(b, width) == Got(n, b[1 + width..])
    ensures b == Tagged(b[0], width, n) + b[1 + width..] && n < Pow256(width)
  {
    BigEndianOf(b[1..1 + width]);
  }

  /** The header is within the object's own bytes. */
  lemma ExtentOfOwn(b: Bytes, e: Extent)
    requires ExtentOf(b) == Some(e) && e.size <= |b|
    ensures ExtentOf(b[..e.size]) == Some(e)
  {
    var own := b[..e.size];
    ExtentPositive(b);
    assert own[0] == b[0];
    SameNumber(b, own, 1);
    SameNumber(b, own, 2);
    SameNumber(b, own, 4);
  }

  lemma SameNumber(b: Bytes, own: Bytes, width: nat)
    requires own <= b
    ensures 1 + width <= |own| ==> ReadNumber(own, width).Got? && ReadNumber(b, width).Got?
    ensures 1 + width <= |own| ==> ReadNumber(own, width).value == ReadNumber(b, width).value
  {
    if 1 + width <= |own| {
      assert own[1..1 + width] == b[1..1 + width];
    }
  }

  /** The object with these bytes of its own and these objects inside. */
  lemma Rebuild(own: Bytes, inside: Objects) returns (o: Object)
    requires ExtentOf(own) == Some(Extent(|own|, Count(inside))) && AllFit(inside)
    ensures Fits(o) && Encode(o) == own + EncodeAll(inside)
  {
    var t := own[0];
    if 0x80 <= t < 0xa0 || 0xdc <= t <= 0xdf {
      o := RebuildList(own, inside);
    } else {
      assert inside == End;
      o := RebuildLeaf(own);
      assert own + [] == own;
    }
  }

  lemma HeaderOf(own: Bytes, width: nat) returns (n: nat)
    requires |own| == 1 + width
    ensures n < Pow256(width) && ReadNumber(own, width) == Got(n, []) && own == Tagged(own[0], width, n)
  {
    n := ReadNumber(own, width).value;
    TaggedOf(own, width, n);
  }

  /** The header of an array or a map, from its bytes. */
  lemma ListHeader(own: Bytes, inner: nat) returns (form: Form, n: nat, isMap: bool)
    requires ExtentOf(own) == Some(Extent(|own|, inner)) && (0x80 <= own[0] < 0xa0 || 0xdc <= own[0] <= 0xdf)
    ensures form != One && n < form.Limit(16) && inner == if isMap then 2 * n else n
    ensures own == if isMap then Header(form, 0x80, 0, 0xde, 0xdf, n) else Header(form, 0x90, 0, 0xdc, 0xdd, n)
  {
    Pow256Values();
    var t := own[0];
    if t < 0xa0 {
      assert own == [t];
      form, isMap := InTag, t < 0x90;
      n := if isMap then t - 0x80 else t - 0x90;
    } else {
      form, isMap := if t == 0xdc || t == 0xde then Two else Four, t >= 0xde;
      n := HeaderOf(own, form.Width());
    }
  }

  lemma RebuildList(own: Bytes, inside: Objects) returns (o: Object)
    requires ExtentOf(own) == Some(Extent(|own|, Count(inside))) && AllFit(inside)
    requires 0x80 <= own[0] < 0xa0 || 0xdc <= own[0] <= 0xdf
    ensures Fits(o) && Encode(o) == own + EncodeAll(inside)
  {
    var form, n, isMap := ListHeader(own, Count(inside));
    o := ListOf(form, n, isMap, inside);
  }

  lemma ListOf(form: Form, n: nat, isMap: bool, inside: Objects) returns (o: Object)
    requires form != One && n < form.Limit(16) && AllFit(inside) && Count(inside) == if isMap then 2 * n else n
    ensures Fits(o) && Inside(o) == inside
    ensures Encode(o) == (if isMap then Header(form, 0x80, 0, 0xde, 0xdf, n) else Header(form, 0x90, 0, 0xdc, 0xdd, n)) + EncodeAll(inside)
  {
    o := if isMap then Map(form, inside) else Array(form, inside);
  }

  lemma RebuildLeaf(own: Bytes) returns (o: Object)
    requires ExtentOf(own) == Some(Extent(|own|, 0)) && !(0x80 <= own[0] < 0xa0) && !(0xdc <= own[0] <= 0xdf)
    ensures Fits(o) && !o.Array? && !o.Map? && Encode(o) == own
  {
    var t: int := own[0];
    if t < 0x80 || t >= 0xe0 {
      o := FixInt(if t < 0x80 then t else t - 0x100);
      assert own == [t];
    } else if t < 0xc0 {
      o := Str(InTag, own[1..]);
      assert own == [t] + own[1..];
    } else if t == 0xc0 {
      o := Nil;
      assert own == [t];
    } else if t == 0xc2 || t == 0xc3 {
      o := Bool(t == 0xc3);
      assert own == [t];
    } else if NumberWidth(t).Some? {
      o := Number(t, own[1..]);
      assert own == [t] + own[1..];
    } else if 0xd4 <= t <= 0xd8 {
      o := FixExt(own[1], own[2..]);
      assert own == [t] + ([own[1]] + own[2..]);
    } else {
      o := RebuildSized(own);
    }
  }

  /** Strings, binary data and extensions behind a length of one, two or four bytes. */
  lemma RebuildSized(own: Bytes) returns (o: Object)
    requires ExtentOf(own) == Some(Extent(|own|, 0)) && (0xc4 <= own[0] <= 0xc9 || 0xd9 <= own[0] <= 0xdb)
    ensures Fits(o) && !o.Array? && !o.Map? && Encode(o) == own
  {
    var t := own[0];
    var form, n, data := SizedHeader(own);
    o := SizedOf(t, form, n, data);
  }

  lemma SizedOf(t: Byte, form: Form, n: nat, data: Bytes) returns (o: Object)
    requires form != InTag && n < form.Limit(0) && |data| == if 0xc7 <= t <= 0xc9 then n + 1 else n
    ensures Fits(o) && !o.Array? && !o.Map?
    ensures Encode(o) == (if t <= 0xc6 then Header(form, 0, 0xc4, 0xc5, 0xc6, n)
                          else if t <= 0xc9 then Header(form, 0, 0xc7, 0xc8, 0xc9, n)
                          else Header(form, 0xa0, 0xd9, 0xda, 0xdb, n)) + data
  {
    if t <= 0xc6 {
      o := Bin(form, data);
    } else if t <= 0xc9 {
      o := Ext(form, data[0], data[1..]);
      assert data == [data[0]] + data[1..];
    } else {
      o := Str(form, data);
    }
  }

  /** The header of a string, binary data or an extension, from its bytes. */
  lemma SizedHeader(own: Bytes) returns (form: Form, n: nat, data: Bytes)
    requires ExtentOf(own) == Some(Extent(|own|, 0)) && (0xc4 <= own[0] <= 0xc9 || 0xd9 <= own[0] <= 0xdb)
    ensures form != InTag && n < form.Limit(0) && |data| == if 0xc7 <= own[0] <= 0xc9 then n + 1 else n
    ensures var t := own[0];
            own == (if t <= 0xc6 then Header(form, 0, 0xc4, 0xc5, 0xc6, n)
                    else if t <= 0xc9 then Header(form, 0, 0xc7, 0xc8, 0xc9, n)
                    else Header(form, 0xa0, 0xd9, 0xda, 0xdb, n)) + data
  {
    Pow256Values();
    var t := own[0];
    form := if t == 0xc4 || t == 0xc7 || t == 0xd9 then One else if t == 0xc5 || t == 0xc8 || t == 0xda then Two else Four;
    n, data := ReadNumber(own, form.Width()).value, own[1 + form.Width()..];
    TaggedOf(own, form.Width(), n);
  }

  /** The first `n` objects and the others. */
  lemma {:induction false} SplitAt(os: Objects, n: nat) returns (a: Objects, b: Objects)
    requires AllFit(os) && n <= Count(os)
    ensures AllFit(a) && AllFit(b) && Count(a) == n && Count(b) == Count(os) - n
    ensures EncodeAll(os) == EncodeAll(a) + EncodeAll(b)
  {
    if n == 0 {
      a, b := End, os;
    } else {
      var more;
      more, b := SplitAt(os.rest, n - 1);
      a := More(os.first, more);
      assert EncodeAll(os) == EncodeAll(a) + EncodeAll(b) by { Concat(Encode(os.first), EncodeAll(more), EncodeAll(b)); }
    }
  }

  /** One step of skipping. */
  lemma FirstOwn(b: Bytes, n: nat, rest: Bytes) returns (own: Bytes, inner: nat, tail: Bytes)
    requires n > 0 && Skip(b, n) == Got((), rest)
    ensures own != [] && b == own + tail && ExtentOf(own) == Some(Extent(|own|, inner))
    ensures Skip(tail, n - 1 + inner) == Got((), rest)
  {
    var e := ExtentOf(b).value;
    ExtentPositive(b);
    ExtentOfOwn(b, e);
    own, inner, tail := b[..e.size], e.inner, b[e.size..];
  }

  /** The object that starts with `own` takes its objects from the front of what follows. */
  lemma Regroup(own: Bytes, inner: nat, all: Objects, n: nat) returns (os: Objects)
    requires ExtentOf(own) == Some(Extent(|own|, inner)) && AllFit(all) && n > 0 && Count(all) == n - 1 + inner
    ensures AllFit(os) && Count(os) == n && EncodeAll(os) == own + EncodeAll(all)
  {
    var inside, others := SplitAt(all, inner);
    var o := Rebuild(own, inside);
    os := More(o, others);
    Concat(own, EncodeAll(inside), EncodeAll(others));
  }

  /** Bytes that can be skipped as `n` objects are the bytes of `n` objects. */
  lemma {:induction false} Skipped(b: Bytes, n: nat, rest: Bytes) returns (os: Objects)
    requires Skip(b, n) == Got((), rest)
    ensures AllFit(os) && Count(os) == n && b == EncodeAll(os) + rest
    decreases |b|, n
  {
    if n == 0 {
      os := End;
    } else {
      var own, inner, tail := FirstOwn(b, n, rest);
      var all := Skipped(tail, n - 1 + inner, rest);
      os := Regroup(own, inner, all, n);
      Concat(own, EncodeAll(all), rest);
    }
  }

  /** One object in front of anything is skipped, and exactly that is left. */
  lemma {:induction false} SkipFront(o: Object, rest: Bytes) returns (b: Bytes)
    requires Fits(o)
    ensures b == Encode(o) + rest && Skip(b, 1) == Got((), rest)
  {
    b := FrontLeft(o, rest);
    LeftIsRest(b, 1, rest);
  }

  lemma LeftIsRest(b: Bytes, n: nat, rest: Bytes)
    requires AfterSkip(b, n) == |rest| <= |b| && b[|b| - |rest|..] == rest
    ensures Skip(b, n) == Got((), rest)
  {
    SkipLeavesSuffix(b, n);
    var p := Skip(b, n);
    assert p.Got? && p.value == () && p.rest == rest;
  }

  lemma FrontLeft(o: Object, rest: Bytes) returns (b: Bytes)
    requires Fits(o)
    ensures b == Encode(o) + rest && AfterSkip(b, 1) == |rest|
    ensures b[|b| - |rest|..] == rest
  {
    b := Encode(o) + rest;
    SkipSteps();
    AfterObject(AfterSkip, o, 0, rest);
  }

  ghost predicate ObjectThen(o: Object, b: Bytes, rest: Bytes) {
    Fits(o) && b == Encode(o) + rest
  }

  /** Skipping succeeds exactly on the bytes of an object with anything behind it, which it leaves. */
  lemma {:induction false} SkipsExactlyObjects(b: Bytes, rest: Bytes)
    ensures Skip(b, 1) == Got((), rest) <==> exists o :: ObjectThen(o, b, rest)
  {
    if Skip(b, 1) == Got((), rest) {
      var o := FirstObject(b, rest);
      assert ObjectThen(o, b, rest);
    }
    if o :| ObjectThen(o, b, rest) {
      var b' := SkipFront(o, rest);
      assert b' == b;
    }
  }

  lemma FirstObject(b: Bytes, rest: Bytes) returns (o: Object)
    requires Skip(b, 1) == Got((), rest)
    ensures ObjectThen(o, b, rest)
  {
    var os := Skipped(b, 1, rest);
    o := os.first;
    assert os.rest == End && EncodeAll(os) == Encode(o) + [] == Encode(o);
  }

  // ---------- what the typed readers accept ----------

  /** The number an object stands for, if it is an integer: unsigned formats as they are, signed ones in two's complement. */
  function IntegerOf(o: Object): Option<int> {
    match o
    case FixInt(i) => Some(i)
    case Number(tag, bits) =>
      var x := FromBigEndian(bits);
      if 0xcc <= tag <= 0xcf then Some(x)
      else if tag == 0xd0 then Some(if x >= 0x80 then x - 0x100 else x)
      else if tag == 0xd1 then Some(if x >= 0x8000 then x - 0x1_0000 else x)
      else if tag == 0xd2 then Some(if x >= 0x8000_0000 then x - 0x1_0000_0000 else x)
      else if tag == 0xd3 then Some(if x >= 0x8000_0000_0000_0000 then x - 0x1_0000_0000_0000_0000 else x)
      else None
    case _ => None
  }

  /** The integer readers accept integers of every format that are in range, and no other object. */
  lemma IntegersRead(o: Object, rest: Bytes)
    requires Fits(o)
    ensures var p, i := ReadInt64(Encode(o) + rest), IntegerOf(o);
            if i.Some? && -0x8000_0000_0000_0000 <= i.value < 0x8000_0000_0000_0000 then p == Got(i.value, rest) else p == Malformed
    ensures var p, i := ReadUint64(Encode(o) + rest), IntegerOf(o);
            if i.Some? && 0 <= i.value < 0x1_0000_0000_0000_0000 then p == Got(i.value, rest) else p == Malformed
  {
    var b := Encode(o) + rest;
    IntegerReads(o, b, rest);
  }

  lemma IntegerReads(o: Object, b: Bytes, rest: Bytes)
    requires Fits(o) && b == Encode(o) + rest
    ensures ReadInteger(b) == if IntegerOf(o).Some? then Got(IntegerOf(o).value, rest) else Malformed
  {
    match o
    case FixInt(i) => assert b[1..] == rest;
    case Number(tag, bits) => assert b[1..1 + |bits|] == bits && b[1 + |bits|..] == rest;
    case _ => NotANumber(o, b, rest);
  }

  lemma NotANumber(o: Object, b: Bytes, rest: Bytes)
    requires Fits(o) && b == Encode(o) + rest && !o.FixInt? && !o.Number?
    ensures ReadInteger(b) == Malformed
  {
    assert b[0] == Encode(o)[0];
  }

  /** Strings of every form are read, and no other object; as map keys, strings and binary data of every form. */
  lemma TextsRead(o: Object, rest: Bytes)
    requires Fits(o)
    ensures ReadString(Encode(o) + rest) == if o.Str? then Got(o.text, rest) else Malformed
    ensures ReadMapKey(Encode(o) + rest) == if o.Str? then Got(o.text, rest) else if o.Bin? then Got(o.data, rest) else Malformed
  {
    match o
    case Str(form, text) => TextReads(o, form, text, rest);
    case Bin(form, data) => BinReads(o, form, data, rest);
    case _ =>
      assert Encode(o) != [] && (Encode(o) + rest)[0] == Encode(o)[0];
      NotAText(o);
  }

  lemma TextReads(o: Object, form: Form, text: Bytes, rest: Bytes)
    requires o == Str(form, text) && Fits(o)
    ensures ReadString(Encode(o) + rest) == Got(text, rest) && ReadMapKey(Encode(o) + rest) == Got(text, rest)
  {
    var b := Header(form, 0xa0, 0xd9, 0xda, 0xdb, |text|) + (text + rest);
    assert Encode(o) + rest == b;
    HeaderReads(form, 0xa0, 0xd9, 0xda, 0xdb, |text|, text + rest);
    assert ReadStringHeader(b) == Got(|text|, text + rest) by {
      assert form == InTag ==> b[1..] == text + rest;
    }
    assert (text + rest)[..|text|] == text && (text + rest)[|text|..] == rest;
  }

  lemma BinReads(o: Object, form: Form, data: Bytes, rest: Bytes)
    requires o == Bin(form, data) && Fits(o)
    ensures ReadString(Encode(o) + rest) == Malformed && ReadMapKey(Encode(o) + rest) == Got(data, rest)
  {
    var b := Header(form, 0, 0xc4, 0xc5, 0xc6, |data|) + (data + rest);
    assert Encode(o) + rest == b;
    HeaderReads(form, 0, 0xc4, 0xc5, 0xc6, |data|, data + rest);
    assert (data + rest)[..|data|] == data && (data + rest)[|data|..] == rest;
  }

  /** The first byte tells that an object is neither a string nor binary data. */
  lemma NotAText(o: Object)
    requires Fits(o) && !o.Str? && !o.Bin?
    ensures Encode(o) != []
    ensures var t := Encode(o)[0]; !(0xa0 <= t < 0xc0) && !(0xc4 <= t <= 0xc6) && !(0xd9 <= t <= 0xdb)
  {
  }

  /** The array header is read off an array of every form, and off no other object. */
  lemma ArraysRead(o: Object, rest: Bytes)
    requires Fits(o)
    ensures AllFit(Inside(o))
    ensures ReadArrayHeader(Encode(o) + rest) ==
              if o.Array? then Got(Count(o.items), EncodeAll(o.items) + rest) else Malformed
  {
    if o.Array? {
      ArrayReads(o.form, o.items, rest);
    } else {
      NotAnArray(o);
      assert (Encode(o) + rest)[0] == Encode(o)[0];
    }
  }

  lemma ArrayReads(form: Form, items: Objects, rest: Bytes)
    requires Fits(Array(form, items))
    ensures ReadArrayHeader(Encode(Array(form, items)) + rest) == Got(Count(items), EncodeAll(items) + rest)
  {
    var h, inside := Header(form, 0x90, 0, 0xdc, 0xdd, Count(items)), EncodeAll(items);
    Concat(h, inside, rest);
    HeaderReads(form, 0x90, 0, 0xdc, 0xdd, Count(items), inside + rest);
    assert form == InTag ==> (h + (inside + rest))[1..] == inside + rest;
  }

  lemma NotAnArray(o: Object)
    requires Fits(o) && !o.Array?
    ensures Encode(o) != []
    ensures var t := Encode(o)[0]; !(0x90 <= t < 0xa0) && t != 0xdc && t != 0xdd
  {
  }
}
