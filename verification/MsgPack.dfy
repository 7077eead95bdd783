/**
 The MessagePack formats used by the generated codecs: appending and reading integers, strings,
 arrays and timestamps, and skipping an arbitrary object (MessagePack specification, "Formats").
 */
module MsgPack {
  import opened Prelude

  /** A value read off the front of a buffer and what follows it, or a decoding error. */
  datatype Parsed<+T> = Got(value: T, rest: Bytes) | Malformed

  // ---------- big-endian numbers ----------

  ghost function Pow256(n: nat): nat {
    if n == 0 then 1 else 256 * Pow256(n - 1)
  }

  function BigEndian(n: nat, x: nat): (b: Bytes)
    ensures |b| == n
  {
    if n == 0 then [] else BigEndian(n - 1, x / 256) + [x % 256]
  }

  function FromBigEndian(b: Bytes): nat {
    if b == [] then 0 else FromBigEndian(b[..|b| - 1]) * 256 + b[|b| - 1]
  }

  lemma {:induction false} BigEndianRoundTrip(n: nat, x: nat)
    requires x < Pow256(n)
    ensures FromBigEndian(BigEndian(n, x)) == x
  {
    if n > 0 {
      BigEndianRoundTrip(n - 1, x / 256);
      var b := BigEndian(n, x);
      assert b[..n - 1] == BigEndian(n - 1, x / 256) && b[n - 1] == x % 256;
    }
  }

  lemma Pow256Values()
    ensures Pow256(1) == 0x100 && Pow256(2) == 0x1_0000 && Pow256(4) == 0x1_0000_0000
    ensures Pow256(8) == 0x1_0000_0000_0000_0000
  {
    assert Pow256(1) == 256 * Pow256(0);
    assert Pow256(2) == 256 * Pow256(1);
    assert Pow256(3) == 256 * Pow256(2);
    assert Pow256(4) == 256 * Pow256(3);
    assert Pow256(5) == 256 * Pow256(4);
    assert Pow256(6) == 256 * Pow256(5);
    assert Pow256(7) == 256 * Pow256(6);
    assert Pow256(8) == 256 * Pow256(7);
  }

  /** An unsigned number of `n` bytes behind a one-byte tag. */
  function Tagged(tag: Byte, n: nat, x: nat): (b: Bytes)
    ensures |b| == 1 + n
  {
    [tag] + BigEndian(n, x)
  }

  /** The `n`-byte number at the front, past the tag. */
  function ReadNumber(b: Bytes, n: nat): Parsed<nat> {
    if |b| < 1 + n then Malformed else Got(FromBigEndian(b[1..1 + n]), b[1 + n..])
  }

  lemma ReadTagged(tag: Byte, n: nat, x: nat, rest: Bytes)
    requires x < Pow256(n)
    ensures (Tagged(tag, n, x) + rest)[0] == tag
    ensures ReadNumber(Tagged(tag, n, x) + rest, n) == Got(x, rest)
  {
    BigEndianRoundTrip(n, x);
    var b := Tagged(tag, n, x) + rest;
    assert b[1..1 + n] == BigEndian(n, x) && b[1 + n..] == rest;
  }

  /** Two's complement. */
  function Signed(x: nat, size: nat): int {
    if 2 * x >= size then x - size else x
  }

  // ---------- integers ----------

  type Int64 = i: int | -0x8000_0000_0000_0000 <= i < 0x8000_0000_0000_0000

  type Uint64 = u: int | 0 <= u < 0x1_0000_0000_0000_0000

  function AppendUint64(u: Uint64): (b: Bytes)
    ensures 1 <= |b| <= 9
  {
    if u < 0x80 then [u]
    else if u < 0x100 then Tagged(0xcc, 1, u)
    else if u < 0x1_0000 then Tagged(0xcd, 2, u)
    else if u < 0x1_0000_0000 then Tagged(0xce, 4, u)
    else Tagged(0xcf, 8, u)
  }

  function AppendInt64(i: Int64): (b: Bytes)
    ensures 1 <= |b| <= 9
  {
    if i >= 0 then
      if i < 0x80 then [i]
      else if i < 0x8000 then Tagged(0xd1, 2, i)
      else if i < 0x8000_0000 then Tagged(0xd2, 4, i)
      else Tagged(0xd3, 8, i)
    else
      if i >= -32 then [i + 0x100]
      else if i >= -0x80 then Tagged(0xd0, 1, i + 0x100)
      else if i >= -0x8000 then Tagged(0xd1, 2, i + 0x1_0000)
      else if i >= -0x8000_0000 then Tagged(0xd2, 4, i + 0x1_0000_0000)
      else Tagged(0xd3, 8, i + 0x1_0000_0000_0000_0000)
  }

  function SignedNumber(p: Parsed<nat>, size: nat): Parsed<int> {
    if p.Got? then Got(Signed(p.value, size), p.rest) else Malformed
  }

  /** Any integer format. */
  function ReadInteger(b: Bytes): Parsed<int> {
    if b == [] then Malformed
    else
      var tag: int := b[0];
      if tag < 0x80 then Got(tag, b[1..])
      else if tag >= 0xe0 then Got(tag - 0x100, b[1..])
      else if tag == 0xcc then ReadNumber(b, 1)
      else if tag == 0xcd then ReadNumber(b, 2)
      else if tag == 0xce then ReadNumber(b, 4)
      else if tag == 0xcf then ReadNumber(b, 8)
      else if tag == 0xd0 then SignedNumber(ReadNumber(b, 1), 0x100)
      else if tag == 0xd1 then SignedNumber(ReadNumber(b, 2), 0x1_0000)
      else if tag == 0xd2 then SignedNumber(ReadNumber(b, 4), 0x1_0000_0000)
      else if tag == 0xd3 then SignedNumber(ReadNumber(b, 8), 0x1_0000_0000_0000_0000)
      else Malformed
  }

  function ReadInt64(b: Bytes): Parsed<int> {
    var p := ReadInteger(b);
    if p.Got? && -0x8000_0000_0000_0000 <= p.value < 0x8000_0000_0000_0000 then p else Malformed
  }

  function ReadUint64(b: Bytes): Parsed<int> {
    var p := ReadInteger(b);
    if p.Got? && 0 <= p.value < 0x1_0000_0000_0000_0000 then p else Malformed
  }

  lemma Uint64RoundTrip(u: Uint64, rest: Bytes)
    ensures ReadUint64(AppendUint64(u) + rest) == Got(u, rest)
  {
    Pow256Values();
    if u < 0x80 {
      assert ([u] + rest)[1..] == rest;
    } else if u < 0x100 {
      ReadTagged(0xcc, 1, u, rest);
    } else if u < 0x1_0000 {
      ReadTagged(0xcd, 2, u, rest);
    } else if u < 0x1_0000_0000 {
      ReadTagged(0xce, 4, u, rest);
    } else {
      ReadTagged(0xcf, 8, u, rest);
    }
  }

  lemma Int64RoundTrip(i: Int64, rest: Bytes)
    ensures ReadInt64(AppendInt64(i) + rest) == Got(i, rest)
  {
    if i >= 0 {
      NonNegativeRoundTrip(i, rest);
    } else {
      NegativeRoundTrip(i, rest);
    }
  }

  lemma NonNegativeRoundTrip(i: Int64, rest: Bytes)
    requires i >= 0
    ensures ReadInt64(AppendInt64(i) + rest) == Got(i, rest)
  {
    Pow256Values();
    if i < 0x80 {
      assert ([i] + rest)[1..] == rest;
    } else if i < 0x8000 {
      ReadTagged(0xd1, 2, i, rest);
    } else if i < 0x8000_0000 {
      ReadTagged(0xd2, 4, i, rest);
    } else {
      ReadTagged(0xd3, 8, i, rest);
    }
  }

  lemma NegativeRoundTrip(i: Int64, rest: Bytes)
    requires i < 0
    ensures ReadInt64(AppendInt64(i) + rest) == Got(i, rest)
  {
    var b := NegativeForm(i, rest);
  }

  lemma NegativeForm(i: Int64, rest: Bytes) returns (b: Bytes)
    requires i < 0
    ensures b == AppendInt64(i)
    ensures ReadInt64(b + rest) == Got(i, rest)
  {
    Pow256Values();
    if i >= -32 {
      b := ReadSmallNegative(i, rest);
    } else if i >= -0x80 {
      b := ReadNegative(0xd0, 1, 0x100, i + 0x100, i, rest);
    } else if i >= -0x8000 {
      b := ReadNegative(0xd1, 2, 0x1_0000, i + 0x1_0000, i, rest);
    } else if i >= -0x8000_0000 {
      b := ReadNegative(0xd2, 4, 0x1_0000_0000, i + 0x1_0000_0000, i, rest);
    } else {
      b := ReadNegative(0xd3, 8, 0x1_0000_0000_0000_0000, i + 0x1_0000_0000_0000_0000, i, rest);
    }
  }

  lemma ReadSmallNegative(i: Int64, rest: Bytes) returns (b: Bytes)
    requires -32 <= i < 0
    ensures b == [i + 0x100] && ReadInt64(b + rest) == Got(i, rest)
  {
    b := [i + 0x100];
    assert (b + rest)[1..] == rest;
  }

  /** A negative number as its two's complement of `n` bytes. */
  lemma ReadNegative(tag: Byte, n: nat, size: nat, x: nat, i: Int64, rest: Bytes) returns (b: Bytes)
    requires (tag == 0xd0 && n == 1) || (tag == 0xd1 && n == 2) || (tag == 0xd2 && n == 4) || (tag == 0xd3 && n == 8)
    requires size == Pow256(n) && i < 0 && x == i + size && 2 * x >= size
    ensures b == Tagged(tag, n, x) && ReadInt64(b + rest) == Got(i, rest)
  {
    Pow256Values();
    b := Tagged(tag, n, x);
    ReadTagged(tag, n, x, rest);
  }

  // ---------- strings and arrays ----------

  const MAX_LENGTH: nat := 0x1_0000_0000

  /** String header; a length of 2^32 or more does not fit and wraps. */
  function StringHeader(n: nat): (b: Bytes)
    ensures 1 <= |b| <= 5
  {
    if n < 32 then [0xa0 + n]
    else if n < 0x100 then Tagged(0xd9, 1, n)
    else if n < 0x1_0000 then Tagged(0xda, 2, n)
    else Tagged(0xdb, 4, n % MAX_LENGTH)
  }

  function AppendString(s: Bytes): Bytes {
    StringHeader(|s|) + s
  }

  /** A length header: `fix` is the tag range with the length inside, then the 1-, 2- and 4-byte tags. */
  function ReadStringHeader(b: Bytes): Parsed<nat> {
    if b == [] then Malformed
    else if 0xa0 <= b[0] < 0xc0 then Got(b[0] - 0xa0, b[1..])
    else if b[0] == 0xd9 then ReadNumber(b, 1)
    else if b[0] == 0xda then ReadNumber(b, 2)
    else if b[0] == 0xdb then ReadNumber(b, 4)
    else Malformed
  }

  function ReadString(b: Bytes): Parsed<Bytes> {
    var h := ReadStringHeader(b);
    if h.Malformed? || |h.rest| < h.value then Malformed
    else Got(h.rest[..h.value], h.rest[h.value..])
  }

  lemma StringHeaderRoundTrip(n: nat, rest: Bytes)
    ensures ReadStringHeader(StringHeader(n) + rest) == Got(n % MAX_LENGTH, rest)
  {
    Pow256Values();
    if n < 32 {
      assert ([0xa0 + n] + rest)[1..] == rest;
    } else if n < 0x100 {
      ReadTagged(0xd9, 1, n, rest);
    } else if n < 0x1_0000 {
      ReadTagged(0xda, 2, n, rest);
    } else {
      ReadTagged(0xdb, 4, n % MAX_LENGTH, rest);
    }
  }

  /** A string survives exactly when its length fits in 32 bits. */
  lemma StringRoundTrip(s: Bytes, rest: Bytes)
    ensures ReadString(AppendString(s) + rest) == Got(s, rest) <==> |s| < MAX_LENGTH
  {
    var n := WrappedLength(s);
    var b := HeaderRead(s, rest, n);
    ContentsRead(b, s, rest, n);
  }

  lemma HeaderRead(s: Bytes, rest: Bytes, n: nat) returns (b: Bytes)
    requires n == |s| % MAX_LENGTH
    ensures b == AppendString(s) + rest && ReadStringHeader(b) == Got(n, s + rest)
  {
    b := AppendString(s) + rest;
    assert b == StringHeader(|s|) + (s + rest);
    StringHeaderRoundTrip(|s|, s + rest);
  }

  lemma ContentsRead(b: Bytes, s: Bytes, rest: Bytes, n: nat)
    requires ReadStringHeader(b) == Got(n, s + rest) && n <= |s|
    ensures ReadString(b) == Got(s, rest) <==> n == |s|
  {
    assert |(s + rest)[..n]| == n;
    assert n == |s| ==> (s + rest)[..n] == s && (s + rest)[n..] == rest;
  }

  /** A length as its 32-bit header tells it. */
  lemma WrappedLength(s: Bytes) returns (n: nat)
    ensures n == |s| % MAX_LENGTH && n <= |s|
    ensures n == |s| <==> |s| < MAX_LENGTH
  {
    n := |s| % MAX_LENGTH;
  }

  /** A map key: a string or binary data. */
  function ReadMapKey(b: Bytes): Parsed<Bytes> {
    if b == [] then Malformed
    else
      var h := if b[0] == 0xc4 then ReadNumber(b, 1)
               else if b[0] == 0xc5 then ReadNumber(b, 2)
               else if b[0] == 0xc6 then ReadNumber(b, 4)
               else ReadStringHeader(b);
      if h.Malformed? || |h.rest| < h.value then Malformed
      else Got(h.rest[..h.value], h.rest[h.value..])
  }

  lemma StringIsMapKey(s: Bytes, rest: Bytes)
    requires |s| < MAX_LENGTH
    ensures ReadMapKey(AppendString(s) + rest) == Got(s, rest)
  {
    StringRoundTrip(s, rest);
    Pow256Values();
    var b := AppendString(s) + rest;
    assert b[0] == StringHeader(|s|)[0];
  }

  /** Array header for a length cut to 32 bits. */
  function AppendArrayHeader(n: nat): (b: Bytes)
    ensures 1 <= |b| <= 5
  {
    var k := n % MAX_LENGTH;
    if k < 16 then [0x90 + k]
    else if k < 0x1_0000 then Tagged(0xdc, 2, k)
    else Tagged(0xdd, 4, k)
  }

  function ReadArrayHeader(b: Bytes): Parsed<nat> {
    if b == [] then Malformed
    else if 0x90 <= b[0] < 0xa0 then Got(b[0] - 0x90, b[1..])
    else if b[0] == 0xdc then ReadNumber(b, 2)
    else if b[0] == 0xdd then ReadNumber(b, 4)
    else Malformed
  }

  lemma ArrayHeaderRoundTrip(n: nat, rest: Bytes)
    ensures ReadArrayHeader(AppendArrayHeader(n) + rest) == Got(n % MAX_LENGTH, rest)
  {
    Pow256Values();
    var k := n % MAX_LENGTH;
    if k < 16 {
      assert ([0x90 + k] + rest)[1..] == rest;
    } else if k < 0x1_0000 {
      ReadTagged(0xdc, 2, k, rest);
    } else {
      ReadTagged(0xdd, 4, k, rest);
    }
  }

  lemma {:induction false} FromBigEndianBound(b: Bytes)
    ensures FromBigEndian(b) < Pow256(|b|)
    decreases |b|
  {
    if b != [] { FromBigEndianBound(b[..|b| - 1]); }
  }

  lemma NumberBound(b: Bytes, n: nat)
    ensures ReadNumber(b, n).Got? ==> ReadNumber(b, n).value < Pow256(n)
  {
    if |b| >= 1 + n { FromBigEndianBound(b[1..1 + n]); }
  }

  /** No header gives a length of 2^32 or more. */
  lemma LengthsAreShort(b: Bytes)
    ensures ReadStringHeader(b).Got? ==> ReadStringHeader(b).value < MAX_LENGTH
    ensures ReadArrayHeader(b).Got? ==> ReadArrayHeader(b).value < MAX_LENGTH
  {
    Pow256Values();
    NumberBound(b, 1);
    NumberBound(b, 2);
    NumberBound(b, 4);
  }

  function ReadMapHeader(b: Bytes): Parsed<nat> {
    if b == [] then Malformed
    else if 0x80 <= b[0] < 0x90 then Got(b[0] - 0x80, b[1..])
    else if b[0] == 0xde then ReadNumber(b, 2)
    else if b[0] == 0xdf then ReadNumber(b, 4)
    else Malformed
  }

  // ---------- timestamps ----------

  const NANOS: int := 1_000_000_000

  /** Nanoseconds since the epoch whose whole seconds fit in 64 bits. */
  ghost predicate Timestamp(t: int) {
    -0x8000_0000_0000_0000 <= t / NANOS < 0x8000_0000_0000_0000
  }

  function Unsigned(i: int, size: nat): nat
    requires 0 <= i + size
  {
    if i < 0 then i + size else i
  }

  /** Extension type 5: seconds as a signed 64-bit number, nanoseconds as a 32-bit number. */
  function AppendTime(t: int): (b: Bytes)
    ensures |b| == 15
  {
    [0xc7, 12, 5] + BigEndian(8, (t / NANOS) % 0x1_0000_0000_0000_0000) + BigEndian(4, t % NANOS)
  }

  function ReadTime(b: Bytes): Parsed<int> {
    if |b| < 15 || b[0] != 0xc7 || b[1] != 12 || b[2] != 5 then Malformed
    else
      var sec := Signed(FromBigEndian(b[3..11]), 0x1_0000_0000_0000_0000);
      var nsec := Signed(FromBigEndian(b[11..15]), 0x1_0000_0000);
      Got(sec * NANOS + nsec, b[15..])
  }

  lemma TimeRoundTrip(t: int, rest: Bytes)
    requires Timestamp(t)
    ensures ReadTime(AppendTime(t) + rest) == Got(t, rest)
  {
    var sec, nsec := (t / NANOS) % 0x1_0000_0000_0000_0000, t % NANOS;
    assert t / NANOS < 0 ==> sec == t / NANOS + 0x1_0000_0000_0000_0000 by {
      DivModUnique(t / NANOS, 0x1_0000_0000_0000_0000, if t / NANOS < 0 then -1 else 0,
                   if t / NANOS < 0 then t / NANOS + 0x1_0000_0000_0000_0000 else t / NANOS);
    }
    TimeParts(t, sec, nsec, rest);
  }

  lemma TimeParts(t: int, sec: nat, nsec: nat, rest: Bytes)
    requires sec == (t / NANOS) % 0x1_0000_0000_0000_0000 && nsec == t % NANOS
    ensures var b := AppendTime(t) + rest;
            && |b| >= 15 && FromBigEndian(b[3..11]) == sec && FromBigEndian(b[11..15]) == nsec && b[15..] == rest
  {
    Pow256Values();
    BigEndianRoundTrip(8, sec);
    BigEndianRoundTrip(4, nsec);
    var b := AppendTime(t) + rest;
    assert b[3..11] == BigEndian(8, sec);
    assert b[11..15] == BigEndian(4, nsec);
    assert b[15..] == rest;
  }

  // ---------- skipping ----------

  /** Size of an object's own bytes and how many objects it contains. */
  datatype Extent = Extent(size: nat, inner: nat)

  function Sized(p: Parsed<nat>, header: nat): Option<Extent> {
    if p.Got? then Some(Extent(header + p.value, 0)) else None
  }

  function Nested(p: Parsed<nat>, header: nat, per: nat): Option<Extent> {
    if p.Got? then Some(Extent(header, per * p.value)) else None
  }

  function ExtentOf(b: Bytes): Option<Extent> {
    if b == [] then None
    else
      var t := b[0];
      if t < 0x80 || t >= 0xe0 then Some(Extent(1, 0))
      else if t < 0x90 then Some(Extent(1, 2 * (t - 0x80)))
      else if t < 0xa0 then Some(Extent(1, t - 0x90))
      else if t < 0xc0 then Some(Extent(1 + t - 0xa0, 0))
      else match t
        case 0xc0 => Some(Extent(1, 0))
        case 0xc2 => Some(Extent(1, 0))
        case 0xc3 => Some(Extent(1, 0))
        case 0xc4 => Sized(ReadNumber(b, 1), 2)
        case 0xc5 => Sized(ReadNumber(b, 2), 3)
        case 0xc6 => Sized(ReadNumber(b, 4), 5)
        case 0xc7 => Sized(ReadNumber(b, 1), 3)
        case 0xc8 => Sized(ReadNumber(b, 2), 4)
        case 0xc9 => Sized(ReadNumber(b, 4), 6)
        case 0xca => Some(Extent(5, 0))
        case 0xcb => Some(Extent(9, 0))
        case 0xcc => Some(Extent(2, 0))
        case 0xcd => Some(Extent(3, 0))
        case 0xce => Some(Extent(5, 0))
        case 0xcf => Some(Extent(9, 0))
        case 0xd0 => Some(Extent(2, 0))
        case 0xd1 => Some(Extent(3, 0))
        case 0xd2 => Some(Extent(5, 0))
        case 0xd3 => Some(Extent(9, 0))
        case 0xd4 => Some(Extent(3, 0))
        case 0xd5 => Some(Extent(4, 0))
        case 0xd6 => Some(Extent(6, 0))
        case 0xd7 => Some(Extent(10, 0))
        case 0xd8 => Some(Extent(18, 0))
        case 0xd9 => Sized(ReadNumber(b, 1), 2)
        case 0xda => Sized(ReadNumber(b, 2), 3)
        case 0xdb => Sized(ReadNumber(b, 4), 5)
        case 0xdc => Nested(ReadNumber(b, 2), 3, 1)
        case 0xdd => Nested(ReadNumber(b, 4), 5, 1)
        case 0xde => Nested(ReadNumber(b, 2), 3, 2)
        case 0xdf => Nested(ReadNumber(b, 4), 5, 2)
        case _ => None
  }

  lemma ExtentPositive(b: Bytes)
    ensures ExtentOf(b).Some? ==> ExtentOf(b).value.size > 0
  {
  }

  /** Skips `n` consecutive objects with everything inside them. */
  function Skip(b: Bytes, n: nat): Parsed<()>
    decreases |b|, n
  {
    if n == 0 then Got((), b)
    else
      var e := ExtentOf(b);
      if e.None? || |b| < e.value.size then Malformed
      else
        ExtentPositive(b);
        Skip(b[e.value.size..], n - 1 + e.value.inner)
  }

  /** Whatever the header needs is in the object's own bytes, so what follows does not matter. */
  lemma ExtentStable(b: Bytes, rest: Bytes)
    requires ExtentOf(b).Some?
    ensures ExtentOf(b + rest) == ExtentOf(b)
  {
    assert (b + rest)[0] == b[0];
    assert 2 <= |b| ==> (b + rest)[1..2] == b[1..2];
    assert 3 <= |b| ==> (b + rest)[1..3] == b[1..3];
    assert 5 <= |b| ==> (b + rest)[1..5] == b[1..5];
  }

  lemma SkipStep(b: Bytes, n: nat, e: Extent)
    requires n > 0 && ExtentOf(b) == Some(e) && e.size <= |b|
    ensures Skip(b, n) == Skip(b[e.size..], n - 1 + e.inner)
  {
  }

  /** Skipping a run of objects leaves exactly what follows them. */
  lemma {:induction false} SkipPrefix(b: Bytes, n: nat, rest: Bytes)
    requires Skip(b, n) == Got((), [])
    ensures Skip(b + rest, n) == Got((), rest)
    decreases |b|, n
  {
    if n == 0 {
      assert b + rest == rest;
    } else {
      var e := ExtentOf(b).value;
      ExtentPositive(b);
      calc {
        Skip(b + rest, n);
        { ExtentStable(b, rest); SkipStep(b + rest, n, e); }
        Skip((b + rest)[e.size..], n - 1 + e.inner);
        { assert (b + rest)[e.size..] == b[e.size..] + rest; }
        Skip(b[e.size..] + rest, n - 1 + e.inner);
        { SkipStep(b, n, e); SkipPrefix(b[e.size..], n - 1 + e.inner, rest); }
        Got((), rest);
      }
    }
  }
}
