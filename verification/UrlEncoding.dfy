/** S3 URL encoding (cmd/api-utils.go), and the decoding of section 2.1 of RFC 3986 with `+` for a space. */
module UrlEncoding {
  import opened Prelude

  // ---------- bytes ----------

  const SPACE: Byte := 0x20
  const PLUS: Byte := 0x2B
  const PERCENT: Byte := 0x25

  predicate IsUpper(c: Byte) { 0x41 <= c <= 0x5A }

  predicate IsLower(c: Byte) { 0x61 <= c <= 0x7A }

  predicate IsDigit(c: Byte) { 0x30 <= c <= 0x39 }

  /** Letters, digits and `-` `_` `.` `/` `*` stand for themselves. */
  predicate ShouldEscape(c: Byte) {
    !(IsUpper(c) || IsLower(c) || IsDigit(c) || c == 0x2D || c == 0x5F || c == 0x2E || c == 0x2F || c == 0x2A)
  }

  predicate NeedsHex(c: Byte) {
    ShouldEscape(c) && c != SPACE
  }

  /** The upper-case hexadecimal digit. */
  function Digit(n: int): (c: Byte)
    requires 0 <= n < 16
    ensures IsDigit(c) || 0x41 <= c <= 0x46
  {
    if n < 10 then 0x30 + n else 0x41 + (n - 10)
  }

  /** A hexadecimal digit of either case. */
  function DigitValue(c: Byte): Option<int> {
    if IsDigit(c) then Some(c - 0x30)
    else if 0x41 <= c <= 0x46 then Some(c - 0x41 + 10)
    else if 0x61 <= c <= 0x66 then Some(c - 0x61 + 10)
    else None
  }

  // ---------- specification ----------

  function EncodeByte(c: Byte): Bytes {
    if c == SPACE then [PLUS]
    else if ShouldEscape(c) then [PERCENT, Digit(c / 16), Digit(c % 16)]
    else [c]
  }

  function Encode(s: Bytes): Bytes {
    if s == [] then [] else EncodeByte(s[0]) + Encode(s[1..])
  }

  function SpaceCount(s: Bytes): nat {
    if s == [] then 0 else (if s[0] == SPACE then 1 else 0) + SpaceCount(s[1..])
  }

  function HexCount(s: Bytes): nat {
    if s == [] then 0 else (if NeedsHex(s[0]) then 1 else 0) + HexCount(s[1..])
  }

  /** The decoder: strict about what follows a percent sign. */
  function Decode(t: Bytes): Option<Bytes>
    decreases |t|
  {
    if t == [] then Some([])
    else if t[0] == PLUS then Prepend(SPACE, Decode(t[1..]))
    else if t[0] != PERCENT then Prepend(t[0], Decode(t[1..]))
    else if |t| < 3 || DigitValue(t[1]).None? || DigitValue(t[2]).None? then None
    else Prepend(DigitValue(t[1]).value * 16 + DigitValue(t[2]).value, Decode(t[3..]))
  }

  function Prepend(c: Byte, rest: Option<Bytes>): Option<Bytes> {
    if rest.None? then None else Some([c] + rest.value)
  }

  // ---------- laws ----------

  lemma {:induction false} EncodeConcat(a: Bytes, b: Bytes)
    ensures Encode(a + b) == Encode(a) + Encode(b)
    ensures SpaceCount(a + b) == SpaceCount(a) + SpaceCount(b)
    ensures HexCount(a + b) == HexCount(a) + HexCount(b)
  {
    if a == [] {
      assert a + b == b;
    } else {
      assert (a + b)[1..] == a[1..] + b;
      EncodeConcat(a[1..], b);
    }
  }

  /** One more byte read. */
  lemma EncodePrefix(s: Bytes, i: nat)
    requires i < |s|
    ensures Encode(s[..i + 1]) == Encode(s[..i]) + EncodeByte(s[i])
    ensures SpaceCount(s[..i + 1]) == SpaceCount(s[..i]) + if s[i] == SPACE then 1 else 0
    ensures HexCount(s[..i + 1]) == HexCount(s[..i]) + if NeedsHex(s[i]) then 1 else 0
  {
    assert s[..i + 1] == s[..i] + [s[i]];
    EncodeConcat(s[..i], [s[i]]);
    assert [s[i]][1..] == [];
    assert Encode([s[i]]) == EncodeByte(s[i]) + [];
  }

  /** The buffer is sized right. */
  lemma {:induction false} EncodedLength(s: Bytes)
    ensures |Encode(s)| == |s| + 2 * HexCount(s)
  {
    if s != [] {
      EncodedLength(s[1..]);
    }
  }

  lemma PrefixFits(s: Bytes, i: nat)
    requires i <= |s|
    ensures Encode(s) == Encode(s[..i]) + Encode(s[i..])
    ensures |Encode(s[..i])| <= |s| + 2 * HexCount(s)
  {
    assert s == s[..i] + s[i..];
    EncodeConcat(s[..i], s[i..]);
    EncodedLength(s);
  }

  /** Without hexadecimal escapes every byte keeps its place. */
  lemma {:induction false} NoHexPointwise(s: Bytes)
    requires HexCount(s) == 0
    ensures |Encode(s)| == |s|
    ensures forall i :: 0 <= i < |s| ==> Encode(s)[i] == if s[i] == SPACE then PLUS else s[i]
  {
    if s != [] {
      NoHexPointwise(s[1..]);
    }
  }

  lemma {:induction false} SpaceCountZero(s: Bytes)
    requires SpaceCount(s) == 0
    ensures forall i :: 0 <= i < |s| ==> s[i] != SPACE
  {
    if s != [] {
      SpaceCountZero(s[1..]);
    }
  }

  /** The decoder undoes one encoded byte, whatever follows. */
  lemma DecodeByte(c: Byte, rest: Bytes)
    ensures Decode(EncodeByte(c) + rest) == Prepend(c, Decode(rest))
  {
    var e := EncodeByte(c);
    var t := e + rest;
    assert t[0] == e[0] && t[|e|..] == rest;
    if NeedsHex(c) {
      assert t[1] == e[1] && t[2] == e[2];
    }
  }

  /** Decoding undoes encoding, for every byte string. */
  lemma {:induction false} RoundTrip(s: Bytes)
    ensures Decode(Encode(s)) == Some(s)
  {
    if s != [] {
      RoundTrip(s[1..]);
      DecodeByte(s[0], Encode(s[1..]));
      assert [s[0]] + s[1..] == s;
    }
  }

  lemma Injective(a: Bytes, b: Bytes)
    requires Encode(a) == Encode(b)
    ensures a == b
  {
    RoundTrip(a);
    RoundTrip(b);
  }

  // ---------- which strings are encodings ----------

  /** Safe bytes, `+`, and upper-case escapes of bytes that need one. */
  predicate Canonical(t: Bytes)
    decreases |t|
  {
    || t == []
    || (t[0] == PLUS && Canonical(t[1..]))
    || (!ShouldEscape(t[0]) && Canonical(t[1..]))
    || (&& t[0] == PERCENT && |t| >= 3 && IsUpperDigit(t[1]) && IsUpperDigit(t[2])
        && NeedsHex(DigitValue(t[1]).value * 16 + DigitValue(t[2]).value)
        && Canonical(t[3..]))
  }

  predicate IsUpperDigit(c: Byte) {
    IsDigit(c) || 0x41 <= c <= 0x46
  }

  lemma DigitsOf(c: Byte)
    ensures IsUpperDigit(Digit(c / 16)) && IsUpperDigit(Digit(c % 16))
    ensures DigitValue(Digit(c / 16)) == Some(c / 16) && DigitValue(Digit(c % 16)) == Some(c % 16)
    ensures c / 16 * 16 + c % 16 == c
  {
  }

  lemma DigitsBack(h: Byte, l: Byte)
    requires IsUpperDigit(h) && IsUpperDigit(l)
    ensures var c := DigitValue(h).value * 16 + DigitValue(l).value;
            c < 256 && Digit(c / 16) == h && Digit(c % 16) == l
  {
  }

  lemma CanonicalByte(c: Byte, rest: Bytes)
    requires Canonical(rest)
    ensures Canonical(EncodeByte(c) + rest)
  {
    var e := EncodeByte(c);
    var t := e + rest;
    assert t[0] == e[0] && t[|e|..] == rest;
    if NeedsHex(c) {
      assert t[1] == e[1] && t[2] == e[2] && t[3..] == rest;
      DigitsOf(c);
    } else {
      assert t[1..] == rest;
    }
  }

  lemma {:induction false} EncodingIsCanonical(s: Bytes)
    ensures Canonical(Encode(s))
  {
    if s != [] {
      EncodingIsCanonical(s[1..]);
      CanonicalByte(s[0], Encode(s[1..]));
    }
  }

  /** The strings that encoding produces are exactly the canonical ones: decoding then encoding gives them back. */
  lemma {:induction false} CanonicalIsEncoding(t: Bytes)
    requires Canonical(t)
    ensures Decode(t).Some? && Encode(Decode(t).value) == t
    decreases |t|
  {
    if t == [] {
    } else if t[0] == PERCENT {
      var c := DigitValue(t[1]).value * 16 + DigitValue(t[2]).value;
      DigitsBack(t[1], t[2]);
      CanonicalIsEncoding(t[3..]);
      EncodeFront(c, Decode(t[3..]).value);
      assert t == [PERCENT, t[1], t[2]] + t[3..];
    } else {
      var c := if t[0] == PLUS then SPACE else t[0];
      CanonicalIsEncoding(t[1..]);
      EncodeFront(c, Decode(t[1..]).value);
      assert t == [t[0]] + t[1..];
    }
  }

  lemma EncodeFront(c: Byte, s: Bytes)
    ensures Encode([c] + s) == EncodeByte(c) + Encode(s)
  {
    assert ([c] + s)[1..] == s;
  }

  // ---------- the code ----------

  /** s3URLEncode: count, then copy, patch or expand into a buffer of the size counted. */
  method S3UrlEncode(s: Bytes) returns (r: Bytes)
    ensures r == Encode(s)
  {
    var spaceCount, hexCount := Count(s);
    if spaceCount == 0 && hexCount == 0 {
      NoHexPointwise(s);
      SpaceCountZero(s);
      return s;
    }
    var t := new Byte[|s| + 2 * hexCount](_ => 0);
    if hexCount == 0 {
      PatchSpaces(s, t);
    } else {
      Expand(s, t);
    }
    return t[..];
  }

  method Count(s: Bytes) returns (spaceCount: nat, hexCount: nat)
    ensures spaceCount == SpaceCount(s) && hexCount == HexCount(s)
  {
    spaceCount, hexCount := 0, 0;
    var i := 0;
    while i < |s|
      invariant 0 <= i <= |s| && spaceCount == SpaceCount(s[..i]) && hexCount == HexCount(s[..i])
    {
      EncodePrefix(s, i);
      if ShouldEscape(s[i]) {
        if s[i] == SPACE {
          spaceCount := spaceCount + 1;
        } else {
          hexCount := hexCount + 1;
        }
      }
      i := i + 1;
    }
    assert s[..i] == s;
  }

  /** The fast path when only spaces change. */
  method PatchSpaces(s: Bytes, t: array<Byte>)
    requires t.Length == |s| && HexCount(s) == 0
    modifies t
    ensures t[..] == Encode(s)
  {
    forall k | 0 <= k < |s| { t[k] := s[k]; }
    var i := 0;
    while i < |s|
      invariant 0 <= i <= |s|
      invariant forall k :: 0 <= k < i ==> t[k] == if s[k] == SPACE then PLUS else s[k]
      invariant forall k :: i <= k < |s| ==> t[k] == s[k]
    {
      if s[i] == SPACE {
        t[i] := PLUS;
      }
      i := i + 1;
    }
    NoHexPointwise(s);
  }

  /** The general loop, with one index into the input and one into the buffer. */
  method Expand(s: Bytes, t: array<Byte>)
    requires t.Length == |s| + 2 * HexCount(s)
    modifies t
    ensures t[..] == Encode(s)
  {
    var i, j := 0, 0;
    while i < |s|
      invariant 0 <= i <= |s| && j == |Encode(s[..i])| <= t.Length
      invariant t[..j] == Encode(s[..i])
    {
      EncodePrefix(s, i);
      PrefixFits(s, i + 1);
      j := Emit(t, j, s[i]);
      i := i + 1;
    }
    assert s[..i] == s;
    EncodedLength(s);
  }

  /** One byte written at `j`; the new end is returned. */
  method Emit(t: array<Byte>, j: nat, c: Byte) returns (end: nat)
    requires j + |EncodeByte(c)| <= t.Length
    modifies t
    ensures end == j + |EncodeByte(c)|
    ensures t[..end] == old(t[..j]) + EncodeByte(c)
  {
    if c == SPACE {
      t[j] := PLUS;
      end := j + 1;
    } else if ShouldEscape(c) {
      t[j] := PERCENT;
      t[j + 1] := Digit(c / 16);
      t[j + 2] := Digit(c % 16);
      end := j + 3;
    } else {
      t[j] := c;
      end := j + 1;
    }
  }

  /** The bytes that stand for themselves, by their characters. */
  predicate Safe(c: Byte) {
    || 'A' as int <= c <= 'Z' as int || 'a' as int <= c <= 'z' as int || '0' as int <= c <= '9' as int
    || c == '-' as int || c == '_' as int || c == '.' as int || c == '/' as int || c == '*' as int
  }

  /** One byte: itself if it is safe, a plus sign for a space, and three bytes from a percent sign on otherwise. */
  lemma OneByte(c: Byte)
    ensures Encode([c]) == [c] <==> Safe(c)
    ensures Encode([c]) == ['+' as int] <==> c == ' ' as int
    ensures |Encode([c])| == 3 && Encode([c])[0] == '%' as int <==> !Safe(c) && c != ' ' as int
  {
    assert [c][1..] == [];
  }

  /** Encodings are made of safe bytes, plus signs and percent signs, and have as many of each as the bytes ask for. */
  lemma {:induction false} EncodedAlphabet(s: Bytes, i: nat)
    requires i < |Encode(s)|
    ensures Safe(Encode(s)[i]) || Encode(s)[i] == '+' as int || Encode(s)[i] == '%' as int
    decreases |s|
  {
    var first := EncodeByte(s[0]);
    if i >= |first| {
      EncodedAlphabet(s[1..], i - |first|);
    }
  }
}
