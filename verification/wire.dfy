/** Wire-format primitives of the Protocol Buffers "Encoding" document that the
    generated ONNX parsers and printers call: base 128 varints, tags,
    length-delimited payloads, fixed-width values, the UTF-8 check and the
    skipping of unknown fields. Every reader takes the bytes that are left
    before its limit and gives back those that are left after it. */
module Wire {
  type byte = x: int | 0 <= x < 256
  type bytes = seq<byte>

  /** What a reader found and the bytes after it. */
  datatype Read<+T> = Bad | Got(value: T, rest: bytes)

  const VARINT: nat := 0
  const FIXED64: nat := 1
  const LENGTH_DELIMITED: nat := 2
  const START_GROUP: nat := 3
  const END_GROUP: nat := 4
  const FIXED32: nat := 5

  const TWO32: nat := 0x1_0000_0000
  const TWO64: nat := 0x1_0000_0000_0000_0000

  // A size is read with at most five bytes and refused when it comes within
  // the 16 slop bytes of INT_MAX.
  const MAX_SIZE: nat := 0x7fff_ffff - 16

  lemma DropAppend<T>(x: seq<T>, y: seq<T>, n: nat)
    requires n <= |x|
    ensures (x + y)[..n] == x[..n] && (x + y)[n..] == x[n..] + y
  {
  }

  lemma AppendAssoc<T>(x: seq<T>, y: seq<T>, z: seq<T>)
    ensures x + y + z == x + (y + z)
  {
  }

  // ----- Base 128 varints -----

  function Varint(n: nat): (b: bytes)
    ensures |b| == VarintSize(n)
  {
    if n < 128 then [n] else [n % 128 + 128] + Varint(n / 128)
  }

  function VarintSize(n: nat): (k: nat)
    ensures k >= 1
  {
    if n < 128 then 1 else 1 + VarintSize(n / 128)
  }

  /** The varint at the head of `b`; Bad when it is cut short or longer than `max` bytes. */
  function ReadVarint(b: bytes, max: nat): (r: Read<nat>)
    ensures r.Got? ==> |r.rest| < |b|
    decreases max
  {
    if b == [] || max == 0 then Bad
    else if b[0] < 128 then Got(b[0], b[1..])
    else
      match ReadVarint(b[1..], max - 1)
      case Bad => Bad
      case Got(v, rest) => Got(b[0] - 128 + 128 * v, rest)
  }

  function Pow128(k: nat): nat {
    if k == 0 then 1 else 128 * Pow128(k - 1)
  }

  lemma {:induction false} VarintFits(n: nat, k: nat)
    requires n < Pow128(k) && k > 0
    ensures VarintSize(n) <= k
  {
    if n >= 128 {
      VarintFits(n / 128, k - 1);
    }
  }

  lemma VarintFits32(n: nat)
    requires n < TWO32
    ensures VarintSize(n) <= 5
  {
    assert Pow128(5) == 0x8_0000_0000 by {
      assert Pow128(1) == 128 && Pow128(2) == 0x4000 && Pow128(3) == 0x20_0000;
    }
    VarintFits(n, 5);
  }

  lemma VarintFits64(n: nat)
    requires n < TWO64
    ensures VarintSize(n) <= 10
  {
    assert Pow128(5) == 0x8_0000_0000 by {
      assert Pow128(1) == 128 && Pow128(2) == 0x4000 && Pow128(3) == 0x20_0000;
    }
    assert Pow128(10) == 0x40_0000_0000_0000_0000 by {
      assert Pow128(6) == 0x400_0000_0000;
      assert Pow128(7) == 0x2_0000_0000_0000;
      assert Pow128(8) == 0x100_0000_0000_0000;
    }
    VarintFits(n, 10);
  }

  lemma ReadVarintMore(c: byte, b: bytes, max: nat)
    requires c >= 128 && max > 0 && ReadVarint(b, max - 1).Got?
    ensures ReadVarint([c] + b, max)
         == Got(c - 128 + 128 * ReadVarint(b, max - 1).value, ReadVarint(b, max - 1).rest)
  {
    assert ([c] + b)[1..] == b;
  }

  lemma {:induction false} VarintRoundTrip(n: nat, max: nat, rest: bytes)
    requires VarintSize(n) <= max
    ensures ReadVarint(Varint(n) + rest, max) == Got(n, rest)
  {
    if n < 128 {
      assert ([n] + rest)[1..] == rest;
    } else {
      var q, r := n / 128, n % 128;
      VarintRoundTrip(q, max - 1, rest);
      AppendAssoc([r + 128], Varint(q), rest);
      ReadVarintMore(r + 128, Varint(q) + rest, max);
    }
  }

  lemma {:induction false} ReadVarintLocal(x: bytes, max: nat, y: bytes)
    requires ReadVarint(x, max).Got?
    ensures ReadVarint(x + y, max) == ReadVarint(x, max).(rest := ReadVarint(x, max).rest + y)
    decreases max
  {
    DropAppend(x, y, 1);
    if x[0] >= 128 {
      ReadVarintLocal(x[1..], max - 1, y);
    }
  }

  // ----- Tags -----

  /** A field number and a wire type share one 32-bit varint. */
  datatype TagValue = TagValue(num: nat, wt: nat) {
    ghost predicate Fits() {
      wt < 8 && num < TWO32 / 8
    }
  }

  function Tag(num: nat, wt: nat): (b: bytes)
    ensures |b| == TagSize(num, wt) >= 1
  {
    Varint(num * 8 + wt)
  }

  function TagSize(num: nat, wt: nat): nat {
    VarintSize(num * 8 + wt)
  }

  function ReadTag(b: bytes): (r: Read<TagValue>)
    ensures r.Got? ==> r.value.Fits() && |r.rest| < |b|
  {
    match ReadVarint(b, 5)
    case Bad => Bad
    case Got(v, rest) => Got(TagValue(v % TWO32 / 8, v % 8), rest)
  }

  lemma ReadTagLocal(x: bytes, y: bytes)
    requires ReadTag(x).Got?
    ensures ReadTag(x + y) == ReadTag(x).(rest := ReadTag(x).rest + y)
  {
    ReadVarintLocal(x, 5, y);
  }

  lemma TagParts(num: nat, wt: nat)
    requires TagValue(num, wt).Fits()
    ensures var v := num * 8 + wt; v < TWO32 && v % TWO32 / 8 == num && v % 8 == wt
  {
  }

  lemma ReadTagOfTag(num: nat, wt: nat, rest: bytes)
    requires TagValue(num, wt).Fits()
    ensures ReadTag(Tag(num, wt) + rest) == Got(TagValue(num, wt), rest)
  {
    hide Varint, ReadVarint;
    var v := num * 8 + wt;
    TagParts(num, wt);
    VarintFits32(v);
    VarintRoundTrip(v, 5, rest);
  }

  // ----- Fixed-width values and length-delimited payloads -----

  function ReadFixed(b: bytes, n: nat): (r: Read<bytes>)
    requires n > 0
    ensures r.Got? ==> |r.value| == n && |r.rest| < |b|
  {
    if |b| >= n then Got(b[..n], b[n..]) else Bad
  }

  lemma ReadFixedLocal(x: bytes, n: nat, y: bytes)
    requires n > 0 && ReadFixed(x, n).Got?
    ensures ReadFixed(x + y, n) == ReadFixed(x, n).(rest := ReadFixed(x, n).rest + y)
  {
    DropAppend(x, y, n);
  }

  lemma ReadFixedOf(p: bytes, rest: bytes)
    requires p != []
    ensures ReadFixed(p + rest, |p|) == Got(p, rest)
  {
  }

  function Delimited(p: bytes): (b: bytes)
    ensures |b| == VarintSize(|p|) + |p|
  {
    Varint(|p|) + p
  }

  function ReadDelimited(b: bytes): (r: Read<bytes>)
    ensures r.Got? ==> |r.value| + |r.rest| < |b| && |r.value| <= MAX_SIZE
  {
    match ReadVarint(b, 5)
    case Bad => Bad
    case Got(n, rest) => if n <= MAX_SIZE && n <= |rest| then Got(rest[..n], rest[n..]) else Bad
  }

  lemma ReadDelimitedLocal(x: bytes, y: bytes)
    requires ReadDelimited(x).Got?
    ensures ReadDelimited(x + y) == ReadDelimited(x).(rest := ReadDelimited(x).rest + y)
  {
    ReadVarintLocal(x, 5, y);
    var Got(n, rest) := ReadVarint(x, 5);
    DropAppend(rest, y, n);
  }

  lemma ReadDelimitedOf(p: bytes, rest: bytes)
    requires |p| <= MAX_SIZE
    ensures ReadDelimited(Delimited(p) + rest) == Got(p, rest)
  {
    VarintFits32(|p|);
    VarintRoundTrip(|p|, 5, p + rest);
    AppendAssoc(Varint(|p|), p, rest);
  }

  // ----- UTF-8 (RFC 3629, section 4) -----

  predicate Tail(b: byte) { 0x80 <= b <= 0xBF }

  predicate ValidUtf8(s: bytes)
    decreases |s|
  {
    if s == [] then true
    else if s[0] < 0x80 then ValidUtf8(s[1..])
    else if 0xC2 <= s[0] <= 0xDF then
      |s| >= 2 && Tail(s[1]) && ValidUtf8(s[2..])
    else if 0xE0 <= s[0] <= 0xEF then
      |s| >= 3 && Tail(s[1]) && Tail(s[2]) && (s[0] == 0xE0 ==> s[1] >= 0xA0)
      && (s[0] == 0xED ==> s[1] <= 0x9F) && ValidUtf8(s[3..])
    else if 0xF0 <= s[0] <= 0xF4 then
      |s| >= 4 && Tail(s[1]) && Tail(s[2]) && Tail(s[3]) && (s[0] == 0xF0 ==> s[1] >= 0x90)
      && (s[0] == 0xF4 ==> s[1] <= 0x8F) && ValidUtf8(s[4..])
    else false
  }

  // ----- Unknown fields -----

  /** The record of an unknown field whose tag has been read: the bytes kept
      for it are the record re-encoded with shortest varints. */
  function SkipField(depth: nat, t: TagValue, b: bytes): (r: Read<bytes>)
    ensures r.Got? ==> |r.rest| <= |b|
    decreases |b|, 1
  {
    if t.num == 0 then Bad
    else
      match SkipPayload(depth, t, b)
      case Bad => Bad
      case Got(raw, rest) => Got(Tag(t.num, t.wt) + raw, rest)
  }

  function SkipPayload(depth: nat, t: TagValue, b: bytes): (r: Read<bytes>)
    ensures r.Got? ==> |r.rest| <= |b|
    decreases |b|, 0, 1
  {
    if t.wt == VARINT then
      match ReadVarint(b, 10)
      case Bad => Bad
      case Got(v, rest) => Got(Varint(v % TWO64), rest)
    else if t.wt == FIXED64 then ReadFixed(b, 8)
    else if t.wt == LENGTH_DELIMITED then
      match ReadDelimited(b)
      case Bad => Bad
      case Got(p, rest) => Got(Delimited(p), rest)
    else if t.wt == START_GROUP && depth > 0 then SkipGroup(depth - 1, t.num, b)
    else if t.wt == FIXED32 then ReadFixed(b, 4)
    else Bad
  }

  /** The rest of an unknown group number `num`, up to and with its end tag. */
  function SkipGroup(depth: nat, num: nat, b: bytes): (r: Read<bytes>)
    ensures r.Got? ==> |r.rest| <= |b|
    decreases |b|, 0, 0
  {
    match ReadTag(b)
    case Bad => Bad
    case Got(t, b1) =>
      if t.wt == END_GROUP then
        if t.num == num then Got(Tag(num, END_GROUP), b1) else Bad
      else
        match SkipField(depth, t, b1)
        case Bad => Bad
        case Got(raw, b2) =>
          match SkipGroup(depth, num, b2)
          case Bad => Bad
          case Got(raws, b3) => Got(raw + raws, b3)
  }

  lemma SkipGroupMore(depth: nat, num: nat, b: bytes)
    requires ReadTag(b).Got? && ReadTag(b).value.wt != END_GROUP
    requires SkipField(depth, ReadTag(b).value, ReadTag(b).rest).Got?
    ensures var Got(raw, rest) := SkipField(depth, ReadTag(b).value, ReadTag(b).rest);
            var tail := SkipGroup(depth, num, rest);
            SkipGroup(depth, num, b) == if tail.Bad? then Bad else Got(raw + tail.value, tail.rest)
  {
  }

  lemma {:induction false} SkipFieldLocal(depth: nat, t: TagValue, x: bytes, y: bytes)
    requires SkipField(depth, t, x).Got?
    ensures SkipField(depth, t, x + y) == SkipField(depth, t, x).(rest := SkipField(depth, t, x).rest + y)
    decreases |x|, 1
  {
    if t.wt == VARINT {
      ReadVarintLocal(x, 10, y);
    } else if t.wt == FIXED64 {
      ReadFixedLocal(x, 8, y);
    } else if t.wt == LENGTH_DELIMITED {
      ReadDelimitedLocal(x, y);
    } else if t.wt == START_GROUP {
      SkipGroupLocal(depth - 1, t.num, x, y);
    } else {
      ReadFixedLocal(x, 4, y);
    }
  }

  lemma {:induction false} SkipGroupLocal(depth: nat, num: nat, x: bytes, y: bytes)
    requires SkipGroup(depth, num, x).Got?
    ensures SkipGroup(depth, num, x + y) == SkipGroup(depth, num, x).(rest := SkipGroup(depth, num, x).rest + y)
    decreases |x|, 0
  {
    ReadTagLocal(x, y);
    var Got(t, x1) := ReadTag(x);
    if t.wt != END_GROUP {
      SkipFieldLocal(depth, t, x1, y);
      SkipGroupLocal(depth, num, SkipField(depth, t, x1).rest, y);
    }
  }

  lemma Varint64Stable(v: nat, rest: bytes)
    ensures ReadVarint(Varint(v % TWO64) + rest, 10) == Got(v % TWO64, rest)
    ensures v % TWO64 % TWO64 == v % TWO64
  {
    VarintFits64(v % TWO64);
    VarintRoundTrip(v % TWO64, 10, rest);
  }

  /** What is kept for an unknown field reads back as itself. */
  lemma {:induction false} SkipFieldStable(depth: nat, t: TagValue, b: bytes, rest: bytes)
    requires SkipField(depth, t, b).Got? && t.Fits()
    ensures var raw := SkipField(depth, t, b).value;
            exists b1 :: ReadTag(raw + rest) == Got(t, b1) && SkipField(depth, t, b1) == Got(raw, rest)
    decreases |b|, 1
  {
    var body := SkipPayload(depth, t, b).value;
    var raw := Tag(t.num, t.wt) + body;
    SkipPayloadStable(depth, t, b, rest);
    AppendAssoc(Tag(t.num, t.wt), body, rest);
    ReadTagOfTag(t.num, t.wt, body + rest);
  }

  lemma {:induction false} SkipPayloadStable(depth: nat, t: TagValue, b: bytes, rest: bytes)
    requires SkipPayload(depth, t, b).Got? && t.Fits()
    ensures SkipPayload(depth, t, SkipPayload(depth, t, b).value + rest)
         == Got(SkipPayload(depth, t, b).value, rest)
    decreases |b|, 0, 1
  {
    var raw := SkipPayload(depth, t, b).value;
    if t.wt == VARINT {
      Varint64Stable(ReadVarint(b, 10).value, rest);
    } else if t.wt == FIXED64 {
      ReadFixedOf(raw, rest);
    } else if t.wt == LENGTH_DELIMITED {
      ReadDelimitedOf(ReadDelimited(b).value, rest);
    } else if t.wt == START_GROUP {
      SkipGroupStable(depth - 1, t.num, b, rest);
    } else {
      ReadFixedOf(raw, rest);
    }
  }

  lemma {:induction false} SkipGroupStable(depth: nat, num: nat, b: bytes, rest: bytes)
    requires SkipGroup(depth, num, b).Got? && num < TWO32 / 8
    ensures SkipGroup(depth, num, SkipGroup(depth, num, b).value + rest)
         == Got(SkipGroup(depth, num, b).value, rest)
    decreases |b|, 0, 0
  {
    var Got(t, b1) := ReadTag(b);
    if t.wt == END_GROUP {
      ReadTagOfTag(num, END_GROUP, rest);
    } else {
      var Got(raw1, b2) := SkipField(depth, t, b1);
      var raw2 := SkipGroup(depth, num, b2).value;
      SkipFieldStable(depth, t, b1, raw2 + rest);
      SkipGroupStable(depth, num, b2, rest);
      SkipGroupMore(depth, num, b);
      SkipGroupMore(depth, num, raw1 + (raw2 + rest));
      AppendAssoc(raw1, raw2, rest);
    }
  }
}
