/** What the readers of the wire format make of any bytes, in the terms of the
    Encoding document alone. */
module WireLaws {
  import opened Wire

  // ----- Varints -----

  /** The groups of seven bits, the lowest first. */
  function Groups(b: bytes): nat {
    if b == [] then 0 else b[0] % 128 + 128 * Groups(b[1..])
  }

  /** A varint ends with its first byte below 128, shortest or not. */
  lemma {:induction false} VarintEnds(b: bytes, max: nat, k: nat)
    requires k < |b| && k < max && b[k] < 128 && forall i | 0 <= i < k :: b[i] >= 128
    ensures ReadVarint(b, max) == Got(Groups(b[..k + 1]), b[k + 1..])
  {
    if k == 0 {
      assert b[..1][1..] == [];
    } else {
      VarintEnds(b[1..], max - 1, k - 1);
      assert b[..k + 1][1..] == b[1..][..k];
    }
  }

  lemma {:induction false} VarintRefused(b: bytes, max: nat)
    requires forall i | 0 <= i < |b| && i < max :: b[i] >= 128
    ensures ReadVarint(b, max).Bad?
    decreases max
  {
    if b != [] && max > 0 {
      VarintRefused(b[1..], max - 1);
    }
  }

  /** A tag is the low 32 bits of its varint: field number and wire type. */
  lemma TagBits(b: bytes, k: nat)
    requires k < |b| && k < 5 && b[k] < 128 && forall i | 0 <= i < k :: b[i] >= 128
    ensures ReadTag(b).Got? && ReadTag(b).rest == b[k + 1..]
    ensures var t := ReadTag(b).value; t.wt < 8 && t.num * 8 + t.wt == Groups(b[..k + 1]) % 0x1_0000_0000
  {
    VarintEnds(b, 5, k);
    LowBits(Groups(b[..k + 1]));
  }

  lemma LowBits(v: nat)
    ensures v % 0x1_0000_0000 / 8 * 8 + v % 8 == v % 0x1_0000_0000
  {
  }

  /** A payload is refused when its size comes within 16 bytes of 2^31 - 1. */
  lemma DelimitedSize(p: bytes, rest: bytes)
    requires |p| < 0x1_0000_0000
    ensures ReadDelimited(Varint(|p|) + p + rest) == if |p| <= 0x7fff_ffef then Got(p, rest) else Bad
  {
    VarintFits32(|p|);
    VarintRoundTrip(|p|, 5, p + rest);
    AppendAssoc(Varint(|p|), p, rest);
  }

  /** ... or cut short. */
  lemma DelimitedShort(n: nat, p: bytes)
    requires |p| < n < 0x1_0000_0000
    ensures ReadDelimited(Varint(n) + p).Bad?
  {
    VarintFits32(n);
    VarintRoundTrip(n, 5, p);
  }

  // ----- Unknown records -----

  /** The records a parser may meet that are not its own. */
  datatype Raw = RawVarint(num: nat, v: nat) | RawFixed64(num: nat, b: bytes) | RawBytes(num: nat, b: bytes)
               | RawFixed32(num: nat, b: bytes) | RawGroup(num: nat, body: seq<Raw>)

  predicate WfRaw(r: Raw)
    decreases r
  {
    && 0 < r.num < 0x2000_0000
    && match r
       case RawVarint(_, v) => v < 0x1_0000_0000_0000_0000
       case RawFixed64(_, b) => |b| == 8
       case RawBytes(_, b) => |b| <= 0x7fff_ffef
       case RawFixed32(_, b) => |b| == 4
       case RawGroup(_, body) => forall x | x in body :: WfRaw(x)
  }

  function RawType(r: Raw): nat {
    match r
    case RawVarint(_, _) => 0
    case RawFixed64(_, _) => 1
    case RawBytes(_, _) => 2
    case RawGroup(_, _) => 3
    case RawFixed32(_, _) => 5
  }

  /** The record behind its tag. */
  function Behind(r: Raw): bytes
    decreases r, 0
  {
    match r
    case RawVarint(_, v) => Varint(v)
    case RawFixed64(_, b) => b
    case RawBytes(_, b) => Varint(|b|) + b
    case RawFixed32(_, b) => b
    case RawGroup(num, body) => Written(body, Varint(num * 8 + 4))
  }

  /** Records one after the other, and then `rest`. */
  function Written(rs: seq<Raw>, rest: bytes): bytes
    decreases rs
  {
    if rs == [] then rest else Varint(rs[0].num * 8 + RawType(rs[0])) + (Behind(rs[0]) + Written(rs[1..], rest))
  }

  /** How many groups deep a record goes. */
  function Depth(r: Raw): nat
    decreases r, 0
  {
    match r
    case RawGroup(_, body) => 1 + Deepest(body)
    case _ => 0
  }

  function Deepest(rs: seq<Raw>): nat
    decreases rs
  {
    if rs == [] then 0
    else
      var (x, y) := (Depth(rs[0]), Deepest(rs[1..]));
      if x > y then x else y
  }

  lemma {:induction false} WrittenAppend(rs: seq<Raw>, x: bytes, rest: bytes)
    ensures Written(rs, x + rest) == Written(rs, x) + rest
  {
    if rs != [] {
      WrittenAppend(rs[1..], x, rest);
      var (tag, body) := (Varint(rs[0].num * 8 + RawType(rs[0])), Behind(rs[0]));
      AppendAssoc(body, Written(rs[1..], x), rest);
      AppendAssoc(tag, body + Written(rs[1..], x), rest);
    }
  }

  lemma ScalarSkipped(d: nat, r: Raw, rest: bytes)
    requires WfRaw(r) && !r.RawGroup?
    ensures SkipPayload(d, TagValue(r.num, RawType(r)), Behind(r) + rest) == Got(Behind(r), rest)
  {
    hide Varint, ReadVarint, SkipGroup, ReadDelimited, Delimited, ReadFixed;
    match r
    case RawVarint(_, v) =>
      VarintFits64(v);
      VarintRoundTrip(v, 10, rest);
    case RawFixed64(_, b) => ReadFixedOf(b, rest);
    case RawFixed32(_, b) => ReadFixedOf(b, rest);
    case RawBytes(_, b) =>
      ReadDelimitedOf(b, rest);
      assert Delimited(b) == Behind(r) by {
        DelimitedIs(b);
      }
  }

  lemma DelimitedIs(b: bytes)
    ensures Delimited(b) == Varint(|b|) + b
  {
  }

  /** An unknown record is kept byte for byte, whatever follows, when it is not
      nested more deeply than the budget, and refused when it is. */
  lemma {:induction false} RawSkipped(d: nat, r: Raw, rest: bytes)
    requires WfRaw(r)
    ensures SkipField(d, TagValue(r.num, RawType(r)), Behind(r) + rest)
         == if Depth(r) <= d then Got(Varint(r.num * 8 + RawType(r)) + Behind(r), rest) else Bad
    decreases r, 0
  {
    hide Varint, ReadTag, SkipPayload;
    if !r.RawGroup? {
      ScalarSkipped(d, r, rest);
    } else {
      GroupPayload(d, r.num, Behind(r) + rest);
      if d > 0 {
        GroupSkipped(d - 1, r.num, r.body, rest);
        WrittenAppend(r.body, Varint(r.num * 8 + 4), rest);
      }
    }
  }

  lemma GroupPayload(d: nat, num: nat, b: bytes)
    ensures SkipPayload(d, TagValue(num, 3), b) == if d > 0 then SkipGroup(d - 1, num, b) else Bad
  {
  }

  lemma {:induction false} GroupSkipped(d: nat, num: nat, body: seq<Raw>, rest: bytes)
    requires 0 < num < 0x2000_0000 && forall x | x in body :: WfRaw(x)
    ensures SkipGroup(d, num, Written(body, Varint(num * 8 + 4) + rest))
         == if Deepest(body) <= d then Got(Written(body, Varint(num * 8 + 4)), rest) else Bad
    decreases body
  {
    hide SkipField, ReadTag, Varint;
    var end := Varint(num * 8 + 4);
    if body == [] {
      ReadTagOfTag(num, END_GROUP, rest);
    } else {
      var r := body[0];
      var more := Written(body[1..], end + rest);
      assert WfRaw(r);
      ReadTagOfTag(r.num, RawType(r), Behind(r) + more);
      RawSkipped(d, r, more);
      GroupSkipped(d, num, body[1..], rest);
      AppendAssoc(Varint(r.num * 8 + RawType(r)), Behind(r), Written(body[1..], end));
    }
  }

  /** A group that another number ends, a record numbered 0, and the wire types
      that begin none are refused. */
  lemma RawRefused(d: nat, t: TagValue, num: nat, rest: bytes)
    requires 0 < num < 0x2000_0000
    ensures t.num == 0 || t.wt == 4 || t.wt >= 6 ==> SkipField(d, t, rest).Bad?
    ensures t.wt == 3 && t.num != num ==> SkipField(d, t, Varint(num * 8 + 4) + rest).Bad?
  {
    hide ReadTag, Varint;
    ReadTagOfTag(num, END_GROUP, rest);
    GroupPayload(d, t.num, Varint(num * 8 + 4) + rest);
  }

  // ----- UTF-8 -----

  /** A Unicode scalar value. */
  predicate Scalar(c: nat) {
    c < 0xD800 || 0xE000 <= c < 0x11_0000
  }

  /** Its bytes, as section 3 of RFC 3629 lays the bits out. */
  function Utf8(c: nat): bytes
    requires Scalar(c)
  {
    if c < 0x80 then [c]
    else if c < 0x800 then [0xC0 + c / 64, 0x80 + c % 64]
    else if c < 0x1_0000 then [0xE0 + c / 4096, 0x80 + c / 64 % 64, 0x80 + c % 64]
    else [0xF0 + c / 262144, 0x80 + c / 4096 % 64, 0x80 + c / 64 % 64, 0x80 + c % 64]
  }

  function Utf8Text(cs: seq<nat>): bytes
    requires forall c | c in cs :: Scalar(c)
  {
    if cs == [] then [] else Utf8(cs[0]) + Utf8Text(cs[1..])
  }

  /** One well-formed character in front of `rest`. */
  lemma Utf8Head(c: nat, rest: bytes)
    requires Scalar(c)
    ensures ValidUtf8(Utf8(c) + rest) <==> ValidUtf8(rest)
  {
    var s := Utf8(c) + rest;
    assert s[|Utf8(c)|..] == rest;
    if c >= 0x1_0000 {
      assert c / 4096 == c / 262144 * 64 + c / 4096 % 64;
    } else if c >= 0x800 {
      assert c / 64 == c / 4096 * 64 + c / 64 % 64;
    }
  }

  lemma {:induction false} TextIsValid(cs: seq<nat>)
    requires forall c | c in cs :: Scalar(c)
    ensures ValidUtf8(Utf8Text(cs))
  {
    if cs != [] {
      TextIsValid(cs[1..]);
      Utf8Head(cs[0], Utf8Text(cs[1..]));
    }
  }

  /** How long the first character of a valid text is, and which. */
  function FirstOf(s: bytes): (r: (nat, nat))
    requires s != [] && ValidUtf8(s)
    ensures 0 < r.0 <= |s| && ValidUtf8(s[r.0..])
  {
    if s[0] < 0x80 then (1, s[0])
    else if s[0] < 0xE0 then (2, (s[0] as int - 0xC0) * 64 + Low(s[1]))
    else if s[0] < 0xF0 then (3, ((s[0] as int - 0xE0) * 64 + Low(s[1])) * 64 + Low(s[2]))
    else (4, (((s[0] as int - 0xF0) * 64 + Low(s[1])) * 64 + Low(s[2])) * 64 + Low(s[3]))
  }

  /** The six bits of a byte that continues a character. */
  function Low(b: byte): (n: nat)
    requires Tail(b)
    ensures n < 64
  {
    b as int - 0x80
  }

  lemma FirstIs(s: bytes)
    requires s != [] && ValidUtf8(s)
    ensures Scalar(FirstOf(s).1) && s == Utf8(FirstOf(s).1) + s[FirstOf(s).0..]
  {
    if s[0] < 0x80 {
      assert s == [s[0]] + s[1..];
    } else if s[0] < 0xE0 {
      TwoBytes(s);
    } else if s[0] < 0xF0 {
      ThreeBytes(s);
    } else {
      FourBytes(s);
    }
  }

  lemma TwoBytes(s: bytes)
    requires s != [] && ValidUtf8(s) && 0x80 <= s[0] < 0xE0
    ensures Scalar(FirstOf(s).1) && s == Utf8(FirstOf(s).1) + s[FirstOf(s).0..]
  {
    var (a, b) := (s[0] as int - 0xC0, Low(s[1]));
    TwoParts(a, b);
    assert FirstOf(s) == (2, a * 64 + b);
    assert s == [s[0], s[1]] + s[2..];
  }

  lemma TwoParts(a: nat, b: nat)
    requires 2 <= a < 32 && b < 64
    ensures var n := a * 64 + b; Scalar(n) && Utf8(n) == [0xC0 + a, 0x80 + b]
  {
    Sextets(a, b);
  }

  lemma ThreeBytes(s: bytes)
    requires s != [] && ValidUtf8(s) && 0xE0 <= s[0] < 0xF0
    ensures Scalar(FirstOf(s).1) && s == Utf8(FirstOf(s).1) + s[FirstOf(s).0..]
  {
    var (a, b, c) := (s[0] as int - 0xE0, Low(s[1]), Low(s[2]));
    ThreeParts(a, b, c);
    assert FirstOf(s) == (3, (a * 64 + b) * 64 + c);
    assert s == [s[0], s[1], s[2]] + s[3..];
  }

  /** Neither an overlong form nor a surrogate. */
  lemma ThreeParts(a: nat, b: nat, c: nat)
    requires a < 16 && b < 64 && c < 64 && (a == 0 ==> b >= 0x20) && (a == 13 ==> b < 0x20)
    ensures var n := (a * 64 + b) * 64 + c;
            n >= 0x800 && Scalar(n) && Utf8(n) == [0xE0 + a, 0x80 + b, 0x80 + c]
  {
    Sextets(a * 64 + b, c);
    Sextets(a, b);
    TwoSextets(a, b, c);
  }

  lemma FourBytes(s: bytes)
    requires s != [] && ValidUtf8(s) && 0xF0 <= s[0]
    ensures Scalar(FirstOf(s).1) && s == Utf8(FirstOf(s).1) + s[FirstOf(s).0..]
  {
    var (a, b, c, d) := (s[0] as int - 0xF0, Low(s[1]), Low(s[2]), Low(s[3]));
    FourParts(a, b, c, d);
    assert FirstOf(s) == (4, ((a * 64 + b) * 64 + c) * 64 + d);
    assert s == [s[0], s[1], s[2], s[3]] + s[4..];
  }

  lemma FourParts(a: nat, b: nat, c: nat, d: nat)
    requires a <= 4 && b < 64 && c < 64 && d < 64 && (a == 0 ==> b >= 0x10) && (a == 4 ==> b < 0x10)
    ensures var n := ((a * 64 + b) * 64 + c) * 64 + d;
            n >= 0x1_0000 && Scalar(n) && Utf8(n) == [0xF0 + a, 0x80 + b, 0x80 + c, 0x80 + d]
  {
    Sextets((a * 64 + b) * 64 + c, d);
    Sextets(a * 64 + b, c);
    Sextets(a, b);
    TwoSextets(a * 64 + b, c, d);
    ThreeSextets(a, b, c, d);
  }

  lemma Sextets(high: nat, low: nat)
    requires low < 64
    ensures (high * 64 + low) / 64 == high && (high * 64 + low) % 64 == low
  {
  }

  lemma TwoSextets(high: nat, mid: nat, low: nat)
    requires mid < 64 && low < 64
    ensures ((high * 64 + mid) * 64 + low) / 4096 == high
  {
  }

  lemma ThreeSextets(high: nat, a: nat, b: nat, c: nat)
    requires a < 64 && b < 64 && c < 64
    ensures (((high * 64 + a) * 64 + b) * 64 + c) / 262144 == high
  {
  }

  /** The check accepts exactly the encodings of sequences of Unicode scalar values. */
  lemma {:induction false} Utf8Is(s: bytes)
    ensures ValidUtf8(s) <==> exists cs :: (forall c | c in cs :: Scalar(c)) && s == Utf8Text(cs)
    decreases |s|
  {
    if cs :| (forall c | c in cs :: Scalar(c)) && s == Utf8Text(cs) {
      TextIsValid(cs);
    }
    if ValidUtf8(s) {
      var cs := Utf8Decoded(s);
    }
  }

  lemma {:induction false} Utf8Decoded(s: bytes) returns (cs: seq<nat>)
    requires ValidUtf8(s)
    ensures (forall c | c in cs :: Scalar(c)) && s == Utf8Text(cs)
    decreases |s|
  {
    cs := [];
    if s != [] {
      hide ValidUtf8, Utf8;
      var (k, c) := FirstOf(s);
      FirstIs(s);
      var more := Utf8Decoded(s[k..]);
      cs := [c] + more;
      assert cs[1..] == more;
    }
  }
}
