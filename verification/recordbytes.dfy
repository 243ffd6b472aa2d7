/** Single records, byte for byte: what is printed for a value, and what parsing
    a record makes of a message. */
module RecordBytes {
  import opened Wire
  import opened Wrappers
  import opened Messages
  import opened MessageLaws
  import opened RoundTrip
  import opened WireLaws

  // ----- What is printed -----

  /** A singular value is left out when it is zero, a float also when nothing but
      its sign bit is set; any other is its tag and its bytes. */
  lemma RecordIs(S: Schema, f: Field, e: Elem)
    requires ScalarFits(f.kind, e)
    ensures Record(S, f, e)
         == if f.rule.Implicit? && (e == Num(0) || e == Len([]) || e == Fix([0, 0, 0, 0]) || e == Fix([0, 0, 0, 0x80])
                || e == Fix([0, 0, 0, 0, 0, 0, 0, 0]) || e == Fix([0, 0, 0, 0, 0, 0, 0, 0x80])) then []
            else
              match e
              case Num(n) => Varint(f.num * 8) + Varint(if n < 0 then n + 0x1_0000_0000_0000_0000 else n)
              case Fix(b) => Varint(f.num * 8 + if |b| == 4 then 5 else 1) + b
              case Len(b) => Varint(f.num * 8 + 2) + (Varint(|b|) + b)
              case Sub(m) => []
  {
    hide Varint;
    if e.Fix? {
      ZeroBytes(e.b);
    } else if e.Num? {
      assert Widen(e.n) == if e.n < 0 then e.n + TWO64 else e.n;
    }
  }

  /** The two zeros of either width. */
  lemma ZeroBytes(b: bytes)
    requires |b| == 4 || |b| == 8
    ensures IsDefault(Fix(b)) <==> b == [0, 0, 0, 0] || b == [0, 0, 0, 0, 0, 0, 0, 0]
    ensures IsNegativeZero(Fix(b)) <==> b == [0, 0, 0, 0x80] || b == [0, 0, 0, 0, 0, 0, 0, 0x80]
  {
    if |b| == 4 {
      assert b == [b[0], b[1], b[2], b[3]];
    } else {
      assert b == [b[0], b[1], b[2], b[3], b[4], b[5], b[6], b[7]];
    }
  }

  /** A submessage is its tag, the length of what it prints, and that. */
  lemma SubRecordIs(S: Schema, f: Field, m: Msg)
    ensures Record(S, f, Sub(m))
         == Varint(f.num * 8 + 2) + (Varint(|Serialize(S, m)|) + Serialize(S, m))
  {
    hide Varint, Serialize;
  }

  // ----- What is parsed -----

  /** What a varint leaves in a 32-bit field: the number of that range with the
      same low bits. */
  predicate Holds32(n: int, v: nat) {
    -0x8000_0000 <= n < 0x8000_0000 && (n - v) % 0x1_0000_0000 == 0
  }

  predicate Holds64(n: int, v: nat) {
    -0x8000_0000_0000_0000 <= n < 0x8000_0000_0000_0000 && (n - v) % 0x1_0000_0000_0000_0000 == 0
  }

  predicate HeldAs(k: Kind, n: int, v: nat) {
    match k
    case Int32 => Holds32(n, v)
    case Int64 => Holds64(n, v)
    case _ => n == v
  }

  lemma NarrowIs(k: Kind, v: nat, n: int)
    requires (k.Int32? || k.Int64? || k.UInt64?) && v < TWO64 && HeldAs(k, n, v)
    ensures Narrow(k, v) == n
  {
    if k.Int32? {
      Same(n - Narrow(k, v), TWO32);
    } else if k.Int64? {
      Same(n - Narrow(k, v), TWO64);
    }
  }

  lemma Same(d: int, m: int)
    requires -m < d < m && d % m == 0
    ensures d == 0
  {
  }

  function Varints(vs: seq<nat>): bytes {
    if vs == [] then [] else Varint(vs[0]) + Varints(vs[1..])
  }

  function Joined(bs: seq<bytes>): bytes {
    if bs == [] then [] else bs[0] + Joined(bs[1..])
  }

  function Nums(ns: seq<int>): (es: seq<Elem>)
    ensures |es| == |ns|
  {
    seq(|ns|, j requires 0 <= j < |ns| => Num(ns[j]))
  }

  function Fixes(bs: seq<bytes>): (es: seq<Elem>)
    ensures |es| == |bs|
  {
    seq(|bs|, j requires 0 <= j < |bs| => Fix(bs[j]))
  }

  lemma NumberRead(k: Kind, v: nat, n: int, rest: bytes)
    requires (k.Int32? || k.Int64? || k.UInt64?) && v < TWO64 && HeldAs(k, n, v)
    ensures ReadElem(k, Varint(v) + rest) == Got(Num(n), rest)
  {
    hide Varint, ReadVarint, Narrow, HeldAs;
    VarintFits64(v);
    VarintRoundTrip(v, 10, rest);
    NarrowIs(k, v, n);
  }

  lemma {:induction false} NumbersRead(k: Kind, vs: seq<nat>, ns: seq<int>)
    requires (k.Int32? || k.Int64? || k.UInt64?) && |vs| == |ns|
    requires forall j | 0 <= j < |vs| :: vs[j] < TWO64 && HeldAs(k, ns[j], vs[j])
    ensures ReadElems(k, Varints(vs)) == Some(Nums(ns))
  {
    hide ReadElem, Varint, HeldAs;
    if vs != [] {
      NumberRead(k, vs[0], ns[0], Varints(vs[1..]));
      NumbersRead(k, vs[1..], ns[1..]);
      assert Nums(ns) == [Num(ns[0])] + Nums(ns[1..]);
    }
  }

  lemma {:induction false} FixesRead(k: Kind, bs: seq<bytes>)
    requires k.Float? || k.Double?
    requires forall b | b in bs :: |b| == if k.Float? then 4 else 8
    ensures ReadElems(k, Joined(bs)) == Some(Fixes(bs))
  {
    hide ReadFixed;
    if bs != [] {
      ReadFixedOf(bs[0], Joined(bs[1..]));
      FixesRead(k, bs[1..]);
      assert Fixes(bs) == [Fix(bs[0])] + Fixes(bs[1..]);
    }
  }

  /** One record of a field, read into any message. */
  lemma RecordParsed(S: Schema, d: nat, i: nat, wt: nat, body: bytes, m: Msg)
    requires WfSchema(S) && m.ty < |S| && i < |S[m.ty]| && Accepts(S[m.ty][i], wt) && wt < 8
    ensures var r := DecodeField(S, d, i, S[m.ty][i], wt, body);
            && (r.Did? && r.rest == [] ==>
                  Parse(S, d, m, Varint(S[m.ty][i].num * 8 + wt) + body) == Some(Apply(S, m, r.act)))
            && (r.Wrong? ==> Parse(S, d, m, Varint(S[m.ty][i].num * 8 + wt) + body).None?)
  {
    hide DecodeField, DecodeStep, Apply, Varint;
    var b := Varint(S[m.ty][i].num * 8 + wt) + body;
    assert WfType(S, S[m.ty]) && WfField(S, S[m.ty][i]);
    assert Tag(S[m.ty][i].num, wt) == Varint(S[m.ty][i].num * 8 + wt);
    StepOfTag(S, m.ty, d, i, wt, body);
    if DecodeField(S, d, i, S[m.ty][i], wt, body).Did? {
      DecodeMore(S, m.ty, d, b);
      OneAct(S, m, DecodeField(S, d, i, S[m.ty][i], wt, body).act);
    }
  }

  lemma OneAct(S: Schema, m: Msg, a: Act)
    ensures Run(S, m, [a] + []) == Apply(S, m, a)
  {
    hide Apply;
    assert ([a] + [])[1..] == [];
  }

  /** A packed chunk is added to the list. */
  lemma ChunkParsed(S: Schema, d: nat, i: nat, m: Msg, p: bytes, es: seq<Elem>)
    requires WfSchema(S) && m.ty < |S| && i < |S[m.ty]| == |m.slots|
    requires S[m.ty][i].rule.Packed? && ReadElems(S[m.ty][i].kind, p) == Some(es) && |p| <= 0x7fff_ffef
    ensures Parse(S, d, m, Varint(S[m.ty][i].num * 8 + 2) + (Varint(|p|) + p))
         == Some(With(m, i, m.slots[i].es + es))
  {
    hide ReadElems, ReadDelimited, Varint, Parse;
    ReadDelimitedOf(p, []);
    assert Delimited(p) + [] == Varint(|p|) + p;
    RecordParsed(S, d, i, LENGTH_DELIMITED, Varint(|p|) + p, m);
  }

  /** A record of one scalar does what storing it does. */
  lemma ScalarParsed(S: Schema, d: nat, i: nat, m: Msg, body: bytes)
    requires WfSchema(S) && m.ty < |S| && i < |S[m.ty]| == |m.slots|
    requires !S[m.ty][i].kind.Message?
    requires S[m.ty][i].rule.Packed? ==> WireType(S[m.ty][i].kind) != LENGTH_DELIMITED
    ensures var f := S[m.ty][i];
            var (r, b) := (ReadElem(f.kind, body), Varint(f.num * 8 + WireType(f.kind)) + body);
            && (r.Got? && r.rest == [] ==> Parse(S, d, m, b) == Some(Apply(S, m, Put(i, [r.value]))))
            && (r.Bad? ==> Parse(S, d, m, b).None?)
  {
    hide ReadElem, Varint, Parse, Apply;
    RecordParsed(S, d, i, WireType(S[m.ty][i].kind), body, m);
  }

  /** What a submessage is parsed into: the one that is there, or a new one. */
  function Base(S: Schema, f: Field, es: seq<Elem>): Msg
    requires f.kind.Message?
  {
    if f.rule.Repeated? then Default(S, f.kind.ty) else SubOf(S, f.kind.ty, es)
  }

  /** Where it is put: behind the list, or in place of what was there and of the
      other members of a oneof. */
  function Placed(fs: seq<Field>, f: Field, m: Msg, i: nat, e: Elem): Msg
    requires i < |m.slots|
  {
    if f.rule.Repeated? then With(m, i, m.slots[i].es + [e])
    else if f.rule.Oneof? then With(ClearOneof(fs, m), i, [e])
    else With(m, i, [e])
  }

  lemma DescendPlaced(S: Schema, m: Msg, i: nat, acts: seq<Act>)
    requires m.ty < |S| && i < |S[m.ty]| == |m.slots| && S[m.ty][i].kind.Message?
    ensures var f := S[m.ty][i];
            Apply(S, m, Descend(i, acts)) == Placed(S[m.ty], f, m, i, Sub(Run(S, Base(S, f, m.slots[i].es), acts)))
  {
    hide Run, ClearOneof, SubOf;
  }

  /** A record of a submessage parses its payload over what is there, or, when the
      field is repeated, over a new one; it is refused when that is, or when the
      nesting budget is used up. */
  lemma SubParsed(S: Schema, d: nat, i: nat, m: Msg, p: bytes)
    requires WfSchema(S) && m.ty < |S| && i < |S[m.ty]| == |m.slots|
    requires S[m.ty][i].kind.Message? && |p| <= 0x7fff_ffef
    requires Base(S, S[m.ty][i], m.slots[i].es).ty == S[m.ty][i].kind.ty
    ensures var (f, b) := (S[m.ty][i], Varint(S[m.ty][i].num * 8 + 2) + (Varint(|p|) + p));
            var sub := if d == 0 then None else Parse(S, d - 1, Base(S, f, m.slots[i].es), p);
            Parse(S, d, m, b) == if sub.None? then None else Some(Placed(S[m.ty], f, m, i, Sub(sub.value)))
  {
    hide ReadDelimited, Varint, Decode, Run, Placed, Base, Apply;
    var f := S[m.ty][i];
    assert WfType(S, S[m.ty]) && WfField(S, f);
    ReadDelimitedOf(p, []);
    assert Delimited(p) + [] == Varint(|p|) + p;
    SubDecoded(S, d, i, f, p);
    hide DecodeField;
    RecordParsed(S, d, i, LENGTH_DELIMITED, Varint(|p|) + p, m);
    if d > 0 && Decode(S, f.kind.ty, d - 1, p).Done? {
      DescendPlaced(S, m, i, Decode(S, f.kind.ty, d - 1, p).acts);
    }
  }

  lemma SubDecoded(S: Schema, d: nat, i: nat, f: Field, p: bytes)
    requires f.kind.Message? && !f.rule.Packed? && ReadDelimited(Varint(|p|) + p) == Got(p, [])
    ensures var r := DecodeField(S, d, i, f, LENGTH_DELIMITED, Varint(|p|) + p);
            if d > 0 && Decode(S, f.kind.ty, d - 1, p).Done? then
              r == Did(Descend(i, Decode(S, f.kind.ty, d - 1, p).acts), [])
            else r.Wrong?
  {
    hide ReadDelimited, Varint, Decode;
  }

  /** What storing one scalar leaves: a singular one is kept unless it is zero. */
  lemma PutPlaced(S: Schema, m: Msg, i: nat, e: Elem)
    requires WfSchema(S) && m.ty < |S| && i < |S[m.ty]| == |m.slots|
    requires !S[m.ty][i].kind.Message? && ScalarFits(S[m.ty][i].kind, e)
    ensures var rule := S[m.ty][i].rule;
            Apply(S, m, Put(i, [e]))
            == if rule.Oneof? then With(ClearOneof(S[m.ty], m), i, [e])
               else if !rule.Implicit? then With(m, i, m.slots[i].es + [e])
               else if e == Num(0) || e == Len([]) || e == Fix([0, 0, 0, 0]) || e == Fix([0, 0, 0, 0, 0, 0, 0, 0]) then
                 With(m, i, [])
               else With(m, i, [e])
  {
    hide ClearOneof, With;
    assert WfType(S, S[m.ty]) && WfField(S, S[m.ty][i]);
    if e.Fix? {
      ZeroBytes(e.b);
    }
  }

  lemma TextPlaced(S: Schema, m: Msg, i: nat, p: bytes)
    requires WfSchema(S) && m.ty < |S| && i < |S[m.ty]| == |m.slots|
    requires S[m.ty][i].kind.Bytes? || (S[m.ty][i].kind.Str? && ValidUtf8(p))
    ensures var rule := S[m.ty][i].rule;
            Apply(S, m, Put(i, [Len(p)]))
            == if rule.Oneof? then With(ClearOneof(S[m.ty], m), i, [Len(p)])
               else if !rule.Implicit? then With(m, i, m.slots[i].es + [Len(p)])
               else With(m, i, if p == [] then [] else [Len(p)])
  {
    hide ClearOneof, With, ValidUtf8, Apply;
    PutPlaced(S, m, i, Len(p));
  }

  /** A number, as a chunk of one would add it. */
  lemma NumberParsed(S: Schema, d: nat, i: nat, m: Msg, v: nat, n: int)
    requires WfSchema(S) && m.ty < |S| && i < |S[m.ty]| == |m.slots| && v < TWO64
    requires var k := S[m.ty][i].kind; (k.Int32? || k.Int64? || k.UInt64?) && HeldAs(k, n, v)
    ensures ScalarFits(S[m.ty][i].kind, Num(n))
    ensures Parse(S, d, m, Varint(S[m.ty][i].num * 8) + Varint(v)) == Some(Apply(S, m, Put(i, [Num(n)])))
  {
    hide Parse, Varint, ReadElem, Apply;
    NumberRead(S[m.ty][i].kind, v, n, []);
    assert Varint(v) + [] == Varint(v);
    ScalarParsed(S, d, i, m, Varint(v));
  }

  lemma FixedParsed(S: Schema, d: nat, i: nat, m: Msg, b: bytes)
    requires WfSchema(S) && m.ty < |S| && i < |S[m.ty]| == |m.slots|
    requires var k := S[m.ty][i].kind; (k.Float? && |b| == 4) || (k.Double? && |b| == 8)
    ensures Parse(S, d, m, Varint(S[m.ty][i].num * 8 + WireType(S[m.ty][i].kind)) + b)
         == Some(Apply(S, m, Put(i, [Fix(b)])))
  {
    hide Parse, Varint, Apply;
    ReadFixedOf(b, []);
    assert b + [] == b;
    ScalarParsed(S, d, i, m, b);
  }

  /** Text is refused when it is not UTF-8, and bytes never are. */
  lemma TextParsed(S: Schema, d: nat, i: nat, m: Msg, p: bytes)
    requires WfSchema(S) && m.ty < |S| && i < |S[m.ty]| == |m.slots| && |p| <= 0x7fff_ffef
    requires S[m.ty][i].kind.Str? || S[m.ty][i].kind.Bytes?
    ensures var b := Varint(S[m.ty][i].num * 8 + 2) + (Varint(|p|) + p);
            Parse(S, d, m, b) == if S[m.ty][i].kind.Str? && !ValidUtf8(p) then None
                                 else Some(Apply(S, m, Put(i, [Len(p)])))
  {
    hide Parse, Varint, Apply, ReadDelimited, ValidUtf8;
    assert WfType(S, S[m.ty]) && WfField(S, S[m.ty][i]);
    ReadDelimitedOf(p, []);
    assert Delimited(p) + [] == Varint(|p|) + p;
    ScalarParsed(S, d, i, m, Varint(|p|) + p);
  }

  /** A record of a number that the type has not, or of a wire type that its field
      does not take, is kept byte for byte, unless it is nested too deeply. */
  lemma UnknownParsed(S: Schema, d: nat, m: Msg, r: Raw)
    requires m.ty < |S| && WfRaw(r)
    requires forall f | f in S[m.ty] && f.num == r.num ::
               RawType(r) != WireType(f.kind) && (f.rule.Packed? ==> RawType(r) != 2)
    ensures var b := Varint(r.num * 8 + RawType(r)) + Behind(r);
            Parse(S, d, m, b) == if Depth(r) <= d then Some(m.(unknown := m.unknown + b)) else None
  {
    hide Varint, SkipField, ReadTag;
    var b := Varint(r.num * 8 + RawType(r)) + Behind(r);
    ReadTagOfTag(r.num, RawType(r), Behind(r));
    assert Tag(r.num, RawType(r)) + Behind(r) == b;
    RawSkipped(d, r, []);
    assert Behind(r) + [] == Behind(r);
    var i := Find(S[m.ty], r.num);
    if i < |S[m.ty]| {
      assert S[m.ty][i] in S[m.ty];
    }
    assert DecodeStep(S, m.ty, d, b) == if Depth(r) <= d then Did(Keep(b), []) else Wrong;
    if Depth(r) <= d {
      DecodeMore(S, m.ty, d, b);
      OneAct(S, m, Keep(b));
    }
  }

  /** The end of a group that none began, and a tag of zero, end the parse, which every caller refuses. */
  lemma StrayEnd(S: Schema, d: nat, m: Msg, num: nat, rest: bytes)
    requires m.ty < |S| && num < 0x2000_0000 && forall i | 0 <= i < |S[m.ty]| :: S[m.ty][i].num > 0
    ensures Parse(S, d, m, Varint(num * 8 + 4) + rest).None? && Parse(S, d, m, Varint(0) + rest).None?
  {
    hide Varint, ReadTag;
    var (x, y) := (Varint(num * 8 + 4) + rest, Varint(0) + rest);
    ReadTagOfTag(num, END_GROUP, rest);
    ReadTagOfTag(0, 0, rest);
    assert x == Tag(num, END_GROUP) + rest && y == Tag(0, 0) + rest && x != [] && y != [];
    assert DecodeStep(S, m.ty, d, x).Stop? && DecodeStep(S, m.ty, d, y).Stop?;
  }
}
