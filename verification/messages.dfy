/** The generated message code of onnx-ml.proto3.pb.cpp, once for every message
    type: a schema lists the `case` arms of each `_InternalParse`, and what a
    message holds, how it is parsed, printed, measured and merged is defined
    by that list. */
module Messages {
  import opened Wire
  import opened Wrappers

  datatype Kind = Int32 | Int64 | UInt64 | Float | Double | Bytes | Str | Message(ty: nat)

  /** How a field is kept: Implicit scalars are present when not zero, Optional
      submessages when allocated, Oneof members when the case says so; Packed
      and Repeated fields are lists. */
  datatype Rule = Implicit | Optional | Oneof | Packed | Repeated

  datatype Field = Field(num: nat, kind: Kind, rule: Rule)

  type Schema = seq<seq<Field>>

  datatype Elem = Num(n: int) | Fix(b: bytes) | Len(b: bytes) | Sub(m: Msg)
  datatype Slot = Slot(es: seq<Elem>)

  /** A message: one slot for every field of its type, and the bytes kept of unknown fields. */
  datatype Msg = Msg(ty: nat, slots: seq<Slot>, unknown: bytes)

  function Fields(S: Schema, ty: nat): seq<Field> {
    if ty < |S| then S[ty] else []
  }

  predicate WfField(S: Schema, f: Field) {
    && 0 < f.num < TWO32 / 8
    && match f.rule
       case Implicit => !f.kind.Message?
       case Optional => f.kind.Message? && f.kind.ty < |S|
       case Oneof => f.kind.Message? ==> f.kind.ty < |S|
       case Packed => !f.kind.Message? && !f.kind.Bytes? && !f.kind.Str?
       case Repeated => f.kind.Bytes? || f.kind.Str? || (f.kind.Message? && f.kind.ty < |S|)
  }

  predicate WfType(S: Schema, fs: seq<Field>) {
    && (forall i | 0 <= i < |fs| :: WfField(S, fs[i]))
    && (forall i, j | 0 <= i < j < |fs| :: fs[i].num < fs[j].num)
  }

  ghost predicate WfSchema(S: Schema) {
    forall ty | 0 <= ty < |S| :: WfType(S, S[ty])
  }

  function Default(S: Schema, ty: nat): Msg {
    Msg(ty, seq(|Fields(S, ty)|, _ => Slot([])), [])
  }

  // ----- Scalars -----

  function WireType(k: Kind): nat {
    match k
    case Int32 | Int64 | UInt64 => VARINT
    case Double => FIXED64
    case Float => FIXED32
    case Bytes | Str | Message(_) => LENGTH_DELIMITED
  }

  /** A 64-bit varint stored into a field of kind `k`. */
  function Narrow(k: Kind, v: nat): int {
    match k
    case Int32 => if v % TWO32 < TWO32 / 2 then v % TWO32 else v % TWO32 - TWO32
    case Int64 => if v < TWO64 / 2 then v else v - TWO64
    case _ => v
  }

  predicate InRange(k: Kind, n: int) {
    match k
    case Int32 => -(TWO32 / 2) <= n < TWO32 / 2
    case Int64 => -(TWO64 / 2) <= n < TWO64 / 2
    case _ => 0 <= n < TWO64
  }

  /** Negative numbers are written sign-extended to 64 bits. */
  function Widen(n: int): nat {
    n % TWO64
  }

  predicate IsNegativeZero(e: Elem) {
    e.Fix? && |e.b| > 0 && e.b[|e.b| - 1] == 0x80 && forall i | 0 <= i < |e.b| - 1 :: e.b[i] == 0
  }

  predicate IsDefault(e: Elem) {
    match e
    case Num(n) => n == 0
    case Fix(b) => forall i | 0 <= i < |b| :: b[i] == 0
    case Len(b) => b == []
    case Sub(_) => false
  }

  /** The presence test of the printers, size passes and merges: a float is
      left out when it is zero of either sign. */
  predicate Omitted(f: Field, e: Elem) {
    f.rule.Implicit? && (IsDefault(e) || IsNegativeZero(e))
  }

  // ----- Parsing: bytes to actions -----

  /** What one record does to the message being parsed. */
  datatype Act = Put(i: nat, es: seq<Elem>) | Descend(i: nat, acts: seq<Act>) | Keep(raw: bytes)

  /** Done at the limit; Stopped by an end-group or a zero tag, which every
      caller refuses. */
  datatype Decoded = Done(acts: seq<Act>) | Stopped(acts: seq<Act>, tag: TagValue, rest: bytes) | Malformed {
    function Prepend(pre: seq<Act>): Decoded {
      match this
      case Done(acts) => Done(pre + acts)
      case Stopped(acts, t, rest) => Stopped(pre + acts, t, rest)
      case Malformed => Malformed
    }
  }

  datatype Step = Did(act: Act, rest: bytes) | Stop(tag: TagValue, rest: bytes) | Wrong

  /** The `switch (tag >> 3)`: the slot whose field has this number, or |fs|. */
  function Find(fs: seq<Field>, num: nat): (i: nat)
    ensures i <= |fs|
    ensures i < |fs| ==> fs[i].num == num
    ensures forall j | 0 <= j < i :: fs[j].num != num
  {
    if fs == [] || fs[0].num == num then 0 else 1 + Find(fs[1..], num)
  }

  predicate Accepts(f: Field, wt: nat) {
    wt == WireType(f.kind) || (f.rule.Packed? && wt == LENGTH_DELIMITED)
  }

  function ReadElem(k: Kind, b: bytes): (r: Read<Elem>)
    ensures r.Got? ==> |r.rest| < |b|
  {
    match k
    case Int32 | Int64 | UInt64 =>
      (match ReadVarint(b, 10)
       case Bad => Bad
       case Got(v, rest) => Got(Num(Narrow(k, v % TWO64)), rest))
    case Float =>
      (match ReadFixed(b, 4)
       case Bad => Bad
       case Got(p, rest) => Got(Fix(p), rest))
    case Double =>
      (match ReadFixed(b, 8)
       case Bad => Bad
       case Got(p, rest) => Got(Fix(p), rest))
    case Bytes | Str =>
      (match ReadDelimited(b)
       case Bad => Bad
       case Got(p, rest) => if k.Str? && !ValidUtf8(p) then Bad else Got(Len(p), rest))
    case Message(_) => Bad
  }

  /** The elements of a packed chunk; the last one must end where the chunk ends. */
  function ReadElems(k: Kind, b: bytes): Option<seq<Elem>>
    decreases |b|
  {
    if b == [] then Some([])
    else
      match ReadElem(k, b)
      case Bad => None
      case Got(e, rest) =>
        match ReadElems(k, rest)
        case None => None
        case Some(es) => Some([e] + es)
  }

  function DecodeField(S: Schema, d: nat, i: nat, f: Field, wt: nat, b: bytes): (r: Step)
    ensures r.Did? ==> |r.rest| < |b|
    ensures !r.Stop?
    decreases |b|, 0
  {
    if f.rule.Packed? && wt == LENGTH_DELIMITED then
      match ReadDelimited(b)
      case Bad => Wrong
      case Got(p, rest) =>
        (match ReadElems(f.kind, p)
         case None => Wrong
         case Some(es) => Did(Put(i, es), rest))
    else if f.kind.Message? then
      match ReadDelimited(b)
      case Bad => Wrong
      case Got(p, rest) =>
        if d == 0 then Wrong
        else
          (match Decode(S, f.kind.ty, d - 1, p)
           case Done(acts) => Did(Descend(i, acts), rest)
           case _ => Wrong)
    else
      match ReadElem(f.kind, b)
      case Bad => Wrong
      case Got(e, rest) => Did(Put(i, [e]), rest)
  }

  /** One trip round the `while` loop of `_InternalParse`. */
  function DecodeStep(S: Schema, ty: nat, d: nat, b: bytes): (r: Step)
    ensures !r.Wrong? ==> |r.rest| < |b|
    decreases |b|, 1
  {
    match ReadTag(b)
    case Bad => Wrong
    case Got(t, b1) =>
      var fs := Fields(S, ty);
      var i := Find(fs, t.num);
      if i < |fs| && Accepts(fs[i], t.wt) then DecodeField(S, d, i, fs[i], t.wt, b1)
      else if t.wt == END_GROUP || t == TagValue(0, 0) then Stop(t, b1)
      else
        match SkipField(d, t, b1)
        case Bad => Wrong
        case Got(raw, b2) => Did(Keep(raw), b2)
  }

  function Decode(S: Schema, ty: nat, d: nat, b: bytes): Decoded
    decreases |b|, 2
  {
    if b == [] then Done([])
    else
      match DecodeStep(S, ty, d, b)
      case Wrong => Malformed
      case Stop(t, rest) => Stopped([], t, rest)
      case Did(a, rest) => Decode(S, ty, d, rest).Prepend([a])
  }

  // ----- Parsing: actions to messages -----

  function Store(e: Elem): seq<Elem> {
    if IsDefault(e) then [] else [e]
  }

  function SubOf(S: Schema, ty: nat, es: seq<Elem>): Msg {
    if es != [] && es[0].Sub? then es[0].m else Default(S, ty)
  }

  function With(m: Msg, i: nat, es: seq<Elem>): Msg
    requires i < |m.slots|
  {
    m.(slots := m.slots[i := Slot(es)])
  }

  /** `clear_value()`: no member of the oneof is set. */
  function ClearOneof(fs: seq<Field>, m: Msg): Msg {
    m.(slots := seq(|m.slots|, j requires 0 <= j < |m.slots| =>
      if j < |fs| && fs[j].rule.Oneof? then Slot([]) else m.slots[j]))
  }

  function Apply(S: Schema, m: Msg, a: Act): (r: Msg)
    ensures r.ty == m.ty && |r.slots| == |m.slots|
    decreases a
  {
    var fs := Fields(S, m.ty);
    match a
    case Keep(raw) => m.(unknown := m.unknown + raw)
    case Put(i, es) =>
      if i >= |fs| || i >= |m.slots| then m
      else
        (match fs[i].rule
         case Implicit => With(m, i, if es == [] then [] else Store(es[0]))
         case Optional => With(m, i, es)
         case Oneof => With(ClearOneof(fs, m), i, es)
         case Packed | Repeated => With(m, i, m.slots[i].es + es))
    case Descend(i, acts) =>
      if i >= |fs| || i >= |m.slots| || !fs[i].kind.Message? then m
      else
        var sub := fs[i].kind.ty;
        (match fs[i].rule
         case Repeated => With(m, i, m.slots[i].es + [Sub(Run(S, Default(S, sub), acts))])
         case Oneof => With(ClearOneof(fs, m), i, [Sub(Run(S, SubOf(S, sub, m.slots[i].es), acts))])
         case _ => With(m, i, [Sub(Run(S, SubOf(S, sub, m.slots[i].es), acts))]))
  }

  function Run(S: Schema, m: Msg, acts: seq<Act>): (r: Msg)
    ensures r.ty == m.ty && |r.slots| == |m.slots|
    decreases acts
  {
    if acts == [] then m else Run(S, Apply(S, m, acts[0]), acts[1..])
  }

  /** Parsing `b` into a message that already holds `m`, `d` being the nesting still allowed. */
  function Parse(S: Schema, d: nat, m: Msg, b: bytes): Option<Msg> {
    match Decode(S, m.ty, d, b)
    case Done(acts) => Some(Run(S, m, acts))
    case _ => None
  }

  // ----- Printing -----

  function ElemWire(e: Elem): nat {
    match e
    case Num(_) => VARINT
    case Fix(b) => if |b| == 8 then FIXED64 else FIXED32
    case Len(_) | Sub(_) => LENGTH_DELIMITED
  }

  function Payload(S: Schema, e: Elem): bytes
    decreases e, 0
  {
    match e
    case Num(n) => Varint(Widen(n))
    case Fix(b) => b
    case Len(b) => Delimited(b)
    case Sub(m) => Delimited(Serialize(S, m))
  }

  function Payloads(S: Schema, es: seq<Elem>): bytes
    decreases es, 0
  {
    if es == [] then [] else Payload(S, es[0]) + Payloads(S, es[1..])
  }

  function Record(S: Schema, f: Field, e: Elem): bytes
    decreases e, 1
  {
    if Omitted(f, e) then [] else Tag(f.num, ElemWire(e)) + Payload(S, e)
  }

  function Records(S: Schema, f: Field, es: seq<Elem>): bytes
    decreases es, 0
  {
    if es == [] then [] else Record(S, f, es[0]) + Records(S, f, es[1..])
  }

  function PrintSlot(S: Schema, f: Field, es: seq<Elem>): bytes
    decreases es, 1
  {
    if !f.rule.Packed? then Records(S, f, es)
    else if es == [] then []
    else Tag(f.num, LENGTH_DELIMITED) + Delimited(Payloads(S, es))
  }

  /** The fields from slot `i` on, in the order of their numbers, and then the unknown fields. */
  function PrintFrom(S: Schema, m: Msg, i: nat): bytes
    decreases m, |m.slots| - i
  {
    var fs := Fields(S, m.ty);
    if i < |m.slots| && i < |fs| then
      PrintSlot(S, fs[i], m.slots[i].es) + PrintFrom(S, m, i + 1)
    else m.unknown
  }

  function Serialize(S: Schema, m: Msg): bytes
    decreases m, |m.slots| + 1
  {
    PrintFrom(S, m, 0)
  }

  // ----- Merging -----

  /** What merging leaves of an element: a submessage is merged into the one
      that stands in its place, or into a new one. */
  function MergeElem(S: Schema, xs: seq<Elem>, e: Elem): Elem
    decreases e
  {
    match e
    case Sub(m) => Sub(Merge(S, SubOf(S, m.ty, xs), m))
    case _ => e
  }

  function CopyElems(S: Schema, es: seq<Elem>): seq<Elem>
    decreases es, 0
  {
    if es == [] then [] else [MergeElem(S, [], es[0])] + CopyElems(S, es[1..])
  }

  function MergeSlot(S: Schema, f: Field, xs: seq<Elem>, ys: seq<Elem>, cleared: bool): seq<Elem>
    decreases ys, 1
  {
    match f.rule
    case Packed | Repeated => xs + CopyElems(S, ys)
    case Implicit => if ys == [] || Omitted(f, ys[0]) then xs else ys
    case _ => if ys == [] then if cleared then [] else xs else [MergeElem(S, xs, ys[0])]
  }

  predicate OneofSet(fs: seq<Field>, m: Msg) {
    exists i | 0 <= i < |fs| && i < |m.slots| :: fs[i].rule.Oneof? && m.slots[i].es != []
  }

  /** `MergeFrom`: what `b` has set goes over what `a` holds. */
  function Merge(S: Schema, a: Msg, b: Msg): (r: Msg)
    decreases b, 2
  {
    var fs := Fields(S, a.ty);
    var cleared := OneofSet(fs, b);
    Msg(a.ty,
        seq(|a.slots|, i requires 0 <= i < |a.slots| =>
          if i < |fs| && i < |b.slots| then
            Slot(MergeSlot(S, fs[i], a.slots[i].es, b.slots[i].es, cleared && fs[i].rule.Oneof?))
          else a.slots[i]),
        a.unknown + b.unknown)
  }
}
