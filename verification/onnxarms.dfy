/** What every arm of the twenty parsers does on bytes: for each kind of arm the
    list of those that are of this kind, by type, slot and tag, and what one
    record makes of any message of the type. */
module OnnxArms {
  import opened Wire
  import opened Wrappers
  import opened Messages
  import opened RecordBytes
  import Codec
  import opened Onnx

  /** The tag is the one a printer writes: of the chunk when the field is packed. */
  datatype Arm = Arm(ty: nat, slot: nat, tag: nat)

  /** `sub` is the type of the submessage. */
  datatype SubArm = SubArm(ty: nat, slot: nat, tag: nat, sub: nat)

  const PACKED_INT64: seq<Arm> := [
    Arm(ATTRIBUTE_PROTO, 7, 66), Arm(TENSOR_PROTO, 0, 10), Arm(TENSOR_PROTO, 6, 58), Arm(SPARSE_TENSOR_PROTO, 2, 26)]
  const PACKED_INT32: seq<Arm> := [Arm(TENSOR_PROTO, 4, 42)]
  const PACKED_UINT64: seq<Arm> := [Arm(TENSOR_PROTO, 10, 90)]
  const PACKED_FLOAT: seq<Arm> := [Arm(ATTRIBUTE_PROTO, 6, 58), Arm(TENSOR_PROTO, 3, 34)]
  const PACKED_DOUBLE: seq<Arm> := [Arm(TENSOR_PROTO, 9, 82)]

  const STRING_LISTS: seq<Arm> := [Arm(NODE_PROTO, 0, 10), Arm(NODE_PROTO, 1, 18)]
  const BYTES_LISTS: seq<Arm> := [Arm(ATTRIBUTE_PROTO, 8, 74), Arm(TENSOR_PROTO, 5, 50)]

  const STRINGS: seq<Arm> := [
    Arm(ATTRIBUTE_PROTO, 0, 10), Arm(ATTRIBUTE_PROTO, 11, 106), Arm(ATTRIBUTE_PROTO, 13, 170),
    Arm(VALUE_INFO_PROTO, 0, 10), Arm(VALUE_INFO_PROTO, 2, 26),
    Arm(NODE_PROTO, 2, 26), Arm(NODE_PROTO, 3, 34), Arm(NODE_PROTO, 5, 50), Arm(NODE_PROTO, 6, 58),
    Arm(MODEL_PROTO, 1, 18), Arm(MODEL_PROTO, 2, 26), Arm(MODEL_PROTO, 3, 34), Arm(MODEL_PROTO, 5, 50),
    Arm(STRING_STRING_ENTRY_PROTO, 0, 10), Arm(STRING_STRING_ENTRY_PROTO, 1, 18),
    Arm(TENSOR_ANNOTATION, 0, 10), Arm(GRAPH_PROTO, 1, 18), Arm(GRAPH_PROTO, 3, 82),
    Arm(TENSOR_PROTO, 7, 66), Arm(TENSOR_PROTO, 11, 98), Arm(TENSOR_SHAPE_PROTO_DIMENSION, 2, 26),
    Arm(TYPE_PROTO_OPAQUE, 0, 10), Arm(TYPE_PROTO_OPAQUE, 1, 18), Arm(TYPE_PROTO, 3, 50),
    Arm(OPERATOR_SET_ID_PROTO, 0, 10)]
  const BYTES: seq<Arm> := [Arm(ATTRIBUTE_PROTO, 3, 34), Arm(TENSOR_PROTO, 8, 74)]
  const INT64: seq<Arm> := [
    Arm(ATTRIBUTE_PROTO, 2, 24), Arm(MODEL_PROTO, 0, 8), Arm(MODEL_PROTO, 4, 40),
    Arm(TENSOR_PROTO_SEGMENT, 0, 8), Arm(TENSOR_PROTO_SEGMENT, 1, 16), Arm(OPERATOR_SET_ID_PROTO, 1, 16)]
  const INT32: seq<Arm> := [
    Arm(ATTRIBUTE_PROTO, 12, 160), Arm(TENSOR_PROTO, 1, 16), Arm(TENSOR_PROTO, 13, 112),
    Arm(TYPE_PROTO_TENSOR, 0, 8), Arm(TYPE_PROTO_MAP, 0, 8), Arm(TYPE_PROTO_SPARSE_TENSOR, 0, 8)]
  const FLOAT: seq<Arm> := [Arm(ATTRIBUTE_PROTO, 1, 21)]

  const MESSAGES: seq<SubArm> := [
    SubArm(ATTRIBUTE_PROTO, 4, 42, TENSOR_PROTO), SubArm(ATTRIBUTE_PROTO, 5, 50, GRAPH_PROTO),
    SubArm(ATTRIBUTE_PROTO, 14, 178, SPARSE_TENSOR_PROTO), SubArm(VALUE_INFO_PROTO, 1, 18, TYPE_PROTO),
    SubArm(TRAINING_INFO_PROTO, 0, 10, GRAPH_PROTO), SubArm(TRAINING_INFO_PROTO, 1, 18, GRAPH_PROTO),
    SubArm(MODEL_PROTO, 6, 58, GRAPH_PROTO), SubArm(TENSOR_PROTO, 2, 26, TENSOR_PROTO_SEGMENT),
    SubArm(SPARSE_TENSOR_PROTO, 0, 10, TENSOR_PROTO), SubArm(SPARSE_TENSOR_PROTO, 1, 18, TENSOR_PROTO),
    SubArm(TYPE_PROTO_TENSOR, 1, 18, TENSOR_SHAPE_PROTO), SubArm(TYPE_PROTO_SEQUENCE, 0, 10, TYPE_PROTO),
    SubArm(TYPE_PROTO_MAP, 1, 18, TYPE_PROTO), SubArm(TYPE_PROTO_SPARSE_TENSOR, 1, 18, TENSOR_SHAPE_PROTO)]
  const MESSAGE_LISTS: seq<SubArm> := [
    SubArm(ATTRIBUTE_PROTO, 9, 82, TENSOR_PROTO), SubArm(ATTRIBUTE_PROTO, 10, 90, GRAPH_PROTO),
    SubArm(ATTRIBUTE_PROTO, 15, 186, SPARSE_TENSOR_PROTO), SubArm(NODE_PROTO, 4, 42, ATTRIBUTE_PROTO),
    SubArm(TRAINING_INFO_PROTO, 2, 26, STRING_STRING_ENTRY_PROTO),
    SubArm(TRAINING_INFO_PROTO, 3, 34, STRING_STRING_ENTRY_PROTO),
    SubArm(MODEL_PROTO, 7, 66, OPERATOR_SET_ID_PROTO), SubArm(MODEL_PROTO, 8, 114, STRING_STRING_ENTRY_PROTO),
    SubArm(MODEL_PROTO, 9, 162, TRAINING_INFO_PROTO), SubArm(TENSOR_ANNOTATION, 1, 18, STRING_STRING_ENTRY_PROTO),
    SubArm(GRAPH_PROTO, 0, 10, NODE_PROTO), SubArm(GRAPH_PROTO, 2, 42, TENSOR_PROTO),
    SubArm(GRAPH_PROTO, 4, 90, VALUE_INFO_PROTO), SubArm(GRAPH_PROTO, 5, 98, VALUE_INFO_PROTO),
    SubArm(GRAPH_PROTO, 6, 106, VALUE_INFO_PROTO), SubArm(GRAPH_PROTO, 7, 114, TENSOR_ANNOTATION),
    SubArm(GRAPH_PROTO, 8, 122, SPARSE_TENSOR_PROTO), SubArm(TENSOR_PROTO, 12, 106, STRING_STRING_ENTRY_PROTO),
    SubArm(TENSOR_SHAPE_PROTO, 0, 10, TENSOR_SHAPE_PROTO_DIMENSION)]

  /** The members of the two oneofs. */
  const TYPE_MEMBERS: seq<SubArm> := [
    SubArm(TYPE_PROTO, 0, 10, TYPE_PROTO_TENSOR), SubArm(TYPE_PROTO, 1, 34, TYPE_PROTO_SEQUENCE),
    SubArm(TYPE_PROTO, 2, 42, TYPE_PROTO_MAP), SubArm(TYPE_PROTO, 4, 58, TYPE_PROTO_OPAQUE),
    SubArm(TYPE_PROTO, 5, 66, TYPE_PROTO_SPARSE_TENSOR)]

  // ----- The arms are those of the tables -----

  predicate At(ty: nat, slot: nat, f: Field) {
    ty < |ONNX| && slot < |ONNX[ty]| && ONNX[ty][slot] == f
  }

  lemma PackedNumbersAt(a: Arm)
    ensures a in PACKED_INT64 ==> a.tag % 8 == 2 && At(a.ty, a.slot, Field(a.tag / 8, Int64, Packed))
    ensures a in PACKED_INT32 ==> a.tag % 8 == 2 && At(a.ty, a.slot, Field(a.tag / 8, Int32, Packed))
    ensures a in PACKED_UINT64 ==> a.tag % 8 == 2 && At(a.ty, a.slot, Field(a.tag / 8, UInt64, Packed))
  {
  }

  lemma PackedFloatsAt(a: Arm)
    ensures a in PACKED_FLOAT ==> a.tag % 8 == 2 && At(a.ty, a.slot, Field(a.tag / 8, Float, Packed))
    ensures a in PACKED_DOUBLE ==> a.tag % 8 == 2 && At(a.ty, a.slot, Field(a.tag / 8, Double, Packed))
  {
  }

  lemma ListsAt(a: Arm)
    ensures a in STRING_LISTS ==> a.tag % 8 == 2 && At(a.ty, a.slot, Field(a.tag / 8, Str, Repeated))
    ensures a in BYTES_LISTS ==> a.tag % 8 == 2 && At(a.ty, a.slot, Field(a.tag / 8, Bytes, Repeated))
  {
  }

  lemma StringsAt(a: Arm)
    ensures a in STRINGS ==> a.tag % 8 == 2 && At(a.ty, a.slot, Field(a.tag / 8, Str, Implicit))
  {
    hide At;
    if k: nat :| k < |STRINGS| && STRINGS[k] == a {
      if k < 13 {
        SomeStringsAt(k);
      } else {
        MoreStringsAt(k);
      }
    }
  }

  lemma SomeStringsAt(k: nat)
    requires k < 13
    ensures var a := STRINGS[k]; a.tag % 8 == 2 && At(a.ty, a.slot, Field(a.tag / 8, Str, Implicit))
  {
  }

  lemma MoreStringsAt(k: nat)
    requires 13 <= k < 25
    ensures |STRINGS| == 25
    ensures var a := STRINGS[k]; a.tag % 8 == 2 && At(a.ty, a.slot, Field(a.tag / 8, Str, Implicit))
  {
  }

  lemma BytesAt(a: Arm)
    ensures a in BYTES ==> a.tag % 8 == 2 && At(a.ty, a.slot, Field(a.tag / 8, Bytes, Implicit))
  {
  }

  lemma NumbersAt(a: Arm)
    ensures a in INT64 ==> a.tag % 8 == 0 && At(a.ty, a.slot, Field(a.tag / 8, Int64, Implicit))
    ensures a in INT32 ==> a.tag % 8 == 0 && At(a.ty, a.slot, Field(a.tag / 8, Int32, Implicit))
  {
  }

  lemma FloatAt(a: Arm)
    ensures a in FLOAT ==> a.tag % 8 == 5 && At(a.ty, a.slot, Field(a.tag / 8, Float, Implicit))
  {
  }

  lemma MessagesAt(a: SubArm)
    ensures a in MESSAGES ==> a.tag % 8 == 2 && At(a.ty, a.slot, Field(a.tag / 8, Message(a.sub), Optional))
  {
  }

  lemma MessageListsAt(a: SubArm)
    ensures a in MESSAGE_LISTS ==> a.tag % 8 == 2 && At(a.ty, a.slot, Field(a.tag / 8, Message(a.sub), Repeated))
  {
    hide At;
    if k: nat :| k < |MESSAGE_LISTS| && MESSAGE_LISTS[k] == a {
      if k < 9 {
        SomeMessageListsAt(k);
      } else {
        MoreMessageListsAt(k);
      }
    }
  }

  lemma SomeMessageListsAt(k: nat)
    requires k < 9
    ensures var a := MESSAGE_LISTS[k]; a.tag % 8 == 2 && At(a.ty, a.slot, Field(a.tag / 8, Message(a.sub), Repeated))
  {
  }

  lemma MoreMessageListsAt(k: nat)
    requires 9 <= k < 19
    ensures |MESSAGE_LISTS| == 19
    ensures var a := MESSAGE_LISTS[k]; a.tag % 8 == 2 && At(a.ty, a.slot, Field(a.tag / 8, Message(a.sub), Repeated))
  {
  }

  lemma MembersAt(a: SubArm)
    ensures a in TYPE_MEMBERS ==> a.ty == TYPE_PROTO
    ensures a in TYPE_MEMBERS ==> a.tag % 8 == 2 && At(a.ty, a.slot, Field(a.tag / 8, Message(a.sub), Oneof))
    ensures At(TENSOR_SHAPE_PROTO_DIMENSION, 0, Field(1, Int64, Oneof))
    ensures At(TENSOR_SHAPE_PROTO_DIMENSION, 1, Field(2, Str, Oneof))
  {
  }

  /** The tag printed for a field: of the chunk when it is packed. */
  function PrintedTag(f: Field): nat {
    f.num * 8 + if f.rule.Packed? then LENGTH_DELIMITED else WireType(f.kind)
  }

  /** The list a field belongs to has its arm. */
  predicate Listed(ty: nat, slot: nat)
    requires ty < |ONNX| && slot < |ONNX[ty]|
  {
    var f := ONNX[ty][slot];
    var a := Arm(ty, slot, PrintedTag(f));
    match f.kind
    case Message(sub) =>
      SubArm(ty, slot, a.tag, sub)
      in if f.rule.Optional? then MESSAGES else if f.rule.Repeated? then MESSAGE_LISTS else TYPE_MEMBERS
    case Str =>
      if f.rule.Oneof? then a == Arm(TENSOR_SHAPE_PROTO_DIMENSION, 1, 18)
      else a in if f.rule.Implicit? then STRINGS else STRING_LISTS
    case Bytes => a in if f.rule.Implicit? then BYTES else BYTES_LISTS
    case Int64 =>
      if f.rule.Oneof? then a == Arm(TENSOR_SHAPE_PROTO_DIMENSION, 0, 8)
      else a in if f.rule.Implicit? then INT64 else PACKED_INT64
    case Int32 => a in if f.rule.Implicit? then INT32 else PACKED_INT32
    case UInt64 => a in PACKED_UINT64
    case Float => a in if f.rule.Implicit? then FLOAT else PACKED_FLOAT
    case Double => a in PACKED_DOUBLE
  }

  lemma AttributeListed(slot: nat)
    requires slot < |ONNX[ATTRIBUTE_PROTO]|
    ensures Listed(ATTRIBUTE_PROTO, slot)
  {
  }

  lemma TensorListed(slot: nat)
    requires slot < |ONNX[TENSOR_PROTO]|
    ensures Listed(TENSOR_PROTO, slot)
  {
  }

  lemma ModelListed(ty: nat, slot: nat)
    requires ATTRIBUTE_PROTO < ty < GRAPH_PROTO && slot < |ONNX[ty]|
    ensures Listed(ty, slot)
  {
  }

  lemma GraphListed(ty: nat, slot: nat)
    requires GRAPH_PROTO <= ty <= TENSOR_SHAPE_PROTO && ty != TENSOR_PROTO && slot < |ONNX[ty]|
    ensures Listed(ty, slot)
  {
  }

  lemma TypeListed(ty: nat, slot: nat)
    requires TYPE_PROTO_TENSOR <= ty < 20 && slot < |ONNX[ty]|
    ensures Listed(ty, slot)
  {
  }

  /** The lists leave out no field of any type. */
  lemma EveryArmListed(ty: nat, slot: nat)
    requires ty < |ONNX| && slot < |ONNX[ty]|
    ensures Listed(ty, slot)
  {
    hide Listed;
    if ty == ATTRIBUTE_PROTO {
      AttributeListed(slot);
    } else if ty == TENSOR_PROTO {
      TensorListed(slot);
    } else if ty < GRAPH_PROTO {
      ModelListed(ty, slot);
    } else if ty <= TENSOR_SHAPE_PROTO {
      GraphListed(ty, slot);
    } else {
      TypeListed(ty, slot);
    }
  }

  // ----- What they do -----

  /** A message of type `ty`. */
  predicate Fit(m: Msg, ty: nat) {
    m.ty == ty && ty < |ONNX| && |m.slots| == |ONNX[ty]|
  }

  /** A chunk of varints is added to the list, each as the number that its type
      holds of it; so is a single one behind a tag of its own. */
  lemma PackedNumbers(a: Arm, d: nat, m: Msg, vs: seq<nat>, ns: seq<int>)
    requires a in PACKED_INT64 || a in PACKED_INT32 || a in PACKED_UINT64
    requires Fit(m, a.ty) && |vs| == |ns| && |Varints(vs)| <= 0x7fff_ffef
    requires forall j | 0 <= j < |vs| :: vs[j] < 0x1_0000_0000_0000_0000
    requires a in PACKED_INT64 ==> forall j | 0 <= j < |vs| :: Holds64(ns[j], vs[j])
    requires a in PACKED_INT32 ==> forall j | 0 <= j < |vs| :: Holds32(ns[j], vs[j])
    requires a in PACKED_UINT64 ==> forall j | 0 <= j < |vs| :: ns[j] == vs[j]
    ensures a.slot < |m.slots| && a.tag >= 2
    ensures var r := Some(With(m, a.slot, m.slots[a.slot].es + Nums(ns)));
            && Parse(ONNX, d, m, Varint(a.tag) + (Varint(|Varints(vs)|) + Varints(vs))) == r
            && (|vs| == 1 ==> Parse(ONNX, d, m, Varint(a.tag - 2) + Varint(vs[0])) == r)
  {
    hide ONNX, PACKED_INT64, PACKED_INT32, PACKED_UINT64, Parse, Varint, Varints, WfSchema, Holds32, Holds64;
    hide Apply, ReadElems;
    OnnxSchema();
    PackedNumbersAt(a);
    var k := ONNX[a.ty][a.slot].kind;
    NumbersRead(k, vs, ns);
    ChunkParsed(ONNX, d, a.slot, m, Varints(vs), Nums(ns));
    if |vs| == 1 {
      NumberParsed(ONNX, d, a.slot, m, vs[0], ns[0]);
      PutPlaced(ONNX, m, a.slot, Num(ns[0]));
      assert Nums(ns) == [Num(ns[0])];
    }
  }

  /** Likewise floats of four bytes and doubles of eight. */
  lemma PackedFloats(a: Arm, d: nat, m: Msg, bs: seq<bytes>)
    requires a in PACKED_FLOAT || a in PACKED_DOUBLE
    requires Fit(m, a.ty) && |Joined(bs)| <= 0x7fff_ffef
    requires a in PACKED_FLOAT ==> forall b | b in bs :: |b| == 4
    requires a in PACKED_DOUBLE ==> forall b | b in bs :: |b| == 8
    ensures a.slot < |m.slots| && a.tag >= 2
    ensures var r := Some(With(m, a.slot, m.slots[a.slot].es + Fixes(bs)));
            && Parse(ONNX, d, m, Varint(a.tag) + (Varint(|Joined(bs)|) + Joined(bs))) == r
            && (|bs| == 1 ==>
                  Parse(ONNX, d, m, Varint(if a in PACKED_FLOAT then a.tag + 3 else a.tag - 1) + bs[0]) == r)
  {
    hide ONNX, PACKED_FLOAT, PACKED_DOUBLE, Parse, Varint, Joined, WfSchema, Apply, ReadElems;
    OnnxSchema();
    PackedFloatsAt(a);
    FixesRead(ONNX[a.ty][a.slot].kind, bs);
    ChunkParsed(ONNX, d, a.slot, m, Joined(bs), Fixes(bs));
    if |bs| == 1 {
      assert bs[0] in bs;
      FixedParsed(ONNX, d, a.slot, m, bs[0]);
      PutPlaced(ONNX, m, a.slot, Fix(bs[0]));
      assert Fixes(bs) == [Fix(bs[0])];
    }
  }

  /** A repeated string is added to the list, unless it is not UTF-8, which is refused ... */
  lemma StringLists(a: Arm, d: nat, m: Msg, p: bytes)
    requires a in STRING_LISTS && Fit(m, a.ty) && |p| <= 0x7fff_ffef
    ensures a.slot < |m.slots|
    ensures Parse(ONNX, d, m, Varint(a.tag) + (Varint(|p|) + p))
         == if ValidUtf8(p) then Some(With(m, a.slot, m.slots[a.slot].es + [Len(p)])) else None
  {
    hide ONNX, STRING_LISTS, BYTES_LISTS, Parse, Varint, WfSchema, Apply, ValidUtf8, With;
    OnnxSchema();
    ListsAt(a);
    TextParsed(ONNX, d, a.slot, m, p);
    if ValidUtf8(p) {
      TextPlaced(ONNX, m, a.slot, p);
    }
  }

  /** ... and a repeated byte string in any case. */
  lemma ByteLists(a: Arm, d: nat, m: Msg, p: bytes)
    requires a in BYTES_LISTS && Fit(m, a.ty) && |p| <= 0x7fff_ffef
    ensures a.slot < |m.slots|
    ensures Parse(ONNX, d, m, Varint(a.tag) + (Varint(|p|) + p))
         == Some(With(m, a.slot, m.slots[a.slot].es + [Len(p)]))
  {
    hide ONNX, STRING_LISTS, BYTES_LISTS, Parse, Varint, WfSchema, Apply, ValidUtf8, With;
    OnnxSchema();
    ListsAt(a);
    TextParsed(ONNX, d, a.slot, m, p);
    TextPlaced(ONNX, m, a.slot, p);
  }

  /** A singular string replaces what was there, the empty one with nothing, and is
      refused likewise ... */
  lemma Strings(a: Arm, d: nat, m: Msg, p: bytes)
    requires a in STRINGS && Fit(m, a.ty) && |p| <= 0x7fff_ffef
    ensures a.slot < |m.slots|
    ensures Parse(ONNX, d, m, Varint(a.tag) + (Varint(|p|) + p))
         == if ValidUtf8(p) then Some(With(m, a.slot, if p == [] then [] else [Len(p)])) else None
  {
    hide ONNX, STRINGS, Parse, Varint, WfSchema, Apply, ValidUtf8, With;
    OnnxSchema();
    StringsAt(a);
    TextParsed(ONNX, d, a.slot, m, p);
    if ValidUtf8(p) {
      TextPlaced(ONNX, m, a.slot, p);
    }
  }

  /** ... and a byte string in any case. */
  lemma ByteStrings(a: Arm, d: nat, m: Msg, p: bytes)
    requires a in BYTES && Fit(m, a.ty) && |p| <= 0x7fff_ffef
    ensures a.slot < |m.slots|
    ensures Parse(ONNX, d, m, Varint(a.tag) + (Varint(|p|) + p))
         == Some(With(m, a.slot, if p == [] then [] else [Len(p)]))
  {
    hide ONNX, BYTES, Parse, Varint, WfSchema, Apply, ValidUtf8, With;
    OnnxSchema();
    BytesAt(a);
    TextParsed(ONNX, d, a.slot, m, p);
    TextPlaced(ONNX, m, a.slot, p);
  }

  /** A singular number likewise, zero with nothing. */
  lemma Numbers(a: Arm, d: nat, m: Msg, v: nat, n: int)
    requires (a in INT64 && Holds64(n, v)) || (a in INT32 && Holds32(n, v))
    requires Fit(m, a.ty) && v < 0x1_0000_0000_0000_0000
    ensures a.slot < |m.slots|
    ensures Parse(ONNX, d, m, Varint(a.tag) + Varint(v)) == Some(With(m, a.slot, if n == 0 then [] else [Num(n)]))
  {
    hide ONNX, INT64, INT32, Parse, Varint, WfSchema, Apply, Holds32, Holds64;
    OnnxSchema();
    NumbersAt(a);
    NumberParsed(ONNX, d, a.slot, m, v, n);
    PutPlaced(ONNX, m, a.slot, Num(n));
  }

  /** A float likewise, zero with nothing; a negative zero is kept. */
  lemma Floats(a: Arm, d: nat, m: Msg, b: bytes)
    requires a in FLOAT && Fit(m, a.ty) && |b| == 4
    ensures a.slot < |m.slots|
    ensures Parse(ONNX, d, m, Varint(a.tag) + b)
         == Some(With(m, a.slot, if b == [0, 0, 0, 0] then [] else [Fix(b)]))
  {
    hide ONNX, FLOAT, Parse, Varint, WfSchema, Apply;
    OnnxSchema();
    FloatAt(a);
    FixedParsed(ONNX, d, a.slot, m, b);
    PutPlaced(ONNX, m, a.slot, Fix(b));
  }

  /** A submessage that is there, if any, is one of the type of its arm. */
  predicate SubFits(m: Msg, a: SubArm) {
    && Fit(m, a.ty) && a.slot < |m.slots|
    && var es := m.slots[a.slot].es; es == [] || (|es| == 1 && es[0].Sub? && es[0].m.ty == a.sub)
  }

  /** What the payload is parsed into. */
  function Start(m: Msg, a: SubArm): Msg
    requires SubFits(m, a)
  {
    if m.slots[a.slot].es == [] then Default(ONNX, a.sub) else m.slots[a.slot].es[0].m
  }

  /** A singular submessage is parsed over the one that is there. */
  lemma Submessages(a: SubArm, d: nat, m: Msg, p: bytes)
    requires a in MESSAGES && SubFits(m, a) && |p| <= 0x7fff_ffef
    ensures var sub := if d == 0 then None else Parse(ONNX, d - 1, Start(m, a), p);
            Parse(ONNX, d, m, Varint(a.tag) + (Varint(|p|) + p))
            == if sub.None? then None else Some(With(m, a.slot, [Sub(sub.value)]))
  {
    hide ONNX, MESSAGES, Parse, Varint, WfSchema;
    OnnxSchema();
    MessagesAt(a);
    SubParsed(ONNX, d, a.slot, m, p);
  }

  /** A repeated one is parsed into a new one, behind the others. */
  lemma SubmessageLists(a: SubArm, d: nat, m: Msg, p: bytes)
    requires a in MESSAGE_LISTS && Fit(m, a.ty) && |p| <= 0x7fff_ffef
    ensures a.slot < |m.slots|
    ensures var sub := if d == 0 then None else Parse(ONNX, d - 1, Default(ONNX, a.sub), p);
            Parse(ONNX, d, m, Varint(a.tag) + (Varint(|p|) + p))
            == if sub.None? then None else Some(With(m, a.slot, m.slots[a.slot].es + [Sub(sub.value)]))
  {
    hide ONNX, MESSAGE_LISTS, Parse, Varint, WfSchema;
    OnnxSchema();
    MessageListsAt(a);
    SubParsed(ONNX, d, a.slot, m, p);
  }

  /** Only member `i` of the oneof with the members `all` is set, to `e`; nothing else changes. */
  predicate OnlySet(m: Msg, r: Msg, all: set<nat>, i: nat, e: Elem) {
    && r.ty == m.ty && r.unknown == m.unknown && |r.slots| == |m.slots| && i < |m.slots| && r.slots[i].es == [e]
    && forall j | 0 <= j < |m.slots| && j != i :: r.slots[j].es == if j in all then [] else m.slots[j].es
  }

  lemma ClearedOnly(m: Msg, all: set<nat>, i: nat, e: Elem)
    requires m.ty < |ONNX| && i < |ONNX[m.ty]| == |m.slots|
    requires forall j | 0 <= j < |m.slots| :: j in all <==> ONNX[m.ty][j].rule.Oneof?
    ensures OnlySet(m, With(ClearOneof(ONNX[m.ty], m), i, [e]), all, i, e)
  {
  }

  /** Of a type, the submessage last read is the one that is set; a second record
      of the same member is parsed over the first. */
  lemma TypeMembers(a: SubArm, d: nat, m: Msg, p: bytes)
    requires a in TYPE_MEMBERS && SubFits(m, a) && |p| <= 0x7fff_ffef
    ensures var sub := if d == 0 then None else Parse(ONNX, d - 1, Start(m, a), p);
            var r := Parse(ONNX, d, m, Varint(a.tag) + (Varint(|p|) + p));
            if sub.None? then r == None
            else r.Some? && OnlySet(m, r.value, {0, 1, 2, 4, 5}, a.slot, Sub(sub.value))
  {
    hide ONNX, TYPE_MEMBERS, Parse, Varint, WfSchema, OnlySet;
    OnnxSchema();
    MembersAt(a);
    SubParsed(ONNX, d, a.slot, m, p);
    var sub := if d == 0 then None else Parse(ONNX, d - 1, Start(m, a), p);
    if sub.Some? {
      TypeOneof();
      ClearedOnly(m, {0, 1, 2, 4, 5}, a.slot, Sub(sub.value));
    }
  }

  lemma TypeOneof()
    ensures forall j | 0 <= j < |ONNX[TYPE_PROTO]| :: j in {0, 1, 2, 4, 5} <==> ONNX[TYPE_PROTO][j].rule.Oneof?
  {
  }

  /** Of a dimension, the value or the name last read, zero and empty included. */
  lemma DimensionValue(d: nat, m: Msg, v: nat, n: int)
    requires Fit(m, TENSOR_SHAPE_PROTO_DIMENSION) && v < 0x1_0000_0000_0000_0000 && Holds64(n, v)
    ensures var r := Parse(ONNX, d, m, Varint(8) + Varint(v)); r.Some? && OnlySet(m, r.value, {0, 1}, 0, Num(n))
  {
    hide ONNX, Parse, Varint, WfSchema, Apply, OnlySet, Holds64;
    OnnxSchema();
    MembersAt(SubArm(0, 0, 0, 0));
    NumberParsed(ONNX, d, 0, m, v, n);
    PutPlaced(ONNX, m, 0, Num(n));
    DimensionOneof();
    ClearedOnly(m, {0, 1}, 0, Num(n));
  }

  lemma DimensionName(d: nat, m: Msg, p: bytes)
    requires Fit(m, TENSOR_SHAPE_PROTO_DIMENSION) && |p| <= 0x7fff_ffef
    ensures var r := Parse(ONNX, d, m, Varint(18) + (Varint(|p|) + p));
            if ValidUtf8(p) then r.Some? && OnlySet(m, r.value, {0, 1}, 1, Len(p)) else r == None
  {
    hide ONNX, Parse, Varint, WfSchema, Apply, OnlySet, ValidUtf8;
    OnnxSchema();
    MembersAt(SubArm(0, 0, 0, 0));
    TextParsed(ONNX, d, 1, m, p);
    if ValidUtf8(p) {
      TextPlaced(ONNX, m, 1, p);
      DimensionOneof();
      ClearedOnly(m, {0, 1}, 1, Len(p));
    }
  }

  lemma DimensionOneof()
    ensures var fs := ONNX[TENSOR_SHAPE_PROTO_DIMENSION];
            |fs| == 3 && forall j | 0 <= j < |fs| :: j in {0, 1} <==> fs[j].rule.Oneof?
  {
  }

  /** Two records of a singular submessage leave what one with both payloads would. */
  lemma SubmessageTwice(a: SubArm, d: nat, m: Msg, p: bytes, q: bytes)
    requires a in MESSAGES && SubFits(m, a) && |p| + |q| <= 0x7fff_ffef
    requires Parse(ONNX, d, m, Varint(a.tag) + (Varint(|p|) + p)).Some?
    ensures Parse(ONNX, d, m, Varint(a.tag) + (Varint(|p|) + p) + (Varint(a.tag) + (Varint(|q|) + q)))
         == Parse(ONNX, d, m, Varint(a.tag) + (Varint(|p + q|) + (p + q)))
  {
    hide ONNX, MESSAGES, Parse, Varint;
    Submessages(a, d, m, p);
    Submessages(a, d, m, p + q);
    var m1 := Parse(ONNX, d, m, Varint(a.tag) + (Varint(|p|) + p)).value;
    var sub := Parse(ONNX, d - 1, Start(m, a), p).value;
    ParseKeepsType(ONNX, d - 1, Start(m, a), p);
    assert m1.slots[a.slot].es == [Sub(sub)] && sub.ty == a.sub;
    Submessages(a, d, m1, q);
    Codec.ParseAppend(ONNX, d, m, Varint(a.tag) + (Varint(|p|) + p), Varint(a.tag) + (Varint(|q|) + q));
    Codec.ParseAppend(ONNX, d - 1, Start(m, a), p, q);
    var both := Parse(ONNX, d - 1, Start(m, a), p + q);
    if both.Some? {
      WithTwice(m, a.slot, [Sub(sub)], [Sub(both.value)]);
    }
  }

  lemma ParseKeepsType(S: Schema, d: nat, m: Msg, b: bytes)
    ensures Parse(S, d, m, b).Some? ==> Parse(S, d, m, b).value.ty == m.ty
  {
  }

  lemma WithTwice(m: Msg, i: nat, xs: seq<Elem>, ys: seq<Elem>)
    requires i < |m.slots|
    ensures With(With(m, i, xs), i, ys) == With(m, i, ys)
  {
    assert m.slots[i := Slot(xs)][i := Slot(ys)] == m.slots[i := Slot(ys)];
  }

  /** The bytes 0A 02 02 03 give a tensor the dimensions 2 and 3. */
  lemma DimensionsRead(d: nat)
    ensures Parse(ONNX, d, Default(ONNX, TENSOR_PROTO), [0x0A, 2, 2, 3])
         == Some(With(Default(ONNX, TENSOR_PROTO), 0, [Num(2), Num(3)]))
  {
    hide ONNX, Parse, Holds64;
    var m := Default(ONNX, TENSOR_PROTO);
    TensorFit();
    assert Varint(10) == [10] && Varint(2) == [2] && Varint(3) == [3];
    assert [2, 3][1..] == [3] && [3][1..] == [];
    assert Varints([3]) == [3] + [] && Varints([2, 3]) == [2, 3];
    assert Holds64(2, 2) && Holds64(3, 3) by {
      SmallHeld();
    }
    PackedNumbers(Arm(TENSOR_PROTO, 0, 10), d, m, [2, 3], [2, 3]);
    assert Nums([2, 3]) == [Num(2), Num(3)];
    assert Varint(10) + (Varint(2) + [2, 3]) == [0x0A, 2, 2, 3];
    assert m.slots[0].es + [Num(2), Num(3)] == [Num(2), Num(3)];
  }

  lemma SmallHeld()
    ensures Holds64(2, 2) && Holds64(3, 3)
  {
  }

  lemma TensorFit()
    ensures var m := Default(ONNX, TENSOR_PROTO); Fit(m, TENSOR_PROTO) && m.slots[0].es == []
  {
  }
}
