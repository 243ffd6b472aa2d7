/** The code of all twenty ONNX message types taken together: what is written
    parses back, has the size announced, and concatenates as a merge. */
module OnnxCodec {
  import opened Wire
  import opened Wrappers
  import opened Messages
  import opened MessageLaws
  import opened MergeLaws
  import opened Codec
  import opened Soundness
  import opened Sizes
  import opened Onnx
  import opened RecordBytes

  /** Last one wins: two serializations end to end parse to the first message,
      copied, with the second merged into it. The copy is the first message
      itself unless it holds a negative zero that is not written. */
  lemma ParseConcatenation(S: Schema, d: nat, a: Msg, b: Msg)
    requires WfSchema(S) && Valid(S, d, a) && Valid(S, d, b) && a.ty == b.ty
    requires |Serialize(S, a)| <= MAX_SIZE && |Serialize(S, b)| <= MAX_SIZE
    ensures var copy := Merge(S, Default(S, a.ty), a);
            && Parse(S, d, Default(S, a.ty), Serialize(S, a) + Serialize(S, b)) == Some(Merge(S, copy, b))
            && (copy == a <==> Exact(S, a))
  {
    hide Parse, Serialize, Valid, Exact;
    ValidIsSound(S, d, a);
    DefaultSound(S, a.ty);
    MergeSound(S, Default(S, a.ty), a);
    ParseMerges(S, d, Default(S, a.ty), a, Serialize(S, b));
    ParseMerges(S, d, Merge(S, Default(S, a.ty), a), b, []);
    CopyIsExact(S, d, a);
  }

  /** Valid messages have the shape that the size pass measures. */
  lemma {:induction false} ValidSizable(S: Schema, d: nat, m: Msg)
    requires WfSchema(S) && Valid(S, d, m)
    ensures Sizable(S, m)
    decreases m
  {
    var fs := Fields(S, m.ty);
    forall i | 0 <= i < |fs|
      ensures SlotSizable(S, fs[i], m.slots[i].es)
    {
      assert WfType(S, fs) && WfField(S, fs[i]) && SlotFits(S, d, fs[i], m.slots[i].es);
      forall e | e in m.slots[i].es
        ensures ElemSizable(S, e) && (fs[i].rule.Packed? ==> ScalarFits(fs[i].kind, e))
      {
        assert ElemFits(S, d, fs[i].kind, e);
        if e.Sub? {
          ValidSizable(S, d - 1, e.m);
        }
      }
    }
  }

  /** Every ONNX message: written from right caches it has exactly the announced
      size, and it parses back to itself unless a negative zero is not written. */
  lemma OnnxRoundTrip(d: nat, m: Msg, c: Cache)
    requires m.ty < |ONNX| && Valid(ONNX, d, m) && CacheRight(ONNX, m, c)
    requires ByteSize(ONNX, m) <= MAX_SIZE
    ensures |PrintCached(ONNX, m, c)| == ByteSize(ONNX, m)
    ensures Parse(ONNX, d, Default(ONNX, m.ty), PrintCached(ONNX, m, c)) == Some(m) <==> Exact(ONNX, m)
  {
    hide Valid, Sizable, CacheRight, Parse, Exact, ByteSize, PrintCached, Serialize, WfSchema;
    OnnxSchema();
    ValidSizable(ONNX, d, m);
    PrintCachedExact(ONNX, m, c);
    ByteSizeExact(ONNX, m);
    ParseSerialize(ONNX, d, m);
  }

  // ----- A message that does not come back -----

  /** Slots that print nothing leave only the unknown bytes. */
  lemma {:induction false} PrintsUnknown(S: Schema, m: Msg, i: nat)
    requires |m.slots| == |Fields(S, m.ty)|
    requires forall j | i <= j < |m.slots| :: PrintSlot(S, Fields(S, m.ty)[j], m.slots[j].es) == []
    ensures PrintFrom(S, m, i) == m.unknown
    decreases |m.slots| - i
  {
    if i < |m.slots| {
      PrintsUnknown(S, m, i + 1);
      assert [] + m.unknown == m.unknown;
    }
  }

  /** An attribute whose float is negative zero. */
  const NEGATIVE_ZERO: Msg := With(Default(ONNX, ATTRIBUTE_PROTO), 1, [Fix([0, 0, 0, 0x80])])

  lemma NegativeZeroPrintsNothing()
    ensures Serialize(ONNX, NEGATIVE_ZERO) == []
  {
    var (m, fs, e) := (NEGATIVE_ZERO, Fields(ONNX, ATTRIBUTE_PROTO), Fix([0, 0, 0, 0x80]));
    forall j | 0 <= j < |m.slots|
      ensures PrintSlot(ONNX, fs[j], m.slots[j].es) == []
    {
      if j == 1 {
        assert fs[1].rule.Implicit? && IsNegativeZero(e) && Omitted(fs[1], e);
        assert m.slots[1].es == [e] && [e][1..] == [];
        assert Record(ONNX, fs[1], e) == [] && Records(ONNX, fs[1], []) == [];
      }
    }
    PrintsUnknown(ONNX, m, 0);
  }

  /** It is valid, prints as nothing, and parses back as the default attribute. */
  lemma NegativeZeroLost(d: nat)
    ensures Valid(ONNX, d, NEGATIVE_ZERO) && !Exact(ONNX, NEGATIVE_ZERO)
    ensures Parse(ONNX, d, Default(ONNX, ATTRIBUTE_PROTO), Serialize(ONNX, NEGATIVE_ZERO)) != Some(NEGATIVE_ZERO)
  {
    var (m, fs, e) := (NEGATIVE_ZERO, Fields(ONNX, ATTRIBUTE_PROTO), Fix([0, 0, 0, 0x80]));
    OnnxSchema();
    assert fs[1].rule.Implicit? && fs[1].kind.Float? && m.slots[1].es == [e] && IsNegativeZero(e);
    assert e in m.slots[1].es;
    assert !SlotExact(ONNX, fs[1], m.slots[1].es);
    assert UnknownFits(ONNX, ATTRIBUTE_PROTO, d, []);
    NegativeZeroPrintsNothing();
    ParseSerialize(ONNX, d, m);
  }

  /** An attribute whose float is -1.0. */
  const MINUS_ONE: Msg := With(Default(ONNX, ATTRIBUTE_PROTO), 1, [Fix([0, 0, 0x80, 0xBF])])

  /** It prints as its tag and its four bytes, and comes back. */
  lemma MinusOneKept(d: nat)
    ensures Valid(ONNX, d, MINUS_ONE) && Serialize(ONNX, MINUS_ONE) == [21, 0, 0, 0x80, 0xBF]
    ensures Parse(ONNX, d, Default(ONNX, ATTRIBUTE_PROTO), [21, 0, 0, 0x80, 0xBF]) == Some(MINUS_ONE)
  {
    hide Parse, Serialize, Valid, WfSchema;
    OnnxSchema();
    MinusOneValid(d);
    MinusOnePrints();
    ParseSerialize(ONNX, d, MINUS_ONE);
  }

  lemma MinusOneValid(d: nat)
    ensures Valid(ONNX, d, MINUS_ONE) && Exact(ONNX, MINUS_ONE)
  {
    var e := Fix([0, 0, 0x80, 0xBF]);
    assert e.b[2] != 0;
    assert UnknownFits(ONNX, ATTRIBUTE_PROTO, d, []);
    assert MINUS_ONE.slots[1].es == [e];
  }

  lemma MinusOnePrints()
    ensures Serialize(ONNX, MINUS_ONE) == [21, 0, 0, 0x80, 0xBF]
  {
    hide ONNX;
    var (m, fs, e) := (MINUS_ONE, Fields(ONNX, ATTRIBUTE_PROTO), Fix([0, 0, 0x80, 0xBF]));
    MinusOneSlots();
    RecordIs(ONNX, fs[1], e);
    assert Varint(21) == [21];
    assert Records(ONNX, fs[1], [e]) == Record(ONNX, fs[1], e) + [] by {
      assert [e][1..] == [];
    }
    PrintsUnknown(ONNX, m, 2);
    assert PrintFrom(ONNX, m, 1) == [21, 0, 0, 0x80, 0xBF];
  }

  lemma MinusOneSlots()
    ensures var (m, fs) := (MINUS_ONE, Fields(ONNX, ATTRIBUTE_PROTO));
            && m.ty == ATTRIBUTE_PROTO && m.unknown == [] && |m.slots| == |fs| == 16
            && fs[1] == Field(2, Float, Implicit) && m.slots[1].es == [Fix([0, 0, 0x80, 0xBF])]
            && forall j | 0 <= j < 16 && j != 1 :: PrintSlot(ONNX, fs[j], m.slots[j].es) == []
  {
  }

  // ----- Merging types is not associative -----

  /** A TypeProto with one member of its oneof set. */
  function TypeWith(i: nat, sub: Msg): Msg
    requires i < |TYPE_PROTO_FIELDS|
  {
    With(Default(ONNX, TYPE_PROTO), i, [Sub(sub)])
  }

  /** A clash, as `MergeAssociative` has it: a tensor type, a sequence type, and a
      tensor type again. Setting the sequence forgets the first tensor type,
      unless the last two are merged first. */
  lemma TypeMergeNotAssociative()
    ensures var a := TypeWith(0, With(Default(ONNX, TYPE_PROTO_TENSOR), 0, [Num(1)]));
            var b := TypeWith(1, Default(ONNX, TYPE_PROTO_SEQUENCE));
            var c := TypeWith(0, Default(ONNX, TYPE_PROTO_TENSOR));
            Merge(ONNX, Merge(ONNX, a, b), c) != Merge(ONNX, a, Merge(ONNX, b, c))
  {
    hide Merge;
    var none := Default(ONNX, TYPE_PROTO_TENSOR);
    var t := With(none, 0, [Num(1)]);
    var a, b, c := TypeWith(0, t), TypeWith(1, Default(ONNX, TYPE_PROTO_SEQUENCE)), TypeWith(0, none);
    MergeType(a, b, 1);
    MergeType(Merge(ONNX, a, b), c, 0);
    MergeType(b, c, 0);
    MergeType(a, Merge(ONNX, b, c), 0);
    MergeNothing(ONNX, none, none);
    MergeNothing(ONNX, t, none);
    assert Merge(ONNX, Merge(ONNX, a, b), c).slots[0].es == [Sub(none)];
    assert Merge(ONNX, a, Merge(ONNX, b, c)).slots[0].es == [Sub(t)];
    assert t.slots[0].es != none.slots[0].es;
  }

  /** What merging two types leaves of the tensor type, when the second has one
      member of its oneof set. */
  lemma MergeType(a: Msg, b: Msg, i: nat)
    requires a.ty == b.ty == TYPE_PROTO && |a.slots| == |b.slots| == |TYPE_PROTO_FIELDS|
    requires i < 2 && b.slots[i].es != []
    ensures var r := Merge(ONNX, a, b);
            && r.ty == TYPE_PROTO && |r.slots| == |TYPE_PROTO_FIELDS|
            && r.slots[0].es == (if b.slots[0].es == [] then [] else [MergeElem(ONNX, a.slots[0].es, b.slots[0].es[0])])
  {
    assert Fields(ONNX, TYPE_PROTO) == TYPE_PROTO_FIELDS;
    assert TYPE_PROTO_FIELDS[i].rule.Oneof?;
    assert OneofSet(TYPE_PROTO_FIELDS, b);
  }
}
