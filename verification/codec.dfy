/** What the message code promises to its callers. */
module Codec {
  import opened Wire
  import opened Wrappers
  import opened Messages
  import opened MessageLaws
  import RoundTrip
  import opened MergeLaws

  // ----- Copies -----

  /** No float that is printed only when it is not zero holds a negative zero:
      the sign bit, in the last byte, and nothing else. */
  predicate Exact(S: Schema, m: Msg)
    decreases m
  {
    var fs := Fields(S, m.ty);
    forall i | 0 <= i < |fs| && i < |m.slots| :: SlotExact(S, fs[i], m.slots[i].es)
  }

  predicate SlotExact(S: Schema, f: Field, es: seq<Elem>)
    decreases es, 0
  {
    forall e | e in es :: ElemExact(S, f, e)
  }

  predicate ElemExact(S: Schema, f: Field, e: Elem)
    decreases e
  {
    && (f.rule.Implicit? ==> e != Fix([0, 0, 0, 0x80]) && e != Fix([0, 0, 0, 0, 0, 0, 0, 0x80]))
    && (e.Sub? ==> Exact(S, e.m))
  }

  lemma NegativeZeroIs(k: Kind, e: Elem)
    requires ScalarFits(k, e)
    ensures IsNegativeZero(e) <==> e == Fix([0, 0, 0, 0x80]) || e == Fix([0, 0, 0, 0, 0, 0, 0, 0x80])
  {
    if e.Fix? && |e.b| == 4 && IsNegativeZero(e) {
      assert e.b == [0, 0, 0, 0x80];
    } else if e.Fix? && IsNegativeZero(e) {
      assert e.b == [0, 0, 0, 0, 0, 0, 0, 0x80];
    }
  }

  lemma {:induction false} CopyElemsExact(S: Schema, d: nat, f: Field, es: seq<Elem>)
    requires WfSchema(S) && WfField(S, f) && (f.rule.Packed? || f.rule.Repeated?)
    requires forall e | e in es :: ElemFits(S, d, f.kind, e)
    ensures CopyElems(S, es) == es <==> SlotExact(S, f, es)
    decreases es, 0
  {
    if es != [] {
      var e := es[0];
      assert es == [e] + es[1..];
      CopyElemsExact(S, d, f, es[1..]);
      CopyElemExact(S, d, f, e);
      assert SlotExact(S, f, es) <==> ElemExact(S, f, e) && SlotExact(S, f, es[1..]);
      assert CopyElems(S, es) == [MergeElem(S, [], e)] + CopyElems(S, es[1..]);
      assert CopyElems(S, es)[0] == MergeElem(S, [], e) && CopyElems(S, es)[1..] == CopyElems(S, es[1..]);
    }
  }

  lemma {:induction false} CopyElemExact(S: Schema, d: nat, f: Field, e: Elem)
    requires WfSchema(S) && ElemFits(S, d, f.kind, e)
    requires f.rule.Implicit? ==> !Omitted(f, e)
    ensures MergeElem(S, [], e) == e <==> ElemExact(S, f, e)
    decreases e
  {
    if e.Sub? {
      CopyIsExact(S, d - 1, e.m);
    } else {
      NegativeZeroIs(f.kind, e);
    }
  }

  lemma {:induction false} CopySlotExact(S: Schema, d: nat, f: Field, es: seq<Elem>, cleared: bool)
    requires WfSchema(S) && WfField(S, f) && SlotFits(S, d, f, es)
    ensures MergeSlot(S, f, [], es, cleared) == es <==> SlotExact(S, f, es)
    decreases es, 1
  {
    if f.rule.Packed? || f.rule.Repeated? {
      assert [] + CopyElems(S, es) == CopyElems(S, es);
      CopyElemsExact(S, d, f, es);
    } else if es != [] {
      assert es == [es[0]] && ElemFits(S, d, f.kind, es[0]);
      assert SlotExact(S, f, es) <==> ElemExact(S, f, es[0]);
      if !Omitted(f, es[0]) {
        CopyElemExact(S, d, f, es[0]);
      } else {
        NegativeZeroIs(f.kind, es[0]);
      }
    }
  }

  /** `CopyFrom` gives back the message it copies exactly when no negative zero is lost. */
  lemma {:induction false} CopyIsExact(S: Schema, d: nat, m: Msg)
    requires WfSchema(S) && Valid(S, d, m)
    ensures Merge(S, Default(S, m.ty), m) == m <==> Exact(S, m)
    decreases m
  {
    var fs := Fields(S, m.ty);
    var c := Merge(S, Default(S, m.ty), m);
    assert [] + m.unknown == m.unknown;
    forall i | 0 <= i < |fs|
      ensures c.slots[i] == m.slots[i] <==> SlotExact(S, fs[i], m.slots[i].es)
    {
      assert WfType(S, fs) && WfField(S, fs[i]) && SlotFits(S, d, fs[i], m.slots[i].es);
      CopySlotExact(S, d, fs[i], m.slots[i].es, OneofSet(fs, m) && fs[i].rule.Oneof?);
    }
    if Exact(S, m) {
      assert c.slots == m.slots;
    } else {
      var i :| 0 <= i < |fs| && i < |m.slots| && !SlotExact(S, fs[i], m.slots[i].es);
      assert c.slots[i] != m.slots[i];
    }
  }

  // ----- Parsing what was printed -----

  /** Parsing one string after another is parsing them end to end. */
  lemma ParseAppend(S: Schema, d: nat, m: Msg, x: bytes, y: bytes)
    requires Parse(S, d, m, x).Some?
    ensures Parse(S, d, m, x + y) == Parse(S, d, Parse(S, d, m, x).value, y)
  {
    DecodeAppend(S, m.ty, d, x, y);
    var acts := Decode(S, m.ty, d, x).acts;
    var r := Decode(S, m.ty, d, y);
    if r.Done? {
      RunAppend(S, m, acts, r.acts);
    }
  }

  /** Parsing the serialization of `b` into a message that holds `a` is `a.MergeFrom(b)`,
      whatever follows. */
  lemma ParseMerges(S: Schema, d: nat, a: Msg, b: Msg, rest: bytes)
    requires WfSchema(S) && Valid(S, d, b) && Sound(S, a) && a.ty == b.ty
    requires |Serialize(S, b)| <= MAX_SIZE
    ensures Parse(S, d, a, Serialize(S, b) + rest) == Parse(S, d, Merge(S, a, b), rest)
    ensures Parse(S, d, a, Serialize(S, b)) == Some(Merge(S, a, b))
  {
    RoundTrip.DecodeSerialize(S, d, b);
    RunActs(S, d, a, b);
    ParseAppend(S, d, a, Serialize(S, b), rest);
  }

  /** Round trip: parsing what a message prints gives it back exactly when it
      holds no negative zero that printing leaves out. */
  lemma ParseSerialize(S: Schema, d: nat, m: Msg)
    requires WfSchema(S) && Valid(S, d, m) && |Serialize(S, m)| <= MAX_SIZE
    ensures Parse(S, d, Default(S, m.ty), Serialize(S, m)) == Some(m) <==> Exact(S, m)
  {
    ParseMerges(S, d, Default(S, m.ty), m, []);
    CopyIsExact(S, d, m);
  }
}
