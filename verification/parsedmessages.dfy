/** Every message a parser yields is valid: any byte string, any start. */
module ParsedMessages {
  import opened Wire
  import opened Wrappers
  import opened Messages
  import opened MessageLaws
  import Codec

  predicate ActFits(S: Schema, ty: nat, d: nat, a: Act)
    decreases a
  {
    var fs := Fields(S, ty);
    match a
    case Keep(raw) => UnknownFits(S, ty, d, raw)
    case Put(i, es) =>
      && i < |fs| && !fs[i].kind.Message?
      && (forall e | e in es :: ScalarFits(fs[i].kind, e))
      && (!fs[i].rule.Packed? ==> |es| == 1)
    case Descend(i, acts) =>
      i < |fs| && fs[i].kind.Message? && d > 0 && ActsFit(S, fs[i].kind.ty, d - 1, acts)
  }

  predicate ActsFit(S: Schema, ty: nat, d: nat, acts: seq<Act>)
    decreases acts
  {
    forall a | a in acts :: ActFits(S, ty, d, a)
  }

  // ----- What is decoded fits -----

  lemma NarrowFits(k: Kind, v: nat)
    requires v < TWO64 && (k.Int32? || k.Int64? || k.UInt64?)
    ensures InRange(k, Narrow(k, v))
  {
  }

  lemma ReadElemFits(k: Kind, b: bytes)
    requires ReadElem(k, b).Got?
    ensures ScalarFits(k, ReadElem(k, b).value)
  {
    if k.Int32? || k.Int64? || k.UInt64? {
      NarrowFits(k, ReadVarint(b, 10).value % TWO64);
    }
  }

  lemma {:induction false} ReadElemsFit(k: Kind, b: bytes)
    requires ReadElems(k, b).Some?
    ensures forall e | e in ReadElems(k, b).value :: ScalarFits(k, e)
    decreases |b|
  {
    if b != [] {
      ReadElemFits(k, b);
      ReadElemsFit(k, ReadElem(k, b).rest);
    }
  }

  lemma KeepFits(S: Schema, ty: nat, d: nat, b: bytes)
    requires DecodeStep(S, ty, d, b).Did? && DecodeStep(S, ty, d, b).act.Keep?
    ensures UnknownFits(S, ty, d, DecodeStep(S, ty, d, b).act.raw)
  {
    var raw := DecodeStep(S, ty, d, b).act.raw;
    var Got(t, b1) := ReadTag(b);
    SkipFieldStable(d, t, b1, []);
    assert raw + [] == raw;
    assert DecodeStep(S, ty, d, raw) == Did(Keep(raw), []);
    assert Decode(S, ty, d, raw) == Done([Keep(raw)] + []);
    assert Kept([Keep(raw)] + []) == raw + [];
  }

  lemma {:induction false} StepFits(S: Schema, ty: nat, d: nat, b: bytes)
    requires WfSchema(S) && ty < |S| && DecodeStep(S, ty, d, b).Did?
    ensures ActFits(S, ty, d, DecodeStep(S, ty, d, b).act)
    decreases |b|, 0
  {
    hide Find, ReadElem, ReadElems, SkipField, ReadVarint, UnknownFits, ScalarFits, InRange;
    var a := DecodeStep(S, ty, d, b).act;
    var Got(t, b1) := ReadTag(b);
    if a.Keep? {
      KeepFits(S, ty, d, b);
    } else {
      var i := Find(S[ty], t.num);
      var f := S[ty][i];
      assert WfType(S, S[ty]) && WfField(S, f);
      if a.Descend? {
        var p := ReadDelimited(b1).value;
        DecodeFits(S, f.kind.ty, d - 1, p);
      } else {
        FieldFits(S, d, i, f, t.wt, b1);
      }
    }
  }

  lemma FieldFits(S: Schema, d: nat, i: nat, f: Field, wt: nat, b: bytes)
    requires DecodeField(S, d, i, f, wt, b).Did? && DecodeField(S, d, i, f, wt, b).act.Put?
    requires f.rule.Packed? ==> !f.kind.Message?
    ensures var es := DecodeField(S, d, i, f, wt, b).act.es;
            !f.kind.Message? && (forall e | e in es :: ScalarFits(f.kind, e)) && (!f.rule.Packed? ==> |es| == 1)
  {
    hide ReadElem, ReadElems, ScalarFits;
    if f.rule.Packed? && wt == LENGTH_DELIMITED {
      ReadElemsFit(f.kind, ReadDelimited(b).value);
    } else {
      ReadElemFits(f.kind, b);
    }
  }

  lemma {:induction false} DecodeFits(S: Schema, ty: nat, d: nat, b: bytes)
    requires WfSchema(S) && ty < |S| && Decode(S, ty, d, b).Done?
    ensures ActsFit(S, ty, d, Decode(S, ty, d, b).acts)
    decreases |b|, 1
  {
    if b != [] {
      StepFits(S, ty, d, b);
      DecodeFits(S, ty, d, DecodeStep(S, ty, d, b).rest);
    }
  }

  // ----- What is run stays valid -----

  lemma {:induction false} KeptAppend(p: seq<Act>, q: seq<Act>)
    ensures Kept(p + q) == Kept(p) + Kept(q)
  {
    if p == [] {
      assert [] + q == q;
    } else {
      KeptAppend(p[1..], q);
      assert (p + q)[1..] == p[1..] + q;
      AppendAssoc(if p[0].Keep? then p[0].raw else [], Kept(p[1..]), Kept(q));
    }
  }

  lemma UnknownAppend(S: Schema, ty: nat, d: nat, u: bytes, v: bytes)
    requires UnknownFits(S, ty, d, u) && UnknownFits(S, ty, d, v)
    ensures UnknownFits(S, ty, d, u + v)
  {
    DecodeAppend(S, ty, d, u, v);
    KeptAppend(Decode(S, ty, d, u).acts, Decode(S, ty, d, v).acts);
  }

  lemma DefaultValid(S: Schema, d: nat, ty: nat)
    requires ty < |S|
    ensures Valid(S, d, Default(S, ty))
  {
  }

  lemma WithValid(S: Schema, d: nat, m: Msg, i: nat, es: seq<Elem>)
    requires Valid(S, d, m) && i < |m.slots| && SlotFits(S, d, Fields(S, m.ty)[i], es)
    requires !Fields(S, m.ty)[i].rule.Oneof?
    ensures Valid(S, d, With(m, i, es))
  {
  }

  lemma WithOneofValid(S: Schema, d: nat, m: Msg, i: nat, es: seq<Elem>)
    requires Valid(S, d, m) && i < |m.slots| && SlotFits(S, d, Fields(S, m.ty)[i], es)
    requires Fields(S, m.ty)[i].rule.Oneof?
    ensures Valid(S, d, With(ClearOneof(Fields(S, m.ty), m), i, es))
  {
    var w := With(ClearOneof(Fields(S, m.ty), m), i, es);
    forall j | 0 <= j < |m.slots|
      ensures SlotFits(S, d, Fields(S, m.ty)[j], w.slots[j].es)
    {
    }
  }

  lemma PutValid(S: Schema, d: nat, m: Msg, i: nat, es: seq<Elem>)
    requires WfSchema(S) && Valid(S, d, m) && ActFits(S, m.ty, d, Put(i, es))
    ensures Valid(S, d, Apply(S, m, Put(i, es)))
  {
    var f := Fields(S, m.ty)[i];
    assert WfType(S, Fields(S, m.ty)) && WfField(S, f) && SlotFits(S, d, f, m.slots[i].es);
    if f.rule.Oneof? {
      WithOneofValid(S, d, m, i, es);
    } else if f.rule.Implicit? {
      WithValid(S, d, m, i, Store(es[0]));
    } else {
      WithValid(S, d, m, i, m.slots[i].es + es);
    }
  }

  lemma BaseValid(S: Schema, d: nat, m: Msg, i: nat)
    requires WfSchema(S) && Valid(S, d, m) && d > 0 && i < |m.slots| && Fields(S, m.ty)[i].kind.Message?
    ensures var sub := Fields(S, m.ty)[i].kind.ty;
            && sub < |S|
            && Default(S, sub).ty == SubOf(S, sub, m.slots[i].es).ty == sub
            && Valid(S, d - 1, Default(S, sub)) && Valid(S, d - 1, SubOf(S, sub, m.slots[i].es))
  {
    var f := Fields(S, m.ty)[i];
    assert WfType(S, Fields(S, m.ty)) && WfField(S, f) && SlotFits(S, d, f, m.slots[i].es);
    DefaultValid(S, d - 1, f.kind.ty);
    if m.slots[i].es != [] {
      assert ElemFits(S, d, f.kind, m.slots[i].es[0]);
    }
  }

  lemma DescendValid(S: Schema, d: nat, m: Msg, i: nat, r: Msg)
    requires WfSchema(S) && Valid(S, d, m) && d > 0 && i < |m.slots| && Fields(S, m.ty)[i].kind.Message?
    requires r.ty == Fields(S, m.ty)[i].kind.ty && Valid(S, d - 1, r)
    ensures var f := Fields(S, m.ty)[i];
            Valid(S, d, match f.rule
                        case Repeated => With(m, i, m.slots[i].es + [Sub(r)])
                        case Oneof => With(ClearOneof(Fields(S, m.ty), m), i, [Sub(r)])
                        case _ => With(m, i, [Sub(r)]))
  {
    var f := Fields(S, m.ty)[i];
    assert WfType(S, Fields(S, m.ty)) && WfField(S, f) && SlotFits(S, d, f, m.slots[i].es);
    assert ElemFits(S, d, f.kind, Sub(r));
    if f.rule.Oneof? {
      WithOneofValid(S, d, m, i, [Sub(r)]);
    } else {
      WithValid(S, d, m, i, if f.rule.Repeated? then m.slots[i].es + [Sub(r)] else [Sub(r)]);
    }
  }

  lemma {:induction false} ApplyValid(S: Schema, d: nat, m: Msg, a: Act)
    requires WfSchema(S) && Valid(S, d, m) && ActFits(S, m.ty, d, a)
    ensures Valid(S, d, Apply(S, m, a))
    decreases a
  {
    match a
    case Keep(raw) =>
      UnknownAppend(S, m.ty, d, m.unknown, raw);
    case Put(i, es) =>
      PutValid(S, d, m, i, es);
    case Descend(i, acts) =>
      var f := Fields(S, m.ty)[i];
      BaseValid(S, d, m, i);
      var base := if f.rule.Repeated? then Default(S, f.kind.ty) else SubOf(S, f.kind.ty, m.slots[i].es);
      RunValid(S, d - 1, base, acts);
      DescendValid(S, d, m, i, Run(S, base, acts));
  }

  lemma {:induction false} RunValid(S: Schema, d: nat, m: Msg, acts: seq<Act>)
    requires WfSchema(S) && Valid(S, d, m) && ActsFit(S, m.ty, d, acts)
    ensures Valid(S, d, Run(S, m, acts))
    decreases acts
  {
    if acts != [] {
      ApplyValid(S, d, m, acts[0]);
      RunValid(S, d, Apply(S, m, acts[0]), acts[1..]);
    }
  }

  /** Parsing any bytes into a valid message yields a valid message or fails. */
  lemma ParseValid(S: Schema, d: nat, m: Msg, b: bytes)
    requires WfSchema(S) && Valid(S, d, m)
    ensures Parse(S, d, m, b).Some? ==> Valid(S, d, Parse(S, d, m, b).value)
  {
    if Decode(S, m.ty, d, b).Done? {
      DecodeFits(S, m.ty, d, b);
      RunValid(S, d, m, Decode(S, m.ty, d, b).acts);
    }
  }

  /** Whatever was parsed, from bytes in any order and any encoding, survives
      being printed and parsed again. */
  lemma ReparseStable(S: Schema, d: nat, ty: nat, b: bytes)
    requires WfSchema(S) && ty < |S| && Parse(S, d, Default(S, ty), b).Some?
    requires var m := Parse(S, d, Default(S, ty), b).value; |Serialize(S, m)| <= MAX_SIZE
    ensures var m := Parse(S, d, Default(S, ty), b).value;
            Parse(S, d, Default(S, ty), Serialize(S, m)) == Some(m) <==> Codec.Exact(S, m)
  {
    DefaultValid(S, d, ty);
    ParseValid(S, d, Default(S, ty), b);
    Codec.ParseSerialize(S, d, Parse(S, d, Default(S, ty), b).value);
  }
}
