/** Parsing and merging keep messages sound. */
module Soundness {
  import opened Messages
  import opened MessageLaws
  import opened MergeLaws
  import opened ParsedMessages

  lemma SlotSoundAppend(S: Schema, f: Field, xs: seq<Elem>, ys: seq<Elem>)
    requires SlotSound(S, f, xs) && IsList(f) && forall e | e in ys :: ElemSound(S, f.kind, e)
    ensures SlotSound(S, f, xs + ys)
  {
  }

  /** Writing a slot, the other members of a oneof being cleared when it is one. */
  lemma SetSound(S: Schema, m: Msg, i: nat, es: seq<Elem>)
    requires Sound(S, m) && i < |m.slots| && SlotSound(S, S[m.ty][i], es)
    ensures !S[m.ty][i].rule.Oneof? ==> Sound(S, With(m, i, es))
    ensures S[m.ty][i].rule.Oneof? ==> Sound(S, With(ClearOneof(S[m.ty], m), i, es))
  {
    var w := With(ClearOneof(S[m.ty], m), i, es);
    forall j | 0 <= j < |m.slots|
      ensures SlotSound(S, S[m.ty][j], w.slots[j].es)
    {
      assert SlotSound(S, S[m.ty][j], m.slots[j].es);
    }
  }

  lemma BaseSound(S: Schema, m: Msg, i: nat)
    requires WfSchema(S) && Sound(S, m) && i < |m.slots| && S[m.ty][i].kind.Message?
    ensures var sub := S[m.ty][i].kind.ty;
            && sub < |S|
            && Default(S, sub).ty == SubOf(S, sub, m.slots[i].es).ty == sub
            && Sound(S, Default(S, sub)) && Sound(S, SubOf(S, sub, m.slots[i].es))
  {
    SubOfSound(S, m, m, i);
    assert WfType(S, S[m.ty]) && WfField(S, S[m.ty][i]);
    DefaultSound(S, S[m.ty][i].kind.ty);
  }

  lemma {:induction false} ApplySound(S: Schema, d: nat, m: Msg, a: Act)
    requires WfSchema(S) && Sound(S, m) && ActFits(S, m.ty, d, a)
    ensures Sound(S, Apply(S, m, a))
    decreases a
  {
    match a
    case Keep(raw) =>
    case Put(i, es) =>
      var f := S[m.ty][i];
      assert WfType(S, S[m.ty]) && WfField(S, f) && SlotSound(S, f, m.slots[i].es);
      if IsList(f) {
        SlotSoundAppend(S, f, m.slots[i].es, es);
        SetSound(S, m, i, m.slots[i].es + es);
      } else {
        assert ScalarFits(f.kind, es[0]) && !es[0].Sub?;
        var ys := if f.rule.Implicit? then Store(es[0]) else es;
        assert forall e | e in ys :: e == es[0];
        SetSound(S, m, i, ys);
      }
    case Descend(i, acts) =>
      var f := S[m.ty][i];
      assert WfType(S, S[m.ty]) && WfField(S, f) && SlotSound(S, f, m.slots[i].es);
      BaseSound(S, m, i);
      var base := if f.rule.Repeated? then Default(S, f.kind.ty) else SubOf(S, f.kind.ty, m.slots[i].es);
      RunSound(S, d - 1, base, acts);
      DescendSound(S, m, i, Run(S, base, acts));
  }

  lemma DescendSound(S: Schema, m: Msg, i: nat, r: Msg)
    requires WfSchema(S) && Sound(S, m) && i < |m.slots| && S[m.ty][i].kind.Message?
    requires r.ty == S[m.ty][i].kind.ty && Sound(S, r)
    ensures var f := S[m.ty][i];
            Sound(S, match f.rule
                     case Repeated => With(m, i, m.slots[i].es + [Sub(r)])
                     case Oneof => With(ClearOneof(S[m.ty], m), i, [Sub(r)])
                     case _ => With(m, i, [Sub(r)]))
  {
    var f := S[m.ty][i];
    assert WfType(S, S[m.ty]) && WfField(S, f) && SlotSound(S, f, m.slots[i].es);
    if f.rule.Repeated? {
      SlotSoundAppend(S, f, m.slots[i].es, [Sub(r)]);
      SetSound(S, m, i, m.slots[i].es + [Sub(r)]);
    } else {
      SetSound(S, m, i, [Sub(r)]);
    }
  }

  lemma {:induction false} RunSound(S: Schema, d: nat, m: Msg, acts: seq<Act>)
    requires WfSchema(S) && Sound(S, m) && ActsFit(S, m.ty, d, acts)
    ensures Sound(S, Run(S, m, acts))
    decreases acts
  {
    if acts != [] {
      ApplySound(S, d, m, acts[0]);
      RunSound(S, d, Apply(S, m, acts[0]), acts[1..]);
    }
  }

  // ----- Merging -----

  lemma {:induction false} MergeElemSound(S: Schema, f: Field, xs: seq<Elem>, e: Elem)
    requires WfSchema(S) && WfField(S, f) && SlotSound(S, f, xs) && ElemSound(S, f.kind, e)
    ensures ElemSound(S, f.kind, MergeElem(S, xs, e))
    decreases e
  {
    if e.Sub? {
      DefaultSound(S, e.m.ty);
      assert xs != [] ==> ElemSound(S, f.kind, xs[0]);
      MergeSound(S, SubOf(S, e.m.ty, xs), e.m);
    }
  }

  lemma {:induction false} CopySound(S: Schema, f: Field, es: seq<Elem>)
    requires WfSchema(S) && WfField(S, f) && forall e | e in es :: ElemSound(S, f.kind, e)
    ensures |CopyElems(S, es)| == |es| && forall e | e in CopyElems(S, es) :: ElemSound(S, f.kind, e)
    decreases es, 0
  {
    if es != [] {
      MergeElemSound(S, f, [], es[0]);
      CopySound(S, f, es[1..]);
    }
  }

  lemma {:induction false} MergeSlotSound(S: Schema, f: Field, xs: seq<Elem>, ys: seq<Elem>, cleared: bool)
    requires WfSchema(S) && WfField(S, f) && SlotSound(S, f, xs) && SlotSound(S, f, ys)
    ensures SlotSound(S, f, MergeSlot(S, f, xs, ys, cleared))
    decreases ys, 1
  {
    if IsList(f) {
      CopySound(S, f, ys);
      SlotSoundAppend(S, f, xs, CopyElems(S, ys));
    } else if ys != [] {
      MergeElemSound(S, f, xs, ys[0]);
    }
  }

  lemma {:induction false} MergeSound(S: Schema, a: Msg, b: Msg)
    requires WfSchema(S) && Sound(S, a) && Sound(S, b) && a.ty == b.ty
    ensures Sound(S, Merge(S, a, b))
    decreases b, 2
  {
    var fs := S[a.ty];
    var m := Merge(S, a, b);
    var cleared := OneofSet(fs, b);
    forall i | 0 <= i < |fs|
      ensures SlotSound(S, fs[i], m.slots[i].es)
    {
      assert WfType(S, fs) && WfField(S, fs[i]);
      assert SlotSound(S, fs[i], a.slots[i].es) && SlotSound(S, fs[i], b.slots[i].es);
      MergeSlotSound(S, fs[i], a.slots[i].es, b.slots[i].es, cleared && fs[i].rule.Oneof?);
    }
    forall i | 0 <= i < |fs| && fs[i].rule.Oneof? && m.slots[i].es != []
      ensures if cleared then b.slots[i].es != [] else a.slots[i].es != []
    {
      assert m.slots[i] == Slot(MergeSlot(S, fs[i], a.slots[i].es, b.slots[i].es, cleared));
    }
  }
}
