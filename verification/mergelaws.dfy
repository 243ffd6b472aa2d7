/** Parsing a printed message into a message is `MergeFrom`. */
module MergeLaws {
  import opened Wire
  import opened Messages
  import opened MessageLaws

  lemma DefaultSound(S: Schema, ty: nat)
    requires ty < |S|
    ensures Sound(S, Default(S, ty))
  {
  }

  lemma {:induction false} RunAppend(S: Schema, m: Msg, p: seq<Act>, q: seq<Act>)
    ensures Run(S, m, p + q) == Run(S, Run(S, m, p), q)
    decreases |p|
  {
    if p == [] {
      assert [] + q == q;
    } else {
      RunAppend(S, Apply(S, m, p[0]), p[1..], q);
      assert (p + q)[1..] == p[1..] + q;
    }
  }

  lemma {:induction false} RunKept(S: Schema, m: Msg, acts: seq<Act>)
    requires AllKept(acts)
    ensures Run(S, m, acts) == m.(unknown := m.unknown + Kept(acts))
    decreases |acts|
  {
    if acts == [] {
      assert m.unknown + [] == m.unknown;
    } else {
      var m1 := Apply(S, m, acts[0]);
      RunKept(S, m1, acts[1..]);
      AppendAssoc(m.unknown, acts[0].raw, Kept(acts[1..]));
    }
  }

  lemma {:induction false} CopyScalars(S: Schema, es: seq<Elem>)
    requires forall e | e in es :: !e.Sub?
    ensures CopyElems(S, es) == es
  {
    if es != [] {
      CopyScalars(S, es[1..]);
    }
  }

  /** `b` with only the fields of its first `i` slots set. */
  function Upto(b: Msg, i: nat): Msg {
    Msg(b.ty, seq(|b.slots|, j requires 0 <= j < |b.slots| => if j < i then b.slots[j] else Slot([])), [])
  }

  lemma {:induction false} RunSub(S: Schema, d: nat, k: Kind, a: Msg, e: Elem)
    requires WfSchema(S) && ElemFits(S, d, k, e)
    requires e.Sub? ==> Sound(S, a) && a.ty == e.m.ty
    ensures e.Sub? ==> d > 0 && Run(S, a, Acts(S, d - 1, e.m)) == Merge(S, a, e.m)
    decreases e
  {
    if e.Sub? {
      RunActs(S, d - 1, a, e.m);
    }
  }

  lemma {:induction false} RunElems(S: Schema, d: nat, m: Msg, i: nat, es: seq<Elem>)
    requires WfSchema(S) && m.ty < |S| && i < |S[m.ty]| == |m.slots| && S[m.ty][i].rule.Repeated?
    requires SlotFits(S, d, S[m.ty][i], es)
    ensures Run(S, m, ElemActs(S, d, i, S[m.ty][i], es)) == With(m, i, m.slots[i].es + CopyElems(S, es))
    decreases es, 0
  {
    var f := S[m.ty][i];
    if es == [] {
      assert m.slots[i].es + [] == m.slots[i].es;
      assert m.slots[i := Slot(m.slots[i].es)] == m.slots;
    } else {
      var e := es[0];
      assert ElemFits(S, d, f.kind, e);
      RunSub(S, d, f.kind, Default(S, if e.Sub? then e.m.ty else 0), e);
      var m1 := Apply(S, m, ElemAct(S, d, i, e));
      assert m1 == With(m, i, m.slots[i].es + [MergeElem(S, [], e)]);
      RunElems(S, d, m1, i, es[1..]);
      AppendAssoc(m.slots[i].es, [MergeElem(S, [], e)], CopyElems(S, es[1..]));
    }
  }

  /** Merging one more slot: other members of a oneof go when one is set. */
  lemma MergeUpto(S: Schema, a: Msg, b: Msg, i: nat)
    requires |a.slots| == |b.slots| == |Fields(S, a.ty)| && a.ty == b.ty && i < |b.slots|
    requires OneofFits(Fields(S, a.ty), b)
    ensures var f := Fields(S, a.ty)[i];
            var m := Merge(S, a, Upto(b, i));
            var ys := b.slots[i].es;
            && m.slots[i].es == (if f.rule.Oneof? && OneofSet(Fields(S, a.ty), Upto(b, i)) then [] else a.slots[i].es)
            && Merge(S, a, Upto(b, i + 1))
            == With(if f.rule.Oneof? && ys != [] then ClearOneof(Fields(S, a.ty), m) else m, i,
                    MergeSlot(S, f, m.slots[i].es, ys, false))
  {
    var fs := Fields(S, a.ty);
    var f := fs[i];
    var ys := b.slots[i].es;
    var c0 := OneofSet(fs, Upto(b, i));
    var c1 := OneofSet(fs, Upto(b, i + 1));
    var m := Merge(S, a, Upto(b, i));
    var w := With(if f.rule.Oneof? && ys != [] then ClearOneof(fs, m) else m, i,
                  MergeSlot(S, f, m.slots[i].es, ys, false));
    OneofSetUpto(fs, b, i);
    assert c1 == (c0 || (f.rule.Oneof? && ys != []));
    assert m.slots[i].es == MergeSlot(S, f, a.slots[i].es, [], c0 && f.rule.Oneof?);
    forall j | 0 <= j < |b.slots|
      ensures Merge(S, a, Upto(b, i + 1)).slots[j] == w.slots[j]
    {
      var bj := Upto(b, i + 1).slots[j].es;
      assert Merge(S, a, Upto(b, i + 1)).slots[j]
          == Slot(MergeSlot(S, fs[j], a.slots[j].es, bj, c1 && fs[j].rule.Oneof?));
      assert m.slots[j] == Slot(MergeSlot(S, fs[j], a.slots[j].es, Upto(b, i).slots[j].es, c0 && fs[j].rule.Oneof?));
    }
    assert Merge(S, a, Upto(b, i + 1)).slots == w.slots;
  }

  lemma OneofSetUpto(fs: seq<Field>, b: Msg, i: nat)
    requires |fs| == |b.slots| && i < |fs|
    ensures OneofSet(fs, Upto(b, i + 1)) == (OneofSet(fs, Upto(b, i)) || (fs[i].rule.Oneof? && b.slots[i].es != []))
  {
    if OneofSet(fs, Upto(b, i)) {
      var j :| 0 <= j < |fs| && fs[j].rule.Oneof? && Upto(b, i).slots[j].es != [];
      assert Upto(b, i + 1).slots[j].es != [];
    }
    if fs[i].rule.Oneof? && b.slots[i].es != [] {
      assert Upto(b, i + 1).slots[i].es != [];
    }
    if OneofSet(fs, Upto(b, i + 1)) {
      var j :| 0 <= j < |fs| && fs[j].rule.Oneof? && Upto(b, i + 1).slots[j].es != [];
      assert j == i || Upto(b, i).slots[j].es != [];
    }
  }

  lemma {:induction false} RunSlot(S: Schema, d: nat, a: Msg, b: Msg, i: nat)
    requires WfSchema(S) && Valid(S, d, b) && Sound(S, a) && a.ty == b.ty && i < |b.slots|
    ensures Run(S, Merge(S, a, Upto(b, i)), SlotActs(S, d, i, S[b.ty][i], b.slots[i].es))
         == Merge(S, a, Upto(b, i + 1))
    decreases b, 0
  {
    var f := S[b.ty][i];
    var m := Merge(S, a, Upto(b, i));
    var ys := b.slots[i].es;
    assert WfType(S, S[b.ty]) && WfField(S, f);
    assert SlotFits(S, d, f, ys);
    MergeUpto(S, a, b, i);
    if f.rule.Packed? {
      assert forall e | e in ys :: ElemFits(S, d, f.kind, e);
      CopyScalars(S, ys);
      assert m.slots[i := Slot(m.slots[i].es)] == m.slots;
      assert m.slots[i].es + [] == m.slots[i].es;
    } else if f.rule.Repeated? {
      RunElems(S, d, m, i, ys);
    } else if ys == [] {
      assert m.slots[i := Slot(m.slots[i].es)] == m.slots;
    } else {
      var e := ys[0];
      assert ys == [e];
      assert ElemFits(S, d, f.kind, e);
      if e.Sub? {
        SubOfSound(S, m, a, i);
        RunSub(S, d, f.kind, SubOf(S, e.m.ty, m.slots[i].es), e);
      }
      RunOne(S, d, m, i, f, e);
    }
  }

  lemma SubOfSound(S: Schema, m: Msg, a: Msg, i: nat)
    requires WfSchema(S) && Sound(S, a) && i < |a.slots| && i < |m.slots| && S[a.ty][i].kind.Message?
    requires m.slots[i].es == [] || m.slots[i].es == a.slots[i].es
    ensures var sub := SubOf(S, S[a.ty][i].kind.ty, m.slots[i].es);
            sub.ty == S[a.ty][i].kind.ty && Sound(S, sub)
  {
    var f := S[a.ty][i];
    assert WfType(S, S[a.ty]) && WfField(S, f) && SlotSound(S, f, a.slots[i].es);
    DefaultSound(S, f.kind.ty);
    if m.slots[i].es != [] {
      assert ElemSound(S, f.kind, a.slots[i].es[0]);
    }
  }

  lemma RunOne(S: Schema, d: nat, m: Msg, i: nat, f: Field, e: Elem)
    requires WfSchema(S) && m.ty < |S| && i < |S[m.ty]| == |m.slots| && f == S[m.ty][i] && WfField(S, f)
    requires f.rule.Implicit? || f.rule.Optional? || f.rule.Oneof?
    requires ElemFits(S, d, f.kind, e) && (f.rule.Implicit? ==> !IsDefault(e))
    requires e.Sub? ==> Run(S, SubOf(S, e.m.ty, m.slots[i].es), Acts(S, d - 1, e.m))
                        == Merge(S, SubOf(S, e.m.ty, m.slots[i].es), e.m)
    ensures Run(S, m, ElemActs(S, d, i, f, [e]))
         == With(if f.rule.Oneof? then ClearOneof(S[m.ty], m) else m, i, MergeSlot(S, f, m.slots[i].es, [e], false))
  {
    hide ElemActs, Run, Acts;
    OneElemActs(S, d, i, f, e);
    if Omitted(f, e) {
      assert m.slots[i := Slot(m.slots[i].es)] == m.slots;
      RunNothing(S, m);
    } else {
      RunSingle(S, m, ElemAct(S, d, i, e));
    }
  }

  lemma OneElemActs(S: Schema, d: nat, i: nat, f: Field, e: Elem)
    ensures ElemActs(S, d, i, f, [e]) == if Omitted(f, e) then [] else [ElemAct(S, d, i, e)]
  {
    assert ElemActs(S, d, i, f, [e]) == RecordActs(S, d, i, f, e);
  }

  lemma RunNothing(S: Schema, m: Msg)
    ensures Run(S, m, []) == m
  {
  }

  lemma RunSingle(S: Schema, m: Msg, a: Act)
    ensures Run(S, m, [a]) == Apply(S, m, a)
  {
  }

  lemma {:induction false} RunFrom(S: Schema, d: nat, a: Msg, b: Msg, i: nat)
    requires WfSchema(S) && Valid(S, d, b) && Sound(S, a) && a.ty == b.ty && i <= |b.slots|
    ensures Run(S, Merge(S, a, Upto(b, i)), ActsFrom(S, d, b, i)) == Merge(S, a, b)
    decreases b, 1 + |b.slots| - i
  {
    var m := Merge(S, a, Upto(b, i));
    if i < |b.slots| {
      RunSlot(S, d, a, b, i);
      RunFrom(S, d, a, b, i + 1);
      RunAppend(S, m, SlotActs(S, d, i, S[b.ty][i], b.slots[i].es), ActsFrom(S, d, b, i + 1));
    } else {
      RunKept(S, m, ActsFrom(S, d, b, i));
      assert Upto(b, i).slots == b.slots;
      assert OneofSet(Fields(S, a.ty), Upto(b, i)) == OneofSet(Fields(S, a.ty), b);
      assert Merge(S, a, b).slots == m.slots;
      assert a.unknown + [] == a.unknown;
    }
  }

  /** The actions of `b`, run on `a`, merge `b` into `a`. */
  lemma {:induction false} RunActs(S: Schema, d: nat, a: Msg, b: Msg)
    requires WfSchema(S) && Valid(S, d, b) && Sound(S, a) && a.ty == b.ty
    ensures Run(S, a, Acts(S, d, b)) == Merge(S, a, b)
    decreases b, 2 + |b.slots|
  {
    MergeNothing(S, a, Upto(b, 0));
    RunFrom(S, d, a, b, 0);
  }

  lemma MergeNothing(S: Schema, a: Msg, b: Msg)
    requires |a.slots| == |b.slots| == |Fields(S, a.ty)| && b.unknown == []
    requires forall j | 0 <= j < |b.slots| :: b.slots[j].es == []
    ensures Merge(S, a, b) == a
  {
    assert !OneofSet(Fields(S, a.ty), b);
    forall j | 0 <= j < |a.slots|
      ensures Merge(S, a, b).slots[j] == a.slots[j]
    {
      assert Merge(S, a, b).slots[j] == Slot(MergeSlot(S, Fields(S, a.ty)[j], a.slots[j].es, [], false));
      assert a.slots[j].es + [] == a.slots[j].es;
    }
    assert Merge(S, a, b).slots == a.slots;
    assert a.unknown + [] == a.unknown;
  }
}
