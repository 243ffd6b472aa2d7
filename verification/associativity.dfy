/** When merging is associative. */
module MergeAssociativity {
  import opened Wire
  import opened Messages
  import opened MessageLaws
  import opened MergeLaws
  import opened Soundness

  // ----- Merging slot by slot -----

  predicate Cleared(S: Schema, m: Msg, i: nat) {
    i < |Fields(S, m.ty)| && Fields(S, m.ty)[i].rule.Oneof? && OneofSet(Fields(S, m.ty), m)
  }

  lemma MergeAt(S: Schema, a: Msg, b: Msg, i: nat)
    requires WfSchema(S) && Sound(S, a) && Sound(S, b) && a.ty == b.ty && i < |a.slots|
    ensures var m := Merge(S, a, b);
            && |m.slots| == |a.slots| == |Fields(S, a.ty)|
            && m.slots[i].es == MergeSlot(S, Fields(S, a.ty)[i], a.slots[i].es, b.slots[i].es, Cleared(S, b, i))
  {
  }

  lemma MergeShape(S: Schema, a: Msg, b: Msg)
    requires WfSchema(S) && Sound(S, a) && Sound(S, b) && a.ty == b.ty
    ensures var m := Merge(S, a, b);
            m.ty == a.ty < |S| && |m.slots| == |a.slots| == |b.slots| == |Fields(S, a.ty)|
                && m.unknown == a.unknown + b.unknown
  {
  }

  lemma SoundAt(S: Schema, m: Msg, i: nat)
    requires WfSchema(S) && Sound(S, m) && i < |m.slots|
    ensures |m.slots| == |Fields(S, m.ty)| && WfField(S, Fields(S, m.ty)[i])
        && SlotSound(S, Fields(S, m.ty)[i], m.slots[i].es)
  {
    assert WfType(S, S[m.ty]);
  }

  /** A message is its slots and its unknown bytes. */
  lemma SameMessage(m: Msg, n: Msg)
    requires m.ty == n.ty && |m.slots| == |n.slots| && m.unknown == n.unknown
    requires forall i | 0 <= i < |m.slots| :: m.slots[i].es == n.slots[i].es
    ensures m == n
  {
    assert m.slots == n.slots;
  }

  lemma SubSound(S: Schema, f: Field, xs: seq<Elem>)
    requires WfSchema(S) && WfField(S, f) && SlotSound(S, f, xs) && f.kind.Message?
    ensures var sub := SubOf(S, f.kind.ty, xs); Sound(S, sub) && sub.ty == f.kind.ty
  {
    DefaultSound(S, f.kind.ty);
    assert xs != [] ==> ElemSound(S, f.kind, xs[0]);
  }

  // ----- A copy merges as the message it was made from -----

  lemma {:induction false} MergeCopyElem(S: Schema, f: Field, xs: seq<Elem>, e: Elem)
    requires WfSchema(S) && WfField(S, f) && SlotSound(S, f, xs) && ElemSound(S, f.kind, e)
    ensures MergeElem(S, xs, MergeElem(S, [], e)) == MergeElem(S, xs, e)
    decreases e
  {
    if e.Sub? {
      SubSound(S, f, xs);
      MergeCopy(S, SubOf(S, e.m.ty, xs), e.m);
    }
  }

  lemma {:induction false} CopyTwice(S: Schema, f: Field, es: seq<Elem>)
    requires WfSchema(S) && WfField(S, f) && forall e | e in es :: ElemSound(S, f.kind, e)
    ensures CopyElems(S, CopyElems(S, es)) == CopyElems(S, es)
    decreases es, 0
  {
    if es != [] {
      MergeCopyElem(S, f, [], es[0]);
      CopyTwice(S, f, es[1..]);
      var c := CopyElems(S, es);
      assert c[0] == MergeElem(S, [], es[0]) && c[1..] == CopyElems(S, es[1..]);
    }
  }

  lemma {:induction false} MergeCopySlot(S: Schema, f: Field, xs: seq<Elem>, zs: seq<Elem>, cleared: bool)
    requires WfSchema(S) && WfField(S, f) && SlotSound(S, f, xs) && SlotSound(S, f, zs)
    ensures MergeSlot(S, f, xs, MergeSlot(S, f, [], zs, cleared), cleared) == MergeSlot(S, f, xs, zs, cleared)
    decreases zs, 1
  {
    if IsList(f) {
      CopyTwice(S, f, zs);
      assert [] + CopyElems(S, zs) == CopyElems(S, zs);
    } else if zs != [] {
      MergeCopyElem(S, f, xs, zs[0]);
    }
  }

  /** Merging into a message leaves its oneof set when either message had it set. */
  lemma MergeCleared(S: Schema, a: Msg, b: Msg, i: nat)
    requires WfSchema(S) && Sound(S, a) && Sound(S, b) && a.ty == b.ty && i < |a.slots|
    ensures Cleared(S, Merge(S, a, b), i) == (Cleared(S, a, i) || Cleared(S, b, i))
  {
    hide Sound, Merge;
    var fs, m := Fields(S, a.ty), Merge(S, a, b);
    MergeShape(S, a, b);
    forall j | 0 <= j < |fs| && fs[j].rule.Oneof?
      ensures m.slots[j].es != [] <==> if OneofSet(fs, b) then b.slots[j].es != [] else a.slots[j].es != []
    {
      MergeAt(S, a, b, j);
      assert b.slots[j].es != [] ==> OneofSet(fs, b);
    }
    if OneofSet(fs, b) {
      var j :| 0 <= j < |fs| && j < |b.slots| && fs[j].rule.Oneof? && b.slots[j].es != [];
      assert m.slots[j].es != [];
    } else if OneofSet(fs, a) {
      var j :| 0 <= j < |fs| && j < |a.slots| && fs[j].rule.Oneof? && a.slots[j].es != [];
      assert m.slots[j].es != [];
    }
  }

  lemma {:induction false} MergeCopy(S: Schema, a: Msg, c: Msg)
    requires WfSchema(S) && Sound(S, a) && Sound(S, c) && a.ty == c.ty
    ensures Merge(S, a, Merge(S, Default(S, c.ty), c)) == Merge(S, a, c)
    decreases c
  {
    hide Sound, Merge, MergeSlot, SlotSound, WfField;
    var none := Default(S, c.ty);
    var copy := Merge(S, none, c);
    MergeShape(S, a, c);
    DefaultSound(S, c.ty);
    MergeSound(S, none, c);
    MergeShape(S, none, c);
    MergeShape(S, a, copy);
    forall i | 0 <= i < |a.slots|
      ensures Merge(S, a, copy).slots[i].es == Merge(S, a, c).slots[i].es
    {
      SoundAt(S, a, i);
      SoundAt(S, c, i);
      MergeAt(S, none, c, i);
      MergeAt(S, a, copy, i);
      MergeAt(S, a, c, i);
      MergeCleared(S, none, c, i);
      DefaultNotCleared(S, c.ty, i);
      assert c.slots[i] in c.slots;
      MergeCopySlot(S, Fields(S, c.ty)[i], a.slots[i].es, c.slots[i].es, Cleared(S, c, i));
    }
    assert [] + c.unknown == c.unknown;
    SameMessage(Merge(S, a, copy), Merge(S, a, c));
  }

  lemma DefaultNotCleared(S: Schema, ty: nat, i: nat)
    ensures !Cleared(S, Default(S, ty), i)
    ensures i < |Default(S, ty).slots| ==> Default(S, ty).slots[i].es == []
    ensures Default(S, ty).unknown == []
  {
  }

  // ----- When a message is wholly overridden -----

  /** Nothing of `a` is left when `c` is merged into it: what `a` has set, `c` sets again. */
  predicate Overrides(S: Schema, a: Msg, c: Msg)
    decreases c
  {
    && a.unknown == []
    && forall i | 0 <= i < |a.slots| && i < |c.slots| && i < |Fields(S, c.ty)| ::
         SlotOverrides(S, Fields(S, c.ty)[i], a.slots[i].es, c.slots[i].es, Cleared(S, c, i))
  }

  /** A list is never overridden, an implicit field by a value that counts as
      set, a member of a oneof by another, and a submessage by one that
      overrides it in turn. */
  predicate SlotOverrides(S: Schema, f: Field, xs: seq<Elem>, zs: seq<Elem>, cleared: bool)
    decreases zs, 1
  {
    || xs == []
    || match f.rule
       case Packed | Repeated => false
       case Implicit => zs != [] && !Omitted(f, zs[0])
       case _ => if zs == [] then cleared else xs[0].Sub? ==> ElemOverrides(S, xs[0].m, zs[0])
  }

  predicate ElemOverrides(S: Schema, a: Msg, z: Elem)
    decreases z
  {
    z.Sub? ==> Overrides(S, a, z.m)
  }

  lemma {:induction false} OverridesElem(S: Schema, f: Field, xs: seq<Elem>, z: Elem)
    requires WfSchema(S) && WfField(S, f) && SlotSound(S, f, xs) && ElemSound(S, f.kind, z)
    requires |xs| == 1
    ensures MergeElem(S, xs, z) == MergeElem(S, [], z) <==> (xs[0].Sub? ==> ElemOverrides(S, xs[0].m, z))
    decreases z
  {
    assert ElemSound(S, f.kind, xs[0]);
    if z.Sub? {
      OverridesExactly(S, xs[0].m, z.m);
    }
  }

  lemma {:induction false} OverridesSlot(S: Schema, f: Field, xs: seq<Elem>, zs: seq<Elem>, cleared: bool)
    requires WfSchema(S) && WfField(S, f) && SlotSound(S, f, xs) && SlotSound(S, f, zs)
    requires cleared ==> f.rule.Oneof?
    ensures MergeSlot(S, f, xs, zs, cleared) == MergeSlot(S, f, [], zs, cleared)
        <==> SlotOverrides(S, f, xs, zs, cleared)
    decreases zs, 1
  {
    if IsList(f) {
      assert |xs + CopyElems(S, zs)| == |xs| + |CopyElems(S, zs)|;
      assert |[] + CopyElems(S, zs)| == |CopyElems(S, zs)|;
    } else if !f.rule.Implicit? && zs != [] && xs != [] {
      OverridesElem(S, f, xs, zs[0]);
      assert [MergeElem(S, xs, zs[0])][0] == MergeElem(S, xs, zs[0]);
      assert [MergeElem(S, [], zs[0])][0] == MergeElem(S, [], zs[0]);
    }
  }

  /** Merging into `a` is merging into nothing exactly when `a` is overridden. */
  lemma {:induction false} OverridesExactly(S: Schema, a: Msg, c: Msg)
    requires WfSchema(S) && Sound(S, a) && Sound(S, c) && a.ty == c.ty
    ensures Merge(S, a, c) == Merge(S, Default(S, c.ty), c) <==> Overrides(S, a, c)
    decreases c
  {
    hide Sound, Merge, MergeSlot, SlotSound, SlotOverrides, WfField;
    var none := Default(S, c.ty);
    var m, n := Merge(S, a, c), Merge(S, none, c);
    MergeShape(S, a, c);
    DefaultSound(S, c.ty);
    MergeShape(S, none, c);
    DefaultNotCleared(S, c.ty, 0);
    assert |a.unknown + c.unknown| == |a.unknown| + |c.unknown|;
    assert [] + c.unknown == c.unknown;
    forall i | 0 <= i < |a.slots|
      ensures m.slots[i].es == n.slots[i].es
          <==> SlotOverrides(S, Fields(S, c.ty)[i], a.slots[i].es, c.slots[i].es, Cleared(S, c, i))
    {
      SoundAt(S, a, i);
      SoundAt(S, c, i);
      MergeAt(S, a, c, i);
      MergeAt(S, none, c, i);
      DefaultNotCleared(S, c.ty, i);
      assert c.slots[i] in c.slots;
      OverridesSlot(S, Fields(S, c.ty)[i], a.slots[i].es, c.slots[i].es, Cleared(S, c, i));
    }
    if Overrides(S, a, c) {
      SameMessage(m, n);
    }
  }

  // ----- When merging is associative -----

  /** No field where the grouping matters: one where `a` and `c` have the same
      message-valued member of a oneof set, `b` another, and `c`'s submessage
      leaves something of `a`'s. */
  predicate NoClash(S: Schema, a: Msg, b: Msg, c: Msg)
    decreases c
  {
    forall i | 0 <= i < |a.slots| && i < |b.slots| && i < |c.slots| && i < |Fields(S, c.ty)| ::
      SlotNoClash(S, Fields(S, c.ty)[i], a.slots[i].es, b.slots[i].es, c.slots[i].es, Cleared(S, b, i))
  }

  predicate SlotNoClash(S: Schema, f: Field, xs: seq<Elem>, ys: seq<Elem>, zs: seq<Elem>, switched: bool)
    decreases zs, 1
  {
    (f.rule.Optional? || f.rule.Oneof?) && zs != [] ==> ElemNoClash(S, f, xs, ys, zs[0], switched)
  }

  predicate ElemNoClash(S: Schema, f: Field, xs: seq<Elem>, ys: seq<Elem>, z: Elem, switched: bool)
    decreases z
  {
    z.Sub? ==>
      if ys != [] then ys[0].Sub? ==> NoClash(S, SubOf(S, z.m.ty, xs), ys[0].m, z.m)
      else switched && xs != [] && xs[0].Sub? ==> Overrides(S, xs[0].m, z.m)
  }

  lemma {:induction false} AssociativeElem(S: Schema, f: Field, xs: seq<Elem>, y: Elem, z: Elem)
    requires WfSchema(S) && WfField(S, f) && SlotSound(S, f, xs) && ElemSound(S, f.kind, y) && ElemSound(S, f.kind, z)
    ensures MergeElem(S, [MergeElem(S, xs, y)], z) == MergeElem(S, xs, MergeElem(S, [y], z))
        <==> (z.Sub? && y.Sub? ==> NoClash(S, SubOf(S, z.m.ty, xs), y.m, z.m))
    decreases z
  {
    if z.Sub? {
      SubSound(S, f, xs);
      MergeAssociative(S, SubOf(S, z.m.ty, xs), y.m, z.m);
    }
  }

  /** One slot, `b` and `c` having or not having the oneof set. */
  lemma {:induction false} AssociativeSlot(S: Schema, f: Field, xs: seq<Elem>, ys: seq<Elem>, zs: seq<Elem>, cb: bool,
                                           cc: bool)
    requires WfSchema(S) && WfField(S, f) && SlotSound(S, f, xs) && SlotSound(S, f, ys) && SlotSound(S, f, zs)
    requires (cb || cc ==> f.rule.Oneof?) && (f.rule.Oneof? ==> (ys != [] ==> cb) && (zs != [] ==> cc))
    ensures MergeSlot(S, f, MergeSlot(S, f, xs, ys, cb), zs, cc)
         == MergeSlot(S, f, xs, MergeSlot(S, f, ys, zs, cc), cb || cc)
        <==> SlotNoClash(S, f, xs, ys, zs, cb)
    decreases zs, 1
  {
    if IsList(f) {
      ListAssociative(S, f, xs, ys, zs);
    } else if !f.rule.Implicit? && zs != [] {
      if ys != [] {
        AssociativeElem(S, f, xs, ys[0], zs[0]);
        assert ys == [ys[0]];
      } else {
        MergeCopyElem(S, f, xs, zs[0]);
        if cb && xs != [] {
          OverridesElem(S, f, xs, zs[0]);
          assert ElemSound(S, f.kind, xs[0]);
        }
      }
      var l, r := MergeSlot(S, f, MergeSlot(S, f, xs, ys, cb), zs, cc),
          MergeSlot(S, f, xs, MergeSlot(S, f, ys, zs, cc), cb || cc);
      assert l == [l[0]] && r == [r[0]];
    }
  }

  lemma ListAssociative(S: Schema, f: Field, xs: seq<Elem>, ys: seq<Elem>, zs: seq<Elem>)
    requires WfSchema(S) && WfField(S, f) && IsList(f) && SlotSound(S, f, zs)
    ensures MergeSlot(S, f, MergeSlot(S, f, xs, ys, false), zs, false)
         == MergeSlot(S, f, xs, MergeSlot(S, f, ys, zs, false), false)
  {
    CopyTwice(S, f, zs);
    CopyAppend(S, ys, CopyElems(S, zs));
    AppendElems(xs, CopyElems(S, ys), CopyElems(S, zs));
  }

  lemma AppendElems(x: seq<Elem>, y: seq<Elem>, z: seq<Elem>)
    ensures x + y + z == x + (y + z)
  {
  }

  lemma {:induction false} CopyAppend(S: Schema, ys: seq<Elem>, zs: seq<Elem>)
    ensures CopyElems(S, ys + zs) == CopyElems(S, ys) + CopyElems(S, zs)
  {
    if ys == [] {
      assert [] + zs == zs;
    } else {
      assert (ys + zs)[1..] == ys[1..] + zs;
      CopyAppend(S, ys[1..], zs);
    }
  }

  /** Merging three messages gives the same whichever two are merged first,
      exactly when no oneof clashes. */
  lemma {:induction false} MergeAssociative(S: Schema, a: Msg, b: Msg, c: Msg)
    requires WfSchema(S) && Sound(S, a) && Sound(S, b) && Sound(S, c) && a.ty == b.ty == c.ty
    ensures Merge(S, Merge(S, a, b), c) == Merge(S, a, Merge(S, b, c)) <==> NoClash(S, a, b, c)
    decreases c
  {
    hide Sound, Merge, MergeSlot, SlotSound, SlotNoClash, WfField;
    var l, r := Merge(S, Merge(S, a, b), c), Merge(S, a, Merge(S, b, c));
    MergeSound(S, a, b);
    MergeSound(S, b, c);
    MergeShape(S, a, b);
    MergeShape(S, b, c);
    MergeShape(S, Merge(S, a, b), c);
    MergeShape(S, a, Merge(S, b, c));
    AppendAssoc(a.unknown, b.unknown, c.unknown);
    forall i | 0 <= i < |a.slots|
      ensures l.slots[i].es == r.slots[i].es
          <==> SlotNoClash(S, Fields(S, c.ty)[i], a.slots[i].es, b.slots[i].es, c.slots[i].es, Cleared(S, b, i))
    {
      AssociativeAt(S, a, b, c, i);
      SoundAt(S, a, i);
      SoundAt(S, b, i);
      SoundAt(S, c, i);
      SetIsCleared(S, b, i);
      SetIsCleared(S, c, i);
      assert c.slots[i] in c.slots;
      AssociativeSlot(S, Fields(S, c.ty)[i], a.slots[i].es, b.slots[i].es, c.slots[i].es, Cleared(S, b, i),
          Cleared(S, c, i));
    }
    if NoClash(S, a, b, c) {
      SameMessage(l, r);
    }
  }

  lemma SetIsCleared(S: Schema, m: Msg, i: nat)
    requires i < |m.slots| && i < |Fields(S, m.ty)|
    ensures Fields(S, m.ty)[i].rule.Oneof? && m.slots[i].es != [] ==> Cleared(S, m, i)
  {
  }

  lemma AssociativeAt(S: Schema, a: Msg, b: Msg, c: Msg, i: nat)
    requires WfSchema(S) && Sound(S, a) && Sound(S, b) && Sound(S, c) && a.ty == b.ty == c.ty && i < |a.slots|
    ensures var (f, cb, cc) := (Fields(S, a.ty)[i], Cleared(S, b, i), Cleared(S, c, i));
            && Merge(S, Merge(S, a, b), c).slots[i].es
               == MergeSlot(S, f, MergeSlot(S, f, a.slots[i].es, b.slots[i].es, cb), c.slots[i].es, cc)
            && Merge(S, a, Merge(S, b, c)).slots[i].es
               == MergeSlot(S, f, a.slots[i].es, MergeSlot(S, f, b.slots[i].es, c.slots[i].es, cc), cb || cc)
  {
    hide Sound, Merge, MergeSlot;
    MergeSound(S, a, b);
    MergeSound(S, b, c);
    MergeShape(S, a, b);
    MergeShape(S, b, c);
    MergeAt(S, a, b, i);
    MergeAt(S, Merge(S, a, b), c, i);
    MergeAt(S, b, c, i);
    MergeAt(S, a, Merge(S, b, c), i);
    MergeCleared(S, b, c, i);
  }
}
