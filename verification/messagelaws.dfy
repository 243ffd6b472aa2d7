/** What every parse, print, merge and size pass of a message keeps: validity
    of messages, and the actions that printing a message stands for. */
module MessageLaws {
  import opened Wire
  import opened Messages

  // ----- Sound messages -----

  predicate IsList(f: Field) {
    f.rule.Packed? || f.rule.Repeated?
  }

  predicate ElemSound(S: Schema, k: Kind, e: Elem)
    decreases e
  {
    if k.Message? then e.Sub? && e.m.ty == k.ty && Sound(S, e.m) else !e.Sub?
  }

  predicate SlotSound(S: Schema, f: Field, es: seq<Elem>)
    decreases es, 0
  {
    (IsList(f) || |es| <= 1) && forall e | e in es :: ElemSound(S, f.kind, e)
  }

  /** At most one member of the oneof is set. */
  predicate OneofFits(fs: seq<Field>, m: Msg) {
    forall i, j | 0 <= i < |fs| && 0 <= j < |fs| && i < |m.slots| && j < |m.slots|
      && fs[i].rule.Oneof? && fs[j].rule.Oneof? && m.slots[i].es != [] && m.slots[j].es != [] :: i == j
  }

  /** What the classes of the generated code enforce by their fields alone:
      every field holds values of its kind, and a oneof has one case. */
  predicate Sound(S: Schema, m: Msg)
    decreases m
  {
    var fs := Fields(S, m.ty);
    && m.ty < |S|
    && |m.slots| == |fs|
    && (forall i | 0 <= i < |fs| :: SlotSound(S, fs[i], m.slots[i].es))
    && OneofFits(fs, m)
  }

  // ----- Valid messages -----

  predicate ScalarFits(k: Kind, e: Elem) {
    match k
    case Int32 | Int64 | UInt64 => e.Num? && InRange(k, e.n)
    case Float => e.Fix? && |e.b| == 4
    case Double => e.Fix? && |e.b| == 8
    case Bytes => e.Len?
    case Str => e.Len? && ValidUtf8(e.b)
    case Message(_) => false
  }

  predicate ElemFits(S: Schema, d: nat, k: Kind, e: Elem)
    decreases e
  {
    if k.Message? then e.Sub? && d > 0 && e.m.ty == k.ty && Valid(S, d - 1, e.m)
    else ScalarFits(k, e)
  }

  predicate SlotFits(S: Schema, d: nat, f: Field, es: seq<Elem>)
    decreases es, 0
  {
    && (forall e | e in es :: ElemFits(S, d, f.kind, e))
    && (IsList(f) || |es| <= 1)
    && (f.rule.Implicit? ==> forall e | e in es :: !IsDefault(e))
  }

  predicate AllKept(acts: seq<Act>) {
    forall a | a in acts :: a.Keep?
  }

  function Kept(acts: seq<Act>): bytes {
    if acts == [] then [] else (if acts[0].Keep? then acts[0].raw else []) + Kept(acts[1..])
  }

  /** Unknown bytes are whole records, in shortest form, that the message's
      parser hands to the unknown-field reader. */
  predicate UnknownFits(S: Schema, ty: nat, d: nat, u: bytes) {
    var r := Decode(S, ty, d, u);
    r.Done? && AllKept(r.acts) && Kept(r.acts) == u
  }

  /** A message that `d` levels of nesting suffice for. */
  predicate Valid(S: Schema, d: nat, m: Msg)
    decreases m
  {
    var fs := Fields(S, m.ty);
    && m.ty < |S|
    && |m.slots| == |fs|
    && (forall i | 0 <= i < |fs| :: SlotFits(S, d, fs[i], m.slots[i].es))
    && OneofFits(fs, m)
    && UnknownFits(S, m.ty, d, m.unknown)
  }

  lemma {:induction false} ValidIsSound(S: Schema, d: nat, m: Msg)
    requires Valid(S, d, m)
    ensures Sound(S, m)
    decreases m
  {
    var fs := Fields(S, m.ty);
    forall i | 0 <= i < |fs|
      ensures SlotSound(S, fs[i], m.slots[i].es)
    {
      assert SlotFits(S, d, fs[i], m.slots[i].es);
      forall e | e in m.slots[i].es
        ensures ElemSound(S, fs[i].kind, e)
      {
        assert ElemFits(S, d, fs[i].kind, e);
        if e.Sub? {
          ValidIsSound(S, d - 1, e.m);
        }
      }
    }
  }

  // ----- The actions a message stands for -----

  function ElemAct(S: Schema, d: nat, i: nat, e: Elem): Act
    decreases e, 0
  {
    match e
    case Sub(m) => Descend(i, Acts(S, if d == 0 then 0 else d - 1, m))
    case _ => Put(i, [e])
  }

  function RecordActs(S: Schema, d: nat, i: nat, f: Field, e: Elem): seq<Act>
    decreases e, 1
  {
    if Omitted(f, e) then [] else [ElemAct(S, d, i, e)]
  }

  function ElemActs(S: Schema, d: nat, i: nat, f: Field, es: seq<Elem>): seq<Act>
    decreases es, 0
  {
    if es == [] then [] else RecordActs(S, d, i, f, es[0]) + ElemActs(S, d, i, f, es[1..])
  }

  function SlotActs(S: Schema, d: nat, i: nat, f: Field, es: seq<Elem>): seq<Act>
    decreases es, 1
  {
    if !f.rule.Packed? then ElemActs(S, d, i, f, es) else if es == [] then [] else [Put(i, es)]
  }

  function ActsFrom(S: Schema, d: nat, m: Msg, i: nat): seq<Act>
    decreases m, |m.slots| - i
  {
    var fs := Fields(S, m.ty);
    if i < |m.slots| && i < |fs| then
      SlotActs(S, d, i, fs[i], m.slots[i].es) + ActsFrom(S, d, m, i + 1)
    else
      var r := Decode(S, m.ty, d, m.unknown);
      if r.Done? then r.acts else []
  }

  function Acts(S: Schema, d: nat, m: Msg): seq<Act>
    decreases m, |m.slots| + 1
  {
    ActsFrom(S, d, m, 0)
  }

  // ----- Parsing one string after another -----

  lemma ReadElemLocal(k: Kind, x: bytes, y: bytes)
    requires ReadElem(k, x).Got?
    ensures ReadElem(k, x + y) == ReadElem(k, x).(rest := ReadElem(k, x).rest + y)
  {
    match k
    case Int32 | Int64 | UInt64 => ReadVarintLocal(x, 10, y);
    case Float => ReadFixedLocal(x, 4, y);
    case Double => ReadFixedLocal(x, 8, y);
    case Bytes | Str => ReadDelimitedLocal(x, y);
    case Message(_) =>
  }

  lemma DecodeFieldLocal(S: Schema, d: nat, i: nat, f: Field, wt: nat, x: bytes, y: bytes)
    requires DecodeField(S, d, i, f, wt, x).Did?
    ensures var Did(a, rest) := DecodeField(S, d, i, f, wt, x);
            DecodeField(S, d, i, f, wt, x + y) == Did(a, rest + y)
  {
    if (f.rule.Packed? && wt == LENGTH_DELIMITED) || f.kind.Message? {
      ReadDelimitedLocal(x, y);
    } else {
      ReadElemLocal(f.kind, x, y);
    }
  }

  lemma DecodeStepLocal(S: Schema, ty: nat, d: nat, x: bytes, y: bytes)
    requires !DecodeStep(S, ty, d, x).Wrong?
    ensures DecodeStep(S, ty, d, x + y)
         == DecodeStep(S, ty, d, x).(rest := DecodeStep(S, ty, d, x).rest + y)
  {
    ReadTagLocal(x, y);
    var Got(t, b1) := ReadTag(x);
    var fs := Fields(S, ty);
    var i := Find(fs, t.num);
    if i < |fs| && Accepts(fs[i], t.wt) {
      DecodeFieldLocal(S, d, i, fs[i], t.wt, b1, y);
    } else if t.wt == END_GROUP || t == TagValue(0, 0) {
    } else {
      SkipFieldLocal(d, t, b1, y);
    }
  }

  lemma PrependPrepend(r: Decoded, p: seq<Act>, q: seq<Act>)
    ensures r.Prepend(q).Prepend(p) == r.Prepend(p + q)
    ensures r.Prepend([]) == r
  {
    if !r.Malformed? {
      assert p + (q + r.acts) == p + q + r.acts;
      assert [] + r.acts == r.acts;
    }
  }

  lemma DecodeMore(S: Schema, ty: nat, d: nat, b: bytes)
    requires b != [] && DecodeStep(S, ty, d, b).Did?
    ensures Decode(S, ty, d, b)
         == Decode(S, ty, d, DecodeStep(S, ty, d, b).rest).Prepend([DecodeStep(S, ty, d, b).act])
  {
  }

  /** Records parse the same whatever follows them. */
  lemma {:induction false} DecodeAppend(S: Schema, ty: nat, d: nat, x: bytes, y: bytes)
    requires Decode(S, ty, d, x).Done?
    ensures Decode(S, ty, d, x + y) == Decode(S, ty, d, y).Prepend(Decode(S, ty, d, x).acts)
    decreases |x|
  {
    var tail := Decode(S, ty, d, y);
    if x == [] {
      assert x + y == y;
      PrependPrepend(tail, [], []);
    } else {
      DecodeStepLocal(S, ty, d, x, y);
      var Did(a, rest) := DecodeStep(S, ty, d, x);
      DecodeAppend(S, ty, d, rest, y);
      DecodeMore(S, ty, d, x + y);
      PrependPrepend(tail, [a], Decode(S, ty, d, rest).acts);
    }
  }
}
