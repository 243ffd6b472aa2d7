/** Parsing what a printer wrote. */
module RoundTrip {
  import opened Wire
  import opened Wrappers
  import opened Messages
  import opened MessageLaws

  // ----- Scalars -----

  lemma NarrowWiden(k: Kind, n: int)
    requires (k.Int32? || k.Int64? || k.UInt64?) && InRange(k, n)
    ensures Narrow(k, Widen(n) % TWO64) == n
  {
    if n < 0 {
      assert Widen(n) == n + TWO64;
      if k.Int32? {
        assert (n + TWO64) % TWO32 == n + TWO32;
      }
    }
  }

  lemma ReadElemOf(S: Schema, k: Kind, e: Elem, rest: bytes)
    requires ScalarFits(k, e) && |Payload(S, e)| <= MAX_SIZE
    ensures ReadElem(k, Payload(S, e) + rest) == Got(e, rest)
  {
    match k
    case Int32 | Int64 | UInt64 =>
      VarintFits64(Widen(e.n));
      VarintRoundTrip(Widen(e.n), 10, rest);
      NarrowWiden(k, e.n);
    case Float | Double => ReadFixedOf(e.b, rest);
    case Bytes | Str => ReadDelimitedOf(e.b, rest);
  }

  lemma {:induction false} ReadElemsOf(S: Schema, k: Kind, es: seq<Elem>)
    requires !k.Bytes? && !k.Str? && forall e | e in es :: ScalarFits(k, e)
    ensures ReadElems(k, Payloads(S, es)) == Some(es)
  {
    if es != [] {
      var e := es[0];
      ReadElemsOf(S, k, es[1..]);
      if e.Num? { VarintFits64(Widen(e.n)); }
      ReadElemOf(S, k, e, Payloads(S, es[1..]));
      assert es == [e] + es[1..];
    }
  }

  lemma FindOwn(S: Schema, ty: nat, i: nat)
    requires WfSchema(S) && ty < |S| && i < |S[ty]|
    ensures Find(S[ty], S[ty][i].num) == i
  {
    assert WfType(S, S[ty]);
    assert Find(S[ty], S[ty][i].num) <= i;
  }

  // ----- One record -----

  /** A tag of the field brings its arm of the switch. */
  lemma StepOfTag(S: Schema, ty: nat, d: nat, i: nat, wt: nat, body: bytes)
    requires WfSchema(S) && ty < |S| && i < |S[ty]| && Accepts(S[ty][i], wt) && TagValue(S[ty][i].num, wt).Fits()
    ensures DecodeStep(S, ty, d, Tag(S[ty][i].num, wt) + body) == DecodeField(S, d, i, S[ty][i], wt, body)
  {
    hide DecodeField, ReadTag, Tag, Find;
    FindOwn(S, ty, i);
    ReadTagOfTag(S[ty][i].num, wt, body);
  }

  lemma StepOfElem(S: Schema, ty: nat, d: nat, i: nat, e: Elem, rest: bytes)
    requires WfSchema(S) && ty < |S| && i < |S[ty]|
    requires ElemFits(S, d, S[ty][i].kind, e) && |Payload(S, e)| <= MAX_SIZE
    requires e.Sub? ==> Decode(S, e.m.ty, d - 1, Serialize(S, e.m)) == Done(Acts(S, d - 1, e.m))
    ensures DecodeStep(S, ty, d, Tag(S[ty][i].num, ElemWire(e)) + Payload(S, e) + rest)
         == Did(ElemAct(S, d, i, e), rest)
  {
    hide DecodeStep, ReadTag, Tag, ReadDelimited, ReadElem;
    var f := S[ty][i];
    assert WfType(S, S[ty]) && WfField(S, f);
    var body := Payload(S, e) + rest;
    AppendAssoc(Tag(f.num, ElemWire(e)), Payload(S, e), rest);
    StepOfTag(S, ty, d, i, ElemWire(e), body);
    if e.Sub? {
      ReadDelimitedOf(Serialize(S, e.m), rest);
      assert DecodeField(S, d, i, f, ElemWire(e), body) == Did(ElemAct(S, d, i, e), rest);
    } else {
      ReadElemOf(S, f.kind, e, rest);
      assert DecodeField(S, d, i, f, ElemWire(e), body) == Did(ElemAct(S, d, i, e), rest);
    }
  }

  lemma StepOfChunk(S: Schema, ty: nat, d: nat, i: nat, es: seq<Elem>, rest: bytes)
    requires WfSchema(S) && ty < |S| && i < |S[ty]| && S[ty][i].rule.Packed?
    requires forall e | e in es :: ScalarFits(S[ty][i].kind, e)
    requires |Payloads(S, es)| <= MAX_SIZE
    ensures DecodeStep(S, ty, d, Tag(S[ty][i].num, LENGTH_DELIMITED) + Delimited(Payloads(S, es)) + rest)
         == Did(Put(i, es), rest)
  {
    hide DecodeStep, ReadTag, Tag, ReadDelimited, ReadElem;
    var f := S[ty][i];
    assert WfType(S, S[ty]) && WfField(S, f);
    var body := Delimited(Payloads(S, es)) + rest;
    AppendAssoc(Tag(f.num, LENGTH_DELIMITED), Delimited(Payloads(S, es)), rest);
    StepOfTag(S, ty, d, i, LENGTH_DELIMITED, body);
    ReadDelimitedOf(Payloads(S, es), rest);
    ReadElemsOf(S, f.kind, es);
  }

  // ----- Whole messages -----

  lemma DecodeRecord(S: Schema, ty: nat, d: nat, i: nat, e: Elem, more: bytes, tail: Decoded, acts: seq<Act>)
    requires WfSchema(S) && ty < |S| && i < |S[ty]|
    requires ElemFits(S, d, S[ty][i].kind, e) && |Payload(S, e)| <= MAX_SIZE
    requires e.Sub? ==> Decode(S, e.m.ty, d - 1, Serialize(S, e.m)) == Done(Acts(S, d - 1, e.m))
    requires Decode(S, ty, d, more) == tail.Prepend(acts)
    ensures Decode(S, ty, d, Record(S, S[ty][i], e) + more)
         == tail.Prepend(RecordActs(S, d, i, S[ty][i], e) + acts)
  {
    if Omitted(S[ty][i], e) {
      assert [] + more == more && [] + acts == acts;
    } else {
      StepOfElem(S, ty, d, i, e, more);
      DecodeMore(S, ty, d, Tag(S[ty][i].num, ElemWire(e)) + Payload(S, e) + more);
      PrependPrepend(tail, [ElemAct(S, d, i, e)], acts);
    }
  }

  lemma {:induction false} DecodeElems(S: Schema, ty: nat, d: nat, i: nat, es: seq<Elem>, rest: bytes)
    requires WfSchema(S) && ty < |S| && i < |S[ty]|
    requires forall e | e in es :: ElemFits(S, d, S[ty][i].kind, e)
    requires |Records(S, S[ty][i], es)| <= MAX_SIZE
    ensures Decode(S, ty, d, Records(S, S[ty][i], es) + rest)
         == Decode(S, ty, d, rest).Prepend(ElemActs(S, d, i, S[ty][i], es))
    decreases es, 0
  {
    var f := S[ty][i];
    var tail := Decode(S, ty, d, rest);
    if es == [] {
      assert Records(S, f, es) + rest == rest;
      PrependPrepend(tail, [], []);
    } else {
      var e := es[0];
      DecodeElems(S, ty, d, i, es[1..], rest);
      if !Omitted(f, e) {
        DecodeElem(S, ty, d, i, e);
        DecodeRecord(S, ty, d, i, e, Records(S, f, es[1..]) + rest, tail, ElemActs(S, d, i, f, es[1..]));
      } else {
        assert Record(S, f, e) + (Records(S, f, es[1..]) + rest) == Records(S, f, es[1..]) + rest;
        PrependPrepend(tail, [], ElemActs(S, d, i, f, es[1..]));
      }
      AppendAssoc(Record(S, f, e), Records(S, f, es[1..]), rest);
    }
  }

  /** The submessage in an element, if it is one, parses back to its actions. */
  lemma {:induction false} DecodeElem(S: Schema, ty: nat, d: nat, i: nat, e: Elem)
    requires WfSchema(S) && ty < |S| && i < |S[ty]|
    requires ElemFits(S, d, S[ty][i].kind, e) && |Payload(S, e)| <= MAX_SIZE
    ensures e.Sub? ==> d > 0 && Decode(S, e.m.ty, d - 1, Serialize(S, e.m)) == Done(Acts(S, d - 1, e.m))
    decreases e
  {
    if e.Sub? {
      DecodeSerialize(S, d - 1, e.m);
    }
  }

  lemma {:induction false} DecodeSlot(S: Schema, ty: nat, d: nat, i: nat, es: seq<Elem>, rest: bytes)
    requires WfSchema(S) && ty < |S| && i < |S[ty]| && SlotFits(S, d, S[ty][i], es)
    requires |PrintSlot(S, S[ty][i], es)| <= MAX_SIZE
    ensures Decode(S, ty, d, PrintSlot(S, S[ty][i], es) + rest)
         == Decode(S, ty, d, rest).Prepend(SlotActs(S, d, i, S[ty][i], es))
    decreases es, 1
  {
    var f := S[ty][i];
    if !f.rule.Packed? {
      DecodeElems(S, ty, d, i, es, rest);
    } else if es == [] {
      assert [] + rest == rest;
      PrependPrepend(Decode(S, ty, d, rest), [], []);
    } else {
      assert WfType(S, S[ty]) && WfField(S, f);
      StepOfChunk(S, ty, d, i, es, rest);
      DecodeMore(S, ty, d, PrintSlot(S, f, es) + rest);
    }
  }

  lemma {:induction false} DecodeFrom(S: Schema, d: nat, m: Msg, i: nat)
    requires WfSchema(S) && Valid(S, d, m) && i <= |m.slots|
    requires |PrintFrom(S, m, i)| <= MAX_SIZE
    ensures Decode(S, m.ty, d, PrintFrom(S, m, i)) == Done(ActsFrom(S, d, m, i))
    decreases m, |m.slots| - i
  {
    if i < |m.slots| {
      DecodeFrom(S, d, m, i + 1);
      DecodeSlot(S, m.ty, d, i, m.slots[i].es, PrintFrom(S, m, i + 1));
    }
  }

  lemma {:induction false} DecodeSerialize(S: Schema, d: nat, m: Msg)
    requires WfSchema(S) && Valid(S, d, m) && |Serialize(S, m)| <= MAX_SIZE
    ensures Decode(S, m.ty, d, Serialize(S, m)) == Done(Acts(S, d, m))
    decreases m, |m.slots| + 1
  {
    DecodeFrom(S, d, m, 0);
  }
}
