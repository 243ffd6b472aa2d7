/** The message classes: fields updated in place by `Clear`, `MergeFrom`,
    `CopyFrom`, `_InternalParse` and `ByteSizeLong`, and read by
    `_InternalSerialize`. A submessage is owned by the field that holds it, so
    it is worked on as an object and kept as a value. */
module MessageObject {
  import opened Wire
  import opened Wrappers
  import opened Messages
  import opened MessageLaws
  import opened MergeLaws
  import opened ParsedMessages
  import opened Soundness
  import opened Sizes

  // ----- Where readers stop -----

  /** `rest` is what is left of `b`. */
  predicate Suffix(rest: bytes, b: bytes) {
    |rest| <= |b| && rest == b[|b| - |rest|..]
  }

  lemma {:induction false} ReadVarintSuffix(b: bytes, max: nat)
    requires ReadVarint(b, max).Got?
    ensures Suffix(ReadVarint(b, max).rest, b)
    decreases max
  {
    if b[0] >= 128 {
      ReadVarintSuffix(b[1..], max - 1);
    }
  }

  lemma ReadDelimitedSuffix(b: bytes)
    requires ReadDelimited(b).Got?
    ensures var Got(p, rest) := ReadDelimited(b);
            var k := |b| - |rest|;
            Suffix(rest, b) && p == b[k - |p|..k]
  {
    ReadVarintSuffix(b, 5);
  }

  lemma ReadElemSuffix(k: Kind, b: bytes)
    requires ReadElem(k, b).Got?
    ensures Suffix(ReadElem(k, b).rest, b)
  {
    match k
    case Int32 | Int64 | UInt64 => ReadVarintSuffix(b, 10);
    case Float | Double =>
    case Bytes | Str => ReadDelimitedSuffix(b);
  }

  lemma {:induction false} SkipFieldSuffix(d: nat, t: TagValue, b: bytes)
    requires SkipField(d, t, b).Got?
    ensures Suffix(SkipField(d, t, b).rest, b)
    decreases |b|, 1
  {
    if t.wt == VARINT {
      ReadVarintSuffix(b, 10);
    } else if t.wt == LENGTH_DELIMITED {
      ReadDelimitedSuffix(b);
    } else if t.wt == START_GROUP {
      SkipGroupSuffix(d - 1, t.num, b);
    }
  }

  lemma SuffixOfSuffix(x: bytes, y: bytes, z: bytes)
    requires Suffix(x, y) && Suffix(y, z)
    ensures Suffix(x, z)
  {
  }

  lemma {:induction false} SkipGroupSuffix(d: nat, num: nat, b: bytes)
    requires SkipGroup(d, num, b).Got?
    ensures Suffix(SkipGroup(d, num, b).rest, b)
    decreases |b|, 0
  {
    ReadVarintSuffix(b, 5);
    var Got(t, b1) := ReadTag(b);
    if t.wt != END_GROUP {
      SkipFieldSuffix(d, t, b1);
      var b2 := SkipField(d, t, b1).rest;
      SkipGroupSuffix(d, num, b2);
      SuffixOfSuffix(b2, b1, b);
      SuffixOfSuffix(SkipGroup(d, num, b2).rest, b2, b);
    }
  }

  /** The bytes from a position to the limit, and what a reader leaves of them. */
  lemma SuffixAt(buf: bytes, ptr: nat, end: nat, rest: bytes)
    requires ptr <= end <= |buf| && Suffix(rest, buf[ptr..end])
    ensures ptr <= end - |rest| && rest == buf[end - |rest|..end]
  {
    assert |buf[ptr..end]| == end - ptr;
  }

  lemma DelimitedAt(buf: bytes, ptr: nat, end: nat)
    requires ptr <= end <= |buf| && ReadDelimited(buf[ptr..end]).Got?
    ensures var Got(p, rest) := ReadDelimited(buf[ptr..end]);
            var next := end - |rest|;
            ptr < next && rest == buf[next..end] && ptr <= next - |p| && p == buf[next - |p|..next]
  {
    ReadDelimitedSuffix(buf[ptr..end]);
    var Got(p, rest) := ReadDelimited(buf[ptr..end]);
    var k := end - ptr - |rest|;
    SliceSlice(buf, ptr, end, k - |p|, k);
    SliceSlice(buf, ptr, end, k, end - ptr);
    assert buf[ptr..end][k..] == buf[ptr..end][k..end - ptr];
  }

  lemma SliceSplit<T>(s: seq<T>, a: nat, b: nat, c: nat)
    requires a <= b <= c <= |s|
    ensures s[a..c] == s[a..b] + s[b..c]
  {
  }

  lemma SliceSlice<T>(s: seq<T>, a: nat, b: nat, c: nat, d: nat)
    requires a <= b <= |s| && c <= d <= b - a
    ensures s[a..b][c..d] == s[a + c..a + d]
  {
    forall k | 0 <= k < d - c
      ensures s[a..b][c..d][k] == s[a + c..a + d][k]
    {
      assert s[a..b][c + k] == s[a + (c + k)];
    }
  }

  // ----- Dispatch on a tag that has been read -----

  /** What decoding goes on to when field `i` has accepted a tag of wire type `wt`. */
  ghost function DecodeTagged(S: Schema, ty: nat, d: nat, i: nat, wt: nat, b: bytes): Decoded
    requires i < |Fields(S, ty)|
  {
    match DecodeField(S, d, i, Fields(S, ty)[i], wt, b)
    case Did(a, rest) => Decode(S, ty, d, rest).Prepend([a])
    case _ => Malformed
  }

  lemma DecodeKnown(S: Schema, ty: nat, d: nat, b: bytes)
    requires b != [] && ReadTag(b).Got?
    requires var t := ReadTag(b).value;
             var i := Find(Fields(S, ty), t.num);
             i < |Fields(S, ty)| && Accepts(Fields(S, ty)[i], t.wt)
    ensures var Got(t, b1) := ReadTag(b);
            Decode(S, ty, d, b) == DecodeTagged(S, ty, d, Find(Fields(S, ty), t.num), t.wt, b1)
  {
  }

  lemma TaggedStep(S: Schema, ty: nat, d: nat, i: nat, wt: nat, b: bytes, acts: seq<Act>)
    requires i < |Fields(S, ty)| && DecodeField(S, d, i, Fields(S, ty)[i], wt, b).Did?
    ensures var Did(a, rest) := DecodeField(S, d, i, Fields(S, ty)[i], wt, b);
            DecodeTagged(S, ty, d, i, wt, b).Prepend(acts) == Decode(S, ty, d, rest).Prepend(acts + [a])
  {
    var Did(a, rest) := DecodeField(S, d, i, Fields(S, ty)[i], wt, b);
    PrependPrepend(Decode(S, ty, d, rest), acts, [a]);
  }

  lemma TaggedWrong(S: Schema, ty: nat, d: nat, i: nat, wt: nat, b: bytes, acts: seq<Act>)
    requires i < |Fields(S, ty)| && !DecodeField(S, d, i, Fields(S, ty)[i], wt, b).Did?
    ensures DecodeTagged(S, ty, d, i, wt, b).Prepend(acts) == Malformed
  {
  }

  lemma DecodeBadTag(S: Schema, ty: nat, d: nat, b: bytes)
    requires b != [] && ReadTag(b).Bad?
    ensures Decode(S, ty, d, b) == Malformed
  {
  }

  predicate Dispatched(S: Schema, ty: nat, t: TagValue) {
    var i := Find(Fields(S, ty), t.num);
    i < |Fields(S, ty)| && Accepts(Fields(S, ty)[i], t.wt)
  }

  lemma DecodeUnusual(S: Schema, ty: nat, d: nat, b: bytes)
    requires b != [] && ReadTag(b).Got? && !Dispatched(S, ty, ReadTag(b).value)
    ensures var Got(t, b1) := ReadTag(b);
            var u := SkipField(d, t, b1);
            && (t.wt == END_GROUP || t == TagValue(0, 0) ==> Decode(S, ty, d, b) == Stopped([], t, b1))
            && (!(t.wt == END_GROUP || t == TagValue(0, 0)) ==>
                 Decode(S, ty, d, b)
                 == if u.Bad? then Malformed else Decode(S, ty, d, u.rest).Prepend([Keep(u.value)]))
  {
  }

  lemma RunSnoc(S: Schema, m: Msg, acts: seq<Act>, a: Act)
    ensures Run(S, m, acts + [a]) == Apply(S, Run(S, m, acts), a)
  {
    RunAppend(S, m, acts, [a]);
  }

  lemma RunNone(S: Schema, m: Msg)
    ensures Run(S, m, []) == m
  {
  }

  /** `ExpectTag`: the next bytes before the limit are the tag in its shortest form. */
  predicate ExpectTag(buf: bytes, p: nat, end: nat, t: TagValue): (b: bool)
    requires p <= end <= |buf|
    ensures b ==> p + TagSize(t.num, t.wt) <= end
  {
    var k := TagSize(t.num, t.wt);
    p + k <= end && buf[p..p + k] == Tag(t.num, t.wt)
  }

  lemma TagThere(t: TagValue, buf: bytes, p: nat, end: nat)
    requires p < end <= |buf| && t.Fits() && ExpectTag(buf, p, end, t)
    ensures ReadTag(buf[p..end]) == Got(t, buf[p + TagSize(t.num, t.wt)..end])
  {
    hide ReadTag, Tag;
    var k := TagSize(t.num, t.wt);
    SliceSplit(buf, p, p + k, end);
    ReadTagOfTag(t.num, t.wt, buf[p + k..end]);
  }

  lemma NextOfField(S: Schema, ty: nat, d: nat, i: nat, t: TagValue, buf: bytes, p: nat, end: nat)
    requires p < end <= |buf| && t.Fits() && ExpectTag(buf, p, end, t)
    requires i < |Fields(S, ty)| && Find(Fields(S, ty), t.num) == i && Accepts(Fields(S, ty)[i], t.wt)
    ensures Decode(S, ty, d, buf[p..end])
         == DecodeTagged(S, ty, d, i, t.wt, buf[p + TagSize(t.num, t.wt)..end])
  {
    hide Decode, DecodeTagged, ReadTag, Tag, ExpectTag;
    TagThere(t, buf, p, end);
    DecodeKnown(S, ty, d, buf[p..end]);
  }

  /** Where `_InternalParse` leaves off: at a position, having met an
      end-group or zero tag when `last` is one, or nowhere. */
  datatype ParseEnd = Failed | Ended(ptr: nat, last: Option<TagValue>)

  /** The tag at a position, and the position after it. */
  method TakeTag(buf: bytes, ptr: nat, end: nat) returns (t: Option<TagValue>, next: nat)
    requires ptr <= end <= |buf|
    ensures t.Some? ==> ptr < next <= end && t.value.Fits()
    ensures ReadTag(buf[ptr..end]) == if t.None? then Bad else Got(t.value, buf[next..end])
  {
    var tag := ReadTag(buf[ptr..end]);
    if tag.Bad? { return None, ptr; }
    ReadVarintSuffix(buf[ptr..end], 5);
    SuffixAt(buf, ptr, end, tag.rest);
    return Some(tag.value), end - |tag.rest|;
  }

  lemma PrintRecordsStep(S: Schema, f: Field, es: seq<Elem>, k: nat, cs: seq<Cache>)
    requires k < |es|
    ensures var (e, c) := (es[k], if cs == [] then NO_CACHE else cs[0]);
            var more := PrintRecords(S, f, es[k + 1..], if cs == [] then [] else cs[1..]);
            PrintRecords(S, f, es[k..], cs)
            == if Omitted(f, e) then more else Tag(f.num, ElemWire(e)) + PrintElem(S, e, c) + more
  {
    hide Tag, PrintElem;
    assert es[k..][1..] == es[k + 1..];
    var more := PrintRecords(S, f, es[k + 1..], if cs == [] then [] else cs[1..]);
    assert [] + more == more;
  }

  lemma PrintRecordsEnd(S: Schema, f: Field, es: seq<Elem>, cs: seq<Cache>)
    ensures PrintRecords(S, f, es[|es|..], cs) == []
  {
  }

  datatype Outcome = Further | Halt(tag: TagValue) | Refuse

  class Message {
    const S: Schema
    const ty: nat
    var slots: seq<Slot>
    var unknown: bytes
    var cache: Cache

    function Value(): Msg
      reads this`slots, this`unknown
    {
      Msg(ty, slots, unknown)
    }

    ghost predicate Ok()
      reads this`slots, this`unknown
    {
      WfSchema(S) && Sound(S, Value())
    }

    constructor (S: Schema, m: Msg)
      requires WfSchema(S) && Sound(S, m)
      ensures this.S == S && ty == m.ty && Value() == m && Ok()
    {
      this.S, ty, slots, unknown, cache := S, m.ty, m.slots, m.unknown, NO_CACHE;
    }

    // ----- Clear, MergeFrom, CopyFrom -----

    method Clear()
      requires Ok()
      modifies this`slots, this`unknown
      ensures Value() == Default(S, ty) && Ok()
    {
      slots := seq(|Fields(S, ty)|, _ => Slot([]));
      unknown := [];
      DefaultSound(S, ty);
    }

    /** Writes slot `i`, first clearing the oneof when another of its members is set. */
    method SetSlot(i: nat, es: seq<Elem>)
      requires Ok() && i < |slots| && es != [] && SlotSound(S, S[ty][i], es)
      modifies this`slots
      ensures Value() == With(if S[ty][i].rule.Oneof? then ClearOneof(S[ty], old(Value())) else old(Value()), i, es)
      ensures Ok()
    {
      ghost var m := Value();
      SetSound(S, m, i, es);
      if S[ty][i].rule.Oneof? && slots[i].es == [] {
        slots := ClearOneof(S[ty], Value()).slots;
      } else if S[ty][i].rule.Oneof? {
        OnlyMember(S[ty], m, i, es);
      }
      slots := slots[i := Slot(es)];
    }

    /** One element merged over what its place holds: submessages by `MergeFrom`. */
    method MergedElem(f: Field, xs: seq<Elem>, e: Elem) returns (r: Elem)
      requires WfSchema(S) && WfField(S, f) && SlotSound(S, f, xs) && ElemSound(S, f.kind, e)
      ensures r == MergeElem(S, xs, e) && ElemSound(S, f.kind, r)
      decreases e
    {
      r := e;
      if e.Sub? {
        DefaultSound(S, e.m.ty);
        assert xs != [] ==> ElemSound(S, f.kind, xs[0]);
        var into := new Message(S, SubOf(S, e.m.ty, xs));
        var from := new Message(S, e.m);
        into.MergeFrom(from);
        r := Sub(into.Value());
      }
    }

    /** `RepeatedPtrField::MergeFrom`: every element is copied by merging it into a new one. */
    method Copied(f: Field, es: seq<Elem>) returns (r: seq<Elem>)
      requires WfSchema(S) && WfField(S, f) && forall e | e in es :: ElemSound(S, f.kind, e)
      ensures r == CopyElems(S, es)
      decreases es, 0
    {
      r := [];
      var k := 0;
      while k < |es|
        invariant k <= |es|
        invariant r + CopyElems(S, es[k..]) == CopyElems(S, es)
      {
        var c := MergedElem(f, [], es[k]);
        AppendAssoc(r, [c], CopyElems(S, es[k + 1..]));
        assert es[k..][1..] == es[k + 1..];
        r := r + [c];
        k := k + 1;
      }
      assert r + [] == r;
    }

    /** What field `i` of another message leaves in this one. */
    method MergeField(i: nat, ys: seq<Elem>)
      requires Ok() && i < |slots| && SlotSound(S, S[ty][i], ys)
      modifies this`slots
      ensures var m := old(Value());
              var f := S[ty][i];
              Value() == With(if f.rule.Oneof? && ys != [] then ClearOneof(S[ty], m) else m, i,
                              MergeSlot(S, f, m.slots[i].es, ys, false))
      ensures Ok()
      decreases ys, 1
    {
      var f := S[ty][i];
      assert WfType(S, S[ty]) && WfField(S, f) && SlotSound(S, f, slots[i].es);
      MergeSlotSound(S, f, slots[i].es, ys, false);
      if IsList(f) {
        var more := Copied(f, ys);
        SetSound(S, Value(), i, slots[i].es + more);
        slots := slots[i := Slot(slots[i].es + more)];
      } else if ys != [] && !Omitted(f, ys[0]) {
        var e := MergedElem(f, slots[i].es, ys[0]);
        assert f.rule.Implicit? ==> [e] == ys;
        SetSlot(i, [e]);
      } else {
        assert slots[i := Slot(slots[i].es)] == slots;
      }
    }

    method MergeFrom(from: Message)
      requires from != this && from.S == S && from.ty == ty && Ok() && from.Ok()
      modifies this`slots, this`unknown
      ensures Value() == Merge(S, old(Value()), from.Value())
      ensures Ok()
      decreases from.Value(), 0
    {
      ghost var a, b := Value(), from.Value();
      MergeNothing(S, a, Upto(b, 0));
      unknown := unknown + from.unknown;
      var i := 0;
      while i < |from.slots|
        invariant i <= |from.slots|
        invariant slots == Merge(S, a, Upto(b, i)).slots && unknown == a.unknown + b.unknown
        invariant Ok()
      {
        MergeUpto(S, a, b, i);
        assert SlotSound(S, S[ty][i], from.slots[i].es);
        MergeField(i, from.slots[i].es);
        i := i + 1;
      }
      MergeAll(S, a, b);
    }

    /** Copying a message onto itself leaves it; any other copy is a merge into nothing. */
    method CopyFrom(from: Message)
      requires from.S == S && from.ty == ty && Ok() && from.Ok()
      modifies this`slots, this`unknown
      ensures Value() == if from == this then old(Value()) else Merge(S, Default(S, ty), from.Value())
      ensures Ok()
    {
      if from == this { return; }
      Clear();
      MergeFrom(from);
    }

    // ----- Parsing -----

    /** `ParseMessage`: the length, the nesting budget, and the submessage,
        which has to end at its limit. */
    method ParseSub(base: Msg, buf: bytes, ptr: nat, end: nat, d: nat) returns (ok: bool, sub: Msg, next: nat)
      requires ptr <= end <= |buf| && WfSchema(S) && Sound(S, base)
      ensures var r := ReadDelimited(buf[ptr..end]);
              && ok == (r.Got? && d > 0 && Decode(S, base.ty, d - 1, r.value).Done?)
              && (ok ==> ptr < next <= end && buf[next..end] == r.rest
                         && sub == Run(S, base, Decode(S, base.ty, d - 1, r.value).acts))
      decreases end - ptr, 0
    {
      hide Decode, Run, ReadDelimited;
      ok, sub, next := false, base, ptr;
      var r := ReadDelimited(buf[ptr..end]);
      if r.Bad? || d == 0 { return; }
      DelimitedAt(buf, ptr, end);
      next := end - |r.rest|;
      var from := next - |r.value|;
      var m := new Message(S, base);
      var e := m.InternalParse(buf, from, next, d - 1);
      ok, sub := e.Ended? && e.last.None?, m.Value();
    }

    method ParseChunk(i: nat, buf: bytes, ptr: nat, end: nat, ghost d: nat) returns (ok: bool, next: nat)
      requires Ok() && i < |slots| && ptr <= end <= |buf| && S[ty][i].rule.Packed?
      modifies this`slots
      ensures var r := ReadDelimited(buf[ptr..end]);
              && ok == (r.Got? && ReadElems(S[ty][i].kind, r.value).Some?)
              && (ok ==> ptr < next <= end && buf[next..end] == r.rest
                         && Value() == Apply(S, old(Value()), Put(i, ReadElems(S[ty][i].kind, r.value).value)))
      ensures Ok()
    {
      ok, next := false, ptr;
      var f := S[ty][i];
      var r := ReadDelimited(buf[ptr..end]);
      if r.Bad? { return; }
      var es := ReadElems(f.kind, r.value);
      if es.None? { return; }
      ReadDelimitedSuffix(buf[ptr..end]);
      SuffixAt(buf, ptr, end, r.rest);
      ReadElemsFit(f.kind, r.value);
      assert WfType(S, S[ty]) && WfField(S, f);
      ApplySound(S, d, Value(), Put(i, es.value));
      ok, next := true, end - |r.rest|;
      slots := slots[i := Slot(slots[i].es + es.value)];
    }

    method ParseScalar(i: nat, buf: bytes, ptr: nat, end: nat, ghost d: nat) returns (ok: bool, next: nat)
      requires Ok() && i < |slots| && ptr <= end <= |buf| && !S[ty][i].kind.Message?
      modifies this`slots
      ensures var r := ReadElem(S[ty][i].kind, buf[ptr..end]);
              && ok == r.Got?
              && (ok ==> ptr < next <= end && buf[next..end] == r.rest
                         && Value() == Apply(S, old(Value()), Put(i, [r.value])))
      ensures Ok()
    {
      ok, next := false, ptr;
      var f := S[ty][i];
      var r := ReadElem(f.kind, buf[ptr..end]);
      if r.Bad? { return; }
      ReadElemSuffix(f.kind, buf[ptr..end]);
      SuffixAt(buf, ptr, end, r.rest);
      ReadElemFits(f.kind, buf[ptr..end]);
      assert WfType(S, S[ty]) && WfField(S, f);
      ApplySound(S, d, Value(), Put(i, [r.value]));
      ok, next := true, end - |r.rest|;
      if IsList(f) {
        slots := slots[i := Slot(slots[i].es + [r.value])];
      } else if f.rule.Implicit? {
        slots := slots[i := Slot(Store(r.value))];
      } else {
        assert SlotSound(S, f, [r.value]);
        SetSlot(i, [r.value]);
      }
    }

    method ParseSubmessage(i: nat, buf: bytes, ptr: nat, end: nat, d: nat) returns (ok: bool, next: nat)
      requires Ok() && i < |slots| && ptr <= end <= |buf| && S[ty][i].kind.Message?
      modifies this`slots
      ensures var r := ReadDelimited(buf[ptr..end]);
              var sub := S[ty][i].kind.ty;
              && ok == (r.Got? && d > 0 && Decode(S, sub, d - 1, r.value).Done?)
              && (ok ==> ptr < next <= end && buf[next..end] == r.rest
                         && Value() == Apply(S, old(Value()), Descend(i, Decode(S, sub, d - 1, r.value).acts)))
      ensures Ok()
      decreases end - ptr, 1
    {
      hide Decode, Run, ReadDelimited;
      var f := S[ty][i];
      assert WfType(S, S[ty]) && WfField(S, f);
      BaseSound(S, Value(), i);
      var base := if f.rule.Repeated? then Default(S, f.kind.ty) else SubOf(S, f.kind.ty, slots[i].es);
      var sub;
      ok, sub, next := ParseSub(base, buf, ptr, end, d);
      if ok {
        ghost var acts := Decode(S, f.kind.ty, d - 1, ReadDelimited(buf[ptr..end]).value).acts;
        DecodeFits(S, f.kind.ty, d - 1, ReadDelimited(buf[ptr..end]).value);
        RunSound(S, d - 1, base, acts);
        DescendSound(S, Value(), i, sub);
        if f.rule.Repeated? {
          slots := slots[i := Slot(slots[i].es + [Sub(sub)])];
        } else {
          assert SlotSound(S, f, [Sub(sub)]);
          SetSlot(i, [Sub(sub)]);
        }
      }
    }

    /** The value of one record of field `i`, its tag having been read. */
    method ParseValue(i: nat, wt: nat, buf: bytes, ptr: nat, end: nat, d: nat) returns (ok: bool, next: nat)
      requires Ok() && i < |slots| && ptr <= end <= |buf|
      modifies this`slots
      ensures var r := DecodeField(S, d, i, S[ty][i], wt, buf[ptr..end]);
              && ok == r.Did?
              && (ok ==> ptr < next <= end && buf[next..end] == r.rest && Value() == Apply(S, old(Value()), r.act))
      ensures Ok()
      decreases end - ptr, 2
    {
      var f := S[ty][i];
      if f.rule.Packed? && wt == LENGTH_DELIMITED {
        ok, next := ParseChunk(i, buf, ptr, end, d);
      } else if f.kind.Message? {
        ok, next := ParseSubmessage(i, buf, ptr, end, d);
      } else {
        ok, next := ParseScalar(i, buf, ptr, end, d);
      }
    }

    /** The fast loop over a repeated field: records are taken as long as the
        next bytes are the field's own tag, without going back to the dispatch. */
    method ParseRepeated(i: nat, t: TagValue, buf: bytes, ptr: nat, end: nat, d: nat)
      returns (ok: bool, next: nat, ghost acts: seq<Act>)
      requires Ok() && i < |slots| && ptr <= end <= |buf| && t.Fits()
      requires Find(S[ty], t.num) == i && Accepts(S[ty][i], t.wt)
      modifies this`slots
      ensures var r := DecodeTagged(S, ty, d, i, t.wt, buf[ptr..end]);
              && (!ok ==> r.Malformed?)
              && (ok ==> ptr < next <= end && r == Decode(S, ty, d, buf[next..end]).Prepend(acts)
                         && Value() == Run(S, old(Value()), acts))
      ensures Ok()
      decreases end - ptr, 3
    {
      hide Decode, DecodeField, DecodeTagged, Apply, Run, ExpectTag;
      var k := TagSize(t.num, t.wt);
      var p: int := ptr - k;
      acts := [];
      ghost var m, all := Value(), DecodeTagged(S, ty, d, i, t.wt, buf[ptr..end]);
      PrependPrepend(all, [], []);
      RunNone(S, m);
      while true
        invariant ptr - k <= p <= end - k
        invariant all == DecodeTagged(S, ty, d, i, t.wt, buf[p + k..end]).Prepend(acts)
        invariant Ok() && Value() == Run(S, m, acts)
        decreases end - p
      {
        p := p + k;
        ghost var r := DecodeField(S, d, i, S[ty][i], t.wt, buf[p..end]);
        ok, next := ParseValue(i, t.wt, buf, p, end, d);
        if !ok {
          TaggedWrong(S, ty, d, i, t.wt, buf[p..end], acts);
          return;
        }
        TaggedStep(S, ty, d, i, t.wt, buf[p..end], acts);
        RunSnoc(S, m, acts, r.act);
        acts := acts + [r.act];
        p := next;
        if p >= end || !ExpectTag(buf, p, end, t) { break; }
        NextOfField(S, ty, d, i, t, buf, p, end);
      }
    }

    /** The records that one arm of the switch takes, their tag having been read. */
    method ParseField(i: nat, t: TagValue, buf: bytes, ptr: nat, end: nat, d: nat)
      returns (ok: bool, next: nat, ghost acts: seq<Act>)
      requires Ok() && i < |slots| && ptr <= end <= |buf| && t.Fits()
      requires Find(S[ty], t.num) == i && Accepts(S[ty][i], t.wt)
      modifies this`slots
      ensures var r := DecodeTagged(S, ty, d, i, t.wt, buf[ptr..end]);
              && (!ok ==> r.Malformed?)
              && (ok ==> ptr < next <= end && r == Decode(S, ty, d, buf[next..end]).Prepend(acts)
                         && Value() == Run(S, old(Value()), acts))
      ensures Ok()
      decreases end - ptr, 4
    {
      if S[ty][i].rule.Repeated? {
        ok, next, acts := ParseRepeated(i, t, buf, ptr, end, d);
      } else {
        ghost var r := DecodeField(S, d, i, S[ty][i], t.wt, buf[ptr..end]);
        ok, next := ParseValue(i, t.wt, buf, ptr, end, d);
        acts := if ok then [r.act] else [];
      }
    }

    /** `handle_unusual`: stop, or keep the record as unknown. */
    method ParseUnusual(t: TagValue, buf: bytes, ptr: nat, end: nat, d: nat)
      returns (o: Outcome, next: nat, ghost acts: seq<Act>)
      requires Ok() && ptr <= end <= |buf|
      modifies this`unknown
      ensures var u := SkipField(d, t, buf[ptr..end]);
              if t.wt == END_GROUP || t == TagValue(0, 0) then
                o == Halt(t) && next == ptr && unknown == old(unknown)
              else if u.Bad? then o == Refuse
              else o == Further && ptr <= next <= end && buf[next..end] == u.rest && acts == [Keep(u.value)]
                   && Value() == Apply(S, old(Value()), Keep(u.value))
      ensures Ok()
    {
      if t.wt == END_GROUP || t == TagValue(0, 0) { return Halt(t), ptr, []; }
      var u := SkipField(d, t, buf[ptr..end]);
      if u.Bad? { return Refuse, ptr, []; }
      SkipFieldSuffix(d, t, buf[ptr..end]);
      SuffixAt(buf, ptr, end, u.rest);
      unknown := unknown + u.value;
      return Further, end - |u.rest|, [Keep(u.value)];
    }

    /** One trip round the parse loop. */
    method ParseOne(buf: bytes, ptr: nat, end: nat, d: nat) returns (o: Outcome, next: nat, ghost acts: seq<Act>)
      requires Ok() && ptr < end <= |buf|
      modifies this`slots, this`unknown
      ensures var all := Decode(S, ty, d, buf[ptr..end]);
              match o
              case Further => ptr < next <= end && all == Decode(S, ty, d, buf[next..end]).Prepend(acts)
                              && Value() == Run(S, old(Value()), acts)
              case Halt(t) => next <= end && all == Stopped([], t, buf[next..end]) && Value() == old(Value())
              case Refuse => all.Malformed?
      ensures Ok()
      decreases end - ptr, 5
    {
      hide Decode, DecodeTagged, SkipField, Find, ReadTag;
      var tag;
      tag, next := TakeTag(buf, ptr, end);
      if tag.None? {
        DecodeBadTag(S, ty, d, buf[ptr..end]);
        return Refuse, ptr, [];
      }
      var t := tag.value;
      var i := Find(S[ty], t.num);
      if i < |S[ty]| && Accepts(S[ty][i], t.wt) {
        DecodeKnown(S, ty, d, buf[ptr..end]);
        var ok;
        ok, next, acts := ParseField(i, t, buf, next, end, d);
        o := if ok then Further else Refuse;
      } else {
        DecodeUnusual(S, ty, d, buf[ptr..end]);
        o, next, acts := ParseUnusual(t, buf, next, end, d);
      }
    }

    /** The parse loop: it ends as decoding the bytes up to the limit does,
        and what was decoded has been done to this message. */
    method InternalParse(buf: bytes, start: nat, end: nat, d: nat) returns (r: ParseEnd)
      requires Ok() && start <= end <= |buf|
      modifies this`slots, this`unknown
      ensures var all := Decode(S, ty, d, buf[start..end]);
              match all
              case Done(acts) => r == Ended(end, None) && Value() == Run(S, old(Value()), acts)
              case Stopped(acts, t, rest) =>
                r.Ended? && r.last == Some(t) && r.ptr <= end && buf[r.ptr..end] == rest
                && Value() == Run(S, old(Value()), acts)
              case Malformed => r == Failed
      ensures Ok()
      decreases end - start, 6
    {
      var ptr := start;
      ghost var m, done, all := Value(), [], Decode(S, ty, d, buf[start..end]);
      PrependPrepend(all, [], []);
      while ptr < end
        invariant start <= ptr <= end
        invariant all == Decode(S, ty, d, buf[ptr..end]).Prepend(done)
        invariant Ok() && Value() == Run(S, m, done)
        decreases end - ptr
      {
        var o, next;
        ghost var acts;
        o, next, acts := ParseOne(buf, ptr, end, d);
        if o.Refuse? { return Failed; }
        if o.Halt? {
          assert done + [] == done;
          return Ended(next, Some(o.tag));
        }
        RunAppend(S, m, done, acts);
        PrependPrepend(Decode(S, ty, d, buf[next..end]), done, acts);
        ptr, done := next, done + acts;
      }
      assert done + [] == done;
      return Ended(ptr, None);
    }

    // ----- Sizes and printing -----

    /** The payload of one element; a submessage is measured by its own size pass. */
    method ElemSize(e: Elem, ghost f: Field) returns (n: nat, c: Cache)
      requires WfSchema(S) && ElemSound(S, f.kind, e)
      ensures n == PayloadSize(S, e) && ElemCacheRight(S, e, c)
      decreases e
    {
      c := NO_CACHE;
      match e
      case Num(v) => n := VarintSize(Widen(v));
      case Fix(b) => n := |b|;
      case Len(b) => n := VarintSize(|b|) + |b|;
      case Sub(m) =>
        var sub := new Message(S, m);
        n := sub.ByteSizeLong();
        n, c := VarintSize(n) + n, sub.cache;
    }

    /** What a field adds to the total, the size of its elements alone, and
        the caches of the submessages in it. */
    method FieldSize(f: Field, es: seq<Elem>) returns (total: nat, data: nat, cs: seq<Cache>)
      requires WfSchema(S) && forall e | e in es :: ElemSound(S, f.kind, e)
      ensures total == SlotSize(S, f, es) && data == PayloadsSize(S, es)
      ensures |cs| == |es| && forall k | 0 <= k < |es| :: ElemCacheRight(S, es[k], cs[k])
      decreases es, 0
    {
      total, data, cs := 0, 0, [];
      var k := 0;
      while k < |es|
        invariant k <= |es| == |cs| + |es[k..]|
        invariant data + PayloadsSize(S, es[k..]) == PayloadsSize(S, es)
        invariant total + RecordsSize(S, f, es[k..]) == RecordsSize(S, f, es)
        invariant forall j | 0 <= j < k :: ElemCacheRight(S, es[j], cs[j])
      {
        var n, c := ElemSize(es[k], f);
        assert es[k..][1..] == es[k + 1..];
        data, cs := data + n, cs + [c];
        if !Omitted(f, es[k]) {
          total := total + TagSize(f.num, ElemWire(es[k])) + n;
        }
        k := k + 1;
      }
      if f.rule.Packed? {
        total := (if data > 0 then TagSize(f.num, LENGTH_DELIMITED) + VarintSize(data) else 0) + data;
      }
    }

    /** The size pass: the exact size, and every cached size set for the printer. */
    method ByteSizeLong() returns (total: nat)
      requires Ok()
      modifies this`cache
      ensures total == ByteSize(S, Value()) && CacheRight(S, Value(), cache)
      decreases Value(), 0
    {
      total := 0;
      var packed: seq<nat>, subs: seq<Caches> := [], [];
      var i := 0;
      while i < |slots|
        invariant i <= |slots| && |packed| == |subs| == i
        invariant total + SlotsSize(S, Value(), i) == SlotsSize(S, Value(), 0)
        invariant forall j | 0 <= j < i :: SlotCached(S, slots[j].es, packed[j], subs[j].cs)
      {
        assert SlotSound(S, S[ty][i], slots[i].es);
        var n, data, cs := FieldSize(S[ty][i], slots[i].es);
        total, packed, subs := total + n, packed + [data], subs + [Caches(cs)];
        i := i + 1;
      }
      total := total + |unknown|;
      cache := Cache(total, packed, subs);
    }

    /** Elements behind their tags, the length of a submessage taken from its cached size. */
    method PrintElems(f: Field, es: seq<Elem>, caches: seq<Cache>, target: bytes) returns (out: bytes)
      requires WfSchema(S) && forall e | e in es :: ElemSound(S, f.kind, e)
      ensures out == target + PrintRecords(S, f, es, caches)
      decreases es, 0
    {
      hide PrintRecords, PrintElem;
      out := target;
      var k, cs := 0, caches;
      while k < |es|
        invariant k <= |es|
        invariant out + PrintRecords(S, f, es[k..], cs) == target + PrintRecords(S, f, es, caches)
      {
        var e := es[k];
        var c := if cs == [] then NO_CACHE else cs[0];
        var rest := if cs == [] then [] else cs[1..];
        PrintRecordsStep(S, f, es, k, cs);
        if !Omitted(f, e) {
          var p := PrintOne(f, e, c);
          AppendAssoc(out, Tag(f.num, ElemWire(e)) + p, PrintRecords(S, f, es[k + 1..], rest));
          out := out + (Tag(f.num, ElemWire(e)) + p);
        }
        k, cs := k + 1, rest;
      }
      PrintRecordsEnd(S, f, es, cs);
      assert out + [] == out;
    }

    method PrintOne(f: Field, e: Elem, c: Cache) returns (p: bytes)
      requires WfSchema(S) && ElemSound(S, f.kind, e)
      ensures p == PrintElem(S, e, c)
      decreases e, 0
    {
      if e.Sub? {
        var sub := new Message(S, e.m);
        sub.cache := c;
        p := sub.InternalSerialize(Varint(c.size));
      } else {
        p := Payload(S, e);
      }
    }

    method InternalSerialize(target: bytes) returns (out: bytes)
      requires Ok()
      ensures out == target + PrintCached(S, Value(), cache)
      decreases Value(), 0
    {
      out := target;
      ghost var m, c := Value(), cache;
      var i := 0;
      while i < |slots|
        invariant i <= |slots|
        invariant out + PrintSlotsCached(S, m, c, i) == target + PrintSlotsCached(S, m, c, 0)
      {
        var f, es := S[ty][i], slots[i].es;
        assert SlotSound(S, f, es);
        ghost var before, p := out, PrintSlotCached(S, f, es, PackedAt(c, i), CacheAt(c, i));
        if !f.rule.Packed? {
          out := PrintElems(f, es, CacheAt(cache, i), out);
        } else {
          out := out + PrintSlotCached(S, f, es, PackedAt(cache, i), []);
        }
        AppendAssoc(before, p, PrintSlotsCached(S, m, c, i + 1));
        i := i + 1;
      }
      out := out + unknown;
    }

    /** The two passes in a row: the length and the bytes of the serialization. */
    method Print() returns (n: nat, out: bytes)
      requires Ok() && Sizable(S, Value())
      modifies this`cache
      ensures out == Serialize(S, Value()) && n == |out|
    {
      n := ByteSizeLong();
      out := InternalSerialize([]);
      ByteSizeExact(S, Value());
      PrintCachedExact(S, Value(), cache);
    }
  }

  /** When a member of the oneof is set, writing it leaves no other to clear. */
  lemma OnlyMember(fs: seq<Field>, m: Msg, i: nat, es: seq<Elem>)
    requires |fs| == |m.slots| && i < |fs| && fs[i].rule.Oneof? && m.slots[i].es != [] && OneofFits(fs, m)
    ensures With(ClearOneof(fs, m), i, es) == With(m, i, es)
  {
    forall j | 0 <= j < |fs| && j != i
      ensures ClearOneof(fs, m).slots[j] == m.slots[j]
    {
      if fs[j].rule.Oneof? {
        assert m.slots[j].es == [];
        assert m.slots[j] == Slot([]);
      }
    }
    assert ClearOneof(fs, m).slots[i := Slot(es)] == m.slots[i := Slot(es)];
  }

  lemma MergeAll(S: Schema, a: Msg, b: Msg)
    ensures Merge(S, a, Upto(b, |b.slots|)).slots == Merge(S, a, b).slots
  {
    assert Upto(b, |b.slots|).slots == b.slots;
    assert OneofSet(Fields(S, a.ty), Upto(b, |b.slots|)) == OneofSet(Fields(S, a.ty), b);
  }
}
