/** The size pass, the sizes it leaves cached, and printing from the cached sizes. */
module Sizes {
  import opened Wire
  import opened Messages

  // ----- ByteSizeLong -----

  function PayloadSize(S: Schema, e: Elem): nat
    decreases e
  {
    match e
    case Num(n) => VarintSize(Widen(n))
    case Fix(b) => |b|
    case Len(b) => VarintSize(|b|) + |b|
    case Sub(m) => VarintSize(ByteSize(S, m)) + ByteSize(S, m)
  }

  function PayloadsSize(S: Schema, es: seq<Elem>): nat
    decreases es, 0
  {
    if es == [] then 0 else PayloadSize(S, es[0]) + PayloadsSize(S, es[1..])
  }

  function RecordsSize(S: Schema, f: Field, es: seq<Elem>): nat
    decreases es, 0
  {
    if es == [] then 0
    else (if Omitted(f, es[0]) then 0 else TagSize(f.num, ElemWire(es[0])) + PayloadSize(S, es[0]))
         + RecordsSize(S, f, es[1..])
  }

  function SlotSize(S: Schema, f: Field, es: seq<Elem>): nat
    decreases es, 1
  {
    if !f.rule.Packed? then RecordsSize(S, f, es)
    else
      var n := PayloadsSize(S, es);
      (if n > 0 then TagSize(f.num, LENGTH_DELIMITED) + VarintSize(n) else 0) + n
  }

  function SlotsSize(S: Schema, m: Msg, i: nat): nat
    decreases m, |m.slots| - i
  {
    var fs := Fields(S, m.ty);
    if i < |m.slots| && i < |fs| then SlotSize(S, fs[i], m.slots[i].es) + SlotsSize(S, m, i + 1) else 0
  }

  function ByteSize(S: Schema, m: Msg): nat
    decreases m, |m.slots| + 1
  {
    SlotsSize(S, m, 0) + |m.unknown|
  }

  // ----- It is the exact serialized length -----

  /** The elements of a packed field are numbers of the field's width. */
  predicate Packable(f: Field, es: seq<Elem>) {
    f.rule.Packed? ==>
      forall e | e in es ::
        if f.kind.Float? then e.Fix? && |e.b| == 4 else if f.kind.Double? then e.Fix? && |e.b| == 8 else e.Num?
  }

  /** The packed fields of a message hold numbers, at every level. */
  predicate Sizable(S: Schema, m: Msg)
    decreases m
  {
    var fs := Fields(S, m.ty);
    forall i | 0 <= i < |fs| && i < |m.slots| :: SlotSizable(S, fs[i], m.slots[i].es)
  }

  predicate SlotSizable(S: Schema, f: Field, es: seq<Elem>)
    decreases es, 0
  {
    Packable(f, es) && forall e | e in es :: ElemSizable(S, e)
  }

  predicate ElemSizable(S: Schema, e: Elem)
    decreases e
  {
    e.Sub? ==> Sizable(S, e.m)
  }

  lemma {:induction false} PayloadSizeExact(S: Schema, e: Elem)
    requires ElemSizable(S, e)
    ensures PayloadSize(S, e) == |Payload(S, e)|
    decreases e
  {
    if e.Sub? {
      ByteSizeExact(S, e.m);
    }
  }

  lemma {:induction false} RecordsSizeExact(S: Schema, f: Field, es: seq<Elem>)
    requires forall e | e in es :: ElemSizable(S, e)
    ensures RecordsSize(S, f, es) == |Records(S, f, es)|
    ensures PayloadsSize(S, es) == |Payloads(S, es)|
    decreases es, 0
  {
    if es != [] {
      PayloadSizeExact(S, es[0]);
      RecordsSizeExact(S, f, es[1..]);
    }
  }

  lemma {:induction false} SlotSizeExact(S: Schema, f: Field, es: seq<Elem>)
    requires SlotSizable(S, f, es)
    ensures SlotSize(S, f, es) == |PrintSlot(S, f, es)|
    decreases es, 1
  {
    RecordsSizeExact(S, f, es);
    if f.rule.Packed? && es != [] {
      assert PayloadSize(S, es[0]) > 0;
    }
  }

  lemma {:induction false} SlotsSizeExact(S: Schema, m: Msg, i: nat)
    requires Sizable(S, m)
    ensures SlotsSize(S, m, i) + |m.unknown| == |PrintFrom(S, m, i)|
    decreases m, |m.slots| - i
  {
    var fs := Fields(S, m.ty);
    if i < |m.slots| && i < |fs| {
      SlotSizeExact(S, fs[i], m.slots[i].es);
      SlotsSizeExact(S, m, i + 1);
    }
  }

  /** `ByteSizeLong` is the number of bytes that printing the message writes. */
  lemma {:induction false} ByteSizeExact(S: Schema, m: Msg)
    requires Sizable(S, m)
    ensures ByteSize(S, m) == |Serialize(S, m)|
    decreases m, |m.slots| + 1
  {
    SlotsSizeExact(S, m, 0);
  }

  // ----- Cached sizes -----

  /** The `_cached_size_` of a message, the `_<field>_cached_byte_size_` of
      its packed fields, and the caches of its submessages, slot by slot. */
  datatype Cache = Cache(size: nat, packed: seq<nat>, subs: seq<Caches>)
  datatype Caches = Caches(cs: seq<Cache>)

  const NO_CACHE := Cache(0, [], [])

  function CacheAt(c: Cache, i: nat): seq<Cache> {
    if i < |c.subs| then c.subs[i].cs else []
  }

  function PackedAt(c: Cache, i: nat): nat {
    if i < |c.packed| then c.packed[i] else 0
  }

  function PrintElem(S: Schema, e: Elem, c: Cache): bytes
    decreases e, 0
  {
    match e
    case Sub(m) => Varint(c.size) + PrintCached(S, m, c)
    case _ => Payload(S, e)
  }

  function PrintRecords(S: Schema, f: Field, es: seq<Elem>, cs: seq<Cache>): bytes
    decreases es, 0
  {
    if es == [] then []
    else (if Omitted(f, es[0]) then []
          else Tag(f.num, ElemWire(es[0])) + PrintElem(S, es[0], if cs == [] then NO_CACHE else cs[0]))
         + PrintRecords(S, f, es[1..], if cs == [] then [] else cs[1..])
  }

  /** The length of a chunk of varints is taken from the cache, that of a
      chunk of fixed-width values from the number of elements. */
  function PrintSlotCached(S: Schema, f: Field, es: seq<Elem>, n: nat, cs: seq<Cache>): bytes
    decreases es, 1
  {
    if !f.rule.Packed? then PrintRecords(S, f, es, cs)
    else if f.kind.Float? || f.kind.Double? then
      if es == [] then []
      else Tag(f.num, LENGTH_DELIMITED) + Varint((if f.kind.Float? then 4 else 8) * |es|) + Payloads(S, es)
    else if n == 0 then []
    else Tag(f.num, LENGTH_DELIMITED) + Varint(n) + Payloads(S, es)
  }

  function PrintSlotsCached(S: Schema, m: Msg, c: Cache, i: nat): bytes
    decreases m, |m.slots| - i
  {
    var fs := Fields(S, m.ty);
    if i < |m.slots| && i < |fs| then
      PrintSlotCached(S, fs[i], m.slots[i].es, PackedAt(c, i), CacheAt(c, i)) + PrintSlotsCached(S, m, c, i + 1)
    else m.unknown
  }

  /** `_InternalSerialize`: every length prefix of a submessage is a cached size. */
  function PrintCached(S: Schema, m: Msg, c: Cache): bytes
    decreases m, |m.slots| + 1
  {
    PrintSlotsCached(S, m, c, 0)
  }

  // ----- When the caches are right -----

  ghost predicate CacheRight(S: Schema, m: Msg, c: Cache)
    decreases m
  {
    && c.size == ByteSize(S, m)
    && |c.packed| == |c.subs| == |m.slots|
    && forall i | 0 <= i < |m.slots| :: SlotCached(S, m.slots[i].es, c.packed[i], c.subs[i].cs)
  }

  ghost predicate SlotCached(S: Schema, es: seq<Elem>, n: nat, cs: seq<Cache>)
    decreases es, 0
  {
    && n == PayloadsSize(S, es)
    && |cs| == |es|
    && forall k | 0 <= k < |es| :: ElemCacheRight(S, es[k], cs[k])
  }

  ghost predicate ElemCacheRight(S: Schema, e: Elem, c: Cache)
    decreases e
  {
    e.Sub? ==> CacheRight(S, e.m, c)
  }

  lemma {:induction false} FixedPayloads(S: Schema, w: nat, es: seq<Elem>)
    requires forall e | e in es :: e.Fix? && |e.b| == w
    ensures PayloadsSize(S, es) == w * |es|
  {
    if es != [] {
      FixedPayloads(S, w, es[1..]);
      var n: nat := |es| - 1;
      assert es[0] in es && PayloadSize(S, es[0]) == w;
      assert |es[1..]| == n && PayloadsSize(S, es[1..]) == w * n;
      OneMore(w, n);
      assert |es| == n + 1;
    }
  }

  lemma OneMore(w: nat, n: nat)
    ensures w + w * n == w * (n + 1)
  {
  }

  lemma {:induction false} PrintElemExact(S: Schema, e: Elem, c: Cache)
    requires ElemSizable(S, e) && ElemCacheRight(S, e, c)
    ensures PrintElem(S, e, c) == Payload(S, e)
    decreases e, 0
  {
    if e.Sub? {
      PrintCachedExact(S, e.m, c);
      ByteSizeExact(S, e.m);
    }
  }

  lemma {:induction false} PrintRecordsExact(S: Schema, f: Field, es: seq<Elem>, cs: seq<Cache>)
    requires forall e | e in es :: ElemSizable(S, e)
    requires |cs| == |es| && forall k | 0 <= k < |es| :: ElemCacheRight(S, es[k], cs[k])
    ensures PrintRecords(S, f, es, cs) == Records(S, f, es)
    decreases es, 0
  {
    if es != [] {
      PrintElemExact(S, es[0], cs[0]);
      PrintRecordsExact(S, f, es[1..], cs[1..]);
    }
  }

  lemma {:induction false} PrintSlotExact(S: Schema, f: Field, es: seq<Elem>, n: nat, cs: seq<Cache>)
    requires SlotSizable(S, f, es) && SlotCached(S, es, n, cs)
    ensures PrintSlotCached(S, f, es, n, cs) == PrintSlot(S, f, es)
    decreases es, 1
  {
    if !f.rule.Packed? {
      PrintRecordsExact(S, f, es, cs);
    } else {
      RecordsSizeExact(S, f, es);
      if f.kind.Float? { FixedPayloads(S, 4, es); }
      if f.kind.Double? { FixedPayloads(S, 8, es); }
      if es != [] {
        assert PayloadSize(S, es[0]) > 0;
        AppendAssoc(Tag(f.num, LENGTH_DELIMITED), Varint(n), Payloads(S, es));
      }
    }
  }

  lemma {:induction false} PrintSlotsExact(S: Schema, m: Msg, c: Cache, i: nat)
    requires Sizable(S, m) && CacheRight(S, m, c)
    ensures PrintSlotsCached(S, m, c, i) == PrintFrom(S, m, i)
    decreases m, |m.slots| - i
  {
    var fs := Fields(S, m.ty);
    if i < |m.slots| && i < |fs| {
      PrintSlotExact(S, fs[i], m.slots[i].es, c.packed[i], c.subs[i].cs);
      PrintSlotsExact(S, m, c, i + 1);
    }
  }

  /** With the caches the size pass leaves, printing writes the right length
      prefixes at every level. */
  lemma {:induction false} PrintCachedExact(S: Schema, m: Msg, c: Cache)
    requires Sizable(S, m) && CacheRight(S, m, c)
    ensures PrintCached(S, m, c) == Serialize(S, m)
    decreases m, |m.slots| + 1
  {
    PrintSlotsExact(S, m, c, 0);
  }
}
