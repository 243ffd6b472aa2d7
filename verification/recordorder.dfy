/** Field order and packed repeated fields: a parse depends on the records of
    each field in their order, not on how the fields are interleaved nor on how
    the elements of a packed field are split into chunks. */
module RecordOrder {
  import opened Wire
  import opened Messages
  import opened MessageLaws
  import opened MergeLaws
  import RoundTrip

  const UNKNOWN: int := -1
  const ONEOF: int := -2

  /** What a slot is written by: its own field, or any member of the oneof. */
  function SlotKey(fs: seq<Field>, i: nat): int {
    if i < |fs| && fs[i].rule.Oneof? then ONEOF else i
  }

  function Key(S: Schema, ty: nat, a: Act): int {
    if a.Keep? then UNKNOWN else SlotKey(Fields(S, ty), a.i)
  }

  /** The actions of key `k`, in order. */
  function Only(S: Schema, ty: nat, k: int, acts: seq<Act>): seq<Act> {
    if acts == [] then []
    else (if Key(S, ty, acts[0]) == k then [acts[0]] else []) + Only(S, ty, k, acts[1..])
  }

  /** The elements a list of actions puts. */
  function Elems(acts: seq<Act>): seq<Elem> {
    if acts == [] then [] else (if acts[0].Put? then acts[0].es else []) + Elems(acts[1..])
  }

  predicate PackedKey(fs: seq<Field>, k: int) {
    0 <= k < |fs| && fs[k].rule.Packed?
  }

  /** The same records for every field: for a packed field, the same elements in all. */
  ghost predicate SameByField(S: Schema, ty: nat, p: seq<Act>, q: seq<Act>) {
    forall k ::
      if PackedKey(Fields(S, ty), k) then Elems(Only(S, ty, k, p)) == Elems(Only(S, ty, k, q))
      else Only(S, ty, k, p) == Only(S, ty, k, q)
  }

  /** The parts of two messages that key `k` writes are the same. */
  ghost predicate Agree(S: Schema, k: int, m: Msg, n: Msg) {
    && m.ty == n.ty && |m.slots| == |n.slots|
    && (k == UNKNOWN ==> m.unknown == n.unknown)
    && forall i | 0 <= i < |m.slots| && SlotKey(Fields(S, m.ty), i) == k :: m.slots[i] == n.slots[i]
  }

  lemma ApplyOther(S: Schema, k: int, m: Msg, a: Act)
    requires Key(S, m.ty, a) != k
    ensures Agree(S, k, m, Apply(S, m, a))
  {
  }

  lemma ApplySame(S: Schema, k: int, m: Msg, n: Msg, a: Act)
    requires Key(S, m.ty, a) == k && Agree(S, k, m, n)
    ensures Agree(S, k, Apply(S, m, a), Apply(S, n, a))
  {
    if !a.Keep? && a.i < |m.slots| {
      assert SlotKey(Fields(S, m.ty), a.i) == k;
      assert m.slots[a.i] == n.slots[a.i];
    }
  }

  lemma {:induction false} RunOnly(S: Schema, k: int, m: Msg, n: Msg, acts: seq<Act>)
    requires Agree(S, k, m, n)
    ensures Agree(S, k, Run(S, m, acts), Run(S, n, Only(S, m.ty, k, acts)))
    decreases |acts|
  {
    if acts != [] {
      var a := acts[0];
      if Key(S, m.ty, a) == k {
        ApplySame(S, k, m, n, a);
        RunOnly(S, k, Apply(S, m, a), Apply(S, n, a), acts[1..]);
        assert Only(S, m.ty, k, acts)[1..] == Only(S, m.ty, k, acts[1..]);
      } else {
        ApplyOther(S, k, m, a);
        RunOnly(S, k, Apply(S, m, a), n, acts[1..]);
        assert Only(S, m.ty, k, acts) == Only(S, m.ty, k, acts[1..]);
      }
    }
  }

  predicate AllOfSlot(acts: seq<Act>, i: nat) {
    forall a | a in acts :: !a.Keep? && a.i == i
  }

  lemma {:induction false} OnlyOfSlot(S: Schema, ty: nat, i: nat, acts: seq<Act>)
    requires i < |Fields(S, ty)| && Fields(S, ty)[i].rule.Packed?
    ensures AllOfSlot(Only(S, ty, i, acts), i)
  {
    if acts != [] {
      OnlyOfSlot(S, ty, i, acts[1..]);
    }
  }

  lemma {:induction false} RunPacked(S: Schema, m: Msg, i: nat, acts: seq<Act>)
    requires i < |Fields(S, m.ty)| && i < |m.slots| && WfField(S, Fields(S, m.ty)[i])
    requires Fields(S, m.ty)[i].rule.Packed? && AllOfSlot(acts, i)
    ensures Run(S, m, acts) == With(m, i, m.slots[i].es + Elems(acts))
    decreases |acts|
  {
    if acts == [] {
      assert m.slots[i].es + [] == m.slots[i].es;
      assert m.slots[i := Slot(m.slots[i].es)] == m.slots;
    } else {
      var es := if acts[0].Put? then acts[0].es else [];
      assert acts[0] in acts;
      assert m.slots[i].es + [] == m.slots[i].es && m.slots[i := Slot(m.slots[i].es)] == m.slots;
      RunPacked(S, With(m, i, m.slots[i].es + es), i, acts[1..]);
      AppendAssoc(m.slots[i].es, es, Elems(acts[1..]));
    }
  }

  lemma RunKey(S: Schema, m: Msg, k: int, p: seq<Act>, q: seq<Act>)
    requires WfSchema(S) && m.ty < |S| && |m.slots| == |S[m.ty]| && SameByField(S, m.ty, p, q)
    ensures Agree(S, k, Run(S, m, p), Run(S, m, q))
  {
    RunOnly(S, k, m, m, p);
    RunOnly(S, k, m, m, q);
    if PackedKey(S[m.ty], k) {
      assert WfType(S, S[m.ty]) && WfField(S, S[m.ty][k]);
      OnlyOfSlot(S, m.ty, k, p);
      OnlyOfSlot(S, m.ty, k, q);
      RunPacked(S, m, k, Only(S, m.ty, k, p));
      RunPacked(S, m, k, Only(S, m.ty, k, q));
    }
  }

  lemma RunByField(S: Schema, m: Msg, p: seq<Act>, q: seq<Act>)
    requires WfSchema(S) && m.ty < |S| && |m.slots| == |S[m.ty]| && SameByField(S, m.ty, p, q)
    ensures Run(S, m, p) == Run(S, m, q)
  {
    RunKey(S, m, UNKNOWN, p, q);
    forall i | 0 <= i < |m.slots|
      ensures Run(S, m, p).slots[i] == Run(S, m, q).slots[i]
    {
      RunKey(S, m, SlotKey(S[m.ty], i), p, q);
    }
    assert Run(S, m, p).slots == Run(S, m, q).slots;
  }

  /** Two strings with the same records for every field parse to the same message. */
  lemma ParseByField(S: Schema, d: nat, m: Msg, x: bytes, y: bytes)
    requires WfSchema(S) && m.ty < |S| && |m.slots| == |S[m.ty]|
    requires Decode(S, m.ty, d, x).Done? && Decode(S, m.ty, d, y).Done?
    requires SameByField(S, m.ty, Decode(S, m.ty, d, x).acts, Decode(S, m.ty, d, y).acts)
    ensures Parse(S, d, m, x) == Parse(S, d, m, y)
  {
    RunByField(S, m, Decode(S, m.ty, d, x).acts, Decode(S, m.ty, d, y).acts);
  }

  /** One whole record of key `k`. */
  predicate IsRecord(S: Schema, ty: nat, d: nat, r: bytes, k: int) {
    var x := Decode(S, ty, d, r);
    x.Done? && |x.acts| == 1 && Key(S, ty, x.acts[0]) == k
  }

  lemma ApplyCommutes(S: Schema, m: Msg, a: Act, b: Act)
    requires WfSchema(S) && m.ty < |S| && |m.slots| == |S[m.ty]| && Key(S, m.ty, a) != Key(S, m.ty, b)
    ensures Run(S, m, [a, b]) == Run(S, m, [b, a])
  {
    forall k
      ensures Only(S, m.ty, k, [a, b]) == Only(S, m.ty, k, [b, a])
    {
      assert [a, b][1..] == [b] && [b, a][1..] == [a];
    }
    RunByField(S, m, [a, b], [b, a]);
  }

  /** Swapping adjacent records of different fields changes nothing, whatever
      stands after them. */
  lemma SwapRecords(S: Schema, d: nat, m: Msg, r: bytes, s: bytes, j: int, k: int, rest: bytes)
    requires WfSchema(S) && m.ty < |S| && |m.slots| == |S[m.ty]|
    requires IsRecord(S, m.ty, d, r, j) && IsRecord(S, m.ty, d, s, k) && j != k
    ensures Parse(S, d, m, r + s + rest) == Parse(S, d, m, s + r + rest)
  {
    var a := Decode(S, m.ty, d, r).acts[0];
    var b := Decode(S, m.ty, d, s).acts[0];
    TwoRecords(S, d, m, r, s, rest, a, b);
    TwoRecords(S, d, m, s, r, rest, b, a);
    ApplyCommutes(S, m, a, b);
  }

  lemma TwoRecords(S: Schema, d: nat, m: Msg, r: bytes, s: bytes, rest: bytes, a: Act, b: Act)
    requires Decode(S, m.ty, d, r) == Done([a]) && Decode(S, m.ty, d, s) == Done([b])
    ensures Parse(S, d, m, r + s + rest) == Parse(S, d, Run(S, m, [a, b]), rest)
  {
    DecodeAppend(S, m.ty, d, r, s);
    assert [a] + [b] == [a, b];
    DecodeAppend(S, m.ty, d, r + s, rest);
    var x := Decode(S, m.ty, d, rest);
    if x.Done? {
      RunAppend(S, m, [a, b], x.acts);
    }
  }

  // ----- Packed chunks and single elements -----

  datatype Chunk = Together(es: seq<Elem>) | Single(e: Elem)

  function ChunkElems(cs: seq<Chunk>): seq<Elem> {
    if cs == [] then [] else (if cs[0].Single? then [cs[0].e] else cs[0].es) + ChunkElems(cs[1..])
  }

  function PrintChunk(S: Schema, f: Field, c: Chunk): bytes {
    match c
    case Together(es) => Tag(f.num, LENGTH_DELIMITED) + Delimited(Payloads(S, es))
    case Single(e) => Tag(f.num, WireType(f.kind)) + Payload(S, e)
  }

  function PrintChunks(S: Schema, f: Field, cs: seq<Chunk>): bytes {
    if cs == [] then [] else PrintChunk(S, f, cs[0]) + PrintChunks(S, f, cs[1..])
  }

  predicate ChunkFits(S: Schema, f: Field, c: Chunk) {
    match c
    case Together(es) => (forall e | e in es :: ScalarFits(f.kind, e)) && |Payloads(S, es)| <= MAX_SIZE
    case Single(e) => ScalarFits(f.kind, e)
  }

  /** However a packed list is cut into chunks and single elements, the same list is added. */
  lemma {:induction false} ParseChunks(S: Schema, d: nat, m: Msg, i: nat, cs: seq<Chunk>, rest: bytes)
    requires WfSchema(S) && m.ty < |S| && |m.slots| == |S[m.ty]| && i < |m.slots| && S[m.ty][i].rule.Packed?
    requires forall c | c in cs :: ChunkFits(S, S[m.ty][i], c)
    ensures Parse(S, d, m, PrintChunks(S, S[m.ty][i], cs) + rest)
         == Parse(S, d, With(m, i, m.slots[i].es + ChunkElems(cs)), rest)
    decreases |cs|
  {
    var f := S[m.ty][i];
    if cs == [] {
      assert m.slots[i].es + [] == m.slots[i].es;
      assert m.slots[i := Slot(m.slots[i].es)] == m.slots;
      assert [] + rest == rest;
    } else {
      var es := if cs[0].Single? then [cs[0].e] else cs[0].es;
      var more := PrintChunks(S, f, cs[1..]) + rest;
      assert cs[0] in cs && ChunkFits(S, f, cs[0]);
      ParseChunk(S, d, m, i, cs[0], more);
      var m1 := With(m, i, m.slots[i].es + es);
      var all := m.slots[i].es + ChunkElems(cs);
      ParseChunks(S, d, m1, i, cs[1..], rest);
      assert m1.slots[i := Slot(all)] == m.slots[i := Slot(all)];
      AppendAssoc(PrintChunk(S, f, cs[0]), PrintChunks(S, f, cs[1..]), rest);
      AppendAssoc(m.slots[i].es, es, ChunkElems(cs[1..]));
    }
  }

  lemma ParseChunk(S: Schema, d: nat, m: Msg, i: nat, c: Chunk, more: bytes)
    requires WfSchema(S) && m.ty < |S| && |m.slots| == |S[m.ty]| && i < |m.slots| && S[m.ty][i].rule.Packed?
    requires ChunkFits(S, S[m.ty][i], c)
    ensures Parse(S, d, m, PrintChunk(S, S[m.ty][i], c) + more)
         == Parse(S, d, With(m, i, m.slots[i].es + (if c.Single? then [c.e] else c.es)), more)
  {
    var f := S[m.ty][i];
    assert WfType(S, S[m.ty]) && WfField(S, f);
    if c.Single? {
      if c.e.Num? { VarintFits64(Widen(c.e.n)); }
      RoundTrip.StepOfElem(S, m.ty, d, i, c.e, more);
    } else {
      RoundTrip.StepOfChunk(S, m.ty, d, i, c.es, more);
    }
    var b := PrintChunk(S, f, c) + more;
    DecodeMore(S, m.ty, d, b);
    var x := Decode(S, m.ty, d, more);
    if x.Done? {
      RunAppend(S, m, [DecodeStep(S, m.ty, d, b).act], x.acts);
    }
  }
}
