/** The tensor slots that the ONNX and TFLite runtimes hand to the accelerator:
    one for every super-batch, virtual core and tensor. */
module BatchSlots {
  import opened Arithmetic
  import opened StridedCopy
  import opened TensorLayout

  /** The fields of a runtime tensor that the loops set. */
  datatype RtTensor = RtTensor(name: string, layout: Layout, elementType: int, ptr: int, bufferSize: int,
                               scale: real, zeroPoint: int, shared: bool)

  function Product(s: seq<int>): int {
    if s == [] then 1 else s[0] * Product(s[1..])
  }

  // ----- Slot numbers -----

  /** The slot of tensor `j` on virtual core `k` of super-batch `l`. */
  function Slot(l: int, k: int, j: int, cores: int, n: int): int {
    l * cores * n + k * n + j
  }

  /** The slot numbers are a bijection onto [0, L * V * N). */
  lemma SlotBijection(batches: nat, cores: nat, n: nat)
    requires batches > 0 && cores > 0 && n > 0
    ensures forall l, k, j | 0 <= l < batches && 0 <= k < cores && 0 <= j < n ::
              0 <= Slot(l, k, j, cores, n) < batches * (cores * n)
    ensures forall l, k, j, l', k', j' | 0 <= l < batches && 0 <= k < cores && 0 <= j < n
                                      && 0 <= l' < batches && 0 <= k' < cores && 0 <= j' < n
                                      && Slot(l, k, j, cores, n) == Slot(l', k', j', cores, n) ::
              l == l' && k == k' && j == j'
    ensures forall i | 0 <= i < batches * (cores * n) :: IsSlot(i, batches, cores, n)
  {
    hide DstAt, SrcAt, Slot;
    var dims := [Dim(batches, cores * n, 0), Dim(cores, n, 0), Dim(n, 1, 0)];
    SlotsDense(batches, cores, n);
    DenseBijective(dims, batches * (cores * n));
    forall l, k, j | 0 <= l < batches && 0 <= k < cores && 0 <= j < n
      ensures InBox(dims, [l, k, j]) && DstAt(dims, [l, k, j]) == Slot(l, k, j, cores, n)
    {
      At3(dims, [l, k, j]);
      SlotAt(l, k, j, cores, n);
    }
    forall l, k, j, l', k', j' | 0 <= l < batches && 0 <= k < cores && 0 <= j < n
                              && 0 <= l' < batches && 0 <= k' < cores && 0 <= j' < n
                              && Slot(l, k, j, cores, n) == Slot(l', k', j', cores, n)
      ensures l == l' && k == k' && j == j'
    {
      var x: seq<nat> := [l, k, j];
      var y: seq<nat> := [l', k', j'];
      assert InBox(dims, x) && InBox(dims, y) && DstAt(dims, x) == DstAt(dims, y);
      assert x[0] == y[0] && x[1] == y[1] && x[2] == y[2];
    }
    forall i | 0 <= i < batches * (cores * n)
      ensures IsSlot(i, batches, cores, n)
    {
      assert Reaches(dims, i);
      var x :| InBox(dims, x) && DstAt(dims, x) == i;
      assert x == [x[0], x[1], x[2]];
      assert Slot(x[0], x[1], x[2], cores, n) == i;
    }
  }

  ghost predicate IsSlot(i: int, batches: nat, cores: nat, n: nat) {
    exists l, k, j :: 0 <= l < batches && 0 <= k < cores && 0 <= j < n && Slot(l, k, j, cores, n) == i
  }

  lemma SlotAt(l: int, k: int, j: int, cores: int, n: int)
    ensures l * (cores * n) + k * n + j * 1 == Slot(l, k, j, cores, n)
  {
  }

  lemma SlotsDense(batches: nat, cores: nat, n: nat)
    ensures var dims := [Dim(batches, cores * n, 0), Dim(cores, n, 0), Dim(n, 1, 0)];
            Dense(dims) && Size(dims) == batches * (cores * n)
  {
    var d0 := [Dim(batches, cores * n, 0), Dim(cores, n, 0), Dim(n, 1, 0)];
    var d1 := d0[1..];
    var d2 := d1[1..];
    assert d2[1..] == [];
    assert Size(d2) == n && Dense(d2);
    assert Size(d1) == cores * n && Dense(d1);
  }

  /** The slots of one tensor are those with its number as remainder; the quotient
      counts the batches. */
  lemma SlotDivides(b: nat, j: nat, n: nat)
    requires j < n
    ensures (b * n + j) / n == b && (b * n + j) % n == j
  {
    ModIs(b * n + j, n, b, j);
  }

  // ----- Filling the slots of one tensor -----

  /** The slot of batch number `b`. */
  function Filled(t: RtTensor, bytes: int, b: int): RtTensor {
    t.(ptr := t.ptr + b * bytes)
  }

  /** The slots of tensor `j` in the first `b` batches are filled; nothing else differs. */
  ghost predicate FilledUpTo(was: seq<RtTensor>, now: seq<RtTensor>, wasPtrs: seq<int>, nowPtrs: seq<int>,
                             t: RtTensor, bytes: int, j: nat, n: nat, b: nat) {
    && n > 0 && |was| == |now| && |wasPtrs| == |nowPtrs|
    && (forall i | 0 <= i < |now| :: now[i] == if i % n == j && i / n < b then Filled(t, bytes, i / n) else was[i])
    && forall i | 0 <= i < |nowPtrs| :: nowPtrs[i] == if i % n == j && i / n < b then i else wasPtrs[i]
  }

  lemma FillNext(was: seq<RtTensor>, now: seq<RtTensor>, wasPtrs: seq<int>, nowPtrs: seq<int>,
                 t: RtTensor, bytes: int, j: nat, n: nat, b: nat)
    requires FilledUpTo(was, now, wasPtrs, nowPtrs, t, bytes, j, n, b) && j < n
    requires b * n + j < |now| && b * n + j < |nowPtrs|
    ensures var i := b * n + j;
            FilledUpTo(was, now[i := Filled(t, bytes, b)], wasPtrs, nowPtrs[i := i], t, bytes, j, n, b + 1)
  {
    var at := b * n + j;
    SlotDivides(b, j, n);
    forall i: nat | i % n == j && i / n == b
      ensures i == at
    {
      assert i == n * (i / n) + i % n;
    }
  }

  /** The loops over super-batches and virtual cores, the same in both runtimes. */
  method FillSlots(t: RtTensor, elements: int, size: int, slots: array<RtTensor>, rtPtrs: array<int>,
                   j: nat, batches: nat, cores: nat, n: nat)
    requires j < n && batches * cores * n <= slots.Length && batches * cores * n <= rtPtrs.Length
    requires slots as object != rtPtrs as object
    modifies slots, rtPtrs
    ensures FilledUpTo(old(slots[..]), slots[..], old(rtPtrs[..]), rtPtrs[..],
                       t, elements * size, j, n, batches * cores)
  {
    hide FilledUpTo, Slot;
    ghost var was, wasPtrs, bytes := slots[..], rtPtrs[..], elements * size;
    NothingFilled(was, wasPtrs, t, bytes, j, n);
    var l := 0;
    while l < batches
      invariant l <= batches
      invariant FilledUpTo(was, slots[..], wasPtrs, rtPtrs[..], t, bytes, j, n, l * cores)
    {
      var k := 0;
      MulMono(l + 1, batches, cores);
      while k < cores
        invariant k <= cores
        invariant FilledUpTo(was, slots[..], wasPtrs, rtPtrs[..], t, bytes, j, n, l * cores + k)
      {
        var idx := l * cores * n + k * n + j;
        BatchBelow(l, k, j, batches, cores, n);
        FillNext(was, slots[..], wasPtrs, rtPtrs[..], t, bytes, j, n, l * cores + k);
        BatchStart(l, k, cores, elements, size);
        rtPtrs[idx] := idx;
        slots[idx] := t.(ptr := t.ptr + l * cores * elements * size + k * elements * size);
        k := k + 1;
      }
      l := l + 1;
    }
  }

  lemma NothingFilled(was: seq<RtTensor>, wasPtrs: seq<int>, t: RtTensor, bytes: int, j: nat, n: nat)
    requires n > 0
    ensures FilledUpTo(was, was, wasPtrs, wasPtrs, t, bytes, j, n, 0)
  {
    forall i: nat
      ensures i / n >= 0
    {
      NotBefore(i, n);
    }
  }

  lemma NotBefore(i: nat, n: nat)
    requires n > 0
    ensures i / n >= 0
  {
  }

  lemma BatchBelow(l: nat, k: nat, j: nat, batches: nat, cores: nat, n: nat)
    requires l < batches && k < cores && j < n
    ensures l * cores * n + k * n + j == (l * cores + k) * n + j
    ensures 0 <= (l * cores + k) * n + j < batches * cores * n
    ensures (l + 1) * cores == l * cores + cores
  {
    var m := l * cores + k;
    Distribute(l * cores, k, n);
    Distribute(l, 1, cores);
    MulMono(l + 1, batches, cores);
    MulMono(m + 1, batches * cores, n);
    Distribute(m, 1, n);
    MulNonNegative(l, cores);
    MulNonNegative(m, n);
  }

  lemma BatchStart(l: nat, k: nat, cores: nat, elements: int, size: int)
    ensures l * cores * elements * size + k * elements * size == (l * cores + k) * (elements * size)
  {
    var b := elements * size;
    assert l * cores * elements * size == l * cores * b;
    assert k * elements * size == k * b;
  }

  // ----- The driver loops -----

  /** A tensor as a runtime sees it, and what one of its slots starts from. */
  datatype Source = Source(slot: RtTensor, elements: int, size: int)

  /** The slots of the first `c` tensors are filled in every batch; nothing else differs. */
  ghost predicate AllFilled(was: seq<RtTensor>, now: seq<RtTensor>, wasPtrs: seq<int>, nowPtrs: seq<int>,
                            ts: seq<Source>, c: nat, n: nat, b: nat) {
    && c <= |ts| && c <= n && n > 0 && |was| == |now| && |wasPtrs| == |nowPtrs|
    && (forall i | 0 <= i < |now| :: now[i] == if i % n < c && i / n < b then SourceSlot(ts[i % n], i / n) else was[i])
    && forall i | 0 <= i < |nowPtrs| :: nowPtrs[i] == if i % n < c && i / n < b then i else wasPtrs[i]
  }

  function SourceSlot(s: Source, b: int): RtTensor {
    Filled(s.slot, s.elements * s.size, b)
  }

  lemma FillTensor(was: seq<RtTensor>, mid: seq<RtTensor>, now: seq<RtTensor>,
                   wasPtrs: seq<int>, midPtrs: seq<int>, nowPtrs: seq<int>, ts: seq<Source>, c: nat, n: nat, b: nat)
    requires AllFilled(was, mid, wasPtrs, midPtrs, ts, c, n, b) && c < |ts| && c < n
    requires FilledUpTo(mid, now, midPtrs, nowPtrs, ts[c].slot, ts[c].elements * ts[c].size, c, n, b)
    ensures AllFilled(was, now, wasPtrs, nowPtrs, ts, c + 1, n, b)
  {
  }

  lemma NoneFilled(was: seq<RtTensor>, wasPtrs: seq<int>, ts: seq<Source>, n: nat, b: nat)
    requires n > 0
    ensures AllFilled(was, was, wasPtrs, wasPtrs, ts, 0, n, b)
  {
  }

  // ----- Sizes -----

  /** `bufferSize`: the product of a shape. */
  method ShapeProduct(shape: seq<int>) returns (r: int)
    ensures r == Product(shape)
  {
    r := 1;
    var k := 0;
    while k < |shape|
      invariant k <= |shape| && r * Product(shape[k..]) == Product(shape)
    {
      ProductStep(shape, k, r);
      r := r * shape[k];
      k := k + 1;
    }
  }

  lemma ProductStep(s: seq<int>, k: nat, r: int)
    requires k < |s|
    ensures r * Product(s[k..]) == r * s[k] * Product(s[k + 1..])
  {
    assert s[k..][1..] == s[k + 1..];
  }

  /** TFLite's elements per batch: the last dimension times those before it, down to
      the second. */
  method ElementsPerBatch(dims: seq<int>) returns (r: int)
    requires dims != []
    ensures r == TfliteElements(dims)
  {
    r := dims[|dims| - 1];
    var i := |dims| - 2;
    LastProduct(dims);
    while i > 0
      invariant -1 <= i < |dims| - 1 && (|dims| > 1 ==> i >= 0) && (i >= 0 ==> r == Product(dims[i + 1..]))
          && (i < 0 ==> r == dims[0])
    {
      assert dims[i..][1..] == dims[i + 1..];
      r := r * dims[i];
      i := i - 1;
    }
  }

  lemma LastProduct(dims: seq<int>)
    requires dims != []
    ensures Product(dims[|dims| - 1..]) == dims[|dims| - 1]
  {
    assert dims[|dims| - 1..] == [dims[|dims| - 1]];
  }

  /** What a runtime's tensor descriptor gives the loops: the elements of one batch,
      counted by dimensions (ONNX) or by the loop above (TFLite). */
  function OnnxElements(dim1: int, dim2: int, channels: int, height: int, width: int): int {
    dim1 * dim2 * channels * height * width
  }

  /** The data slices that a tensor's slots point to tile its buffer: each starts
      where the one before it ends, and an address lies in exactly one. */
  lemma SlicesTile(s: Source, b: nat, address: int)
    requires s.elements > 0 && s.size > 0 && s.slot.ptr <= address < s.slot.ptr + b * (s.elements * s.size)
    ensures var bytes := s.elements * s.size;
            var q := (address - s.slot.ptr) / bytes;
            && 0 <= q < b
            && SourceSlot(s, q).ptr <= address < SourceSlot(s, q + 1).ptr == SourceSlot(s, q).ptr + bytes
            && forall p | 0 <= p < b && SourceSlot(s, p).ptr <= address < SourceSlot(s, p).ptr + bytes :: p == q
  {
    var bytes := s.elements * s.size;
    var at := address - s.slot.ptr;
    var q := at / bytes;
    DivBelow(at, b, bytes);
    forall p | 0 <= p < b && SourceSlot(s, p).ptr <= address < SourceSlot(s, p).ptr + bytes
      ensures p == q
    {
      SlotDivides(p, at - p * bytes, bytes);
    }
    assert (q + 1) * bytes == q * bytes + bytes;
  }

  /** With the batch as first dimension and at least one more, TFLite's slices cover
      the tensor exactly; a rank-one tensor they cover only when it has at most
      one element. */
  lemma TfliteCoversTensor(dims: seq<int>, b: nat, elements: int)
    requires dims != [] && dims[0] == b && elements == TfliteElements(dims)
    ensures |dims| >= 2 ==> b * elements == Product(dims)
    ensures |dims| == 1 ==> (b * elements == Product(dims) <==> b <= 1)
  {
    if |dims| == 1 {
      LastProduct(dims);
      assert dims[0..] == dims;
      if b > 1 {
        MulMono(2, b, b);
      }
    }
  }

  /** Two batches of a rank-one tensor of two elements are given two elements each. */
  lemma RankOneOverrun()
    ensures 2 * TfliteElements([2]) == 4 && Product([2]) == 2
  {
    LastProduct([2]);
    assert [2][0..] == [2];
  }

  // ----- The two runtimes -----

  /** A tensor of the ONNX runtime, its element type already translated. */
  datatype OnnxTensor = OnnxTensor(name: string, elementType: int, elementSize: int, data: int, inSharedMem: bool,
                                   shape: seq<int>, dim1: int, dim2: int, channels: int, height: int, width: int)

  function OnnxSource(t: OnnxTensor, def: RtTensor, isInfer: bool, isInput: bool): Source {
    Source(def.(layout := NCHW, bufferSize := if isInput then Product(t.shape) else -1, name := t.name,
                elementType := t.elementType, ptr := t.data, shared := def.shared || (t.inSharedMem && isInfer)),
           OnnxElements(t.dim1, t.dim2, t.channels, t.height, t.width), t.elementSize)
  }

  function OnnxSources(ts: seq<OnnxTensor>, def: RtTensor, isInfer: bool, isInput: bool): (r: seq<Source>)
    ensures |r| == |ts|
  {
    seq(|ts|, i requires 0 <= i < |ts| => OnnxSource(ts[i], def, isInfer, isInput))
  }

  /** One direction of the ONNX runtime's driver: every slot of every tensor and
      batch is set, to the start of its own batch. */
  method OnnxSlots(ts: seq<OnnxTensor>, def: RtTensor, isInfer: bool, isInput: bool, numBufs: nat,
                   slots: array<RtTensor>, rtPtrs: array<int>, batches: nat, cores: nat)
    requires batches * cores > 0
    requires var n := numBufs / (batches * cores);
             0 < n && |ts| <= n && batches * cores * n <= slots.Length && batches * cores * n <= rtPtrs.Length
    requires slots as object != rtPtrs as object
    modifies slots, rtPtrs
    ensures AllFilled(old(slots[..]), slots[..], old(rtPtrs[..]), rtPtrs[..], OnnxSources(ts, def, isInfer, isInput),
                      |ts|, numBufs / (batches * cores), batches * cores)
  {
    hide FilledUpTo, AllFilled;
    var n := numBufs / (batches * cores);
    ghost var was, wasPtrs, srcs := slots[..], rtPtrs[..], OnnxSources(ts, def, isInfer, isInput);
    NoneFilled(was, wasPtrs, srcs, n, batches * cores);
    var j := 0;
    while j < |ts|
      invariant j <= |ts| && AllFilled(was, slots[..], wasPtrs, rtPtrs[..], srcs, j, n, batches * cores)
    {
      ghost var mid, midPtrs := slots[..], rtPtrs[..];
      var t := ts[j];
      var bufferSize := -1;
      if isInput {
        bufferSize := ShapeProduct(t.shape);
      }
      var slot := def.(layout := NCHW, bufferSize := bufferSize, name := t.name, elementType := t.elementType,
                       ptr := t.data, shared := def.shared || (t.inSharedMem && isInfer));
      var elements := t.dim1 * t.dim2 * t.channels * t.height * t.width;
      FillSlots(slot, elements, t.elementSize, slots, rtPtrs, j, batches, cores, n);
      assert srcs[j] == Source(slot, elements, t.elementSize);
      FillTensor(was, mid, slots[..], wasPtrs, midPtrs, rtPtrs[..], srcs, j, n, batches * cores);
      j := j + 1;
    }
  }

  datatype Allocation = ArenaRw | Custom | Other

  /** A tensor of the TFLite context. */
  datatype TfliteTensor = TfliteTensor(name: string, allocation: Allocation, elementType: int, elementSize: int,
                                       data: int, inSharedMem: bool, scale: real, zeroPoint: int, dims: seq<int>)

  function TfliteElements(dims: seq<int>): int
    requires dims != []
  {
    if |dims| == 1 then dims[0] else Product(dims[1..])
  }

  function TfliteSource(t: TfliteTensor, def: RtTensor, isInfer: bool, isInput: bool): Source
    requires t.dims != []
  {
    Source(def.(layout := NHWC, bufferSize := if isInput then Product(t.dims) else -1, name := t.name,
                scale := t.scale, zeroPoint := t.zeroPoint, elementType := t.elementType, ptr := t.data,
                shared := def.shared || (t.allocation.Custom? && t.inSharedMem && isInfer)),
           TfliteElements(t.dims), t.elementSize)
  }

  /** A node's tensor that the driver passes on: -1 stands for an optional one. */
  predicate Passed(i: int, context: seq<TfliteTensor>)
    requires i == -1 || 0 <= i < |context|
  {
    i != -1 && !context[i].allocation.Other?
  }

  /** A node names tensors of the context that have at least one dimension. */
  predicate WfList(list: seq<int>, context: seq<TfliteTensor>) {
    forall i | 0 <= i < |list| :: list[i] == -1 || (0 <= list[i] < |context| && context[list[i]].dims != [])
  }

  /** The tensors a node's list passes on, in order. */
  function TfliteSources(list: seq<int>, context: seq<TfliteTensor>, def: RtTensor, isInfer: bool,
                         isInput: bool): (r: seq<Source>)
    requires WfList(list, context)
    ensures |r| <= |list|
  {
    if list == [] then []
    else
      var i := list[|list| - 1];
      var before := TfliteSources(list[..|list| - 1], context, def, isInfer, isInput);
      if Passed(i, context) then before + [TfliteSource(context[i], def, isInfer, isInput)] else before
  }

  lemma MoreSources(was: seq<RtTensor>, now: seq<RtTensor>, wasPtrs: seq<int>, nowPtrs: seq<int>,
                    ts: seq<Source>, more: seq<Source>, c: nat, n: nat, b: nat)
    requires AllFilled(was, now, wasPtrs, nowPtrs, ts, c, n, b) && ts <= more
    ensures AllFilled(was, now, wasPtrs, nowPtrs, more, c, n, b)
  {
  }

  lemma {:induction false} SourcesPrefix(list: seq<int>, context: seq<TfliteTensor>, def: RtTensor, isInfer: bool,
                                         isInput: bool, m: nat)
    requires WfList(list, context) && m <= |list|
    ensures TfliteSources(list[..m], context, def, isInfer, isInput)
        <= TfliteSources(list, context, def, isInfer, isInput)
  {
    if m < |list| {
      assert list[..|list| - 1][..m] == list[..m];
      SourcesPrefix(list[..|list| - 1], context, def, isInfer, isInput, m);
    } else {
      assert list[..m] == list;
    }
  }

  lemma SourcesStep(list: seq<int>, context: seq<TfliteTensor>, def: RtTensor, isInfer: bool, isInput: bool, m: nat)
    requires WfList(list, context) && m < |list|
    ensures TfliteSources(list[..m + 1], context, def, isInfer, isInput)
         == if Passed(list[m], context)
            then TfliteSources(list[..m], context, def, isInfer, isInput)
                + [TfliteSource(context[list[m]], def, isInfer, isInput)]
            else TfliteSources(list[..m], context, def, isInfer, isInput)
  {
    assert list[..m + 1][..m] == list[..m];
  }

  /** The slots of one more TFLite tensor. */
  method SetTfliteTensor(t: TfliteTensor, def: RtTensor, isInfer: bool, isInput: bool, slots: array<RtTensor>,
                         rtPtrs: array<int>, j: nat, batches: nat, cores: nat, n: nat,
                         ghost was: seq<RtTensor>, ghost wasPtrs: seq<int>, ghost srcs: seq<Source>)
    requires t.dims != [] && j == |srcs| < n && batches * cores * n <= slots.Length
        && batches * cores * n <= rtPtrs.Length
    requires slots as object != rtPtrs as object
    requires AllFilled(was, slots[..], wasPtrs, rtPtrs[..], srcs, j, n, batches * cores)
    modifies slots, rtPtrs
    ensures AllFilled(was, slots[..], wasPtrs, rtPtrs[..], srcs + [TfliteSource(t, def, isInfer, isInput)],
                      j + 1, n, batches * cores)
  {
    hide FilledUpTo, AllFilled, Product;
    ghost var mid, midPtrs, more := slots[..], rtPtrs[..], srcs + [TfliteSource(t, def, isInfer, isInput)];
    var bufferSize := -1;
    if isInput {
      bufferSize := ShapeProduct(t.dims);
    }
    var elements := ElementsPerBatch(t.dims);
    var slot := def.(layout := NHWC, bufferSize := bufferSize, name := t.name, scale := t.scale,
                     zeroPoint := t.zeroPoint, elementType := t.elementType, ptr := t.data,
                     shared := def.shared || (t.allocation.Custom? && t.inSharedMem && isInfer));
    FillSlots(slot, elements, t.elementSize, slots, rtPtrs, j, batches, cores, n);
    MoreSources(was, mid, wasPtrs, midPtrs, srcs, more, j, n, batches * cores);
    FillTensor(was, mid, slots[..], wasPtrs, midPtrs, rtPtrs[..], more, j, n, batches * cores);
  }

  /** One direction of the TFLite runtime's driver. */
  method TfliteSlots(list: seq<int>, context: seq<TfliteTensor>, def: RtTensor, isInfer: bool, isInput: bool,
                     numBufs: nat, slots: array<RtTensor>, rtPtrs: array<int>, batches: nat, cores: nat)
    requires WfList(list, context) && batches * cores > 0
    requires var n := numBufs / (batches * cores);
             0 < n && |TfliteSources(list, context, def, isInfer, isInput)| <= n
             && batches * cores * n <= slots.Length && batches * cores * n <= rtPtrs.Length
    requires slots as object != rtPtrs as object
    modifies slots, rtPtrs
    ensures var srcs := TfliteSources(list, context, def, isInfer, isInput);
            AllFilled(old(slots[..]), slots[..], old(rtPtrs[..]), rtPtrs[..], srcs,
                      |srcs|, numBufs / (batches * cores), batches * cores)
  {
    hide AllFilled, TfliteSources, TfliteSource;
    var n := numBufs / (batches * cores);
    ghost var was, wasPtrs := slots[..], rtPtrs[..];
    assert TfliteSources([], context, def, isInfer, isInput) == [] by {
      NoSources(context, def, isInfer, isInput);
    }
    NoneFilled(was, wasPtrs, [], n, batches * cores);
    assert list[..0] == [];
    var m, currTensorNum := 0, 0;
    while m < |list|
      invariant m <= |list| && currTensorNum == |TfliteSources(list[..m], context, def, isInfer, isInput)|
      invariant AllFilled(was, slots[..], wasPtrs, rtPtrs[..], TfliteSources(list[..m], context, def, isInfer, isInput),
                          currTensorNum, n, batches * cores)
    {
      var i := list[m];
      SourcesStep(list, context, def, isInfer, isInput, m);
      SourcesPrefix(list, context, def, isInfer, isInput, m + 1);
      if Passed(i, context) {
        SetTfliteTensor(context[i], def, isInfer, isInput, slots, rtPtrs, currTensorNum, batches, cores, n,
                        was, wasPtrs, TfliteSources(list[..m], context, def, isInfer, isInput));
        currTensorNum := currTensorNum + 1;
      }
      m := m + 1;
    }
    assert list[..m] == list;
  }

  lemma NoSources(context: seq<TfliteTensor>, def: RtTensor, isInfer: bool, isInput: bool)
    ensures TfliteSources([], context, def, isInfer, isInput) == []
  {
  }

  /** What a slot of an ONNX tensor points to: batch `b` of its data. */
  lemma OnnxSlotIs(t: OnnxTensor, def: RtTensor, isInfer: bool, isInput: bool, b: int)
    ensures var slot := SourceSlot(OnnxSource(t, def, isInfer, isInput), b);
            && slot.ptr == t.data + b * (t.dim1 * t.dim2 * t.channels * t.height * t.width * t.elementSize)
            && slot.name == t.name && slot.elementType == t.elementType && slot.layout == NCHW
            && slot.scale == def.scale && slot.zeroPoint == def.zeroPoint
            && (slot.shared <==> def.shared || (t.inSharedMem && isInfer))
            && (!isInput ==> slot.bufferSize == -1) && (isInput && |t.shape| == 4 ==>
                  slot.bufferSize == t.shape[0] * t.shape[1] * t.shape[2] * t.shape[3])
  {
    if |t.shape| == 4 {
      FourDims(t.shape);
    }
  }

  lemma FourDims(s: seq<int>)
    requires |s| == 4
    ensures Product(s) == s[0] * s[1] * s[2] * s[3]
  {
    var (s1, s2, s3) := (s[1..], s[2..], s[3..]);
    assert s1[1..] == s2 && s2[1..] == s3 && s3[1..] == [];
    assert Product(s3) == s[3] && Product(s2) == s[2] * Product(s3) && Product(s1) == s[1] * Product(s2);
    assert s[0] * (s[1] * (s[2] * s[3])) == s[0] * s[1] * s[2] * s[3];
  }

  /** And one of a TFLite tensor of four dimensions, the first counting its batches. */
  lemma TfliteSlotIs(t: TfliteTensor, def: RtTensor, isInfer: bool, isInput: bool, b: int)
    requires |t.dims| == 4
    ensures var slot := SourceSlot(TfliteSource(t, def, isInfer, isInput), b);
            && slot.ptr == t.data + b * (t.dims[1] * t.dims[2] * t.dims[3] * t.elementSize)
            && slot.name == t.name && slot.elementType == t.elementType && slot.layout == NHWC
            && slot.scale == t.scale && slot.zeroPoint == t.zeroPoint
            && (slot.shared <==> def.shared || (t.allocation.Custom? && t.inSharedMem && isInfer))
            && slot.bufferSize == if isInput then t.dims[0] * t.dims[1] * t.dims[2] * t.dims[3] else -1
  {
    FourDims(t.dims);
    var s := t.dims;
    assert s[1..][1..] == s[2..] && s[2..][1..] == s[3..] && s[3..][1..] == [];
    assert Product(s[3..]) == s[3] && Product(s[2..]) == s[2] * Product(s[3..]);
    assert s[1] * (s[2] * s[3]) == s[1] * s[2] * s[3];
  }

  /** When the driver passes on as many tensors as there are per core, every slot
      of every core and batch is set, whatever was there before. */
  lemma EverySlotSet(was: seq<RtTensor>, now: seq<RtTensor>, wasPtrs: seq<int>, nowPtrs: seq<int>,
                     ts: seq<Source>, n: nat, batches: nat, cores: nat, l: nat, k: nat, j: nat)
    requires AllFilled(was, now, wasPtrs, nowPtrs, ts, |ts|, n, batches * cores) && |ts| == n
    requires batches * cores * n <= |now| && batches * cores * n <= |nowPtrs|
    requires l < batches && k < cores && j < n
    ensures var i := Slot(l, k, j, cores, n);
            0 <= i < batches * cores * n && nowPtrs[i] == i && now[i] == SourceSlot(ts[j], l * cores + k)
  {
    BatchBelow(l, k, j, batches, cores, n);
    SlotDivides(l * cores + k, j, n);
    MulMono(l + 1, batches, cores);
  }
}
