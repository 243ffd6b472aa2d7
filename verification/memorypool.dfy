/** The bump allocator of tiadalg_mem_manager.c. */
module MemoryPool {
  import opened Arithmetic
  import opened Wrappers

  const TWO_32: nat := 0x1_0000_0000
  const TWO_64: nat := 0x1_0000_0000_0000_0000

  /** The memory object: addresses are 64 bits wide, sizes 32. */
  datatype Pool = Pool(base: nat, curr: nat, total: nat, avail: nat)

  // ----- Bit masks -----

  function And(x: nat, y: nat): nat
    decreases x
  {
    if x == 0 then 0 else x % 2 * (y % 2) + 2 * And(x / 2, y / 2)
  }

  function Pow2(k: nat): (p: nat)
    ensures p > 0
  {
    if k == 0 then 1 else 2 * Pow2(k - 1)
  }

  lemma HalfMod(x: nat, m: nat)
    requires m > 0
    ensures 2 * (x / 2 % m) == x % (2 * m) - x % 2
  {
    var q := x / 2 / m;
    assert x / 2 == q * m + x / 2 % m;
    assert x == 2 * m * q + (2 * (x / 2 % m) + x % 2);
    ModIs(x, 2 * m, q, 2 * (x / 2 % m) + x % 2);
  }

  lemma {:induction false} PowGrows(k: nat, n: nat)
    requires k <= n
    ensures Pow2(k) <= Pow2(n)
  {
    if k < n {
      PowGrows(k, n - 1);
    }
  }

  lemma AndStep(x: nat, y: nat)
    ensures And(x, y) == x % 2 * (y % 2) + 2 * And(x / 2, y / 2)
  {
  }

  lemma PowStep(k: nat)
    requires k > 0
    ensures Pow2(k) == 2 * Pow2(k - 1)
  {
  }

  /** What a number leaves over. */
  function Low(x: nat, m: nat): nat
    requires m > 0
  {
    x % m
  }

  lemma HalfLow(x: nat, m: nat)
    requires m > 0
    ensures 2 * Low(x / 2, m) == Low(x, 2 * m) - x % 2
  {
    HalfMod(x, m);
  }

  lemma {:induction false} AndLow(x: nat, n: nat, k: nat)
    requires k <= n
    ensures Pow2(k) <= Pow2(n)
    ensures And(x, Pow2(n) - Pow2(k)) == Low(x, Pow2(n)) - Low(x, Pow2(k))
    decreases n
  {
    hide And, Pow2, Low;
    PowGrows(k, n);
    if n == 0 {
      NoBits(x);
    } else {
      PowStep(n);
      HalfLow(x, Pow2(n - 1));
      if k == 0 {
        PowZero();
        LowOne(x);
        LowOne(x / 2);
        AndLow(x / 2, n - 1, 0);
        OddMask(x, Pow2(n - 1));
      } else {
        PowStep(k);
        HalfLow(x, Pow2(k - 1));
        AndLow(x / 2, n - 1, k - 1);
        EvenMask(x, Pow2(n - 1), Pow2(k - 1));
      }
    }
  }

  lemma LowOne(x: nat)
    ensures Low(x, 1) == 0
  {
  }

  /** A mask of the bits from `k` up to `n` takes the low `k` bits away. */
  lemma AndMask(x: nat, n: nat, k: nat)
    requires k <= n
    ensures Pow2(k) <= Pow2(n)
    ensures And(x, Pow2(n) - Pow2(k)) == x % Pow2(n) - x % Pow2(k)
  {
    AndLow(x, n, k);
  }

  /** The last bit of a mask, and the bits before it. */
  lemma OddMask(x: nat, p: nat)
    requires p > 0
    ensures And(x, 2 * p - 1) == x % 2 + 2 * And(x / 2, p - 1)
  {
    hide And;
    AndStep(x, 2 * p - 1);
    assert (2 * p - 1) % 2 == 1 && (2 * p - 1) / 2 == p - 1;
  }

  lemma EvenMask(x: nat, p: nat, q: nat)
    requires 0 < q <= p
    ensures And(x, 2 * p - 2 * q) == 2 * And(x / 2, p - q)
  {
    hide And;
    AndStep(x, 2 * p - 2 * q);
    assert 2 * p - 2 * q == 2 * (p - q);
  }

  lemma PowZero()
    ensures Pow2(0) == 1
  {
  }

  lemma {:induction false} NoBits(x: nat)
    ensures And(x, 0) == 0 && And(0, x) == 0
  {
    if x > 0 {
      NoBits(x / 2);
    }
  }

  // ----- Getting a chunk -----

  /** The bytes skipped to align `curr`: the mask is 32 bits wide, the addresses
      64, and the difference is cut down to 32 bits. */
  function AlignmentBytes(curr: nat, alignment: nat): nat
    requires 0 < alignment < TWO_32
  {
    (And((curr + alignment - 1) % TWO_64, TWO_32 - alignment) - curr) % TWO_64 % TWO_32
  }

  /** `tiadalg_get_memory_chunk`: None is no room. The sum that is compared and
      subtracted wraps around at 32 bits. */
  function GetChunk(p: Pool, size: nat, alignment: nat): (Option<nat>, Pool)
    requires 0 < alignment < TWO_32
  {
    var pad := AlignmentBytes(p.curr, alignment);
    var need := (pad + size) % TWO_32;
    if p.avail < need then (None, p)
    else (Some(p.curr + pad), p.(curr := p.curr + need, avail := p.avail - need))
  }

  /** The pointer the caller gets: a chunk at address 0 looks like a refusal. */
  function Pointer(mem: Option<nat>): nat {
    if mem.None? then 0 else mem.value
  }

  function Reset(p: Pool): Pool {
    p.(curr := p.base, avail := p.total)
  }

  predicate PowerOfTwo(a: nat) {
    exists k: nat :: k < 32 && a == Pow2(k)
  }

  lemma Pow32()
    ensures Pow2(32) == TWO_32
  {
    assert Pow2(8) == 256;
    assert Pow2(16) == 65536;
    assert Pow2(24) == 16777216;
  }

  /** The distance from `curr` to the next multiple of `a`. */
  function Padding(curr: nat, a: nat): (pad: nat)
    requires a > 0
    ensures pad < a
  {
    if curr % a == 0 then 0 else a - curr % a
  }

  lemma PaddingIs(curr: nat, a: nat)
    requires a > 0
    ensures (curr + Padding(curr, a)) % a == 0
    ensures (curr + a - 1) % a == a - 1 - Padding(curr, a)
  {
    var q, r := curr / a, curr % a;
    assert curr == a * q + r;
    if r == 0 {
      ModIs(curr + a - 1, a, q, a - 1);
    } else {
      assert a * (q + 1) == a * q + a;
      ModIs(curr + a - r, a, q + 1, 0);
      ModIs(curr + a - 1, a, q + 1, r - 1);
    }
  }

  lemma FirstMultiple(curr: nat, a: nat, at: nat)
    requires a > 0 && curr <= at && at % a == 0
    ensures curr + Padding(curr, a) <= at
  {
    PaddingIs(curr, a);
    var first := curr + Padding(curr, a);
    MultipleSize(a, at / a - first / a);
    assert at == a * (at / a) && first == a * (first / a);
    assert a * (at / a - first / a) == at - first;
  }

  /** The mask and the two truncations give the distance to the next multiple. */
  lemma AlignmentIs(curr: nat, alignment: nat)
    requires PowerOfTwo(alignment) && curr + alignment <= TWO_64
    ensures alignment < TWO_32 && AlignmentBytes(curr, alignment) == Padding(curr, alignment)
  {
    hide And, Pow2, AlignmentBytes, Padding;
    var k: nat :| k < 32 && alignment == Pow2(k);
    MaskIs(curr, k);
    var m := And(curr + alignment - 1, TWO_32 - alignment);
    AlignmentBytesOf(curr, alignment, m);
    Truncated(curr + alignment - 1, m, Padding(curr, alignment), curr, alignment);
  }

  lemma MaskIs(curr: nat, k: nat)
    requires k < 32
    ensures Pow2(k) < TWO_32
    ensures And(curr + Pow2(k) - 1, TWO_32 - Pow2(k))
         == (curr + Pow2(k) - 1) % TWO_32 - (Pow2(k) - 1 - Padding(curr, Pow2(k)))
  {
    hide And, Pow2, Padding;
    PowBelow32(k);
    AndMask(curr + Pow2(k) - 1, 32, k);
    PaddingIs(curr, Pow2(k));
  }

  lemma PowBelow32(k: nat)
    requires k < 32
    ensures Pow2(k) < TWO_32 && Pow2(32) == TWO_32
  {
    PowGrows(k, 31);
    Pow32();
  }

  lemma AlignmentBytesOf(curr: nat, a: nat, m: int)
    requires 0 < a < TWO_32 && curr + a <= TWO_64 && m == And(curr + a - 1, TWO_32 - a)
    ensures AlignmentBytes(curr, a) == (m - curr) % TWO_64 % TWO_32
  {
    hide And;
    assert (curr + a - 1) % TWO_64 == curr + a - 1;
  }

  lemma Truncated(x: nat, m: int, pad: nat, curr: nat, a: nat)
    requires 0 < a < TWO_32 && pad < a && x == curr + a - 1 < TWO_64
    requires m == x % TWO_32 - (a - 1 - pad)
    ensures (m - curr) % TWO_64 % TWO_32 == pad
  {
    var high := x / TWO_32;
    var y := pad - TWO_32 * high;
    assert y == m - curr;
    if y < 0 {
      assert y % TWO_64 == y + TWO_64;
      ModIs(y + TWO_64, TWO_32, TWO_32 - high, pad);
    } else {
      assert y % TWO_64 == y;
      ModIs(y, TWO_32, -high, pad);
    }
  }

  // ----- Runs -----

  datatype Op = Get(size: nat, alignment: nat) | ResetAll

  datatype Chunk = Chunk(at: nat, size: nat, alignment: nat)

  /** A pool together with the chunks the caller got since the last reset. */
  datatype History = History(pool: Pool, chunks: seq<Chunk>)

  /** What the parameters' type and the assertion in the code demand. */
  predicate Allowed(op: Op) {
    op.Get? ==> op.size < TWO_32 && 0 < op.alignment < TWO_32
  }

  function Step(h: History, op: Op): History
    requires Allowed(op)
  {
    match op
    case ResetAll => History(Reset(h.pool), [])
    case Get(size, alignment) =>
      var (mem, p) := GetChunk(h.pool, size, alignment);
      History(p, if Pointer(mem) == 0 then h.chunks else h.chunks + [Chunk(Pointer(mem), size, alignment)])
  }

  function Run(h: History, ops: seq<Op>): History
    requires forall i | 0 <= i < |ops| :: Allowed(ops[i])
    decreases |ops|
  {
    if ops == [] then h else Step(Run(h, ops[..|ops| - 1]), ops[|ops| - 1])
  }

  function Create(base: nat, size: nat): History {
    History(Pool(base, base, size, size), [])
  }

  predicate Conserved(p: Pool) {
    p.base <= p.curr && p.curr - p.base + p.avail == p.total
  }

  /** In bounds, aligned and in the order they were given out, hence disjoint. */
  ghost predicate Safe(h: History) {
    && Conserved(h.pool)
    && (forall i | 0 <= i < |h.chunks| ::
          var c := h.chunks[i];
          h.pool.base <= c.at && c.at + c.size <= h.pool.curr && c.alignment > 0 && c.at % c.alignment == 0)
    && forall i, j | 0 <= i < j < |h.chunks| :: h.chunks[i].at + h.chunks[i].size <= h.chunks[j].at
  }

  /** Nothing is lost or gained, whatever is asked for. */
  lemma {:induction false} RunConserves(base: nat, size: nat, ops: seq<Op>)
    requires forall i | 0 <= i < |ops| :: Allowed(ops[i])
    ensures var p := Run(Create(base, size), ops).pool; Conserved(p) && p.base == base && p.total == size
  {
    if ops != [] {
      RunConserves(base, size, ops[..|ops| - 1]);
    }
  }

  /** A reset gives the pool back as it was created: what came before no longer matters. */
  lemma {:induction false} ResetForgets(base: nat, size: nat, before: seq<Op>, after: seq<Op>)
    requires forall i | 0 <= i < |before| :: Allowed(before[i])
    requires forall i | 0 <= i < |after| :: Allowed(after[i])
    ensures forall i | 0 <= i < |before + [ResetAll] + after| :: Allowed((before + [ResetAll] + after)[i])
    ensures Run(Create(base, size), before + [ResetAll] + after) == Run(Create(base, size), after)
    decreases |after|
  {
    var all := before + [ResetAll] + after;
    if after == [] {
      assert all[..|all| - 1] == before && all[|all| - 1] == ResetAll;
      RunConserves(base, size, before);
    } else {
      var less := after[..|after| - 1];
      ResetForgets(base, size, before, less);
      assert all[..|all| - 1] == before + [ResetAll] + less && all[|all| - 1] == after[|after| - 1];
    }
  }

  /** A request whose padded size does not fit in 32 bits, so that the sum that
      is compared and subtracted wraps around. */
  predicate Wraps(p: Pool, size: nat, alignment: nat)
    requires 0 < alignment < TWO_32
  {
    AlignmentBytes(p.curr, alignment) + size >= TWO_32
  }

  /** The check of the code, by which a request is refused. */
  predicate Refused(p: Pool, size: nat, alignment: nat)
    requires 0 < alignment < TWO_32
  {
    p.avail < (AlignmentBytes(p.curr, alignment) + size) % TWO_32
  }

  lemma RefusedIs(p: Pool, size: nat, alignment: nat)
    requires 0 < alignment < TWO_32
    ensures Refused(p, size, alignment) <==> GetChunk(p, size, alignment).0.None?
  {
    hide AlignmentBytes;
  }

  lemma LeftOver(p: Pool)
    requires Conserved(p)
    ensures p.curr + p.avail == p.base + p.total && p.avail <= p.total
  {
  }

  lemma GetUnfolds(p: Pool, size: nat, alignment: nat)
    requires 0 < alignment < TWO_32
    ensures var (pad, r) := (AlignmentBytes(p.curr, alignment), GetChunk(p, size, alignment));
            if pad + size < TWO_32 then
              if p.avail < pad + size then r == (None, p)
              else r == (Some(p.curr + pad), p.(curr := p.curr + pad + size, avail := p.avail - pad - size))
            else
              r.0.None? ==> r.1 == p
    ensures GetChunk(p, size, alignment).0.Some? ==>
              GetChunk(p, size, alignment).0.value == p.curr + AlignmentBytes(p.curr, alignment)
  {
    hide AlignmentBytes;
  }

  /** What one request promises: what is granted is aligned, and lies within the
      pool exactly when the sum does not wrap; a chunk that fits is granted
      exactly when there is one; a refusal changes nothing. */
  lemma GetIsExact(p: Pool, size: nat, alignment: nat)
    requires Conserved(p) && p.total < TWO_32 && p.base + p.total + TWO_32 <= TWO_64
    requires size < TWO_32 && PowerOfTwo(alignment) && 0 < alignment < TWO_32
    ensures var ((mem, q), end) := (GetChunk(p, size, alignment), p.base + p.total);
            && (mem.None? ==> q == p)
            && (mem.Some? ==> p.curr <= mem.value && mem.value % alignment == 0)
            && (mem.Some? ==> (mem.value + size <= end <==> !Wraps(p, size, alignment)))
            && (mem.Some? && !Wraps(p, size, alignment) ==> mem.value + size == q.curr)
            && (mem.Some? && !Wraps(p, size, alignment) <==>
                  !forall at | p.curr <= at && at % alignment == 0 :: at + size > end)
  {
    hide AlignmentBytes, Padding, PowerOfTwo, Conserved, GetChunk;
    LeftOver(p);
    GetUnfolds(p, size, alignment);
    AlignmentIs(p.curr, alignment);
    PaddingIs(p.curr, alignment);
    var first := p.curr + Padding(p.curr, alignment);
    forall at | p.curr <= at && at % alignment == 0
      ensures first <= at
    {
      FirstMultiple(p.curr, alignment, at);
    }
    assert first % alignment == 0;
  }

  /** A null pointer means a refusal, unless the next free address is 0. */
  lemma NullMeans(p: Pool, size: nat, alignment: nat)
    requires Conserved(p) && p.base + p.total + TWO_32 <= TWO_64
    requires PowerOfTwo(alignment) && 0 < alignment < TWO_32
    ensures var mem := GetChunk(p, size, alignment).0; Pointer(mem) == 0 <==> mem.None? || p.curr == 0
  {
    hide AlignmentBytes, PowerOfTwo, Conserved;
    LeftOver(p);
    AlignmentIs(p.curr, alignment);
  }

  lemma GetConserves(p: Pool, size: nat, alignment: nat)
    requires Conserved(p) && 0 < alignment < TWO_32
    ensures var q := GetChunk(p, size, alignment).1;
            Conserved(q) && q.base == p.base && q.total == p.total && p.curr <= q.curr
  {
  }

  /** No request since the last reset was granted although its sum wrapped. */
  predicate NoneWrapped(base: nat, size: nat, ops: seq<Op>)
    requires forall i | 0 <= i < |ops| :: Allowed(ops[i])
    decreases |ops|
  {
    ops == [] ||
    var (before, op) := (ops[..|ops| - 1], ops[|ops| - 1]);
    op.ResetAll? ||
    (NoneWrapped(base, size, before) &&
     assert Allowed(op);
     var p := Run(Create(base, size), before).pool;
     Wraps(p, op.size, op.alignment) ==> Refused(p, op.size, op.alignment))
  }

  /** A chunk reaches beyond the pool. */
  ghost predicate Escapes(h: History) {
    exists i :: 0 <= i < |h.chunks| && h.chunks[i].at + h.chunks[i].size > h.pool.base + h.pool.total
  }

  lemma EscapeUnsafe(h: History)
    requires Escapes(h)
    ensures !Safe(h)
  {
  }

  /** One more chunk, in the part that was free. */
  lemma ChunkSafe(h: History, q: Pool, c: Chunk)
    requires Safe(h) && Conserved(q) && q.base == h.pool.base && h.pool.curr <= c.at && c.at + c.size == q.curr
    requires c.alignment > 0 && c.at % c.alignment == 0
    ensures Safe(History(q, h.chunks + [c]))
  {
  }

  /** A pool with less left. */
  lemma LessSafe(h: History, q: Pool)
    requires Safe(h) && Conserved(q) && q.base == h.pool.base && h.pool.curr <= q.curr
    ensures Safe(History(q, h.chunks))
  {
  }

  /** A request that is refused or does not wrap keeps the pool safe ... */
  lemma StepSafe(h: History, size: nat, alignment: nat)
    requires Safe(h) && h.pool.total < TWO_32 && h.pool.base + h.pool.total + TWO_32 <= TWO_64
    requires size < TWO_32 && PowerOfTwo(alignment) && 0 < alignment < TWO_32
    requires Wraps(h.pool, size, alignment) ==> Refused(h.pool, size, alignment)
    ensures Safe(Step(h, Get(size, alignment)))
  {
    hide GetChunk, PowerOfTwo, Wraps, Safe, Refused;
    SafeConserves(h);
    RefusedIs(h.pool, size, alignment);
    GetIsExact(h.pool, size, alignment);
    GetConserves(h.pool, size, alignment);
    var (mem, q) := GetChunk(h.pool, size, alignment);
    if Pointer(mem) == 0 {
      LessSafe(h, q);
    } else {
      ChunkSafe(h, q, Chunk(mem.value, size, alignment));
    }
  }

  lemma SafeConserves(h: History)
    requires Safe(h)
    ensures Conserved(h.pool)
  {
  }

  /** At address 0 nothing is skipped, so a sum that wraps does not start there. */
  lemma WrapPads(p: Pool, size: nat, alignment: nat)
    requires size < TWO_32 && PowerOfTwo(alignment) && 0 < alignment < TWO_32 && Wraps(p, size, alignment)
    ensures p.curr > 0
  {
    if p.curr == 0 {
      AlignmentIs(0, alignment);
    }
  }

  /** ... one that wraps and is granted lets a chunk escape, for good. */
  lemma StepEscapes(h: History, size: nat, alignment: nat)
    requires Conserved(h.pool) && h.pool.total < TWO_32 && h.pool.base + h.pool.total + TWO_32 <= TWO_64
    requires size < TWO_32 && PowerOfTwo(alignment) && 0 < alignment < TWO_32
    requires Escapes(h) || (Wraps(h.pool, size, alignment) && !Refused(h.pool, size, alignment))
    ensures Escapes(Step(h, Get(size, alignment)))
  {
    hide GetChunk, PowerOfTwo, Wraps, Refused;
    RefusedIs(h.pool, size, alignment);
    GetIsExact(h.pool, size, alignment);
    GetConserves(h.pool, size, alignment);
    var h' := Step(h, Get(size, alignment));
    if Escapes(h) {
      var i :| 0 <= i < |h.chunks| && h.chunks[i].at + h.chunks[i].size > h.pool.base + h.pool.total;
      assert h'.chunks[i] == h.chunks[i];
    } else {
      WrapPads(h.pool, size, alignment);
      assert h'.chunks[|h.chunks|].size == size;
    }
  }

  /** Over every run, the chunks since the last reset are in bounds, aligned and
      pairwise disjoint exactly when none of them was granted by a sum that wrapped. */
  lemma {:induction false} RunSafe(base: nat, size: nat, ops: seq<Op>)
    requires size < TWO_32 && base + size + TWO_32 <= TWO_64
    requires forall i | 0 <= i < |ops| :: Allowed(ops[i]) && (ops[i].Get? ==> PowerOfTwo(ops[i].alignment))
    ensures Safe(Run(Create(base, size), ops)) <==> NoneWrapped(base, size, ops)
  {
    RunOutcome(base, size, ops);
    if !NoneWrapped(base, size, ops) {
      EscapeUnsafe(Run(Create(base, size), ops));
    }
  }

  lemma {:induction false} RunOutcome(base: nat, size: nat, ops: seq<Op>)
    requires size < TWO_32 && base + size + TWO_32 <= TWO_64
    requires forall i | 0 <= i < |ops| :: Allowed(ops[i]) && (ops[i].Get? ==> PowerOfTwo(ops[i].alignment))
    ensures if NoneWrapped(base, size, ops) then Safe(Run(Create(base, size), ops))
        else Escapes(Run(Create(base, size), ops))
  {
    hide Safe, Escapes, PowerOfTwo, GetChunk, Wraps;
    if ops == [] {
      CreateSafe(base, size);
    } else {
      var (before, op) := (ops[..|ops| - 1], ops[|ops| - 1]);
      forall i | 0 <= i < |before|
        ensures Allowed(before[i]) && (before[i].Get? ==> PowerOfTwo(before[i].alignment))
      {
        assert before[i] == ops[i];
      }
      RunConserves(base, size, before);
      var h := Run(Create(base, size), before);
      if op.ResetAll? {
        ResetSafe(h);
      } else {
        RunOutcome(base, size, before);
        assert Allowed(op);
        if NoneWrapped(base, size, ops) {
          StepSafe(h, op.size, op.alignment);
        } else {
          StepEscapes(h, op.size, op.alignment);
        }
      }
    }
  }

  lemma CreateSafe(base: nat, size: nat)
    ensures Safe(Create(base, size))
  {
  }

  lemma ResetSafe(h: History)
    ensures Safe(History(Reset(h.pool), []))
  {
  }

  /** A caller that keeps size + alignment within 32 bits never makes it wrap. */
  lemma {:induction false} SmallNeverWraps(base: nat, size: nat, ops: seq<Op>)
    requires size < TWO_32 && base + size + TWO_32 <= TWO_64
    requires forall i | 0 <= i < |ops| :: Allowed(ops[i])
    requires forall i | 0 <= i < |ops| && ops[i].Get? ::
               PowerOfTwo(ops[i].alignment) && ops[i].size + ops[i].alignment <= TWO_32
    ensures NoneWrapped(base, size, ops)
  {
    if ops != [] {
      var (before, op) := (ops[..|ops| - 1], ops[|ops| - 1]);
      SmallNeverWraps(base, size, before);
      RunConserves(base, size, before);
      if op.Get? {
        AlignmentIs(Run(Create(base, size), before).pool.curr, op.alignment);
      }
    }
  }

  /** One byte, and then all but one of 2^32, aligned to two: the sum wraps to
      zero, and a chunk far beyond a pool of sixteen bytes is granted. */
  lemma WrapEscapes()
    ensures var (base, ops) := (0x1000, [Get(1, 1), Get(0xFFFF_FFFF, 2)]);
            && Run(Create(base, 16), ops).chunks == [Chunk(base, 1, 1), Chunk(base + 2, 0xFFFF_FFFF, 2)]
            && !Safe(Run(Create(base, 16), ops))
  {
    hide AlignmentBytes, GetChunk, Safe, Escapes;
    var (base, ops) := (0x1000, [Get(1, 1), Get(0xFFFF_FFFF, 2)]);
    assert ops[..1] == [Get(1, 1)] && ops[..1][..0] == [];
    WrapGranted(base);
    assert Run(Create(base, 16), []) == Create(base, 16);
    assert Run(Create(base, 16), [Get(1, 1)]) == Step(Run(Create(base, 16), [Get(1, 1)][..0]), Get(1, 1));
    assert [Get(1, 1)][..0] == [];
    var h := Run(Create(base, 16), ops[..1]);
    assert h == Step(Create(base, 16), Get(1, 1)) == History(Pool(base, base + 1, 16, 15), [Chunk(base, 1, 1)]);
    assert Run(Create(base, 16), ops) == Step(h, ops[1]);
    TooLongUnsafe(Run(Create(base, 16), ops), 1);
  }

  lemma WrapGranted(base: nat)
    requires base % 2 == 0 && base < TWO_32
    ensures GetChunk(Pool(base, base, 16, 16), 1, 1) == (Some(base), Pool(base, base + 1, 16, 15))
    ensures GetChunk(Pool(base, base + 1, 16, 15), 0xFFFF_FFFF, 2) == (Some(base + 2), Pool(base, base + 1, 16, 15))
  {
    hide AlignmentBytes;
    assert Pow2(0) == 1 && Pow2(1) == 2;
    AlignmentIs(base, 1);
    AlignmentIs(base + 1, 2);
  }

  lemma TooLongUnsafe(h: History, i: nat)
    requires i < |h.chunks| && h.chunks[i].at + h.chunks[i].size > h.pool.base + h.pool.total
    ensures !Safe(h)
  {
  }

  // ----- The handle -----

  /** The memory object, updated in place. */
  class Handle {
    var ptrBase: nat
    var ptrCurr: nat
    var totalSize: nat
    var availableSize: nat

    function State(): Pool
      reads this
    {
      Pool(ptrBase, ptrCurr, totalSize, availableSize)
    }

    /** `tiadalg_create_memory_handle` */
    constructor (baseAddr: nat, size: nat)
      ensures State() == Create(baseAddr, size).pool
    {
      ptrBase, totalSize, availableSize, ptrCurr := baseAddr, size, size, baseAddr;
    }

    method ResetHandle()
      modifies this
      ensures State() == Reset(old(State()))
    {
      availableSize := totalSize;
      ptrCurr := ptrBase;
    }

    /** `tiadalg_get_memory_chunk`: the result is a pointer, 0 when there is no room. */
    method GetMemoryChunk(size: nat, alignment: nat) returns (mem: nat)
      requires 0 < alignment < TWO_32 && size < TWO_32
      modifies this
      ensures mem == Pointer(GetChunk(old(State()), size, alignment).0)
      ensures State() == GetChunk(old(State()), size, alignment).1
    {
      var alignmentBytes := AlignmentBytes(ptrCurr, alignment);
      var need := (alignmentBytes + size) % TWO_32;
      if availableSize < need {
        mem := 0;
      } else {
        availableSize := availableSize - need;
        mem := ptrCurr + alignmentBytes;
        ptrCurr := ptrCurr + need;
      }
    }
  }
}
