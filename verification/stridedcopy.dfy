/** The strided copy loops of tidl_rt_ovx_datamove.cpp, over any element types
    and any conversion between them. */
module StridedCopy {
  import opened Arithmetic

  /** One loop of a nest: how often it runs and how far it moves each pointer. */
  datatype Dim = Dim(n: nat, dst: int, src: int)

  // ----- What a nest of copy loops does -----

  function Write<A, B>(dst: seq<B>, src: seq<A>, f: A -> B, d: int, s: int): (r: seq<B>)
    ensures |r| == |dst|
  {
    if 0 <= d < |dst| && 0 <= s < |src| then dst[d := f(src[s])] else dst
  }

  /** The first `n` trips of the outermost loop, the pointers starting at `d` and `s`. */
  function Trips<A, B>(dst: seq<B>, src: seq<A>, f: A -> B, dims: seq<Dim>, n: nat, d: int, s: int): (r: seq<B>)
    requires dims != []
    ensures |r| == |dst|
    decreases |dims|, n
  {
    if n == 0 then dst
    else
      Nest(Trips(dst, src, f, dims, n - 1, d, s), src, f, dims[1..],
           d + (n - 1) * dims[0].dst, s + (n - 1) * dims[0].src)
  }

  /** The whole nest. */
  function Nest<A, B>(dst: seq<B>, src: seq<A>, f: A -> B, dims: seq<Dim>, d: int, s: int): (r: seq<B>)
    ensures |r| == |dst|
    decreases |dims|, if dims == [] then 0 else dims[0].n + 1
  {
    if dims == [] then Write(dst, src, f, d, s) else Trips(dst, src, f, dims, dims[0].n, d, s)
  }

  // ----- Index maps -----

  predicate InBox(dims: seq<Dim>, x: seq<nat>) {
    |x| == |dims| && forall i | 0 <= i < |dims| :: x[i] < dims[i].n
  }

  /** How far the destination pointer has moved when the loop counters are `x`. */
  function DstAt(dims: seq<Dim>, x: seq<nat>): int
    requires |x| == |dims|
  {
    if dims == [] then 0 else x[0] * dims[0].dst + DstAt(dims[1..], x[1..])
  }

  function SrcAt(dims: seq<Dim>, x: seq<nat>): int
    requires |x| == |dims|
  {
    if dims == [] then 0 else x[0] * dims[0].src + SrcAt(dims[1..], x[1..])
  }

  /** No two counter values write the same cell. */
  ghost predicate Injective(dims: seq<Dim>) {
    forall x, y | InBox(dims, x) && InBox(dims, y) && DstAt(dims, x) == DstAt(dims, y) :: x == y
  }

  /** Every access stays inside its buffer. */
  ghost predicate Inside(dims: seq<Dim>, d: int, s: int, dstLen: nat, srcLen: nat) {
    forall x | InBox(dims, x) :: 0 <= d + DstAt(dims, x) < dstLen && 0 <= s + SrcAt(dims, x) < srcLen
  }

  // ----- Cells written and cells left alone -----

  lemma BoxTail(dims: seq<Dim>, x: seq<nat>)
    requires dims != [] && InBox(dims, x)
    ensures InBox(dims[1..], x[1..])
  {
  }

  lemma EmptyBox(dims: seq<Dim>, i: nat, x: seq<nat>)
    requires i < |dims| && dims[i].n == 0
    ensures !InBox(dims, x)
  {
    if |x| == |dims| {
      assert x[i] >= dims[i].n;
    }
  }

  lemma BoxCons(dims: seq<Dim>, i: nat, x: seq<nat>)
    requires dims != [] && i < dims[0].n && InBox(dims[1..], x)
    ensures InBox(dims, [i] + x)
    ensures DstAt(dims, [i] + x) == i * dims[0].dst + DstAt(dims[1..], x)
    ensures SrcAt(dims, [i] + x) == i * dims[0].src + SrcAt(dims[1..], x)
  {
    assert ([i] + x)[1..] == x;
  }

  /** A cell that no counter value reaches keeps its content. */
  lemma {:induction false} NestFrame<A, B>(dst: seq<B>, src: seq<A>, f: A -> B, dims: seq<Dim>, d: int, s: int, k: nat)
    requires k < |dst| && forall x | InBox(dims, x) :: d + DstAt(dims, x) != k
    ensures Nest(dst, src, f, dims, d, s)[k] == dst[k]
    decreases |dims|, if dims == [] then 0 else dims[0].n + 1
  {
    if dims == [] {
      assert InBox(dims, []);
    } else {
      TripsFrame(dst, src, f, dims, dims[0].n, d, s, k);
    }
  }

  lemma {:induction false} TripsFrame<A, B>(dst: seq<B>, src: seq<A>, f: A -> B, dims: seq<Dim>, n: nat, d: int,
                                            s: int, k: nat)
    requires dims != [] && n <= dims[0].n && k < |dst|
    requires forall x | InBox(dims, x) && x[0] < n :: d + DstAt(dims, x) != k
    ensures Trips(dst, src, f, dims, n, d, s)[k] == dst[k]
    decreases |dims|, n
  {
    if n > 0 {
      TripsFrame(dst, src, f, dims, n - 1, d, s, k);
      var d1, s1 := d + (n - 1) * dims[0].dst, s + (n - 1) * dims[0].src;
      forall x | InBox(dims[1..], x)
        ensures d1 + DstAt(dims[1..], x) != k
      {
        BoxCons(dims, n - 1, x);
        assert ([n - 1] + x)[0] == n - 1;
      }
      NestFrame(Trips(dst, src, f, dims, n - 1, d, s), src, f, dims[1..], d1, s1, k);
    }
  }

  /** A cell that one counter value alone reaches holds the converted source element. */
  lemma {:induction false} NestHit<A, B>(dst: seq<B>, src: seq<A>, f: A -> B, dims: seq<Dim>, d: int, s: int,
                                         x: seq<nat>)
    requires InBox(dims, x) && forall y | InBox(dims, y) && DstAt(dims, y) == DstAt(dims, x) :: y == x
    requires 0 <= d + DstAt(dims, x) < |dst| && 0 <= s + SrcAt(dims, x) < |src|
    ensures Nest(dst, src, f, dims, d, s)[d + DstAt(dims, x)] == f(src[s + SrcAt(dims, x)])
    decreases |dims|, if dims == [] then 0 else dims[0].n + 1
  {
    if dims != [] {
      TripsHit(dst, src, f, dims, dims[0].n, d, s, x);
    }
  }

  lemma {:induction false} TripsHit<A, B>(dst: seq<B>, src: seq<A>, f: A -> B, dims: seq<Dim>, n: nat, d: int, s: int,
                                          x: seq<nat>)
    requires dims != [] && n <= dims[0].n && InBox(dims, x) && x[0] < n
    requires forall y | InBox(dims, y) && DstAt(dims, y) == DstAt(dims, x) :: y == x
    requires 0 <= d + DstAt(dims, x) < |dst| && 0 <= s + SrcAt(dims, x) < |src|
    ensures Trips(dst, src, f, dims, n, d, s)[d + DstAt(dims, x)] == f(src[s + SrcAt(dims, x)])
    decreases |dims|, n
  {
    var d1, s1 := d + (n - 1) * dims[0].dst, s + (n - 1) * dims[0].src;
    var before := Trips(dst, src, f, dims, n - 1, d, s);
    forall y | InBox(dims[1..], y) && d1 + DstAt(dims[1..], y) == d + DstAt(dims, x)
      ensures x == [n - 1] + y
    {
      BoxCons(dims, n - 1, y);
    }
    if x[0] < n - 1 {
      TripsHit(dst, src, f, dims, n - 1, d, s, x);
      NestFrame(before, src, f, dims[1..], d1, s1, d + DstAt(dims, x));
    } else {
      BoxTail(dims, x);
      forall y | InBox(dims[1..], y) && DstAt(dims[1..], y) == DstAt(dims[1..], x[1..])
        ensures y == x[1..]
      {
        assert ([n - 1] + y)[1..] == y;
      }
      NestHit(before, src, f, dims[1..], d1, s1, x[1..]);
    }
  }

  // ----- The last writer -----

  /** `x` comes no later than `y` in the order of the loops. */
  predicate NotAfter(x: seq<nat>, y: seq<nat>)
    requires |x| == |y|
  {
    x == [] || x[0] < y[0] || (x[0] == y[0] && NotAfter(x[1..], y[1..]))
  }

  lemma {:induction false} NoneAfterLast(dims: seq<Dim>, x: seq<nat>, last: seq<nat>)
    requires InBox(dims, x) && |last| == |dims| && NotAfter(last, x)
    requires forall i | 0 <= i < |dims| :: last[i] + 1 == dims[i].n
    ensures x == last
  {
    if dims != [] {
      BoxTail(dims, x);
      NoneAfterLast(dims[1..], x[1..], last[1..]);
      assert x == [x[0]] + x[1..] && last == [last[0]] + last[1..];
    }
  }

  /** A cell that is reached holds what the last counter value to reach it wrote. */
  lemma {:induction false} NestLast<A, B>(dst: seq<B>, src: seq<A>, f: A -> B, dims: seq<Dim>, d: int, s: int, k: nat,
                                          y: seq<nat>)
    returns (x: seq<nat>)
    requires Inside(dims, d, s, |dst|, |src|) && InBox(dims, y) && d + DstAt(dims, y) == k < |dst|
    ensures InBox(dims, x) && d + DstAt(dims, x) == k && NotAfter(y, x) && 0 <= s + SrcAt(dims, x) < |src|
    ensures Nest(dst, src, f, dims, d, s)[k] == f(src[s + SrcAt(dims, x)])
    decreases |dims|, if dims == [] then 0 else dims[0].n + 1
  {
    if dims == [] {
      x := [];
      assert InBox(dims, x);
    } else {
      x := TripsLast(dst, src, f, dims, dims[0].n, d, s, k, y);
    }
  }

  lemma {:induction false} TripsLast<A, B>(dst: seq<B>, src: seq<A>, f: A -> B, dims: seq<Dim>, n: nat, d: int,
                                           s: int, k: nat, y: seq<nat>)
    returns (x: seq<nat>)
    requires dims != [] && n <= dims[0].n && Inside(dims, d, s, |dst|, |src|)
    requires InBox(dims, y) && y[0] < n && d + DstAt(dims, y) == k < |dst|
    ensures InBox(dims, x) && d + DstAt(dims, x) == k && NotAfter(y, x) && 0 <= s + SrcAt(dims, x) < |src|
    ensures Trips(dst, src, f, dims, n, d, s)[k] == f(src[s + SrcAt(dims, x)])
    decreases |dims|, n
  {
    hide Nest;
    var d1, s1 := d + (n - 1) * dims[0].dst, s + (n - 1) * dims[0].src;
    var before := Trips(dst, src, f, dims, n - 1, d, s);
    InsideTail(dims, d, s, |dst|, |src|, n - 1);
    BoxTail(dims, y);
    if z :| InBox(dims[1..], z) && d1 + DstAt(dims[1..], z) == k && (y[0] == n - 1 ==> z == y[1..]) {
      var w := NestLast(before, src, f, dims[1..], d1, s1, k, z);
      BoxCons(dims, n - 1, w);
      x := [n - 1] + w;
      assert x[1..] == w;
    } else {
      assert y[0] < n - 1;
      NestFrame(before, src, f, dims[1..], d1, s1, k);
      x := TripsLast(dst, src, f, dims, n - 1, d, s, k, y);
    }
  }

  // ----- Injective and dense strides -----

  /** How far beyond its start a nest reaches. */
  function Span(dims: seq<Dim>): int {
    if dims == [] then 0 else (dims[0].n - 1) * dims[0].dst + Span(dims[1..])
  }

  /** Every stride steps over all that the inner loops reach. */
  predicate Nested(dims: seq<Dim>) {
    dims != [] ==> dims[0].n > 0 && Nested(dims[1..]) && dims[0].dst > Span(dims[1..])
  }

  lemma {:induction false} WithinSpan(dims: seq<Dim>, x: seq<nat>)
    requires Nested(dims) && InBox(dims, x)
    ensures 0 <= DstAt(dims, x) <= Span(dims)
  {
    if dims != [] {
      BoxTail(dims, x);
      WithinSpan(dims[1..], x[1..]);
      MulMono(x[0], dims[0].n - 1, dims[0].dst);
    }
  }

  lemma StepsOver(a: nat, b: nat, c: nat, u: nat, v: nat)
    requires a < b && u < c
    ensures a * c + u < b * c + v
  {
    MulMono(a + 1, b, c);
  }

  lemma {:induction false} NestedAtMostOne(dims: seq<Dim>, x: seq<nat>, y: seq<nat>)
    requires Nested(dims) && InBox(dims, x) && InBox(dims, y) && DstAt(dims, x) == DstAt(dims, y)
    ensures x == y
  {
    if dims != [] {
      BoxTail(dims, x);
      BoxTail(dims, y);
      WithinSpan(dims[1..], x[1..]);
      WithinSpan(dims[1..], y[1..]);
      var u, v := DstAt(dims[1..], x[1..]), DstAt(dims[1..], y[1..]);
      if x[0] < y[0] {
        StepsOver(x[0], y[0], dims[0].dst, u, v);
      } else if y[0] < x[0] {
        StepsOver(y[0], x[0], dims[0].dst, v, u);
      }
      NestedAtMostOne(dims[1..], x[1..], y[1..]);
      assert x == [x[0]] + x[1..] && y == [y[0]] + y[1..];
    }
  }

  lemma NestedInjective(dims: seq<Dim>)
    requires Nested(dims)
    ensures Injective(dims)
  {
    forall x, y | InBox(dims, x) && InBox(dims, y) && DstAt(dims, x) == DstAt(dims, y)
      ensures x == y
    {
      NestedAtMostOne(dims, x, y);
    }
  }

  function Size(dims: seq<Dim>): nat {
    if dims == [] then 1 else dims[0].n * Size(dims[1..])
  }

  /** Every stride is the number of cells of the inner loops. */
  predicate Dense(dims: seq<Dim>) {
    dims != [] ==> Dense(dims[1..]) && dims[0].dst == Size(dims[1..])
  }

  /** The counters that reach cell `k` of a dense nest. */
  lemma {:induction false} DenseReaches(dims: seq<Dim>, k: nat) returns (x: seq<nat>)
    requires Dense(dims) && k < Size(dims)
    ensures InBox(dims, x) && DstAt(dims, x) == k
  {
    x := [];
    if dims != [] {
      var m := Size(dims[1..]);
      assert m > 0;
      DivBelow(k, dims[0].n, m);
      var y := DenseReaches(dims[1..], k % m);
      BoxCons(dims, k / m, y);
      x := [k / m] + y;
    }
  }

  lemma {:induction false} DenseNested(dims: seq<Dim>)
    requires Dense(dims) && forall i | 0 <= i < |dims| :: dims[i].n > 0
    ensures Nested(dims) && Span(dims) == Size(dims) - 1
  {
    if dims != [] {
      DenseNested(dims[1..]);
    }
  }

  ghost predicate Reaches(dims: seq<Dim>, k: int) {
    exists x :: InBox(dims, x) && DstAt(dims, x) == k
  }

  /** A dense nest reaches every cell once. */
  lemma DenseBijective(dims: seq<Dim>, n: nat)
    requires Dense(dims) && Size(dims) == n && forall i | 0 <= i < |dims| :: dims[i].n > 0
    ensures Injective(dims)
    ensures forall x | InBox(dims, x) :: 0 <= DstAt(dims, x) < n
    ensures forall k | 0 <= k < n :: Reaches(dims, k)
  {
    DenseNested(dims);
    NestedInjective(dims);
    forall x | InBox(dims, x)
      ensures 0 <= DstAt(dims, x) < n
    {
      WithinSpan(dims, x);
    }
    forall k | 0 <= k < n
      ensures Reaches(dims, k)
    {
      var x := DenseReaches(dims, k);
    }
  }

  // ----- The kernels -----

  /** Batches, channels, lines and pixels: the four loops of every kernel. */
  function Loops(nb: nat, nc: nat, nl: nat, np: nat,
                 dstBp: int, dstCp: int, dstLp: int, dstPp: int,
                 srcBp: int, srcCp: int, srcLp: int, srcPp: int): (dims: seq<Dim>)
    ensures |dims| == 4
  {
    [Dim(nb, dstBp, srcBp), Dim(nc, dstCp, srcCp), Dim(nl, dstLp, srcLp), Dim(np, dstPp, srcPp)]
  }

  lemma InsideTail(dims: seq<Dim>, d: int, s: int, dstLen: nat, srcLen: nat, i: nat)
    requires dims != [] && Inside(dims, d, s, dstLen, srcLen) && i < dims[0].n
    ensures Inside(dims[1..], d + i * dims[0].dst, s + i * dims[0].src, dstLen, srcLen)
    ensures |dims| == 1 ==> 0 <= d + i * dims[0].dst < dstLen && 0 <= s + i * dims[0].src < srcLen
  {
    forall x | InBox(dims[1..], x)
      ensures 0 <= d + i * dims[0].dst + DstAt(dims[1..], x) < dstLen
      ensures 0 <= s + i * dims[0].src + SrcAt(dims[1..], x) < srcLen
    {
      BoxCons(dims, i, x);
    }
    if |dims| == 1 {
      assert InBox(dims[1..], []);
    }
  }

  lemma TripsStep<A, B>(dst: seq<B>, src: seq<A>, f: A -> B, dims: seq<Dim>, n: nat, d: int, s: int)
    requires dims != []
    ensures Trips(dst, src, f, dims, 0, d, s) == dst
    ensures Trips(dst, src, f, dims, n + 1, d, s)
         == Nest(Trips(dst, src, f, dims, n, d, s), src, f, dims[1..], d + n * dims[0].dst, s + n * dims[0].src)
  {
  }

  lemma Moved(d: int, i: nat, step: int)
    ensures d + i * step + step == d + (i + 1) * step
  {
  }

  /** The line and pixel loops of the general kernel. */
  method CopyTransposePlane<A, B>(dst: array<B>, src: array<A>, f: A -> B,
                             srcLp: int, srcPp: int, d1: int, s1: int, dstLp: int, dstPp: int, nl: nat, np: nat)
    requires dst as object != src as object
    requires Inside([Dim(nl, dstLp, srcLp), Dim(np, dstPp, srcPp)], d1, s1, dst.Length, src.Length)
    modifies dst
    ensures dst[..] == Nest(old(dst[..]), src[..], f, [Dim(nl, dstLp, srcLp), Dim(np, dstPp, srcPp)], d1, s1)
  {
    hide Nest, Trips;
    ghost var D2 := [Dim(nl, dstLp, srcLp), Dim(np, dstPp, srcPp)];
    ghost var D3 := D2[1..];
    assert D3[1..] == [];
    ghost var t2, u := dst[..], src[..];
    var i2, d2, s2 := 0, d1, s1;
    TripsStep(t2, u, f, D2, 0, d1, s1);
    while i2 < nl
      invariant i2 <= nl && d2 == d1 + i2 * dstLp && s2 == s1 + i2 * srcLp
      invariant dst[..] == Trips(t2, u, f, D2, i2, d1, s1)
    {
      InsideTail(D2, d1, s1, dst.Length, src.Length, i2);
      ghost var t3 := dst[..];
      var i3, d3, s3 := 0, d2, s2;
      TripsStep(t3, u, f, D3, 0, d2, s2);
      while i3 < np
        invariant i3 <= np && d3 == d2 + i3 * dstPp && s3 == s2 + i3 * srcPp
        invariant dst[..] == Trips(t3, u, f, D3, i3, d2, s2)
      {
        InsideTail(D3, d2, s2, dst.Length, src.Length, i3);
        TripsStep(t3, u, f, D3, i3, d2, s2);
        NestWrites(dst[..], u, f, d3, s3);
        dst[d3] := f(src[s3]);
        Moved(d2, i3, dstPp);
        Moved(s2, i3, srcPp);
        d3, s3, i3 := d3 + dstPp, s3 + srcPp, i3 + 1;
      }
      NestTrips(t3, u, f, D3, d2, s2);
      TripsStep(t2, u, f, D2, i2, d1, s1);
      Moved(d1, i2, dstLp);
      Moved(s1, i2, srcLp);
      d2, s2, i2 := d2 + dstLp, s2 + srcLp, i2 + 1;
    }
    NestTrips(t2, u, f, D2, d1, s1);
  }

  /** The general kernel: the batch and channel loops around them. */
  method CopyTranspose<A, B>(dst: array<B>, src: array<A>, f: A -> B,
                             srcBp: int, srcCp: int, srcLp: int, srcPp: int, srcOffset: int,
                             dstBp: int, dstCp: int, dstLp: int, dstPp: int, dstOffset: int,
                             nb: nat, nc: nat, nl: nat, np: nat)
    requires dst as object != src as object
    requires Inside(Loops(nb, nc, nl, np, dstBp, dstCp, dstLp, dstPp, srcBp, srcCp, srcLp, srcPp),
                    dstOffset, srcOffset, dst.Length, src.Length)
    modifies dst
    ensures dst[..] == Nest(old(dst[..]), src[..], f,
                            Loops(nb, nc, nl, np, dstBp, dstCp, dstLp, dstPp, srcBp, srcCp, srcLp, srcPp),
                            dstOffset, srcOffset)
  {
    hide Nest, Trips;
    ghost var D0 := Loops(nb, nc, nl, np, dstBp, dstCp, dstLp, dstPp, srcBp, srcCp, srcLp, srcPp);
    ghost var D1 := D0[1..];
    assert D1[1..] == [Dim(nl, dstLp, srcLp), Dim(np, dstPp, srcPp)];
    ghost var t0, u := dst[..], src[..];
    var i0, d0, s0 := 0, dstOffset, srcOffset;
    TripsStep(t0, u, f, D0, 0, d0, s0);
    while i0 < nb
      invariant i0 <= nb && d0 == dstOffset + i0 * dstBp && s0 == srcOffset + i0 * srcBp
      invariant dst[..] == Trips(t0, u, f, D0, i0, dstOffset, srcOffset)
    {
      InsideTail(D0, dstOffset, srcOffset, dst.Length, src.Length, i0);
      ghost var t1 := dst[..];
      var i1, d1, s1 := 0, d0, s0;
      TripsStep(t1, u, f, D1, 0, d0, s0);
      while i1 < nc
        invariant i1 <= nc && d1 == d0 + i1 * dstCp && s1 == s0 + i1 * srcCp
        invariant dst[..] == Trips(t1, u, f, D1, i1, d0, s0)
      {
        InsideTail(D1, d0, s0, dst.Length, src.Length, i1);
        TripsStep(t1, u, f, D1, i1, d0, s0);
        CopyTransposePlane(dst, src, f, srcLp, srcPp, d1, s1, dstLp, dstPp, nl, np);
        Moved(d0, i1, dstCp);
        Moved(s0, i1, srcCp);
        d1, s1, i1 := d1 + dstCp, s1 + srcCp, i1 + 1;
      }
      NestTrips(t1, u, f, D1, d0, s0);
      TripsStep(t0, u, f, D0, i0, dstOffset, srcOffset);
      Moved(dstOffset, i0, dstBp);
      Moved(srcOffset, i0, srcBp);
      d0, s0, i0 := d0 + dstBp, s0 + srcBp, i0 + 1;
    }
    NestTrips(t0, u, f, D0, dstOffset, srcOffset);
  }

  /** The line and pixel loops of the linear kernel. */
  method CopyLinearPlane<A, B>(dst: array<B>, src: array<A>, f: A -> B,
                             srcLp: int, d1: int, s1: int, dstLp: int, nl: nat, np: nat)
    requires dst as object != src as object
    requires Inside([Dim(nl, dstLp, srcLp), Dim(np, 1, 1)], d1, s1, dst.Length, src.Length)
    modifies dst
    ensures dst[..] == Nest(old(dst[..]), src[..], f, [Dim(nl, dstLp, srcLp), Dim(np, 1, 1)], d1, s1)
  {
    hide Nest, Trips;
    ghost var D2 := [Dim(nl, dstLp, srcLp), Dim(np, 1, 1)];
    ghost var D3 := D2[1..];
    assert D3[1..] == [];
    ghost var t2, u := dst[..], src[..];
    var i2, d2, s2 := 0, d1, s1;
    TripsStep(t2, u, f, D2, 0, d1, s1);
    while i2 < nl
      invariant i2 <= nl && d2 == d1 + i2 * dstLp && s2 == s1 + i2 * srcLp
      invariant dst[..] == Trips(t2, u, f, D2, i2, d1, s1)
    {
      InsideTail(D2, d1, s1, dst.Length, src.Length, i2);
      ghost var t3 := dst[..];
      var i3, d3, s3 := 0, d2, s2;
      TripsStep(t3, u, f, D3, 0, d2, s2);
      while i3 < np
        invariant i3 <= np && d3 == d2 + i3 * 1 && s3 == s2 + i3 * 1
        invariant dst[..] == Trips(t3, u, f, D3, i3, d2, s2)
      {
        InsideTail(D3, d2, s2, dst.Length, src.Length, i3);
        TripsStep(t3, u, f, D3, i3, d2, s2);
        NestWrites(dst[..], u, f, d3, s3);
        dst[d3] := f(src[s3]);
        Moved(d2, i3, 1);
        Moved(s2, i3, 1);
        d3, s3, i3 := d3 + 1, s3 + 1, i3 + 1;
      }
      NestTrips(t3, u, f, D3, d2, s2);
      TripsStep(t2, u, f, D2, i2, d1, s1);
      Moved(d1, i2, dstLp);
      Moved(s1, i2, srcLp);
      d2, s2, i2 := d2 + dstLp, s2 + srcLp, i2 + 1;
    }
    NestTrips(t2, u, f, D2, d1, s1);
  }

  /** The linear kernel: the batch and channel loops around them. */
  method CopyLinear<A, B>(dst: array<B>, src: array<A>, f: A -> B,
                             srcBp: int, srcCp: int, srcLp: int, srcOffset: int,
                             dstBp: int, dstCp: int, dstLp: int, dstOffset: int,
                             nb: nat, nc: nat, nl: nat, np: nat)
    requires dst as object != src as object
    requires Inside(Loops(nb, nc, nl, np, dstBp, dstCp, dstLp, 1, srcBp, srcCp, srcLp, 1),
                    dstOffset, srcOffset, dst.Length, src.Length)
    modifies dst
    ensures dst[..] == Nest(old(dst[..]), src[..], f,
                            Loops(nb, nc, nl, np, dstBp, dstCp, dstLp, 1, srcBp, srcCp, srcLp, 1),
                            dstOffset, srcOffset)
  {
    hide Nest, Trips;
    ghost var D0 := Loops(nb, nc, nl, np, dstBp, dstCp, dstLp, 1, srcBp, srcCp, srcLp, 1);
    ghost var D1 := D0[1..];
    assert D1[1..] == [Dim(nl, dstLp, srcLp), Dim(np, 1, 1)];
    ghost var t0, u := dst[..], src[..];
    var i0, d0, s0 := 0, dstOffset, srcOffset;
    TripsStep(t0, u, f, D0, 0, d0, s0);
    while i0 < nb
      invariant i0 <= nb && d0 == dstOffset + i0 * dstBp && s0 == srcOffset + i0 * srcBp
      invariant dst[..] == Trips(t0, u, f, D0, i0, dstOffset, srcOffset)
    {
      InsideTail(D0, dstOffset, srcOffset, dst.Length, src.Length, i0);
      ghost var t1 := dst[..];
      var i1, d1, s1 := 0, d0, s0;
      TripsStep(t1, u, f, D1, 0, d0, s0);
      while i1 < nc
        invariant i1 <= nc && d1 == d0 + i1 * dstCp && s1 == s0 + i1 * srcCp
        invariant dst[..] == Trips(t1, u, f, D1, i1, d0, s0)
      {
        InsideTail(D1, d0, s0, dst.Length, src.Length, i1);
        TripsStep(t1, u, f, D1, i1, d0, s0);
        CopyLinearPlane(dst, src, f, srcLp, d1, s1, dstLp, nl, np);
        Moved(d0, i1, dstCp);
        Moved(s0, i1, srcCp);
        d1, s1, i1 := d1 + dstCp, s1 + srcCp, i1 + 1;
      }
      NestTrips(t1, u, f, D1, d0, s0);
      TripsStep(t0, u, f, D0, i0, dstOffset, srcOffset);
      Moved(dstOffset, i0, dstBp);
      Moved(srcOffset, i0, srcBp);
      d0, s0, i0 := d0 + dstBp, s0 + srcBp, i0 + 1;
    }
    NestTrips(t0, u, f, D0, dstOffset, srcOffset);
  }

  /** The dispatcher: the linear kernel when both pixel pitches are one. Either way
      the buffer ends up as the nest of four loops leaves it. */
  method Copy<A, B>(dst: array<B>, src: array<A>, f: A -> B,
                    srcBp: int, srcCp: int, srcLp: int, srcPp: int, srcOffset: int,
                    dstBp: int, dstCp: int, dstLp: int, dstPp: int, dstOffset: int,
                    nb: nat, nc: nat, nl: nat, np: nat)
    requires dst as object != src as object
    requires Inside(Loops(nb, nc, nl, np, dstBp, dstCp, dstLp, dstPp, srcBp, srcCp, srcLp, srcPp),
                    dstOffset, srcOffset, dst.Length, src.Length)
    modifies dst
    ensures dst[..] == Nest(old(dst[..]), src[..], f,
                            Loops(nb, nc, nl, np, dstBp, dstCp, dstLp, dstPp, srcBp, srcCp, srcLp, srcPp),
                            dstOffset, srcOffset)
  {
    if srcPp == 1 && dstPp == 1 {
      CopyLinear(dst, src, f, srcBp, srcCp, srcLp, srcOffset, dstBp, dstCp, dstLp, dstOffset, nb, nc, nl, np);
    } else {
      CopyTranspose(dst, src, f, srcBp, srcCp, srcLp, srcPp, srcOffset,
                    dstBp, dstCp, dstLp, dstPp, dstOffset, nb, nc, nl, np);
    }
  }

  lemma NestWrites<A, B>(dst: seq<B>, src: seq<A>, f: A -> B, d: int, s: int)
    requires 0 <= d < |dst| && 0 <= s < |src|
    ensures Nest(dst, src, f, [], d, s) == dst[d := f(src[s])]
  {
  }

  lemma NestTrips<A, B>(dst: seq<B>, src: seq<A>, f: A -> B, dims: seq<Dim>, d: int, s: int)
    requires dims != []
    ensures Nest(dst, src, f, dims, d, s) == Trips(dst, src, f, dims, dims[0].n, d, s)
  {
  }

  // ----- There and back -----

  /** The nest that copies the other way. */
  function Swapped(dims: seq<Dim>): (r: seq<Dim>)
    ensures |r| == |dims|
  {
    seq(|dims|, i requires 0 <= i < |dims| => Dim(dims[i].n, dims[i].src, dims[i].dst))
  }

  lemma {:induction false} SwappedAt(dims: seq<Dim>, x: seq<nat>)
    requires |x| == |dims|
    ensures DstAt(Swapped(dims), x) == SrcAt(dims, x) && SrcAt(Swapped(dims), x) == DstAt(dims, x)
    ensures InBox(Swapped(dims), x) == InBox(dims, x)
  {
    if dims != [] {
      SwappedAt(dims[1..], x[1..]);
      assert Swapped(dims)[1..] == Swapped(dims[1..]);
    }
  }

  /** Every cell of the source is read. */
  ghost predicate Covers(dims: seq<Dim>, n: nat) {
    forall k | 0 <= k < n :: Reads(dims, k)
  }

  ghost predicate Reads(dims: seq<Dim>, k: int) {
    exists x :: InBox(dims, x) && SrcAt(dims, x) == k
  }

  /** Copying out of a dense tensor into any injective layout and back restores
      it, whatever the two buffers held. */
  lemma CopyBack<A, B>(user: seq<A>, internal: seq<B>, back: seq<A>, f: A -> B, g: B -> A, dims: seq<Dim>, offset: int)
    requires Injective(dims) && Injective(Swapped(dims)) && Covers(dims, |user|)
    requires Inside(dims, offset, 0, |internal|, |user|) && |back| == |user|
    requires forall v | v in user :: g(f(v)) == v
    ensures Nest(back, Nest(internal, user, f, dims, offset, 0), g, Swapped(dims), 0, offset) == user
  {
    var mid := Nest(internal, user, f, dims, offset, 0);
    var r := Nest(back, mid, g, Swapped(dims), 0, offset);
    forall k | 0 <= k < |user|
      ensures r[k] == user[k]
    {
      assert Reads(dims, k);
      var x :| InBox(dims, x) && SrcAt(dims, x) == k;
      NestHit(internal, user, f, dims, offset, 0, x);
      SwappedAt(dims, x);
      NestHit(back, mid, g, Swapped(dims), 0, offset, x);
      assert user[k] in user;
    }
  }

  /** A copy whose two pointers always move together over `n` elements is a memcpy. */
  lemma CopyInPlace<A>(dst: seq<A>, src: seq<A>, f: A -> A, dims: seq<Dim>, n: nat)
    requires Injective(dims) && Covers(dims, n) && n <= |src| && n <= |dst|
    requires forall x | InBox(dims, x) :: DstAt(dims, x) == SrcAt(dims, x) < n
    requires forall k | 0 <= k < n :: f(src[k]) == src[k]
    ensures Nest(dst, src, f, dims, 0, 0) == src[..n] + dst[n..]
  {
    hide Nest, DstAt, SrcAt;
    var r := Nest(dst, src, f, dims, 0, 0);
    forall k | 0 <= k < |dst|
      ensures r[k] == (src[..n] + dst[n..])[k]
    {
      if k < n {
        assert Reads(dims, k);
        var x :| InBox(dims, x) && SrcAt(dims, x) == k;
        NestHit(dst, src, f, dims, 0, 0, x);
      } else {
        NestFrame(dst, src, f, dims, 0, 0, k);
      }
    }
  }

  /** A cell that is reached holds the converted source element. */
  lemma InjectiveHit<A, B>(dst: seq<B>, src: seq<A>, f: A -> B, dims: seq<Dim>, d: int, s: int, x: seq<nat>)
    requires Injective(dims) && InBox(dims, x)
    requires 0 <= d + DstAt(dims, x) < |dst| && 0 <= s + SrcAt(dims, x) < |src|
    ensures Nest(dst, src, f, dims, d, s)[d + DstAt(dims, x)] == f(src[s + SrcAt(dims, x)])
  {
    NestHit(dst, src, f, dims, d, s, x);
  }

  /** Offsets of a nest of three loops. */
  lemma At3(dims: seq<Dim>, x: seq<nat>)
    requires |dims| == |x| == 3
    ensures DstAt(dims, x) == x[0] * dims[0].dst + x[1] * dims[1].dst + x[2] * dims[2].dst
    ensures SrcAt(dims, x) == x[0] * dims[0].src + x[1] * dims[1].src + x[2] * dims[2].src
  {
    var (d1, x1) := (dims[1..], x[1..]);
    var (d2, x2) := (d1[1..], x1[1..]);
    assert DstAt(d2, x2) == x2[0] * d2[0].dst && SrcAt(d2, x2) == x2[0] * d2[0].src;
    assert DstAt(d1, x1) == x1[0] * d1[0].dst + DstAt(d2, x2) && SrcAt(d1, x1) == x1[0] * d1[0].src + SrcAt(d2, x2);
  }

  /** Offsets of a nest of four loops. */
  lemma At4(dims: seq<Dim>, x: seq<nat>)
    requires |dims| == |x| == 4
    ensures DstAt(dims, x) == x[0] * dims[0].dst + x[1] * dims[1].dst + x[2] * dims[2].dst + x[3] * dims[3].dst
    ensures SrcAt(dims, x) == x[0] * dims[0].src + x[1] * dims[1].src + x[2] * dims[2].src + x[3] * dims[3].src
  {
    var (d1, x1) := (dims[1..], x[1..]);
    var (d2, x2) := (d1[1..], x1[1..]);
    var (d3, x3) := (d2[1..], x2[1..]);
    assert DstAt(d3, x3) == x3[0] * d3[0].dst && SrcAt(d3, x3) == x3[0] * d3[0].src;
    assert DstAt(d2, x2) == x2[0] * d2[0].dst + DstAt(d3, x3) && SrcAt(d2, x2) == x2[0] * d2[0].src + SrcAt(d3, x3);
    assert DstAt(d1, x1) == x1[0] * d1[0].dst + DstAt(d2, x2) && SrcAt(d1, x1) == x1[0] * d1[0].src + SrcAt(d2, x2);
  }
}
