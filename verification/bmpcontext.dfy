/** Saving a region of an image to a BMP context and loading it back. */
module BmpContexts {
  import opened Arithmetic
  import opened StridedCopy

  type pixel = x: int | 0 <= x < 256

  /** The image buffer as BMP files hold it: interleaved, blue first, the bottom row first. */
  class BmpContext {
    var width: int
    var height: int
    var numPlanes: int
    var bytesPerElement: int
    var planePitch: int
    var elementPitch: int
    var data: array<pixel>

    constructor (buffer: array<pixel>)
      ensures data == buffer
    {
      data := buffer;
      width, height, numPlanes, bytesPerElement, planePitch, elementPitch := 0, 0, 0, 0, 0, 0;
    }
  }

  // ----- The loops as index maps -----

  /** What saving reads and writes: planes, rows and columns. */
  function SaveLoops(imgWidth: int, roiWidth: nat, roiHeight: nat, inPitch: int): (dims: seq<Dim>)
    ensures |dims| == 3
  {
    [Dim(3, 1, -inPitch), Dim(roiHeight, roiWidth * 3, -imgWidth), Dim(roiWidth, 3, 1)]
  }

  /** Where saving reads first: the last plane of the region's bottom row. */
  function SaveStart(startX: int, startY: int, imgWidth: int, imgHeight: int, planes: int, inPitch: int): int {
    (planes - 1) * inPitch + (imgHeight - 1 - startY) * imgWidth + startX
  }

  function LoadLoops(width: int, planePitch: int, elementPitch: int, roiWidth: nat, roiHeight: nat,
                     planes: nat): (dims: seq<Dim>)
    ensures |dims| == 3
  {
    [Dim(planes, roiWidth * roiHeight, -planePitch), Dim(roiHeight, roiWidth, -(width * elementPitch)),
     Dim(roiWidth, 1, elementPitch)]
  }

  function LoadStart(startX: int, startY: int, imgHeight: int, width: int, planePitch: int, elementPitch: int,
                     planes: int): int {
    ((imgHeight - 1 - startY) * width + startX) * elementPitch + (planes - 1) * planePitch
  }

  function InPitch(planes: int, imgWidth: int, imgHeight: int): int {
    if planes == 1 then 0 else imgWidth * imgHeight
  }

  function Same(v: pixel): pixel {
    v
  }

  // ----- Saving -----

  /** One row of one plane. */
  method SaveRow(ctx: BmpContext, input: array<pixel>, ghost dims: seq<Dim>, ghost d: int, ghost s: int,
                 k: nat, i: nat, startX: int, ii: int, imgWidth: int, roiWidth: nat, base: int)
    requires ctx.data != input && dims == [Dim(roiWidth, ctx.elementPitch, 1)]
    requires d == i * roiWidth * ctx.elementPitch + k * ctx.planePitch && s == base + ii * imgWidth + startX
    requires Inside(dims, d, s, ctx.data.Length, input.Length)
    modifies ctx.data
    ensures ctx.data[..] == Nest(old(ctx.data[..]), input[..], Same, dims, d, s)
  {
    hide Nest, Trips;
    assert dims[1..] == [];
    ghost var t, u := ctx.data[..], input[..];
    var j := 0;
    TripsStep(t, u, Same, dims, 0, d, s);
    while j < roiWidth
      invariant j <= roiWidth
      invariant ctx.data[..] == Trips(t, u, Same, dims, j, d, s)
    {
      InsideTail(dims, d, s, ctx.data.Length, input.Length, j);
      TripsStep(t, u, Same, dims, j, d, s);
      Distribute(i * roiWidth, j, ctx.elementPitch);
      var jj := j + startX;
      var curPixel := input[base + ii * imgWidth + jj];
      NestWrites(ctx.data[..], u, Same, d + j * ctx.elementPitch, s + j);
      ctx.data[(i * roiWidth + j) * ctx.elementPitch + k * ctx.planePitch] := curPixel;
      j := j + 1;
    }
    NestTrips(t, u, Same, dims, d, s);
  }

  /** One interleaved plane of three bytes a pixel. */
  predicate Header(ctx: BmpContext, roiWidth: int, roiHeight: int)
    reads ctx
  {
    && ctx.width == roiWidth && ctx.height == roiHeight && ctx.numPlanes == 1
    && ctx.bytesPerElement == 3 && ctx.planePitch == 1 && ctx.elementPitch == 3
  }

  /** `tiadalg_img_save_to_bmp_context` */
  method SaveToBmpContext(ctx: BmpContext, startX: int, startY: int, imgWidth: int, imgHeight: int,
                          roiWidth: nat, roiHeight: nat, planes: int, input: array<pixel>)
    requires ctx.data != input
    requires Inside(SaveLoops(imgWidth, roiWidth, roiHeight, InPitch(planes, imgWidth, imgHeight)),
                    0, SaveStart(startX, startY, imgWidth, imgHeight, planes, InPitch(planes, imgWidth, imgHeight)),
                    ctx.data.Length, input.Length)
    modifies ctx, ctx.data
    ensures ctx.data == old(ctx.data) && Header(ctx, roiWidth, roiHeight)
    ensures ctx.data[..] == Nest(old(ctx.data[..]), input[..], Same,
                                 SaveLoops(imgWidth, roiWidth, roiHeight, InPitch(planes, imgWidth, imgHeight)), 0,
                                 SaveStart(startX, startY, imgWidth, imgHeight, planes,
                                     InPitch(planes, imgWidth, imgHeight)))
  {
    hide Nest, Trips, Inside;
    ctx.width, ctx.height := roiWidth, roiHeight;
    ctx.numPlanes, ctx.bytesPerElement, ctx.planePitch, ctx.elementPitch := 1, 3, 1, 3;
    var pitch := if planes == 1 then 0 else imgWidth * imgHeight;
    ghost var D0 := SaveLoops(imgWidth, roiWidth, roiHeight, pitch);
    ghost var D1 := D0[1..];
    ghost var D2 := D1[1..];
    assert D2 == [Dim(roiWidth, 3, 1)];
    ghost var s0 := SaveStart(startX, startY, imgWidth, imgHeight, planes, pitch);
    ghost var t0, u := ctx.data[..], input[..];
    var k := 0;
    TripsStep(t0, u, Same, D0, 0, 0, s0);
    while k < 3
      invariant k <= 3 && ctx.data == old(ctx.data) && Header(ctx, roiWidth, roiHeight)
      invariant ctx.data[..] == Trips(t0, u, Same, D0, k, 0, s0)
    {
      InsideTail(D0, 0, s0, ctx.data.Length, input.Length, k);
      ghost var t1, s1 := ctx.data[..], s0 + k * -pitch;
      var i := 0;
      TripsStep(t1, u, Same, D1, 0, k, s1);
      while i < roiHeight
        invariant i <= roiHeight && ctx.data == old(ctx.data) && Header(ctx, roiWidth, roiHeight)
        invariant ctx.data[..] == Trips(t1, u, Same, D1, i, k, s1)
      {
        InsideTail(D1, k, s1, ctx.data.Length, input.Length, i);
        TripsStep(t1, u, Same, D1, i, k, s1);
        var kk, ii := planes - 1 - k, imgHeight - 1 - (i + startY);
        SaveAt(startX, startY, imgWidth, imgHeight, planes, pitch, k, i);
        RowAt(i, roiWidth);
        SaveRow(ctx, input, D2, k + i * (roiWidth * 3), s1 + i * -imgWidth,
                k, i, startX, ii, imgWidth, roiWidth, kk * pitch);
        i := i + 1;
      }
      NestTrips(t1, u, Same, D1, k, s1);
      TripsStep(t0, u, Same, D0, k, 0, s0);
      k := k + 1;
    }
    NestTrips(t0, u, Same, D0, 0, s0);
  }

  lemma RowAt(i: nat, w: nat)
    ensures i * w * 3 == i * (w * 3)
  {
  }

  lemma SaveAt(startX: int, startY: int, imgWidth: int, imgHeight: int, planes: int, pitch: int, k: int, i: int)
    ensures SaveStart(startX, startY, imgWidth, imgHeight, planes, pitch) + k * -pitch + i * -imgWidth
         == (planes - 1 - k) * pitch + (imgHeight - 1 - (i + startY)) * imgWidth + startX
  {
    Distribute(planes - 1, -k, pitch);
    Distribute(imgHeight - 1 - startY, -i, imgWidth);
  }

  // ----- Loading -----

  /** One row of one plane. */
  method LoadRow(ctx: BmpContext, out: array<pixel>, ghost dims: seq<Dim>, ghost d: int, ghost s: int,
                 startX: int, ii: int, roiWidth: nat, to: int, from: int)
    requires ctx.data != out && dims == [Dim(roiWidth, 1, ctx.elementPitch)]
    requires d == to && s == (ii * ctx.width + startX) * ctx.elementPitch + from
    requires Inside(dims, d, s, out.Length, ctx.data.Length)
    modifies out
    ensures out[..] == Nest(old(out[..]), ctx.data[..], Same, dims, d, s)
  {
    hide Nest, Trips;
    assert dims[1..] == [];
    ghost var t, u := out[..], ctx.data[..];
    var j := 0;
    TripsStep(t, u, Same, dims, 0, d, s);
    while j < roiWidth
      invariant j <= roiWidth
      invariant out[..] == Trips(t, u, Same, dims, j, d, s)
    {
      InsideTail(dims, d, s, out.Length, ctx.data.Length, j);
      TripsStep(t, u, Same, dims, j, d, s);
      Distribute(ii * ctx.width + startX, j, ctx.elementPitch);
      var jj := j + startX;
      var curInOffset := (ii * ctx.width + jj) * ctx.elementPitch;
      var curPixel := ctx.data[curInOffset + from];
      NestWrites(out[..], u, Same, d + j, s + j * ctx.elementPitch);
      out[to + j] := curPixel;
      j := j + 1;
    }
    NestTrips(t, u, Same, dims, d, s);
  }

  /** `tiadalg_img_load_from_bmp_context` */
  method LoadFromBmpContext(ctx: BmpContext, startX: int, startY: int, imgHeight: int,
                            roiWidth: nat, roiHeight: nat, planes: nat, out: array<pixel>)
    requires ctx.data != out
    requires Inside(LoadLoops(ctx.width, ctx.planePitch, ctx.elementPitch, roiWidth, roiHeight, planes), 0,
                    LoadStart(startX, startY, imgHeight, ctx.width, ctx.planePitch, ctx.elementPitch, planes),
                    out.Length, ctx.data.Length)
    modifies out
    ensures out[..] == Nest(old(out[..]), ctx.data[..], Same,
                            LoadLoops(ctx.width, ctx.planePitch, ctx.elementPitch, roiWidth, roiHeight, planes), 0,
                            LoadStart(startX, startY, imgHeight, ctx.width, ctx.planePitch, ctx.elementPitch, planes))
  {
    hide Nest, Trips, Inside;
    var (w, pp, ep) := (ctx.width, ctx.planePitch, ctx.elementPitch);
    ghost var D0 := LoadLoops(w, pp, ep, roiWidth, roiHeight, planes);
    ghost var D1 := D0[1..];
    ghost var D2 := D1[1..];
    assert D2 == [Dim(roiWidth, 1, ep)];
    ghost var s0 := LoadStart(startX, startY, imgHeight, w, pp, ep, planes);
    ghost var t0, u := out[..], ctx.data[..];
    var k := 0;
    TripsStep(t0, u, Same, D0, 0, 0, s0);
    while k < planes
      invariant k <= planes && out[..] == Trips(t0, u, Same, D0, k, 0, s0)
    {
      InsideTail(D0, 0, s0, out.Length, ctx.data.Length, k);
      ghost var t1, d1, s1 := out[..], k * (roiWidth * roiHeight), s0 + k * -pp;
      var i := 0;
      TripsStep(t1, u, Same, D1, 0, d1, s1);
      while i < roiHeight
        invariant i <= roiHeight && out[..] == Trips(t1, u, Same, D1, i, d1, s1)
      {
        InsideTail(D1, d1, s1, out.Length, ctx.data.Length, i);
        TripsStep(t1, u, Same, D1, i, d1, s1);
        var kk, ii := planes - 1 - k, imgHeight - 1 - (i + startY);
        LoadAt(startX, startY, imgHeight, w, pp, ep, planes, k, i);
        Triple(k, roiWidth, roiHeight);
        LoadRow(ctx, out, D2, d1 + i * roiWidth, s1 + i * -(w * ep),
                startX, ii, roiWidth, k * roiWidth * roiHeight + i * roiWidth, kk * pp);
        i := i + 1;
      }
      NestTrips(t1, u, Same, D1, d1, s1);
      TripsStep(t0, u, Same, D0, k, 0, s0);
      k := k + 1;
    }
    NestTrips(t0, u, Same, D0, 0, s0);
  }

  lemma Triple(a: int, b: int, c: int)
    ensures a * b * c == a * (b * c)
  {
  }

  lemma LoadAt(startX: int, startY: int, imgHeight: int, w: int, pp: int, ep: int, planes: int, k: int, i: int)
    ensures LoadStart(startX, startY, imgHeight, w, pp, ep, planes) + k * -pp + i * -(w * ep)
         == ((imgHeight - 1 - (i + startY)) * w + startX) * ep + (planes - 1 - k) * pp
  {
    Distribute(planes - 1, -k, pp);
    Distribute(imgHeight - 1 - startY, -i, w);
    Distribute((imgHeight - 1 - startY) * w + startX, -i * w, ep);
    Triple(-i, w, ep);
  }

  // ----- Every byte once -----

  /** Saving writes every byte of the region's buffer exactly once. */
  lemma SaveWritesEachByteOnce(imgWidth: int, roiWidth: nat, roiHeight: nat, inPitch: int)
    ensures var dims := SaveLoops(imgWidth, roiWidth, roiHeight, inPitch);
            Injective(dims)
            && (forall x | InBox(dims, x) :: 0 <= DstAt(dims, x) < 3 * (roiWidth * roiHeight))
            && forall p | 0 <= p < 3 * (roiWidth * roiHeight) :: Reaches(dims, p)
  {
    hide DstAt, SrcAt;
    var dims := SaveLoops(imgWidth, roiWidth, roiHeight, inPitch);
    if roiWidth > 0 && roiHeight > 0 {
      var last := [Dim(roiHeight, roiWidth * 3, 0), Dim(roiWidth, 3, 0), Dim(3, 1, 0)];
      PlanesLastDense(roiWidth, roiHeight);
      DenseBijective(last, 3 * (roiWidth * roiHeight));
      forall x | InBox(dims, x)
        ensures InBox(last, PlanesLast(x)) && DstAt(dims, x) == DstAt(last, PlanesLast(x))
      {
        At3(dims, x);
        At3(last, PlanesLast(x));
      }
      forall x, y | InBox(dims, x) && InBox(dims, y) && DstAt(dims, x) == DstAt(dims, y)
        ensures x == y
      {
        assert PlanesLast(x) == PlanesLast(y);
        assert x == [PlanesLast(x)[2], PlanesLast(x)[0], PlanesLast(x)[1]];
        assert y == [PlanesLast(y)[2], PlanesLast(y)[0], PlanesLast(y)[1]];
      }
      forall p | 0 <= p < 3 * (roiWidth * roiHeight)
        ensures Reaches(dims, p)
      {
        assert Reaches(last, p);
        var y :| InBox(last, y) && DstAt(last, y) == p;
        var x := [y[2], y[0], y[1]];
        assert PlanesLast(x) == y && InBox(dims, x);
      }
    } else {
      forall x
        ensures !InBox(dims, x)
      {
        EmptyBox(dims, if roiHeight == 0 then 1 else 2, x);
      }
      assert roiWidth * roiHeight == 0;
    }
  }

  function PlanesLast(x: seq<nat>): (y: seq<nat>)
    requires |x| == 3
    ensures |y| == 3
  {
    [x[1], x[2], x[0]]
  }

  lemma PlanesLastDense(w: nat, h: nat)
    ensures var last := [Dim(h, w * 3, 0), Dim(w, 3, 0), Dim(3, 1, 0)];
            Dense(last) && Size(last) == 3 * (w * h)
  {
    var d0 := [Dim(h, w * 3, 0), Dim(w, 3, 0), Dim(3, 1, 0)];
    var d1 := d0[1..];
    var d2 := d1[1..];
    assert d2[1..] == [];
    assert Size(d2) == 3 && Dense(d2);
    assert Size(d1) == w * 3 && Dense(d1);
    assert Size(d0) == h * (w * 3) == 3 * (w * h);
  }

  /** Loading into a deinterleaved buffer writes each of its bytes once. */
  lemma LoadDense(width: int, pp: int, ep: int, w: nat, h: nat, planes: nat)
    ensures var dims := LoadLoops(width, pp, ep, w, h, planes);
            Dense(dims) && Size(dims) == planes * (w * h)
  {
    var d0 := LoadLoops(width, pp, ep, w, h, planes);
    var d1 := d0[1..];
    var d2 := d1[1..];
    assert d2[1..] == [];
    assert Size(d2) == w && Dense(d2);
    assert Size(d1) == w * h && Dense(d1);
  }

  /** The pixel that loading puts at plane `k`, row `i`, column `j` of the output. */
  function LoadSource(startX: int, startY: int, imgHeight: int, width: int, pp: int, ep: int, planes: int,
                      k: int, i: int, j: int): int {
    ((imgHeight - 1 - (i + startY)) * width + (j + startX)) * ep + (planes - 1 - k) * pp
  }

  function LoadTarget(w: int, h: int, k: int, i: int, j: int): int {
    k * w * h + i * w + j
  }

  /** What loading leaves, for any region of a context of any width and pitches. */
  lemma LoadedRegion(out: seq<pixel>, data: seq<pixel>, startX: int, startY: int, imgHeight: int, width: int,
                     pp: int, ep: int, w: nat, h: nat, planes: nat, k: nat, i: nat, j: nat)
    requires k < planes && i < h && j < w
    requires Inside(LoadLoops(width, pp, ep, w, h, planes), 0,
                    LoadStart(startX, startY, imgHeight, width, pp, ep, planes), |out|, |data|)
    ensures var (to, from) := (LoadTarget(w, h, k, i, j),
                               LoadSource(startX, startY, imgHeight, width, pp, ep, planes, k, i, j));
            && 0 <= to < |out| && 0 <= from < |data|
            && Nest(out, data, Same, LoadLoops(width, pp, ep, w, h, planes), 0,
                    LoadStart(startX, startY, imgHeight, width, pp, ep, planes))[to] == data[from]
  {
    hide DstAt, SrcAt, Nest, Injective, Inside, LoadStart, LoadLoops, LoadSource, LoadTarget;
    var dims, x := LoadLoops(width, pp, ep, w, h, planes), [k, i, j];
    var start := LoadStart(startX, startY, imgHeight, width, pp, ep, planes);
    LoadInjective(width, pp, ep, w, h, planes);
    LoadOffsets(startX, startY, imgHeight, width, pp, ep, w, h, planes, k, i, j);
    InsideAt(dims, 0, start, |out|, |data|, x);
    InjectiveHit(out, data, Same, dims, 0, start, x);
  }

  lemma LoadInjective(width: int, pp: int, ep: int, w: nat, h: nat, planes: nat)
    requires w > 0 && h > 0 && planes > 0
    ensures Injective(LoadLoops(width, pp, ep, w, h, planes))
  {
    hide Injective, Dense, Size;
    LoadDense(width, pp, ep, w, h, planes);
    DenseBijective(LoadLoops(width, pp, ep, w, h, planes), planes * (w * h));
  }

  lemma LoadOffsets(startX: int, startY: int, imgHeight: int, width: int, pp: int, ep: int, w: nat, h: nat, planes: nat,
                    k: nat, i: nat, j: nat)
    requires k < planes && i < h && j < w
    ensures var dims := LoadLoops(width, pp, ep, w, h, planes);
            && InBox(dims, [k, i, j]) && DstAt(dims, [k, i, j]) == LoadTarget(w, h, k, i, j)
            && LoadStart(startX, startY, imgHeight, width, pp, ep, planes) + SrcAt(dims, [k, i, j])
               == LoadSource(startX, startY, imgHeight, width, pp, ep, planes, k, i, j)
  {
    hide DstAt, SrcAt, LoadStart;
    At3(LoadLoops(width, pp, ep, w, h, planes), [k, i, j]);
    LoadAt(startX, startY, imgHeight, width, pp, ep, planes, k, i);
    Distribute((imgHeight - 1 - (i + startY)) * width + startX, j, ep);
    Triple(k, w, h);
  }

  lemma InsideAt(dims: seq<Dim>, d: int, s: int, dstLen: nat, srcLen: nat, x: seq<nat>)
    requires Inside(dims, d, s, dstLen, srcLen) && InBox(dims, x)
    ensures 0 <= d + DstAt(dims, x) < dstLen && 0 <= s + SrcAt(dims, x) < srcLen
  {
  }

  // ----- The round trip -----

  /** A region inside the image. */
  predicate Region(startX: int, startY: int, imgWidth: int, imgHeight: int, w: nat, h: nat) {
    0 <= startX && startX + w <= imgWidth && 0 <= startY && startY + h <= imgHeight
  }

  /** A number of planes saving can take three from: the last three, or one three times. */
  predicate ThreePlanes(planes: int) {
    planes == 1 || planes >= 3
  }

  /** Where plane `k` of what comes back is read: the last three planes, or the only one. */
  function PlaneStart(k: int, planes: int, imgWidth: int, imgHeight: int): int {
    if planes == 1 then 0 else (planes - 3 + k) * (imgWidth * imgHeight)
  }

  /** The pixel that saving puts at row `i`, column `j` and byte `k`. */
  function SaveSource(k: int, i: int, j: int, startX: int, startY: int, imgWidth: int, imgHeight: int,
                      planes: int): int {
    (if planes == 1 then 0 else (planes - 1 - k) * (imgWidth * imgHeight))
    + (imgHeight - 1 - (i + startY)) * imgWidth + startX + j
  }

  lemma SaveOffsets(k: nat, i: nat, j: nat, startX: int, startY: int, imgWidth: int, imgHeight: int, w: nat, h: nat,
                    planes: int)
    ensures var pitch := InPitch(planes, imgWidth, imgHeight);
            var dims := SaveLoops(imgWidth, w, h, pitch);
            && DstAt(dims, [k, i, j]) == (i * w + j) * 3 + k
            && SaveStart(startX, startY, imgWidth, imgHeight, planes, pitch) + SrcAt(dims, [k, i, j])
               == SaveSource(k, i, j, startX, startY, imgWidth, imgHeight, planes)
  {
    hide DstAt, SrcAt;
    var pitch := InPitch(planes, imgWidth, imgHeight);
    At3(SaveLoops(imgWidth, w, h, pitch), [k, i, j]);
    SaveAt(startX, startY, imgWidth, imgHeight, planes, pitch, k, i);
    Distribute(i * w, j, 3);
    RowAt(i, w);
  }

  /** The pixels read lie in the image. */
  lemma SourceInImage(k: nat, i: nat, j: nat, startX: int, startY: int, imgWidth: int, imgHeight: int, w: nat, h: nat,
                      planes: int)
    requires Region(startX, startY, imgWidth, imgHeight, w, h) && ThreePlanes(planes) && k < 3 && i < h && j < w
    ensures 0 <= SaveSource(k, i, j, startX, startY, imgWidth, imgHeight, planes) < planes * (imgWidth * imgHeight)
  {
    var row, col := imgHeight - 1 - (i + startY), startX + j;
    WithinPlane(row, col, imgWidth, imgHeight);
    if planes > 1 {
      MulMono(planes - 1 - k, planes - 1, imgWidth * imgHeight);
      Distribute(planes - 1, 1, imgWidth * imgHeight);
    }
  }

  lemma WithinPlane(row: nat, col: nat, width: nat, height: nat)
    requires row < height && col < width
    ensures 0 <= row * width + col < width * height
  {
    MulMono(row + 1, height, width);
    Distribute(row, 1, width);
  }

  /** The first of three planes is read in front of the image when it has two. */
  lemma SourceInFront(startX: int, startY: int, imgWidth: int, imgHeight: int, w: nat, h: nat, planes: int)
    requires Region(startX, startY, imgWidth, imgHeight, w, h) && !ThreePlanes(planes) && h > 0 && w > 0
    ensures SaveSource(2, 0, 0, startX, startY, imgWidth, imgHeight, planes) < 0
  {
    WithinPlane(imgHeight - 1 - startY, startX, imgWidth, imgHeight);
    MulMono(1, 3 - planes, imgWidth * imgHeight);
  }

  /** With buffers large enough, saving a region inside the image stays inside
      both exactly when the image has one plane or at least three, or the region
      is empty: with two planes the code reads in front of the image. */
  lemma RegionInside(startX: int, startY: int, imgWidth: int, imgHeight: int, w: nat, h: nat, planes: int,
                     dataLen: nat, inLen: nat)
    requires Region(startX, startY, imgWidth, imgHeight, w, h)
    requires dataLen >= 3 * (w * h) && inLen >= planes * (imgWidth * imgHeight)
    ensures var pitch := InPitch(planes, imgWidth, imgHeight);
            Inside(SaveLoops(imgWidth, w, h, pitch), 0, SaveStart(startX, startY, imgWidth, imgHeight, planes, pitch),
                dataLen, inLen)
            <==> ThreePlanes(planes) || w == 0 || h == 0
  {
    hide DstAt, SrcAt, SaveStart, SaveSource, Region;
    var pitch := InPitch(planes, imgWidth, imgHeight);
    var dims := SaveLoops(imgWidth, w, h, pitch);
    var start := SaveStart(startX, startY, imgWidth, imgHeight, planes, pitch);
    SaveWritesEachByteOnce(imgWidth, w, h, pitch);
    if ThreePlanes(planes) || w == 0 || h == 0 {
      forall x | InBox(dims, x)
        ensures 0 <= start + SrcAt(dims, x) < inLen
      {
        assert x == [x[0], x[1], x[2]];
        SaveOffsets(x[0], x[1], x[2], startX, startY, imgWidth, imgHeight, w, h, planes);
        SourceInImage(x[0], x[1], x[2], startX, startY, imgWidth, imgHeight, w, h, planes);
      }
    } else {
      assert InBox(dims, [2, 0, 0]);
      SaveOffsets(2, 0, 0, startX, startY, imgWidth, imgHeight, w, h, planes);
      SourceInFront(startX, startY, imgWidth, imgHeight, w, h, planes);
    }
  }

  /** One pixel of an image of two planes: saving reads outside the image, whatever the sizes of the buffers. */
  lemma TwoPlanesOutside(dataLen: nat, inLen: nat)
    ensures !Inside(SaveLoops(1, 1, 1, InPitch(2, 1, 1)), 0, SaveStart(0, 0, 1, 1, 2, InPitch(2, 1, 1)), dataLen, inLen)
  {
    hide DstAt, SrcAt, SaveStart;
    var dims := SaveLoops(1, 1, 1, InPitch(2, 1, 1));
    assert InBox(dims, [2, 0, 0]);
    SaveOffsets(2, 0, 0, 0, 0, 1, 1, 1, 1, 2);
  }

  /** What saving leaves in the context. */
  function Saved(data: seq<pixel>, input: seq<pixel>, startX: int, startY: int, imgWidth: int, imgHeight: int,
                 w: nat, h: nat, planes: int): (r: seq<pixel>)
    ensures |r| == |data|
  {
    var pitch := InPitch(planes, imgWidth, imgHeight);
    Nest(data, input, Same, SaveLoops(imgWidth, w, h, pitch), 0,
         SaveStart(startX, startY, imgWidth, imgHeight, planes, pitch))
  }

  /** What loading the whole saved context leaves in the output. */
  function LoadedBack(out: seq<pixel>, data: seq<pixel>, w: nat, h: nat): (r: seq<pixel>)
    ensures |r| == |out|
  {
    Nest(out, data, Same, LoadLoops(w, 1, 3, w, h, 3), 0, LoadStart(0, 0, h, w, 1, 3, 3))
  }

  /** Byte `k` of the pixel at row `i`, column `j` of the context. */
  lemma SavedAt(data: seq<pixel>, input: seq<pixel>, startX: int, startY: int, imgWidth: int, imgHeight: int,
                w: nat, h: nat, planes: int, k: nat, i: nat, j: nat)
    requires Region(startX, startY, imgWidth, imgHeight, w, h) && ThreePlanes(planes) && k < 3 && i < h && j < w
    requires |data| >= 3 * (w * h) && |input| >= planes * (imgWidth * imgHeight)
    ensures 0 <= SaveSource(k, i, j, startX, startY, imgWidth, imgHeight, planes) < |input|
    ensures 0 <= (i * w + j) * 3 + k < |data|
    ensures Saved(data, input, startX, startY, imgWidth, imgHeight, w, h, planes)[(i * w + j) * 3 + k]
         == input[SaveSource(k, i, j, startX, startY, imgWidth, imgHeight, planes)]
  {
    hide DstAt, SrcAt, Nest, SaveSource, SaveStart, Injective;
    var pitch := InPitch(planes, imgWidth, imgHeight);
    var dims, x := SaveLoops(imgWidth, w, h, pitch), [k, i, j];
    SaveWritesEachByteOnce(imgWidth, w, h, pitch);
    SaveOffsets(k, i, j, startX, startY, imgWidth, imgHeight, w, h, planes);
    SourceInImage(k, i, j, startX, startY, imgWidth, imgHeight, w, h, planes);
    assert InBox(dims, x);
    InjectiveHit(data, input, Same, dims, 0, SaveStart(startX, startY, imgWidth, imgHeight, planes, pitch), x);
  }

  lemma LoadedAt(out: seq<pixel>, data: seq<pixel>, w: nat, h: nat, k: nat, i: nat, j: nat)
    requires k < 3 && i < h && j < w && |data| >= 3 * (w * h) && |out| >= 3 * (w * h)
    ensures 0 <= ((h - 1 - i) * w + j) * 3 + (2 - k) < |data|
    ensures 0 <= k * (w * h) + i * w + j < |out|
    ensures LoadedBack(out, data, w, h)[k * (w * h) + i * w + j] == data[((h - 1 - i) * w + j) * 3 + (2 - k)]
  {
    hide DstAt, SrcAt, Nest, Injective;
    var dims, x := LoadLoops(w, 1, 3, w, h, 3), [k, i, j];
    LoadDense(w, 1, 3, w, h, 3);
    DenseBijective(dims, 3 * (w * h));
    assert InBox(dims, x);
    At3(dims, x);
    LoadAt(0, 0, h, w, 1, 3, 3, k, i);
    Distribute((h - 1 - i) * w, j, 3);
    WithinPlane(h - 1 - i, j, w, h);
    InjectiveHit(out, data, Same, dims, 0, LoadStart(0, 0, h, w, 1, 3, 3), x);
  }

  /** Saving a region and loading the context back gives, plane for plane, the
      image cropped at column `startX` and row `imgHeight - h - startY`; a single
      plane comes back in all three. */
  lemma RegionRoundTrip(data: seq<pixel>, input: seq<pixel>, out: seq<pixel>, startX: int, startY: int,
                        imgWidth: int, imgHeight: int, w: nat, h: nat, planes: int, k: nat, i: nat, j: nat)
    requires Region(startX, startY, imgWidth, imgHeight, w, h) && ThreePlanes(planes) && k < 3 && i < h && j < w
    requires |data| >= 3 * (w * h) && |input| >= planes * (imgWidth * imgHeight) && |out| >= 3 * (w * h)
    ensures var saved := Saved(data, input, startX, startY, imgWidth, imgHeight, w, h, planes);
            var from := PlaneStart(k, planes, imgWidth, imgHeight)
                        + (imgHeight - h - startY + i) * imgWidth + startX + j;
            var to := k * (w * h) + i * w + j;
            0 <= from < |input| && 0 <= to < |out| && LoadedBack(out, saved, w, h)[to] == input[from]
  {
    hide Saved, LoadedBack, SaveSource, PlaneStart, Region;
    CroppedFrom(startX, startY, imgWidth, imgHeight, h, planes, k, i, j);
    LoadedAt(out, Saved(data, input, startX, startY, imgWidth, imgHeight, w, h, planes), w, h, k, i, j);
    SavedAt(data, input, startX, startY, imgWidth, imgHeight, w, h, planes, 2 - k, h - 1 - i, j);
  }

  lemma CroppedFrom(startX: int, startY: int, imgWidth: int, imgHeight: int, h: nat, planes: int,
                    k: nat, i: nat, j: nat)
    ensures SaveSource(2 - k, h - 1 - i, j, startX, startY, imgWidth, imgHeight, planes)
         == PlaneStart(k, planes, imgWidth, imgHeight) + (imgHeight - h - startY + i) * imgWidth + startX + j
  {
    assert imgHeight - 1 - (h - 1 - i + startY) == imgHeight - h - startY + i;
  }

  /** Saving a whole three-plane image and loading it back is the identity. */
  lemma ImageRoundTrip(data: seq<pixel>, input: seq<pixel>, out: seq<pixel>, w: nat, h: nat)
    requires |input| == |data| == |out| == 3 * (w * h)
    ensures LoadedBack(out, Saved(data, input, 0, 0, w, h, w, h, 3), w, h) == input
  {
    hide Saved, LoadedBack, DstAt, SrcAt;
    var r := LoadedBack(out, Saved(data, input, 0, 0, w, h, w, h, 3), w, h);
    forall p | 0 <= p < |input|
      ensures r[p] == input[p]
    {
      var dims := LoadLoops(w, 1, 3, w, h, 3);
      LoadDense(w, 1, 3, w, h, 3);
      var x := DenseReaches(dims, p);
      assert x == [x[0], x[1], x[2]];
      At3(dims, x);
      RegionRoundTrip(data, input, out, 0, 0, w, h, w, h, 3, x[0], x[1], x[2]);
    }
  }
}
