/** Where the elements of a tensor stand: dense user tensors in either layout,
    and the internal buffers, dense or padded. */
module TensorLayout {
  import opened Arithmetic
  import opened Requantisation
  import opened StridedCopy

  datatype Layout = NCHW | NHWC

  /** The user's tensor descriptor: what the copies read of it. */
  datatype Tensor = Tensor(elementType: ElementType, layout: Layout, scale: real, zeroPoint: int,
                           channelPitch: int, padL: int, padR: int, padT: int, bufferSize: int, shared: bool)

  /** The internal buffer descriptor of one input or output. */
  datatype IOBuf = IOBuf(elementType: ElementType, layout: Layout, scale: real, zeroPoint: int,
                         batches: nat, numChannels: nat, dim1: nat, dim2: nat, height: nat, width: nat,
                         padL: int, padR: int, padT: int, channelPitch: int, bufSize: int)

  function Channels(d: IOBuf): nat {
    d.numChannels * d.dim1 * d.dim2
  }

  function LinePitch(d: IOBuf): int {
    d.width + d.padL + d.padR
  }

  /** Where the first element stands in the internal buffer: computed from the
      padded line whatever the layout. */
  function Offset(d: IOBuf): int {
    LinePitch(d) * d.padT + d.padL
  }

  function Elements(d: IOBuf): nat {
    d.batches * Channels(d) * d.height * d.width
  }

  datatype Pitches = Pitches(bp: int, cp: int, lp: int, pp: int)

  function DensePitches(l: Layout, c: nat, h: nat, w: nat): Pitches {
    if l.NCHW? then Pitches(c * h * w, h * w, w, 1) else Pitches(c * h * w, 1, c * w, c)
  }

  /** The user's tensor is dense. */
  function UserPitches(l: Layout, d: IOBuf): Pitches {
    DensePitches(l, Channels(d), d.height, d.width)
  }

  /** The internal NCHW layout is padded; NHWC is dense. */
  function InternalPitches(d: IOBuf): Pitches {
    if d.layout.NHWC? then UserPitches(NHWC, d)
    else Pitches(Channels(d) * d.channelPitch, d.channelPitch, LinePitch(d), 1)
  }

  /** The four loops that walk `to` while walking `from`. */
  function Walk(b: nat, c: nat, h: nat, w: nat, to: Pitches, from: Pitches): (dims: seq<Dim>)
    ensures |dims| == 4
  {
    Loops(b, c, h, w, to.bp, to.cp, to.lp, to.pp, from.bp, from.cp, from.lp, from.pp)
  }

  /** The four loops of a copy from the user's tensor in. */
  function InLoops(t: Tensor, d: IOBuf): (dims: seq<Dim>)
    ensures |dims| == 4
  {
    Walk(d.batches, Channels(d), d.height, d.width, InternalPitches(d), UserPitches(t.layout, d))
  }

  function OutLoops(t: Tensor, d: IOBuf): (dims: seq<Dim>)
    ensures |dims| == 4
  {
    Walk(d.batches, Channels(d), d.height, d.width, UserPitches(t.layout, d), InternalPitches(d))
  }

  lemma OutIsSwappedIn(t: Tensor, d: IOBuf)
    ensures OutLoops(t, d) == Swapped(InLoops(t, d))
  {
  }

  // ----- Only the strides of one side matter to one side -----

  lemma WalkAt(b: nat, c: nat, h: nat, w: nat, to: Pitches, from: Pitches, x: seq<nat>)
    requires |x| == 4
    ensures DstAt(Walk(b, c, h, w, to, from), x) == x[0] * to.bp + x[1] * to.cp + x[2] * to.lp + x[3] * to.pp
    ensures SrcAt(Walk(b, c, h, w, to, from), x) == x[0] * from.bp + x[1] * from.cp + x[2] * from.lp + x[3] * from.pp
    ensures InBox(Walk(b, c, h, w, to, from), x) <==> x[0] < b && x[1] < c && x[2] < h && x[3] < w
  {
    hide DstAt, SrcAt;
    At4(Walk(b, c, h, w, to, from), x);
  }

  // ----- Dense layouts are bijections -----

  /** The index map of a dense layout is one to one and onto [0, b*c*h*w). */
  ghost predicate Bijective(l: Layout, b: nat, c: nat, h: nat, w: nat) {
    var dims := Walk(b, c, h, w, DensePitches(l, c, h, w), DensePitches(l, c, h, w));
    && Injective(dims)
    && (forall x | InBox(dims, x) :: 0 <= DstAt(dims, x) < b * c * h * w)
    && forall k | 0 <= k < b * c * h * w :: Reaches(dims, k)
  }

  lemma DenseBijectiveNchw(b: nat, c: nat, h: nat, w: nat)
    requires b > 0 && c > 0 && h > 0 && w > 0
    ensures Bijective(NCHW, b, c, h, w)
  {
    var p := DensePitches(NCHW, c, h, w);
    var d0 := Walk(b, c, h, w, p, p);
    var d1 := d0[1..];
    var d2 := d1[1..];
    var d3 := d2[1..];
    assert d3[1..] == [];
    assert Size(d3) == w && Dense(d3);
    assert Size(d2) == h * w && Dense(d2);
    assert Size(d1) == c * (h * w) == c * h * w && Dense(d1);
    assert Size(d0) == b * (c * h * w) == b * c * h * w && Dense(d0);
    DenseBijective(d0, b * c * h * w);
  }

  /** Walking the channels innermost. */
  function ChannelsLast(x: seq<nat>): (y: seq<nat>)
    requires |x| == 4
    ensures |y| == 4
  {
    [x[0], x[2], x[3], x[1]]
  }

  lemma NhwcIsDense(b: nat, c: nat, h: nat, w: nat)
    requires b > 0 && c > 0 && h > 0 && w > 0
    ensures var p := Pitches(c * h * w, c * w, c, 1);
            Dense(Walk(b, h, w, c, p, p)) && Size(Walk(b, h, w, c, p, p)) == b * c * h * w
  {
    var p := Pitches(c * h * w, c * w, c, 1);
    var d0 := Walk(b, h, w, c, p, p);
    var d1 := d0[1..];
    var d2 := d1[1..];
    var d3 := d2[1..];
    assert d3[1..] == [];
    assert Size(d3) == c && Dense(d3);
    assert Size(d2) == w * c && Dense(d2);
    assert h * (w * c) == c * h * w;
    assert Size(d1) == c * h * w && Dense(d1);
    assert Size(d0) == b * (c * h * w) == b * c * h * w && Dense(d0);
  }

  lemma DenseBijectiveNhwc(b: nat, c: nat, h: nat, w: nat)
    requires b > 0 && c > 0 && h > 0 && w > 0
    ensures Bijective(NHWC, b, c, h, w)
  {
    hide Dense, Size, DstAt, SrcAt;
    var p, q := DensePitches(NHWC, c, h, w), Pitches(c * h * w, c * w, c, 1);
    var dims, last := Walk(b, c, h, w, p, p), Walk(b, h, w, c, q, q);
    NhwcIsDense(b, c, h, w);
    DenseBijective(last, b * c * h * w);
    forall x | InBox(dims, x)
      ensures InBox(last, ChannelsLast(x)) && DstAt(dims, x) == DstAt(last, ChannelsLast(x))
    {
      WalkAt(b, c, h, w, p, p, x);
      WalkAt(b, h, w, c, q, q, ChannelsLast(x));
    }
    forall x, y | InBox(dims, x) && InBox(dims, y) && DstAt(dims, x) == DstAt(dims, y)
      ensures x == y
    {
      assert ChannelsLast(x) == ChannelsLast(y);
      assert x[0] == ChannelsLast(x)[0] && x[1] == ChannelsLast(x)[3] && x[2] == ChannelsLast(x)[1]
          && x[3] == ChannelsLast(x)[2];
      assert y[0] == ChannelsLast(y)[0] && y[1] == ChannelsLast(y)[3] && y[2] == ChannelsLast(y)[1]
          && y[3] == ChannelsLast(y)[2];
    }
    forall k | 0 <= k < b * c * h * w
      ensures Reaches(dims, k)
    {
      assert Reaches(last, k);
      var y :| InBox(last, y) && DstAt(last, y) == k;
      var x := [y[0], y[3], y[1], y[2]];
      assert ChannelsLast(x) == y;
      WalkAt(b, c, h, w, p, p, x);
      WalkAt(b, h, w, c, q, q, y);
    }
  }

  lemma EmptyShape(l: Layout, b: nat, c: nat, h: nat, w: nat)
    requires b == 0 || c == 0 || h == 0 || w == 0
    ensures Bijective(l, b, c, h, w)
  {
    hide DstAt, SrcAt, DensePitches;
    var p := DensePitches(l, c, h, w);
    var dims := Walk(b, c, h, w, p, p);
    assert b * c * h * w == 0;
    forall x: seq<nat>
      ensures !InBox(dims, x)
    {
      if |x| == 4 {
        WalkAt(b, c, h, w, p, p, x);
      }
    }
  }

  /** Both dense layouts are bijections onto the buffer, for every shape. */
  lemma DenseLayouts(l: Layout, b: nat, c: nat, h: nat, w: nat)
    ensures Bijective(l, b, c, h, w)
  {
    if b > 0 && c > 0 && h > 0 && w > 0 {
      if l.NCHW? {
        DenseBijectiveNchw(b, c, h, w);
      } else {
        DenseBijectiveNhwc(b, c, h, w);
      }
    } else {
      EmptyShape(l, b, c, h, w);
    }
  }

  // ----- The padded layout -----

  /** What the padded layout needs: lines and planes do not overlap. */
  predicate Roomy(d: IOBuf) {
    d.layout.NCHW? ==>
      var line := d.padL + d.width + d.padR;
      d.padL >= 0 && d.padR >= 0 && (d.height > 0 ==> d.channelPitch >= (d.height - 1) * line + d.width)
  }

  /** The padded index map is one to one. */
  lemma PaddedInjective(b: nat, c: nat, h: nat, w: nat, cp: int, lp: int)
    requires b > 0 && c > 0 && h > 0 && w > 0 && lp >= w && cp >= (h - 1) * lp + w
    ensures var p := Pitches(c * cp, cp, lp, 1);
            Nested(Walk(b, c, h, w, p, p)) && Injective(Walk(b, c, h, w, p, p))
  {
    var p := Pitches(c * cp, cp, lp, 1);
    var d0 := Walk(b, c, h, w, p, p);
    var d1 := d0[1..];
    var d2 := d1[1..];
    var d3 := d2[1..];
    assert d3[1..] == [];
    assert Span(d3) == w - 1 && Nested(d3);
    assert Span(d2) == (h - 1) * lp + w - 1 && Nested(d2);
    assert Span(d1) == (c - 1) * cp + Span(d2) && Nested(d1);
    assert c * cp == (c - 1) * cp + cp;
    NestedInjective(d0);
  }

  /** No two elements share a cell of the internal buffer. */
  lemma InternalInjective(d: IOBuf, x: seq<nat>, y: seq<nat>, to: Pitches)
    requires Roomy(d)
    requires var dims := Walk(d.batches, Channels(d), d.height, d.width, InternalPitches(d), to);
             InBox(dims, x) && InBox(dims, y) && DstAt(dims, x) == DstAt(dims, y)
    ensures x == y
  {
    hide DstAt, SrcAt, Nested;
    var p := InternalPitches(d);
    var (b, c, h, w) := (d.batches, Channels(d), d.height, d.width);
    WalkAt(b, c, h, w, p, to, x);
    WalkAt(b, c, h, w, p, to, y);
    WalkAt(b, c, h, w, p, p, x);
    WalkAt(b, c, h, w, p, p, y);
    if d.layout.NHWC? {
      DenseLayouts(NHWC, b, c, h, w);
    } else {
      PaddedInjective(b, c, h, w, d.channelPitch, LinePitch(d));
    }
  }

  /** The user's index map is one to one and onto the user's tensor. */
  lemma UserMap(t: Tensor, d: IOBuf)
    ensures Injective(Swapped(InLoops(t, d))) && Covers(InLoops(t, d), Elements(d))
    ensures forall x | InBox(InLoops(t, d), x) :: 0 <= SrcAt(InLoops(t, d), x) < Elements(d)
  {
    hide DstAt, SrcAt;
    var dims, p := InLoops(t, d), UserPitches(t.layout, d);
    var (b, c, h, w) := (d.batches, Channels(d), d.height, d.width);
    var user := Walk(b, c, h, w, p, p);
    DenseLayouts(t.layout, b, c, h, w);
    forall x | |x| == 4
      ensures InBox(user, x) == InBox(dims, x) && DstAt(user, x) == SrcAt(dims, x)
    {
      WalkAt(b, c, h, w, p, p, x);
      WalkAt(b, c, h, w, InternalPitches(d), p, x);
    }
    forall x, y | InBox(Swapped(dims), x) && InBox(Swapped(dims), y)
        && DstAt(Swapped(dims), x) == DstAt(Swapped(dims), y)
      ensures x == y
    {
      SwappedAt(dims, x);
      SwappedAt(dims, y);
      assert InBox(user, x) && InBox(user, y) && DstAt(user, x) == DstAt(user, y);
    }
    forall k | 0 <= k < Elements(d)
      ensures Reads(dims, k)
    {
      assert Reaches(user, k);
      var x :| InBox(user, x) && DstAt(user, x) == k;
      assert InBox(dims, x) && SrcAt(dims, x) == k;
    }
  }

  /** The two index maps of a copy: the internal one is one to one, the user's is
      one to one and onto the user's tensor. */
  lemma CopyMaps(t: Tensor, d: IOBuf)
    requires Roomy(d)
    ensures Injective(InLoops(t, d)) && Injective(Swapped(InLoops(t, d))) && Covers(InLoops(t, d), Elements(d))
    ensures forall x | InBox(InLoops(t, d), x) :: 0 <= SrcAt(InLoops(t, d), x) < Elements(d)
  {
    hide DstAt, SrcAt;
    UserMap(t, d);
    var dims := InLoops(t, d);
    forall x, y | InBox(dims, x) && InBox(dims, y) && DstAt(dims, x) == DstAt(dims, y)
      ensures x == y
    {
      InternalInjective(d, x, y, UserPitches(t.layout, d));
    }
  }

  // ----- Where an element stands -----

  /** Element (`n`, `c`, `r`, `q`) of the internal buffer, by the fields of the descriptor. */
  function InternalPlace(d: IOBuf, n: nat, c: nat, r: nat, q: nat): int {
    var (planes, line) := (d.numChannels * d.dim1 * d.dim2, d.padL + d.width + d.padR);
    if d.layout.NCHW? then
      n * (planes * d.channelPitch) + c * d.channelPitch + (d.padT + r) * line + d.padL + q
    else
      ((n * d.height + r) * d.width + q) * planes + c + d.padT * line + d.padL
  }

  /** And of the user's. */
  function UserPlace(l: Layout, d: IOBuf, n: nat, c: nat, r: nat, q: nat): int {
    var planes := d.numChannels * d.dim1 * d.dim2;
    if l.NCHW? then ((n * planes + c) * d.height + r) * d.width + q
    else ((n * d.height + r) * d.width + q) * planes + c
  }

  lemma DenseNchwAt(planes: nat, h: nat, w: nat, n: nat, c: nat, r: nat, q: nat)
    ensures n * (planes * h * w) + c * (h * w) + r * w + q * 1 == ((n * planes + c) * h + r) * w + q
  {
    assert n * (planes * h * w) == n * planes * h * w;
    assert c * (h * w) == c * h * w;
    Distribute((n * planes + c) * h, r, w);
    Distribute(n * planes, c, h);
    Distribute(n * planes * h, c * h, w);
  }

  lemma DenseNhwcAt(planes: nat, h: nat, w: nat, n: nat, c: nat, r: nat, q: nat)
    ensures n * (planes * h * w) + c * 1 + r * (planes * w) + q * planes == ((n * h + r) * w + q) * planes + c
  {
    assert n * (planes * h * w) == n * h * w * planes;
    assert r * (planes * w) == r * w * planes;
    Distribute((n * h + r) * w, q, planes);
    Distribute(n * h, r, w);
    Distribute(n * h * w, r * w, planes);
  }

  /** The loops put it there and take it from there. */
  lemma PlacesAre(t: Tensor, d: IOBuf, n: nat, c: nat, r: nat, q: nat)
    ensures Offset(d) + DstAt(InLoops(t, d), [n, c, r, q]) == InternalPlace(d, n, c, r, q)
    ensures SrcAt(InLoops(t, d), [n, c, r, q]) == UserPlace(t.layout, d, n, c, r, q)
    ensures InBox(InLoops(t, d), [n, c, r, q])
         <==> n < d.batches && c < d.numChannels * d.dim1 * d.dim2 && r < d.height && q < d.width
  {
    hide DstAt, SrcAt;
    var (planes, h, w) := (Channels(d), d.height, d.width);
    WalkAt(d.batches, planes, h, w, InternalPitches(d), UserPitches(t.layout, d), [n, c, r, q]);
    DenseNchwAt(planes, h, w, n, c, r, q);
    DenseNhwcAt(planes, h, w, n, c, r, q);
    Distribute(d.padT, r, LinePitch(d));
  }

  // ----- Padding -----

  /** A cell of the padded internal buffer: row `r` and column `q` of plane (`n`,
      `ch`), a row being the padding on its left, the width and that on its right. */
  function Cell(d: IOBuf, n: nat, ch: nat, r: nat, q: nat): int {
    n * (Channels(d) * d.channelPitch) + ch * d.channelPitch + r * (d.padL + d.width + d.padR) + q
  }

  /** Rows and columns outside the window hold no element. */
  lemma PaddingHoldsNothing(t: Tensor, d: IOBuf, rows: nat, n: nat, ch: nat, r: nat, q: nat, x: seq<nat>)
    requires d.layout.NCHW? && d.padL >= 0 && d.padR >= 0 && d.padT >= 0
    requires d.padT + d.height <= rows && rows * (d.padL + d.width + d.padR) <= d.channelPitch
    requires n < d.batches && ch < Channels(d) && r < rows && q < d.padL + d.width + d.padR
    requires !(d.padT <= r < d.padT + d.height && d.padL <= q < d.padL + d.width)
    requires InBox(InLoops(t, d), x)
    ensures Offset(d) + DstAt(InLoops(t, d), x) != Cell(d, n, ch, r, q)
  {
    hide DstAt, SrcAt, Nested, Injective, InLoops, Offset, Cell, Channels;
    var planes := WholePlanes(d, rows);
    WindowAt(t, d, rows, x);
    PlaneAt(d, rows, n, ch, r, q);
    Apart(planes, [x[0], x[1], x[2] + d.padT, x[3] + d.padL], [n, ch, r, q]);
  }

  /** The loops over all rows and columns of all planes, the padding included. */
  function WholePlanes(d: IOBuf, rows: nat): (dims: seq<Dim>)
    requires d.padL + d.width + d.padR >= 0
    ensures |dims| == 4
  {
    var p := Pitches(Channels(d) * d.channelPitch, d.channelPitch, d.padL + d.width + d.padR, 1);
    Walk(d.batches, Channels(d), rows, d.padL + d.width + d.padR, p, p)
  }

  lemma PlaneAt(d: IOBuf, rows: nat, n: nat, ch: nat, r: nat, q: nat)
    requires d.padL >= 0 && d.padR >= 0 && rows * (d.padL + d.width + d.padR) <= d.channelPitch
    requires n < d.batches && ch < Channels(d) && r < rows && q < d.padL + d.width + d.padR
    ensures var dims := WholePlanes(d, rows);
            Injective(dims) && InBox(dims, [n, ch, r, q]) && DstAt(dims, [n, ch, r, q]) == Cell(d, n, ch, r, q)
  {
    hide DstAt, SrcAt, Injective, Channels;
    var (c, line) := (Channels(d), d.padL + d.width + d.padR);
    var p := Pitches(c * d.channelPitch, d.channelPitch, line, 1);
    WholePlanesInjective(d.batches, c, rows, line, d.channelPitch);
    WalkAt(d.batches, c, rows, line, p, p, [n, ch, r, q]);
  }

  /** An element stands in the window that the padding leaves. */
  lemma WindowAt(t: Tensor, d: IOBuf, rows: nat, x: seq<nat>)
    requires d.layout.NCHW? && d.padL >= 0 && d.padR >= 0 && d.padT >= 0 && d.padT + d.height <= rows
    requires rows * (d.padL + d.width + d.padR) <= d.channelPitch && InBox(InLoops(t, d), x)
    ensures var (dims, y) := (WholePlanes(d, rows), [x[0], x[1], x[2] + d.padT, x[3] + d.padL]);
            && x[2] < d.height && x[3] < d.width && InBox(dims, y)
            && DstAt(dims, y) == Offset(d) + DstAt(InLoops(t, d), x)
  {
    hide DstAt, SrcAt, Injective, Channels;
    assert x == [x[0], x[1], x[2], x[3]];
    PlacesAre(t, d, x[0], x[1], x[2], x[3]);
    assert Channels(d) == d.numChannels * d.dim1 * d.dim2 by {
      ChannelsAre(d);
    }
    PlaneAt(d, rows, x[0], x[1], x[2] + d.padT, x[3] + d.padL);
  }

  lemma ChannelsAre(d: IOBuf)
    ensures Channels(d) == d.numChannels * d.dim1 * d.dim2
  {
  }

  lemma WholePlanesInjective(b: nat, c: nat, rows: nat, lp: nat, cp: int)
    requires b > 0 && c > 0 && rows > 0 && lp > 0 && rows * lp <= cp
    ensures var p := Pitches(c * cp, cp, lp, 1); Injective(Walk(b, c, rows, lp, p, p))
  {
    assert rows * lp == (rows - 1) * lp + lp;
    PaddedInjective(b, c, rows, lp, cp, lp);
  }

  lemma Apart(dims: seq<Dim>, x: seq<nat>, y: seq<nat>)
    requires Injective(dims) && InBox(dims, x) && InBox(dims, y) && x != y
    ensures DstAt(dims, x) != DstAt(dims, y)
  {
  }
}
