/** Moving a tensor between the user's buffer and the internal one: the
    same-tensor checks, the choice between memcpy and reformatting, and the
    round trip. */
module DataMove {
  import opened Arithmetic
  import opened Requantisation
  import opened StridedCopy
  import opened TensorLayout
  import opened Wrappers

  datatype Status = Success | Failure

  function ChannelPitch(t: Tensor, d: IOBuf): int {
    if t.channelPitch == -1 then d.width * d.height else t.channelPitch
  }

  /** What both same-tensor checks compare. */
  predicate OutSame(t: Tensor, d: IOBuf) {
    && t.elementType == d.elementType
    && !(ChannelPitch(t, d) != d.channelPitch && d.numChannels > 1 && t.layout.NCHW?)
    && !(t.layout != d.layout && d.numChannels > 1)
    && t.zeroPoint == d.zeroPoint
    && t.scale == d.scale
    && t.padL == d.padL && t.padR == d.padR && t.padT == d.padT
  }

  /** On the way in the user's buffer must also be large enough, when its size is known. */
  predicate InSame(t: Tensor, d: IOBuf) {
    OutSame(t, d) && !(t.bufferSize != -1 && t.bufferSize < d.bufSize)
  }

  /** The internal types every kernel is instantiated for. */
  predicate Common(t: ElementType) {
    t.UInt8? || t.Int8? || t.UInt16? || t.Int16? || t.Float32?
  }

  /** The pairs the way in handles; a few wide ones only without requantisation. */
  predicate InSupported(q: Requant, user: ElementType, internal: ElementType) {
    || Common(internal)
    || (q.AsIs? && user.Int32? && (internal.Int32? || internal.UInt32?))
    || (q.AsIs? && user.Int64? && (internal.UInt64? || internal.Int64? || internal.Int32?))
  }

  // ----- The parameters the copies settle on -----

  function InRequant(t: Tensor, d: IOBuf): Requant {
    var zp := if t.elementType.Float32? then 0 else t.zeroPoint;
    var inScale := if t.elementType.Float32? then 1.0 else t.scale;
    var scale := if d.elementType.Float32? then 1.0 else d.scale;
    SelectIn(zp, d.zeroPoint, inScale, scale)
  }

  /** The way out first settles the user's scale and zero point. */
  function Settled(t: Tensor, d: IOBuf): Tensor {
    var t1 := if t.elementType.Float32? then t.(scale := 1.0, zeroPoint := 0) else t;
    if t1.scale == -1.0 then t1.(scale := d.scale) else t1
  }

  function OutRequant(t: Tensor, d: IOBuf): Requant {
    SelectOut(Settled(t, d).zeroPoint, d.zeroPoint, Settled(t, d).scale, d.scale)
  }

  function InConvert(t: Tensor, d: IOBuf): real -> real {
    v => Requantise(InRequant(t, d), d.elementType, v)
  }

  function OutConvert(t: Tensor, d: IOBuf): real -> real {
    v => Requantise(OutRequant(t, d), t.elementType, v)
  }

  // ----- What the two buffers hold afterwards -----

  function Copied(t: Tensor, d: IOBuf): int {
    d.batches * Channels(d) * ChannelPitch(t, d)
  }

  function Memcpy(dst: seq<real>, src: seq<real>, n: nat): (r: seq<real>)
    requires n <= |dst| && n <= |src|
    ensures |r| == |dst|
  {
    src[..n] + dst[n..]
  }

  function ReformatIn(t: Tensor, d: IOBuf, user: seq<real>, internal: seq<real>): (r: seq<real>)
    ensures |r| == |internal|
  {
    Nest(internal, user, InConvert(t, d), InLoops(t, d), Offset(d), 0)
  }

  function ReformatOut(t: Tensor, d: IOBuf, user: seq<real>, internal: seq<real>): (r: seq<real>)
    ensures |r| == |user|
  {
    Nest(user, internal, OutConvert(t, d), OutLoops(t, d), 0, Offset(d))
  }

  predicate RoomForMemcpy(t: Tensor, d: IOBuf, userLen: nat, internalLen: nat) {
    0 <= Copied(t, d) <= userLen && Copied(t, d) <= internalLen
  }

  /** The internal buffer after the way in ... */
  function AfterIn(t: Tensor, d: IOBuf, user: seq<real>, internal: seq<real>): seq<real>
    requires InSame(t, d) && !t.shared ==> RoomForMemcpy(t, d, |user|, |internal|)
  {
    if !InSame(t, d) then
      if InSupported(InRequant(t, d), t.elementType, d.elementType) then ReformatIn(t, d, user, internal) else internal
    else if t.shared then internal
    else Memcpy(internal, user, Copied(t, d))
  }

  /** ... and the user's after the way out. */
  function AfterOut(t: Tensor, d: IOBuf, user: seq<real>, internal: seq<real>): seq<real>
    requires OutSame(t, d) && !t.shared ==> RoomForMemcpy(t, d, |user|, |internal|)
  {
    if !OutSame(t, d) then if Common(d.elementType) then ReformatOut(t, d, user, internal) else user
    else if t.shared then user
    else Memcpy(user, internal, Copied(t, d))
  }

  /** `is_tidlrt_in_tensor_same` */
  method IsInTensorSame(t: Tensor, d: IOBuf) returns (same: bool)
    ensures same == InSame(t, d)
  {
    same := IsOutTensorSame(t, d);
    if same && t.bufferSize != -1 {
      if t.bufferSize < d.bufSize { return false; }
    }
  }

  /** `is_tidlrt_out_tensor_same`, which compares all but the size of the buffer. */
  method IsOutTensorSame(t: Tensor, d: IOBuf) returns (same: bool)
    ensures same == OutSame(t, d)
  {
    if t.elementType != d.elementType { return false; }
    var chPitch := t.channelPitch;
    if chPitch == -1 {
      chPitch := d.width * d.height;
    }
    if chPitch != d.channelPitch && d.numChannels > 1 && t.layout == NCHW { return false; }
    if t.layout != d.layout && d.numChannels > 1 { return false; }
    if t.zeroPoint != d.zeroPoint { return false; }
    if t.scale != d.scale { return false; }
    if t.padL != d.padL { return false; }
    if t.padR != d.padR { return false; }
    if t.padT != d.padT { return false; }
    return true;
  }

  /** How many elements the memcpy moves. */
  method MemcpySize(t: Tensor, d: IOBuf) returns (n: int)
    ensures n == Copied(t, d)
  {
    var chPitch := t.channelPitch;
    if chPitch == -1 {
      chPitch := d.width * d.height;
    }
    var c := d.numChannels * d.dim1 * d.dim2;
    return d.batches * c * chPitch;
  }

  /** The parameters the way in settles on and the branch they select. */
  method InBranch(t: Tensor, d: IOBuf) returns (q: Requant)
    ensures q == InRequant(t, d)
  {
    var scale, inScale, zp := d.scale, t.scale, t.zeroPoint;
    if t.elementType == Float32 {
      inScale, zp := 1.0, 0;
    }
    if d.elementType == Float32 {
      scale := 1.0;
    }
    if zp == d.zeroPoint && inScale == scale {
      q := AsIs;
    } else if zp == d.zeroPoint {
      q := Scale(inScale, scale);
    } else if inScale == scale {
      q := Zf(zp as real);
    } else {
      q := ZfScale(zp as real, inScale, scale);
    }
  }

  /** The switch over the user's type, and in each of its arms over the internal
      one: whether there is a kernel. */
  method InKernel(q: Requant, user: ElementType, internal: ElementType) returns (found: bool)
    ensures found == InSupported(q, user, internal)
  {
    match internal
    case UInt8 | Int8 | UInt16 | Int16 | Float32 => found := true;
    case UInt32 => found := q.AsIs? && user == Int32;
    case Int32 => found := q.AsIs? && (user == Int32 || user == Int64);
    case UInt64 | Int64 => found := q.AsIs? && user == Int64;
  }

  /** `cp_data_in_tidlrt_tensor_tiovx`: nothing, a memcpy, a reformatting or a refusal. */
  method CopyIn(t: Tensor, d: IOBuf, user: array<real>, internal: array<real>) returns (status: Status)
    requires user != internal
    requires InSame(t, d) && !t.shared ==> RoomForMemcpy(t, d, user.Length, internal.Length)
    requires !InSame(t, d) && InSupported(InRequant(t, d), t.elementType, d.elementType) ==>
               Inside(InLoops(t, d), Offset(d), 0, internal.Length, user.Length)
    modifies internal
    ensures status.Failure? <==> !InSame(t, d) && !InSupported(InRequant(t, d), t.elementType, d.elementType)
    ensures internal[..] == AfterIn(t, d, user[..], old(internal[..]))
  {
    var same := IsInTensorSame(t, d);
    if same {
      if !t.shared {
        var n := MemcpySize(t, d);
        forall i | 0 <= i < n {
          internal[i] := user[i];
        }
      }
      return Success;
    }
    var q := InBranch(t, d);
    var found := InKernel(q, t.elementType, d.elementType);
    if !found {
      return Failure;
    }
    var (i, u) := (InternalPitches(d), UserPitches(t.layout, d));
    Copy(internal, user, InConvert(t, d), u.bp, u.cp, u.lp, u.pp, 0, i.bp, i.cp, i.lp, i.pp, Offset(d),
         d.batches, Channels(d), d.height, d.width);
    return Success;
  }

  /** How the way out settles the user's scale and zero point. */
  method SettleUser(t: Tensor, d: IOBuf) returns (after: Tensor)
    ensures after == Settled(t, d)
  {
    after := t;
    if t.elementType == Float32 {
      after := after.(scale := 1.0);
      after := after.(zeroPoint := 0);
    }
    if after.scale == -1.0 {
      after := after.(scale := d.scale);
    }
  }

  /** `cp_data_out_tensor_tidlrt_tiovx`. The user's descriptor comes back with the scale and zero point settled. */
  method CopyOut(t: Tensor, d: IOBuf, user: array<real>, internal: array<real>) returns (status: Status, after: Tensor)
    requires user != internal
    requires OutSame(t, d) && !t.shared ==> RoomForMemcpy(t, d, user.Length, internal.Length)
    requires !OutSame(t, d) && Common(d.elementType) ==>
               Inside(OutLoops(t, d), 0, Offset(d), user.Length, internal.Length)
    modifies user
    ensures status.Failure? <==> !OutSame(t, d) && !Common(d.elementType)
    ensures after == if OutSame(t, d) then t else Settled(t, d)
    ensures user[..] == AfterOut(t, d, old(user[..]), internal[..])
  {
    after := t;
    var same := IsOutTensorSame(t, d);
    if same {
      if !t.shared {
        var n := MemcpySize(t, d);
        forall i | 0 <= i < n {
          user[i] := internal[i];
        }
      }
      return Success, after;
    }
    after := SettleUser(t, d);
    match d.elementType {
      case UInt8 | Int8 | UInt16 | Int16 | Float32 =>
      case UInt32 | Int32 | UInt64 | Int64 => return Failure, after;
    }
    var (i, u) := (InternalPitches(d), UserPitches(t.layout, d));
    Copy(user, internal, OutConvert(t, d), i.bp, i.cp, i.lp, i.pp, Offset(d), u.bp, u.cp, u.lp, u.pp, 0,
         d.batches, Channels(d), d.height, d.width);
    return Success, after;
  }

  // ----- The round trip -----

  predicate Narrow(t: ElementType) {
    t.UInt8? || t.Int8? || t.UInt16? || t.Int16?
  }

  /** A value that buffers of both types can hold. */
  predicate Kept(t: Tensor, d: IOBuf, v: real) {
    Holds(t.elementType, v) && Holds(d.elementType, v)
  }

  /** Neither copy changes such a value: the scales and zero points agree, and the
      types are of at most sixteen bits, or both Float32 with the scale 1. */
  predicate Matched(t: Tensor, d: IOBuf) {
    && t.scale == d.scale && t.zeroPoint == d.zeroPoint
    && ((Narrow(t.elementType) && Narrow(d.elementType))
        || (t.elementType.Float32? && d.elementType.Float32? && d.scale == 1.0))
  }

  lemma MatchedKeeps(t: Tensor, d: IOBuf, v: real)
    requires Matched(t, d) && Kept(t, d, v)
    ensures InConvert(t, d)(v) == v && OutConvert(t, d)(v) == v
  {
    TruncError(v);
  }

  lemma RequantSame(t: Tensor, d: IOBuf)
    requires OutSame(t, d)
    ensures InRequant(t, d) == AsIs || (t.elementType.Float32? && InRequant(t, d) == Zf(0.0))
    ensures !t.elementType.Float32? ==> OutRequant(t, d) == AsIs
    ensures t.elementType.Float32? && d.scale == 1.0 ==> OutRequant(t, d) in {AsIs, Zf(0.0)}
    ensures t.elementType.Float32? && d.scale != 1.0 ==>
              OutRequant(t, d) in {Scale(d.scale, 1.0), ZfScale(0.0, d.scale, 1.0)}
  {
  }

  /** When the check passes, reformatting changes no value either, but on the way
      out a float by the internal scale. */
  lemma SameKeeps(t: Tensor, d: IOBuf, v: real)
    requires OutSame(t, d) && Kept(t, d, v)
    ensures InConvert(t, d)(v) == v
    ensures !t.elementType.Float32? || d.scale == 1.0 ==> OutConvert(t, d)(v) == v
    ensures t.elementType.Float32? && d.scale != 1.0 && v == 1.0 ==> OutConvert(t, d)(v) != v
  {
    RequantSame(t, d);
    TruncError(v);
  }

  /** What a buffer of user data comes back as. */
  function ReformatBack(t: Tensor, d: IOBuf, user: seq<real>, internal: seq<real>, back: seq<real>): seq<real> {
    ReformatOut(t, d, back, ReformatIn(t, d, user, internal))
  }

  /** Reformatting a dense user tensor into an internal layout that gives every
      element a cell of its own, and back, restores it. */
  lemma TensorRoundTrip(t: Tensor, d: IOBuf, user: seq<real>, internal: seq<real>, back: seq<real>)
    requires Matched(t, d) && Injective(InLoops(t, d)) && |user| == |back| == Elements(d)
    requires forall v | v in user :: Kept(t, d, v)
    requires Inside(InLoops(t, d), Offset(d), 0, |internal|, |user|)
    ensures ReformatBack(t, d, user, internal, back) == user
  {
    hide InConvert, OutConvert, Nest, InLoops, OutLoops, Injective, Inside;
    UserMap(t, d);
    OutIsSwappedIn(t, d);
    forall v | v in user
      ensures OutConvert(t, d)(InConvert(t, d)(v)) == v
    {
      MatchedKeeps(t, d, v);
    }
    CopyBack(user, internal, back, InConvert(t, d), OutConvert(t, d), InLoops(t, d), Offset(d));
  }

  /** Two elements in one cell come back equal. */
  lemma SharedCell(t: Tensor, d: IOBuf, user: seq<real>, internal: seq<real>, back: seq<real>, x: seq<nat>, y: seq<nat>)
    requires |user| == |back| == Elements(d) && Inside(InLoops(t, d), Offset(d), 0, |internal|, |user|)
    requires var dims := InLoops(t, d); InBox(dims, x) && InBox(dims, y) && x != y && DstAt(dims, x) == DstAt(dims, y)
    ensures var (r, dims) := (ReformatBack(t, d, user, internal, back), InLoops(t, d));
            && 0 <= SrcAt(dims, x) < |r| == |user| && 0 <= SrcAt(dims, y) < |r| && SrcAt(dims, x) != SrcAt(dims, y)
            && r[SrcAt(dims, x)] == r[SrcAt(dims, y)]
  {
    hide OutConvert, Nest, InLoops, OutLoops, DstAt, SrcAt, ReformatIn;
    UserMap(t, d);
    OutIsSwappedIn(t, d);
    SwappedAt(InLoops(t, d), x);
    SwappedAt(InLoops(t, d), y);
    var mid := ReformatIn(t, d, user, internal);
    InjectiveHit(back, mid, OutConvert(t, d), OutLoops(t, d), 0, Offset(d), x);
    InjectiveHit(back, mid, OutConvert(t, d), OutLoops(t, d), 0, Offset(d), y);
  }

  ghost predicate TensorsComeBack(t: Tensor, d: IOBuf, internalLen: nat) {
    forall user, internal, back | |user| == |back| == Elements(d) && |internal| == internalLen
        && (forall v | v in user :: Kept(t, d, v)) ::
      ReformatBack(t, d, user, internal, back) == user
  }

  /** It restores every tensor exactly when no two elements share a cell ... */
  lemma TensorRoundTripExact(t: Tensor, d: IOBuf, internalLen: nat)
    requires Matched(t, d) && Inside(InLoops(t, d), Offset(d), 0, internalLen, Elements(d))
    ensures TensorsComeBack(t, d, internalLen) <==> Injective(InLoops(t, d))
  {
    hide ReformatBack, InLoops, DstAt, SrcAt, Kept, Matched, Inside;
    if Injective(InLoops(t, d)) {
      forall user, internal, back | |user| == |back| == Elements(d) && |internal| == internalLen
          && (forall v | v in user :: Kept(t, d, v))
        ensures ReformatBack(t, d, user, internal, back) == user
      {
        TensorRoundTrip(t, d, user, internal, back);
      }
    } else {
      var user, internal, back := SharedCellLoses(t, d, internalLen);
    }
  }

  lemma SharedCellLoses(t: Tensor, d: IOBuf, internalLen: nat)
    returns (user: seq<real>, internal: seq<real>, back: seq<real>)
    requires !Injective(InLoops(t, d)) && Inside(InLoops(t, d), Offset(d), 0, internalLen, Elements(d))
    ensures |user| == |back| == Elements(d) && |internal| == internalLen && (forall v | v in user :: Kept(t, d, v))
    ensures ReformatBack(t, d, user, internal, back) != user
  {
    hide ReformatBack, InLoops, DstAt, SrcAt, Kept, Inside;
    var dims, n := InLoops(t, d), Elements(d);
    var x, y :| InBox(dims, x) && InBox(dims, y) && DstAt(dims, x) == DstAt(dims, y) && x != y;
    var cell := SrcAt(dims, x);
    user, internal, back := Marks(n, k => k == cell), Marks(internalLen, k => false), Marks(n, k => false);
    MarksKept(t, d);
    SharedCell(t, d, user, internal, back, x, y);
  }

  /** ... as in the dense internal layout, and in the padded one with room for its
      lines and planes. */
  lemma RoomyInjective(t: Tensor, d: IOBuf)
    requires Roomy(d)
    ensures Injective(InLoops(t, d))
  {
    CopyMaps(t, d);
  }

  /** A buffer of ones and zeros. */
  function Marks(n: nat, p: int -> bool): (r: seq<real>)
    ensures |r| == n && forall k | 0 <= k < n :: r[k] == if p(k) then 1.0 else 0.0
  {
    seq(n, k requires 0 <= k < n => if p(k) then 1.0 else 0.0)
  }

  lemma MarksKept(t: Tensor, d: IOBuf)
    ensures Kept(t, d, 0.0) && Kept(t, d, 1.0)
  {
  }

  /** In a layout that gives every element a cell of its own, reformatting puts
      each at its place, converted ... */
  lemma PlacedIn(t: Tensor, d: IOBuf, user: seq<real>, internal: seq<real>, n: nat, c: nat, r: nat, q: nat)
    requires Injective(InLoops(t, d)) && Inside(InLoops(t, d), Offset(d), 0, |internal|, |user|)
    requires n < d.batches && c < d.numChannels * d.dim1 * d.dim2 && r < d.height && q < d.width
    ensures var (to, from) := (InternalPlace(d, n, c, r, q), UserPlace(t.layout, d, n, c, r, q));
            && 0 <= to < |internal| && 0 <= from < |user|
            && ReformatIn(t, d, user, internal)[to] == InConvert(t, d)(user[from])
  {
    hide InLoops, DstAt, SrcAt, Nest, InConvert, InternalPlace, UserPlace, Offset;
    PlacesAre(t, d, n, c, r, q);
    InjectiveHit(internal, user, InConvert(t, d), InLoops(t, d), Offset(d), 0, [n, c, r, q]);
  }

  /** ... and reads it from there on the way out, whatever the internal layout. */
  lemma ReadOut(t: Tensor, d: IOBuf, user: seq<real>, internal: seq<real>, n: nat, c: nat, r: nat, q: nat)
    requires Inside(OutLoops(t, d), 0, Offset(d), |user|, |internal|)
    requires n < d.batches && c < d.numChannels * d.dim1 * d.dim2 && r < d.height && q < d.width
    ensures var (to, from) := (UserPlace(t.layout, d, n, c, r, q), InternalPlace(d, n, c, r, q));
            && 0 <= to < |user| && 0 <= from < |internal|
            && ReformatOut(t, d, user, internal)[to] == OutConvert(t, d)(internal[from])
  {
    hide InLoops, OutLoops, DstAt, SrcAt, ReformatOut, OutConvert, InternalPlace, UserPlace, Offset, Inside;
    PlacesAre(t, d, n, c, r, q);
    OutHit(t, d, user, internal, [n, c, r, q]);
  }

  /** A buffer that reaches as far as the last element is large enough. */
  lemma LargeEnough(t: Tensor, d: IOBuf, userLen: nat, internalLen: nat)
    requires Roomy(d) && Offset(d) >= 0 && userLen >= Elements(d)
    requires d.batches > 0 && Channels(d) > 0 && d.height > 0 && d.width > 0
    requires var last := [d.batches - 1, Channels(d) - 1, d.height - 1, d.width - 1];
             Offset(d) + DstAt(InLoops(t, d), last) < internalLen
    ensures Inside(InLoops(t, d), Offset(d), 0, internalLen, userLen)
  {
    hide DstAt, SrcAt, Injective, Covers;
    var dims, i := InLoops(t, d), InternalPitches(d);
    var last := [d.batches - 1, Channels(d) - 1, d.height - 1, d.width - 1];
    CopyMaps(t, d);
    PitchesNonNegative(d);
    WalkAt(d.batches, Channels(d), d.height, d.width, i, UserPitches(t.layout, d), last);
    forall x | InBox(dims, x)
      ensures 0 <= Offset(d) + DstAt(dims, x) < internalLen && 0 <= SrcAt(dims, x) < userLen
    {
      WalkAt(d.batches, Channels(d), d.height, d.width, i, UserPitches(t.layout, d), x);
      MulMono(x[0], d.batches - 1, i.bp);
      MulMono(x[1], Channels(d) - 1, i.cp);
      MulMono(x[2], d.height - 1, i.lp);
      MulMono(x[3], d.width - 1, i.pp);
    }
  }

  lemma PitchesNonNegative(d: IOBuf)
    requires Roomy(d) && d.height > 0
    ensures var p := InternalPitches(d); p.bp >= 0 && p.cp >= 0 && p.lp >= 0 && p.pp >= 0
  {
    if d.layout.NCHW? {
      MulMono(0, d.height - 1, LinePitch(d));
      MulMono(0, d.channelPitch, Channels(d));
    }
  }

  /** Going in leaves the padding of every plane as it was. */
  lemma PaddingKept(t: Tensor, d: IOBuf, user: seq<real>, internal: seq<real>,
                    rows: nat, n: nat, ch: nat, r: nat, q: nat)
    requires d.layout.NCHW? && d.padL >= 0 && d.padR >= 0 && d.padT >= 0
    requires d.padT + d.height <= rows && rows * (d.padL + d.width + d.padR) <= d.channelPitch
    requires n < d.batches && ch < Channels(d) && r < rows && q < d.padL + d.width + d.padR
    requires !(d.padT <= r < d.padT + d.height && d.padL <= q < d.padL + d.width)
    requires 0 <= Cell(d, n, ch, r, q) < |internal|
    ensures ReformatIn(t, d, user, internal)[Cell(d, n, ch, r, q)] == internal[Cell(d, n, ch, r, q)]
  {
    hide DstAt, SrcAt, InLoops, Nest;
    forall x | InBox(InLoops(t, d), x)
      ensures Offset(d) + DstAt(InLoops(t, d), x) != Cell(d, n, ch, r, q)
    {
      PaddingHoldsNothing(t, d, rows, n, ch, r, q, x);
    }
    NestFrame(internal, user, InConvert(t, d), InLoops(t, d), Offset(d), 0, Cell(d, n, ch, r, q));
  }

  // ----- The memcpy shortcut -----

  /** There is at least one element. */
  predicate Occupied(d: IOBuf) {
    d.batches > 0 && Channels(d) > 0 && d.height > 0 && d.width > 0
  }

  /** Every element stands in the internal buffer where it stands in the user's:
      at the start, and one pitch apart on every axis that has two. */
  predicate SamePlaces(t: Tensor, d: IOBuf) {
    var (i, u) := (InternalPitches(d), UserPitches(t.layout, d));
    && Offset(d) == 0 && (d.batches > 1 ==> i.bp == u.bp) && (Channels(d) > 1 ==> i.cp == u.cp)
    && (d.height > 1 ==> i.lp == u.lp) && (d.width > 1 ==> i.pp == u.pp)
  }

  /** The memcpy copies as many elements as there are, and each stands where the
      reformatting would put it. */
  predicate ShortcutRight(t: Tensor, d: IOBuf) {
    Copied(t, d) == Elements(d) && (Occupied(d) ==> SamePlaces(t, d))
  }

  /** On the way out it must not skip a scaling either. */
  predicate ShortcutRightOut(t: Tensor, d: IOBuf) {
    ShortcutRight(t, d) && (Occupied(d) && t.elementType.Float32? ==> d.scale == 1.0)
  }

  function At(p: Pitches, x: seq<nat>): int
    requires |x| == 4
  {
    x[0] * p.bp + x[1] * p.cp + x[2] * p.lp + x[3] * p.pp
  }

  lemma PlacesAt(t: Tensor, d: IOBuf, x: seq<nat>)
    requires |x| == 4
    ensures DstAt(InLoops(t, d), x) == At(InternalPitches(d), x)
        && SrcAt(InLoops(t, d), x) == At(UserPitches(t.layout, d), x)
    ensures InBox(InLoops(t, d), x) <==> x[0] < d.batches && x[1] < Channels(d) && x[2] < d.height && x[3] < d.width
  {
    hide DstAt, SrcAt;
    WalkAt(d.batches, Channels(d), d.height, d.width, InternalPitches(d), UserPitches(t.layout, d), x);
  }

  lemma SamePlace(t: Tensor, d: IOBuf, x: seq<nat>)
    requires SamePlaces(t, d) && InBox(InLoops(t, d), x)
    ensures DstAt(InLoops(t, d), x) == SrcAt(InLoops(t, d), x)
  {
    hide DstAt, SrcAt, Channels, InLoops, InternalPitches, UserPitches;
    PlacesAt(t, d, x);
  }

  /** Otherwise some element stands elsewhere. */
  lemma OtherPlace(t: Tensor, d: IOBuf) returns (x: seq<nat>)
    requires Occupied(d) && !SamePlaces(t, d)
    ensures InBox(InLoops(t, d), x) && Offset(d) + DstAt(InLoops(t, d), x) != SrcAt(InLoops(t, d), x)
  {
    hide DstAt, SrcAt, Channels, InLoops, InternalPitches, UserPitches;
    var (i, u) := (InternalPitches(d), UserPitches(t.layout, d));
    x := if Offset(d) != 0 then [0, 0, 0, 0]
         else if d.batches > 1 && i.bp != u.bp then [1, 0, 0, 0]
         else if Channels(d) > 1 && i.cp != u.cp then [0, 1, 0, 0]
         else if d.height > 1 && i.lp != u.lp then [0, 0, 1, 0] else [0, 0, 0, 1];
    PlacesAt(t, d, x);
  }

  lemma InPlaceMaps(t: Tensor, d: IOBuf)
    requires SamePlaces(t, d)
    ensures var dims := InLoops(t, d);
            Injective(dims) && Covers(dims, Elements(d))
            && forall x | InBox(dims, x) :: DstAt(dims, x) == SrcAt(dims, x) && SrcAt(dims, x) < Elements(d)
  {
    hide InLoops, Injective, Covers, DstAt, SrcAt, SamePlaces;
    UserMap(t, d);
    forall x | InBox(InLoops(t, d), x)
      ensures DstAt(InLoops(t, d), x) == SrcAt(InLoops(t, d), x)
    {
      SamePlace(t, d, x);
    }
    SwappedInjective(InLoops(t, d));
  }

  lemma InPlaceMapsOut(t: Tensor, d: IOBuf)
    requires SamePlaces(t, d)
    ensures var dims := OutLoops(t, d);
            Injective(dims) && Covers(dims, Elements(d))
            && forall x | InBox(dims, x) :: DstAt(dims, x) == SrcAt(dims, x) && SrcAt(dims, x) < Elements(d)
  {
    hide InLoops, OutLoops, Injective, DstAt, SrcAt, SamePlaces;
    InPlaceMaps(t, d);
    UserMap(t, d);
    OutIsSwappedIn(t, d);
    var dims := InLoops(t, d);
    forall x | InBox(Swapped(dims), x)
      ensures DstAt(Swapped(dims), x) == SrcAt(Swapped(dims), x) < Elements(d)
    {
      SwappedAt(dims, x);
    }
    forall k | 0 <= k < Elements(d)
      ensures Reads(Swapped(dims), k)
    {
      assert Reads(dims, k);
      var x :| InBox(dims, x) && SrcAt(dims, x) == k;
      SwappedAt(dims, x);
    }
  }

  /** An element moved in place keeps the map injective when the user's is. */
  lemma SwappedInjective(dims: seq<Dim>)
    requires Injective(Swapped(dims)) && forall x | InBox(dims, x) :: DstAt(dims, x) == SrcAt(dims, x)
    ensures Injective(dims)
  {
    hide DstAt, SrcAt;
    forall x, y | InBox(dims, x) && InBox(dims, y) && DstAt(dims, x) == DstAt(dims, y)
      ensures x == y
    {
      SwappedAt(dims, x);
      SwappedAt(dims, y);
    }
  }

  lemma NoElements(t: Tensor, d: IOBuf)
    requires !Occupied(d)
    ensures Elements(d) == 0 && forall x :: !InBox(InLoops(t, d), x) && !InBox(OutLoops(t, d), x)
  {
    hide DstAt, SrcAt;
    forall x: seq<nat>
      ensures !InBox(InLoops(t, d), x) && !InBox(OutLoops(t, d), x)
    {
      var i := if d.batches == 0 then 0 else if Channels(d) == 0 then 1 else if d.height == 0 then 2 else 3;
      EmptyBox(InLoops(t, d), i, x);
      EmptyBox(OutLoops(t, d), i, x);
    }
  }

  lemma Untouched(dst: seq<real>, src: seq<real>, f: real -> real, dims: seq<Dim>, d: int, s: int)
    requires forall x :: !InBox(dims, x)
    ensures Nest(dst, src, f, dims, d, s) == dst == src[..0] + dst[0..]
  {
    hide Nest;
    forall k | 0 <= k < |dst|
      ensures Nest(dst, src, f, dims, d, s)[k] == dst[k]
    {
      NestFrame(dst, src, f, dims, d, s, k);
    }
  }

  // ----- The shortcut on the way in -----

  /** The shortcut leaves the same internal buffer as the reformatting ... */
  lemma ShortcutRefinesIn(t: Tensor, d: IOBuf, user: seq<real>, internal: seq<real>)
    requires OutSame(t, d) && ShortcutRight(t, d)
    requires RoomForMemcpy(t, d, |user|, |internal|) && Inside(InLoops(t, d), Offset(d), 0, |internal|, |user|)
    requires forall v | v in user :: Kept(t, d, v)
    ensures ReformatIn(t, d, user, internal) == Memcpy(internal, user, Copied(t, d))
  {
    hide InConvert, Nest, InLoops, Injective, Covers, Inside, Kept, OutSame, DstAt, SrcAt;
    if Occupied(d) {
      assert Offset(d) == 0;
      hide SamePlaces;
      InPlaceMaps(t, d);
      forall k | 0 <= k < Elements(d)
        ensures InConvert(t, d)(user[k]) == user[k]
      {
        assert user[k] in user;
        SameKeeps(t, d, user[k]);
      }
      CopyInPlace(internal, user, InConvert(t, d), InLoops(t, d), Elements(d));
    } else {
      NoElements(t, d);
      Untouched(internal, user, InConvert(t, d), InLoops(t, d), Offset(d), 0);
    }
  }

  /** The two ways leave different values in some cell. */
  ghost predicate Differs(t: Tensor, d: IOBuf, user: seq<real>, internal: seq<real>, cell: int) {
    && RoomForMemcpy(t, d, |user|, |internal|) && 0 <= cell < |internal|
    && ReformatIn(t, d, user, internal)[cell] != Memcpy(internal, user, Copied(t, d))[cell]
  }

  /** The element the loops come to last is the user's last. */
  lemma LastElement(t: Tensor, d: IOBuf) returns (x: seq<nat>)
    requires Occupied(d)
    ensures x == [d.batches - 1, Channels(d) - 1, d.height - 1, d.width - 1]
    ensures InBox(InLoops(t, d), x) && SrcAt(InLoops(t, d), x) == Elements(d) - 1
  {
    hide DstAt, SrcAt, Channels, InLoops;
    x := [d.batches - 1, Channels(d) - 1, d.height - 1, d.width - 1];
    PlacesAt(t, d, x);
    LastOf(d.batches, Channels(d), d.height, d.width);
  }

  lemma LastOf(b: nat, c: nat, h: nat, w: nat)
    ensures (b - 1) * (c * h * w) + (c - 1) * (h * w) + (h - 1) * w + (w - 1) == b * c * h * w - 1
    ensures (b - 1) * (c * h * w) + (c - 1) * 1 + (h - 1) * (c * w) + (w - 1) * c == b * c * h * w - 1
  {
    assert b * (c * h * w) == b * c * h * w && c * (h * w) == c * h * w && h * (c * w) == c * h * w;
    Distribute(b, -1, c * h * w);
    Distribute(c, -1, h * w);
    Distribute(h, -1, w);
    Distribute(h, -1, c * w);
  }

  /** Too little is copied: the last element is not. */
  lemma TooLittle(t: Tensor, d: IOBuf, user: seq<real>, internal: seq<real>) returns (cell: int)
    requires Copied(t, d) < Elements(d) && InConvert(t, d)(1.0) == 1.0
    requires RoomForMemcpy(t, d, |user|, |internal|) && Inside(InLoops(t, d), Offset(d), 0, |internal|, |user|)
    requires forall k | 0 <= k < |user| :: user[k] == if k == Elements(d) - 1 then 1.0 else 0.0
    requires forall k | 0 <= k < |internal| :: internal[k] == 0.0
    ensures Differs(t, d, user, internal, cell)
  {
    hide InConvert, Nest, InLoops, DstAt, SrcAt, NotAfter;
    if !Occupied(d) {
      NoElements(t, d);
    }
    var last := LastElement(t, d);
    cell := Offset(d) + DstAt(InLoops(t, d), last);
    var x := NestLast(internal, user, InConvert(t, d), InLoops(t, d), Offset(d), 0, cell, last);
    LoopCounts(t, d);
    NoneAfterLast(InLoops(t, d), x, last);
  }

  lemma LoopCounts(t: Tensor, d: IOBuf)
    ensures var dims := InLoops(t, d);
            dims[0].n == d.batches && dims[1].n == Channels(d) && dims[2].n == d.height && dims[3].n == d.width
  {
  }

  /** Too much is copied: a cell behind the elements is overwritten. */
  lemma TooMuch(t: Tensor, d: IOBuf, user: seq<real>, internal: seq<real>) returns (cell: int)
    requires Copied(t, d) > Elements(d) && (Occupied(d) ==> SamePlaces(t, d))
    requires RoomForMemcpy(t, d, |user|, |internal|) && Inside(InLoops(t, d), Offset(d), 0, |internal|, |user|)
    requires (forall k | 0 <= k < |user| :: user[k] == 1.0) && forall k | 0 <= k < |internal| :: internal[k] == 0.0
    ensures Differs(t, d, user, internal, cell)
  {
    hide InConvert, Nest, InLoops, Injective, DstAt, SrcAt;
    cell := Elements(d);
    if Occupied(d) {
      assert Offset(d) == 0;
      hide SamePlaces;
      InPlaceMaps(t, d);
    } else {
      NoElements(t, d);
    }
    NestFrame(internal, user, InConvert(t, d), InLoops(t, d), Offset(d), 0, cell);
  }

  /** What reformatting leaves in the cell where the user's buffer holds an element
      that it puts elsewhere: another element, or what was there. */
  lemma NotItsOwn(t: Tensor, d: IOBuf, user: seq<real>, internal: seq<real>, x: seq<nat>) returns (from: Option<nat>)
    requires Inside(InLoops(t, d), Offset(d), 0, |internal|, |user|)
    requires var dims := InLoops(t, d);
             InBox(dims, x) && Offset(d) + DstAt(dims, x) != SrcAt(dims, x) && SrcAt(dims, x) < |internal|
    ensures 0 <= SrcAt(InLoops(t, d), x)
    ensures var (r, cell) := (ReformatIn(t, d, user, internal), SrcAt(InLoops(t, d), x));
            match from
            case Some(k) => k != cell && k < |user| && r[cell] == InConvert(t, d)(user[k])
            case None => r[cell] == internal[cell]
    ensures from.Some? <==> Written(t, d, SrcAt(InLoops(t, d), x))
  {
    hide InConvert, Nest, InLoops, DstAt, SrcAt, NotAfter;
    UserMap(t, d);
    var dims := InLoops(t, d);
    var cell := SrcAt(dims, x);
    if z :| InBox(dims, z) && Offset(d) + DstAt(dims, z) == cell {
      var w := NestLast(internal, user, InConvert(t, d), dims, Offset(d), 0, cell, z);
      SwappedAt(dims, x);
      SwappedAt(dims, w);
      from := Some(SrcAt(dims, w));
    } else {
      NestFrame(internal, user, InConvert(t, d), dims, Offset(d), 0, cell);
      from := None;
    }
  }

  ghost predicate Written(t: Tensor, d: IOBuf, cell: int) {
    exists z :: InBox(InLoops(t, d), z) && Offset(d) + DstAt(InLoops(t, d), z) == cell
  }

  lemma WrongPlace(t: Tensor, d: IOBuf, user: seq<real>, internal: seq<real>, x: seq<nat>)
    requires Copied(t, d) >= Elements(d) && InConvert(t, d)(1.0) == 1.0
    requires RoomForMemcpy(t, d, |user|, |internal|) && Inside(InLoops(t, d), Offset(d), 0, |internal|, |user|)
    requires InBox(InLoops(t, d), x) && Offset(d) + DstAt(InLoops(t, d), x) != SrcAt(InLoops(t, d), x)
    requires var cell := SrcAt(InLoops(t, d), x);
             forall k | 0 <= k < |user| :: user[k] == if (k == cell) != Written(t, d, cell) then 1.0 else 0.0
    requires forall k | 0 <= k < |internal| :: internal[k] == 0.0
    ensures Differs(t, d, user, internal, SrcAt(InLoops(t, d), x))
  {
    hide InConvert, InLoops, DstAt, SrcAt, ReformatIn, Written, Injective, Covers;
    UserMap(t, d);
    var cell := SrcAt(InLoops(t, d), x);
    assert 0 <= cell < Copied(t, d);
    var from := NotItsOwn(t, d, user, internal, x);
  }

  /** ... and whenever a condition of `ShortcutRight` fails, some contents tell
      the two apart, although the check passes: with one channel it compares
      neither layouts nor channel pitches, but the copies walk
      numChannels*dim1*dim2 of them. */
  lemma ShortcutDiffersIn(t: Tensor, d: IOBuf, userLen: nat, internalLen: nat)
    returns (user: seq<real>, internal: seq<real>)
    requires OutSame(t, d) && !ShortcutRight(t, d)
    requires RoomForMemcpy(t, d, userLen, internalLen) && Inside(InLoops(t, d), Offset(d), 0, internalLen, userLen)
    ensures |user| == userLen && |internal| == internalLen && (forall v | v in user :: Kept(t, d, v))
    ensures ReformatIn(t, d, user, internal) != Memcpy(internal, user, Copied(t, d))
  {
    hide InConvert, InLoops, Inside, Kept, OutSame, DstAt, SrcAt, ReformatIn, Written, Offset, SamePlaces, Occupied;
    hide Copied, Elements, Memcpy;
    MarksKept(t, d);
    SameKeeps(t, d, 1.0);
    internal := Marks(internalLen, k => false);
    var cell: int;
    if Copied(t, d) < Elements(d) {
      var last := Elements(d) - 1;
      user := Marks(userLen, k => k == last);
      cell := TooLittle(t, d, user, internal);
    } else if Occupied(d) && !SamePlaces(t, d) {
      var x := OtherPlace(t, d);
      cell := SrcAt(InLoops(t, d), x);
      var written := Written(t, d, cell);
      var at := cell;
      user := Marks(userLen, k => (k == at) != written);
      WrongPlace(t, d, user, internal, x);
    } else {
      user := Marks(userLen, k => true);
      cell := TooMuch(t, d, user, internal);
    }
  }

  /** Whatever buffers of these lengths hold, memcpy leaves what reformatting would. */
  ghost predicate ShortcutAlwaysIn(t: Tensor, d: IOBuf, userLen: nat, internalLen: nat)
    requires RoomForMemcpy(t, d, userLen, internalLen)
  {
    forall user, internal | |user| == userLen && |internal| == internalLen && (forall v | v in user :: Kept(t, d, v)) ::
      ReformatIn(t, d, user, internal) == Memcpy(internal, user, Copied(t, d))
  }

  /** For every descriptor that passes the check, padded or not, and buffers that
      both ways fit in, the two agree exactly under `ShortcutRight`. */
  lemma ShortcutExactIn(t: Tensor, d: IOBuf, userLen: nat, internalLen: nat)
    requires OutSame(t, d)
    requires RoomForMemcpy(t, d, userLen, internalLen) && Inside(InLoops(t, d), Offset(d), 0, internalLen, userLen)
    ensures ShortcutAlwaysIn(t, d, userLen, internalLen) <==> ShortcutRight(t, d)
  {
    hide OutSame, Inside, ShortcutRight, Kept, ReformatIn, Memcpy, Copied;
    if ShortcutRight(t, d) {
      forall user, internal | |user| == userLen && |internal| == internalLen && (forall v | v in user :: Kept(t, d, v))
        ensures ReformatIn(t, d, user, internal) == Memcpy(internal, user, Copied(t, d))
      {
        ShortcutRefinesIn(t, d, user, internal);
      }
    } else {
      var user, internal := ShortcutDiffersIn(t, d, userLen, internalLen);
    }
  }

  // ----- The shortcut on the way out -----

  lemma ShortcutRefinesOut(t: Tensor, d: IOBuf, user: seq<real>, internal: seq<real>)
    requires OutSame(t, d) && ShortcutRightOut(t, d)
    requires RoomForMemcpy(t, d, |user|, |internal|) && Inside(OutLoops(t, d), 0, Offset(d), |user|, |internal|)
    requires forall v | v in internal :: Kept(t, d, v)
    ensures ReformatOut(t, d, user, internal) == Memcpy(user, internal, Copied(t, d))
  {
    hide OutConvert, Nest, InLoops, OutLoops, Injective, Covers, Inside, Kept, OutSame, DstAt, SrcAt;
    if Occupied(d) {
      assert Offset(d) == 0;
      hide SamePlaces;
      InPlaceMapsOut(t, d);
      forall k | 0 <= k < Elements(d)
        ensures OutConvert(t, d)(internal[k]) == internal[k]
      {
        assert internal[k] in internal;
        SameKeeps(t, d, internal[k]);
      }
      CopyInPlace(user, internal, OutConvert(t, d), OutLoops(t, d), Elements(d));
    } else {
      NoElements(t, d);
      Untouched(user, internal, OutConvert(t, d), OutLoops(t, d), 0, Offset(d));
    }
  }

  ghost predicate DiffersOut(t: Tensor, d: IOBuf, user: seq<real>, internal: seq<real>, cell: int) {
    && RoomForMemcpy(t, d, |user|, |internal|) && 0 <= cell < |user|
    && ReformatOut(t, d, user, internal)[cell] != Memcpy(user, internal, Copied(t, d))[cell]
  }

  /** What reformatting writes to the cell of an element. */
  lemma OutHit(t: Tensor, d: IOBuf, user: seq<real>, internal: seq<real>, x: seq<nat>)
    requires InBox(InLoops(t, d), x) && Inside(OutLoops(t, d), 0, Offset(d), |user|, |internal|)
    ensures 0 <= SrcAt(InLoops(t, d), x) < |user| && 0 <= Offset(d) + DstAt(InLoops(t, d), x) < |internal|
    ensures ReformatOut(t, d, user, internal)[SrcAt(InLoops(t, d), x)]
         == OutConvert(t, d)(internal[Offset(d) + DstAt(InLoops(t, d), x)])
  {
    hide OutConvert, Nest, InLoops, OutLoops, Injective, Covers, DstAt, SrcAt;
    UserMap(t, d);
    OutIsSwappedIn(t, d);
    SwappedAt(InLoops(t, d), x);
    InjectiveHit(user, internal, OutConvert(t, d), OutLoops(t, d), 0, Offset(d), x);
  }

  /** The scaling is skipped. */
  lemma WrongScale(t: Tensor, d: IOBuf, user: seq<real>, internal: seq<real>) returns (cell: int)
    requires Occupied(d) && OutConvert(t, d)(1.0) != 1.0
    requires RoomForMemcpy(t, d, |user|, |internal|) && Inside(OutLoops(t, d), 0, Offset(d), |user|, |internal|)
    requires (forall k | 0 <= k < |user| :: user[k] == 1.0) && forall k | 0 <= k < |internal| :: internal[k] == 1.0
    ensures DiffersOut(t, d, user, internal, cell)
  {
    hide OutConvert, InLoops, OutLoops, DstAt, SrcAt, ReformatOut, Inside;
    var x := LastElement(t, d);
    OutHit(t, d, user, internal, x);
    cell := SrcAt(InLoops(t, d), x);
  }

  /** An element is read from elsewhere. */
  lemma WrongPlaceOut(t: Tensor, d: IOBuf, user: seq<real>, internal: seq<real>, x: seq<nat>)
    requires OutConvert(t, d)(1.0) == 1.0
    requires RoomForMemcpy(t, d, |user|, |internal|) && Inside(OutLoops(t, d), 0, Offset(d), |user|, |internal|)
    requires InBox(InLoops(t, d), x) && Offset(d) + DstAt(InLoops(t, d), x) != SrcAt(InLoops(t, d), x)
    requires var from := Offset(d) + DstAt(InLoops(t, d), x);
             forall k | 0 <= k < |internal| :: internal[k] == if k == from then 1.0 else 0.0
    requires forall k | 0 <= k < |user| :: user[k] == 0.0
    ensures DiffersOut(t, d, user, internal, SrcAt(InLoops(t, d), x))
  {
    hide OutConvert, InLoops, OutLoops, DstAt, SrcAt, ReformatOut, Inside;
    OutHit(t, d, user, internal, x);
  }

  /** Too much or too little is copied. */
  lemma WrongCountOut(t: Tensor, d: IOBuf, user: seq<real>, internal: seq<real>) returns (cell: int)
    requires Copied(t, d) != Elements(d) && (Occupied(d) ==> SamePlaces(t, d) && OutConvert(t, d)(1.0) == 1.0)
    requires RoomForMemcpy(t, d, |user|, |internal|) && Inside(OutLoops(t, d), 0, Offset(d), |user|, |internal|)
    requires (forall k | 0 <= k < |user| :: user[k] == 0.0) && forall k | 0 <= k < |internal| :: internal[k] == 1.0
    ensures DiffersOut(t, d, user, internal, cell)
  {
    hide OutConvert, Nest, InLoops, OutLoops, Injective, DstAt, SrcAt;
    var n, all := Copied(t, d), Elements(d);
    if Occupied(d) {
      hide SamePlaces;
      InPlaceMapsOut(t, d);
    } else {
      NoElements(t, d);
    }
    if n > all {
      cell := all;
      NestFrame(user, internal, OutConvert(t, d), OutLoops(t, d), 0, Offset(d), cell);
    } else {
      cell := n;
      assert Reads(OutLoops(t, d), cell);
      var x :| InBox(OutLoops(t, d), x) && SrcAt(OutLoops(t, d), x) == cell;
      InjectiveHit(user, internal, OutConvert(t, d), OutLoops(t, d), 0, Offset(d), x);
    }
  }

  lemma ShortcutDiffersOut(t: Tensor, d: IOBuf, userLen: nat, internalLen: nat)
    returns (user: seq<real>, internal: seq<real>)
    requires OutSame(t, d) && !ShortcutRightOut(t, d)
    requires RoomForMemcpy(t, d, userLen, internalLen) && Inside(OutLoops(t, d), 0, Offset(d), userLen, internalLen)
    ensures |user| == userLen && |internal| == internalLen && (forall v | v in internal :: Kept(t, d, v))
    ensures ReformatOut(t, d, user, internal) != Memcpy(user, internal, Copied(t, d))
  {
    hide OutConvert, InLoops, OutLoops, Inside, Kept, OutSame, DstAt, SrcAt, ReformatOut, Offset, SamePlaces, Occupied;
    hide Copied, Elements, Memcpy;
    MarksKept(t, d);
    SameKeeps(t, d, 1.0);
    var cell: int;
    if Occupied(d) && t.elementType.Float32? && d.scale != 1.0 {
      user, internal := Marks(userLen, k => true), Marks(internalLen, k => true);
      cell := WrongScale(t, d, user, internal);
    } else if Occupied(d) && !SamePlaces(t, d) {
      var x := OtherPlace(t, d);
      var from := Offset(d) + DstAt(InLoops(t, d), x);
      user, internal := Marks(userLen, k => false), Marks(internalLen, k => k == from);
      cell := SrcAt(InLoops(t, d), x);
      WrongPlaceOut(t, d, user, internal, x);
    } else {
      user, internal := Marks(userLen, k => false), Marks(internalLen, k => true);
      cell := WrongCountOut(t, d, user, internal);
    }
  }

  ghost predicate ShortcutAlwaysOut(t: Tensor, d: IOBuf, userLen: nat, internalLen: nat)
    requires RoomForMemcpy(t, d, userLen, internalLen)
  {
    forall user, internal | |user| == userLen && |internal| == internalLen
        && (forall v | v in internal :: Kept(t, d, v)) ::
      ReformatOut(t, d, user, internal) == Memcpy(user, internal, Copied(t, d))
  }

  /** The way out has the same condition, and one more for floats. */
  lemma ShortcutExactOut(t: Tensor, d: IOBuf, userLen: nat, internalLen: nat)
    requires OutSame(t, d)
    requires RoomForMemcpy(t, d, userLen, internalLen) && Inside(OutLoops(t, d), 0, Offset(d), userLen, internalLen)
    ensures ShortcutAlwaysOut(t, d, userLen, internalLen) <==> ShortcutRightOut(t, d)
  {
    hide OutSame, Inside, ShortcutRightOut, Kept, ReformatOut, Memcpy, Copied;
    if ShortcutRightOut(t, d) {
      forall user, internal | |user| == userLen && |internal| == internalLen
          && (forall v | v in internal :: Kept(t, d, v))
        ensures ReformatOut(t, d, user, internal) == Memcpy(user, internal, Copied(t, d))
      {
        ShortcutRefinesOut(t, d, user, internal);
      }
    } else {
      var user, internal := ShortcutDiffersOut(t, d, userLen, internalLen);
    }
  }

  // ----- What the condition comes to without padding -----

  predicate NoPads(d: IOBuf) {
    d.padL == 0 && d.padR == 0 && d.padT == 0
  }

  /** Both layouts put the elements of a plane, and the planes among themselves,
      in the same order: they are the same, or one of the two axes they
      exchange is trivial. */
  predicate LayoutsAgree(t: Tensor, d: IOBuf) {
    t.layout == d.layout || Channels(d) <= 1 || d.height * d.width <= 1
  }

  /** The internal planes follow one another as the user's do, or there is only one. */
  predicate PlanesMeet(d: IOBuf) {
    d.layout.NHWC? || (d.batches <= 1 && Channels(d) <= 1) || d.channelPitch == d.height * d.width
  }

  /** As many elements are copied as there are exactly when the channel pitch is a plane. */
  lemma CopiedIs(t: Tensor, d: IOBuf)
    ensures Copied(t, d) == Elements(d) <==>
              d.batches == 0 || Channels(d) == 0 || ChannelPitch(t, d) == d.height * d.width
  {
    var m := d.batches * Channels(d);
    assert Elements(d) == m * (d.height * d.width);
    assert Copied(t, d) == m * ChannelPitch(t, d);
    if d.batches > 0 && Channels(d) > 0 {
      MulMono(1, d.batches, Channels(d));
      MultipleSize(m, ChannelPitch(t, d) - d.height * d.width);
      assert m * (ChannelPitch(t, d) - d.height * d.width) == Copied(t, d) - Elements(d);
    }
  }

  lemma OnePixel(h: nat, w: nat)
    requires h > 0 && w > 0
    ensures h * w <= 1 <==> h == 1 && w == 1
  {
    MulMono(1, w, h);
    MulMono(1, h, w);
  }

  lemma OnlyOne(c: nat, k: nat)
    requires c > 0 && k > 0
    ensures c * k == k <==> c == 1
  {
    if c > 1 {
      MulMono(2, c, k);
    }
  }

  /** Every element has one place exactly when the layouts agree and the planes meet. */
  lemma UnpaddedPlaces(t: Tensor, d: IOBuf)
    requires NoPads(d) && Occupied(d)
    ensures SamePlaces(t, d) <==> LayoutsAgree(t, d) && PlanesMeet(d)
  {
    var (c, h, w) := (Channels(d), d.height, d.width);
    hide Channels;
    OnePixel(h, w);
    OnlyOne(c, w);
    OnlyOne(c, 1);
    assert c * (h * w) == c * h * w;
    assert c == 1 ==> c * d.channelPitch == d.channelPitch;
    assert h * w == 1 ==> h == 1 && w == 1;
  }

  /** So the shortcut is right when there is nothing to move, or the channel pitch
      is a plane, the layouts agree and the planes meet. */
  lemma UnpaddedRight(t: Tensor, d: IOBuf)
    requires NoPads(d)
    ensures ShortcutRight(t, d) <==>
              || d.batches == 0 || Channels(d) == 0
              || (ChannelPitch(t, d) == d.height * d.width
                  && (d.height * d.width == 0 || (LayoutsAgree(t, d) && PlanesMeet(d))))
  {
    hide Copied, Elements, SamePlaces, LayoutsAgree, PlanesMeet, Channels, ChannelPitch;
    CopiedIs(t, d);
    if Occupied(d) {
      UnpaddedPlaces(t, d);
      MulMono(1, d.height, d.width);
    }
  }

  /** A real descriptor that passes the check and for which it is wrong: one
      "channel" with two planes, the layouts exchanged ... */
  lemma ShortcutExchanges()
    ensures var t := Tensor(UInt8, NHWC, 1.0, 0, -1, 0, 0, 0, -1, false);
            var d := IOBuf(UInt8, NCHW, 1.0, 0, 1, 1, 1, 2, 2, 2, 0, 0, 0, 4, 8);
            InSame(t, d) && NoPads(d) && Copied(t, d) == 8 && !ShortcutAlwaysIn(t, d, 8, 8)
  {
    var t, d := Tensor(UInt8, NHWC, 1.0, 0, -1, 0, 0, 0, -1, false),
        IOBuf(UInt8, NCHW, 1.0, 0, 1, 1, 1, 2, 2, 2, 0, 0, 0, 4, 8);
    TwoPlanes(t, d);
    LargeEnoughNow(t, d, 8, 8);
    UnpaddedPlaces(t, d);
    hide Inside, SamePlaces;
    ShortcutExactIn(t, d, 8, 8);
  }

  /** ... or the internal planes spaced apart. */
  lemma ShortcutPacks()
    ensures var t := Tensor(UInt8, NCHW, 1.0, 0, -1, 0, 0, 0, -1, false);
            var d := IOBuf(UInt8, NCHW, 1.0, 0, 1, 1, 1, 2, 2, 2, 0, 0, 0, 9, 18);
            InSame(t, d) && NoPads(d) && Copied(t, d) == 8 && !ShortcutAlwaysIn(t, d, 8, 18)
  {
    var t, d := Tensor(UInt8, NCHW, 1.0, 0, -1, 0, 0, 0, -1, false),
        IOBuf(UInt8, NCHW, 1.0, 0, 1, 1, 1, 2, 2, 2, 0, 0, 0, 9, 18);
    TwoPlanes(t, d);
    LargeEnoughNow(t, d, 8, 18);
    UnpaddedPlaces(t, d);
    hide Inside, SamePlaces;
    ShortcutExactIn(t, d, 8, 18);
  }

  /** ... or, on the way out alone, one float whose scale is not 1: the check finds
      the scales equal, and reformatting divides by it. */
  lemma ShortcutSkipsScale()
    ensures var t := Tensor(Float32, NCHW, 4.0, 0, -1, 0, 0, 0, -1, false);
            var d := IOBuf(Float32, NCHW, 4.0, 0, 1, 1, 1, 1, 1, 1, 0, 0, 0, 1, 4);
            && OutSame(t, d) && RoomForMemcpy(t, d, 1, 1)
            && ShortcutAlwaysIn(t, d, 1, 1) && !ShortcutAlwaysOut(t, d, 1, 1)
  {
    var t := Tensor(Float32, NCHW, 4.0, 0, -1, 0, 0, 0, -1, false);
    var d := IOBuf(Float32, NCHW, 4.0, 0, 1, 1, 1, 1, 1, 1, 0, 0, 0, 1, 4);
    hide ShortcutAlwaysIn, ShortcutAlwaysOut, RoomForMemcpy;
    OneFloat(t, d);
  }

  lemma OneFloat(t: Tensor, d: IOBuf)
    requires OutSame(t, d) && t.elementType.Float32? && d.scale != 1.0 && NoPads(d) && t.layout == d.layout
    requires d.batches == d.numChannels == d.dim1 == d.dim2 == d.height == d.width == 1 && t.channelPitch == -1
    ensures RoomForMemcpy(t, d, 1, 1) && ShortcutAlwaysIn(t, d, 1, 1) && !ShortcutAlwaysOut(t, d, 1, 1)
  {
    hide OutSame;
    assert Channels(d) == 1 && Copied(t, d) == 1 == Elements(d) && Occupied(d);
    InsideSame(t, d, 1, 1);
    hide Inside, SamePlaces, ShortcutAlwaysIn, ShortcutAlwaysOut;
    ShortcutExactIn(t, d, 1, 1);
    ShortcutExactOut(t, d, 1, 1);
  }

  /** Buffers of as many cells as elements, each in its place. */
  lemma InsideSame(t: Tensor, d: IOBuf, userLen: nat, internalLen: nat)
    requires SamePlaces(t, d) && userLen >= Elements(d) && internalLen >= Elements(d)
    ensures Inside(InLoops(t, d), Offset(d), 0, internalLen, userLen)
    ensures Inside(OutLoops(t, d), 0, Offset(d), userLen, internalLen)
  {
    hide InLoops, OutLoops, Injective, Covers, DstAt, SrcAt, Elements, SamePlaces;
    UserMap(t, d);
    InPlaceMaps(t, d);
    StartsAtZero(t, d);
    OutIsSwappedIn(t, d);
    var dims := InLoops(t, d);
    forall x | InBox(Swapped(dims), x)
      ensures 0 <= DstAt(Swapped(dims), x) == SrcAt(Swapped(dims), x) < Elements(d)
    {
      SwappedAt(dims, x);
    }
  }

  lemma StartsAtZero(t: Tensor, d: IOBuf)
    requires SamePlaces(t, d)
    ensures Offset(d) == 0
  {
  }

  lemma TwoPlanes(t: Tensor, d: IOBuf)
    requires d.batches == d.numChannels == d.dim1 == 1 && d.dim2 == d.height == d.width == 2 && t.channelPitch == -1
    ensures Channels(d) == 2 && ChannelPitch(t, d) == 4 == d.height * d.width && Copied(t, d) == 8
  {
  }

  lemma LargeEnoughNow(t: Tensor, d: IOBuf, userLen: nat, internalLen: nat)
    requires NoPads(d) && d.layout.NCHW? && d.batches == 1 && Channels(d) == d.height == d.width == 2
        && d.channelPitch >= 4
    requires userLen >= 8 && internalLen >= d.channelPitch + 4
    ensures Inside(InLoops(t, d), Offset(d), 0, internalLen, userLen)
  {
    hide DstAt, SrcAt, InLoops;
    assert Elements(d) == 8;
    PlacesAt(t, d, [0, 1, 1, 1]);
    LargeEnough(t, d, userLen, internalLen);
  }

  // ----- There and back, whichever ways are taken -----

  /** The way in alone compares the user's buffer size, so it may reformat where
      the way out copies. The tensor comes back when both reformat and no two
      elements share a cell; when both copy all of it; or when the copy finds
      every element where it was put. */
  ghost predicate ComesBack(t: Tensor, d: IOBuf) {
    if !OutSame(t, d) then Injective(InLoops(t, d))
    else if InSame(t, d) then Copied(t, d) == Elements(d)
    else ShortcutRight(t, d)
  }

  /** Neither way changes a value, and both copies fit. */
  predicate RoundTrips(t: Tensor, d: IOBuf, internalLen: nat) {
    && !t.shared && InSupported(InRequant(t, d), t.elementType, d.elementType)
    && if OutSame(t, d) then RoomForMemcpy(t, d, Elements(d), internalLen) else Matched(t, d)
  }

  function Back(t: Tensor, d: IOBuf, user: seq<real>, internal: seq<real>, back: seq<real>): seq<real>
    requires RoundTrips(t, d, |internal|) && |user| == |back| == Elements(d)
  {
    AfterOut(t, d, back, AfterIn(t, d, user, internal))
  }

  lemma BackReturns(t: Tensor, d: IOBuf, user: seq<real>, internal: seq<real>, back: seq<real>)
    requires RoundTrips(t, d, |internal|) && ComesBack(t, d) && |user| == |back| == Elements(d)
    requires InSame(t, d) || Inside(InLoops(t, d), Offset(d), 0, |internal|, |user|)
    requires forall v | v in user :: Kept(t, d, v)
    ensures Back(t, d, user, internal, back) == user
  {
    hide InConvert, OutConvert, Nest, InLoops, OutLoops, Injective, Inside, Kept, ReformatIn, ReformatOut;
    hide ShortcutRight;
    if !OutSame(t, d) {
      TensorRoundTrip(t, d, user, internal, back);
    } else if !InSame(t, d) {
      ShortcutRefinesIn(t, d, user, internal);
      RightCounts(t, d);
    }
  }

  lemma RightCounts(t: Tensor, d: IOBuf)
    requires ShortcutRight(t, d)
    ensures Copied(t, d) == Elements(d)
  {
  }

  lemma BackDiffers(t: Tensor, d: IOBuf, internalLen: nat)
    returns (user: seq<real>, internal: seq<real>, back: seq<real>)
    requires RoundTrips(t, d, internalLen) && !ComesBack(t, d)
    requires InSame(t, d) || Inside(InLoops(t, d), Offset(d), 0, internalLen, Elements(d))
    ensures |user| == |back| == Elements(d) && |internal| == internalLen && (forall v | v in user :: Kept(t, d, v))
    ensures Back(t, d, user, internal, back) != user
  {
    hide InConvert, OutConvert, InLoops, OutLoops, Injective, Inside, Kept, DstAt, SrcAt, OutSame, InSupported;
    hide ReformatIn, ReformatOut, SamePlaces, Offset, Occupied, Copied, Elements;
    MarksKept(t, d);
    var all := Elements(d);
    if !OutSame(t, d) {
      user, internal, back := SharedCellLoses(t, d, internalLen);
    } else if Copied(t, d) != all {
      user, internal, back := Marks(all, k => true), Marks(internalLen, k => false), Marks(all, k => false);
      assert Back(t, d, user, internal, back)[Copied(t, d)] == 0.0;
    } else {
      var x := OtherPlace(t, d);
      var cell := SrcAt(InLoops(t, d), x);
      user, internal, back := Marks(all, k => k == cell), Marks(internalLen, k => false), Marks(all, k => false);
      LostElement(t, d, user, internal, x);
      assert Back(t, d, user, internal, back)[cell] == 0.0;
    }
  }

  /** A cell where its own element is not put does not hold it. */
  lemma LostElement(t: Tensor, d: IOBuf, user: seq<real>, internal: seq<real>, x: seq<nat>)
    requires OutSame(t, d) && |user| == Elements(d) <= |internal|
    requires Inside(InLoops(t, d), Offset(d), 0, |internal|, |user|)
    requires InBox(InLoops(t, d), x) && Offset(d) + DstAt(InLoops(t, d), x) != SrcAt(InLoops(t, d), x)
    requires forall k | 0 <= k < |user| :: user[k] == if k == SrcAt(InLoops(t, d), x) then 1.0 else 0.0
    requires forall k | 0 <= k < |internal| :: internal[k] == 0.0
    ensures 0 <= SrcAt(InLoops(t, d), x) < |user|
    ensures ReformatIn(t, d, user, internal)[SrcAt(InLoops(t, d), x)] == 0.0
  {
    hide InConvert, InLoops, DstAt, SrcAt, Injective, Covers, OutSame, Inside;
    UserMap(t, d);
    MarksKept(t, d);
    SameKeeps(t, d, 0.0);
    hide ReformatIn;
    var from := NotItsOwn(t, d, user, internal, x);
  }

  ghost predicate BackAlways(t: Tensor, d: IOBuf, internalLen: nat)
    requires RoundTrips(t, d, internalLen)
  {
    forall user, internal, back | |user| == |back| == Elements(d) && |internal| == internalLen
        && (forall v | v in user :: Kept(t, d, v)) ::
      Back(t, d, user, internal, back) == user
  }

  /** In and out again, by whichever ways the two checks choose: every tensor
      comes back exactly under `ComesBack`. */
  lemma DispatchRoundTrip(t: Tensor, d: IOBuf, internalLen: nat)
    requires RoundTrips(t, d, internalLen)
    requires InSame(t, d) || Inside(InLoops(t, d), Offset(d), 0, internalLen, Elements(d))
    ensures BackAlways(t, d, internalLen) <==> ComesBack(t, d)
  {
    hide RoundTrips, Inside, ComesBack, Kept, Back, Elements;
    if ComesBack(t, d) {
      forall user, internal, back | |user| == |back| == Elements(d) && |internal| == internalLen
          && (forall v | v in user :: Kept(t, d, v))
        ensures Back(t, d, user, internal, back) == user
      {
        BackReturns(t, d, user, internal, back);
      }
    } else {
      var user, internal, back := BackDiffers(t, d, internalLen);
    }
  }

  /** A real descriptor whose tensors need not come back: one "channel" with two
      planes in the other layout, and a buffer too small for a memcpy in. */
  lemma DispatchLosesTensor()
    ensures var t := Tensor(UInt8, NHWC, 1.0, 0, -1, 0, 0, 0, 4, false);
            var d := IOBuf(UInt8, NCHW, 1.0, 0, 1, 1, 1, 2, 2, 2, 0, 0, 0, 4, 8);
            !InSame(t, d) && OutSame(t, d) && RoundTrips(t, d, 8) && !BackAlways(t, d, 8)
  {
    hide RoundTrips, BackAlways;
    var t := Tensor(UInt8, NHWC, 1.0, 0, -1, 0, 0, 0, 4, false);
    var d := IOBuf(UInt8, NCHW, 1.0, 0, 1, 1, 1, 2, 2, 2, 0, 0, 0, 4, 8);
    TwoPlanesLost(t, d);
  }

  lemma TwoPlanesLost(t: Tensor, d: IOBuf)
    requires OutSame(t, d) && !InSame(t, d) && Narrow(t.elementType) && !t.shared && NoPads(d) && d.channelPitch == 4
    requires d.batches == d.numChannels == d.dim1 == 1 && d.dim2 == d.height == d.width == 2 && t.channelPitch == -1
    requires d.layout.NCHW? && t.layout.NHWC?
    ensures RoundTrips(t, d, 8) && !BackAlways(t, d, 8)
  {
    hide Inside, BackAlways, InSame, InLoops, SamePlaces;
    TwoPlanes(t, d);
    assert Elements(d) == 8;
    LargeEnoughNow(t, d, 8, 8);
    UnpaddedPlaces(t, d);
    DispatchRoundTrip(t, d, 8);
  }

  // ----- Requantisation through the descriptors -----

  /** The user's scale and zero point, as both copies take them. */
  function UserScale(t: Tensor): real {
    if t.elementType.Float32? then 1.0 else t.scale
  }

  function UserZero(t: Tensor): int {
    if t.elementType.Float32? then 0 else t.zeroPoint
  }

  lemma RequantIs(t: Tensor, d: IOBuf)
    requires UserScale(t) > 0.0
    ensures InRequant(t, d) == SelectIn(UserZero(t), d.zeroPoint, UserScale(t),
                                        if d.elementType.Float32? then 1.0 else d.scale)
    ensures OutRequant(t, d) == SelectOut(UserZero(t), d.zeroPoint, UserScale(t), d.scale)
  {
  }

  /** A value that goes in without saturating comes back to within one internal
      step and one unit, whatever the branches, types and zero points, when both
      ways take the same internal scale. */
  lemma TransferError(t: Tensor, d: IOBuf, x: real)
    requires UserScale(t) > 0.0 && d.scale > 0.0 && Holds(t.elementType, x)
    requires d.elementType.Float32? ==> d.scale == 1.0
    requires InRange(d.elementType, Scaled(InRequant(t, d), x))
    ensures var e := UserScale(t) / d.scale + 1.0;
            -e < OutConvert(t, d)(InConvert(t, d)(x)) - x < e
  {
    hide Requantise, SelectIn, SelectOut, Scaled, Holds, InRange;
    RequantIs(t, d);
    RequantError(UserZero(t), d.zeroPoint, UserScale(t), d.scale, t.elementType, d.elementType, x);
  }

  /** They do not for a Float32 internal buffer: the way in takes its scale to be
      1.0, the way out as it stands. The value handed to the last conversion is
      then off by the internal scale, and right for no value but the shift unless
      that scale is 1.0. */
  lemma FloatTransfer(t: Tensor, d: IOBuf, x: real)
    requires UserScale(t) > 0.0 && d.scale > 0.0 && d.elementType.Float32?
    requires InRange(d.elementType, Scaled(InRequant(t, d), x))
    ensures var z := Shift(UserZero(t), d.zeroPoint);
            var back := Scaled(OutRequant(t, d), InConvert(t, d)(x));
            back == (x - z) / d.scale + z && (back == x <==> x == z || d.scale == 1.0)
  {
    hide Requantise, SelectIn, SelectOut, Scaled, InRange, Ratio, Shift;
    RequantIs(t, d);
    var (u, s, z) := (UserScale(t), d.scale, Shift(UserZero(t), d.zeroPoint));
    InError(InRequant(t, d), d.elementType, x);
    ScaledIn(UserZero(t), d.zeroPoint, u, 1.0, x);
    ScaledOut(UserZero(t), d.zeroPoint, u, s, InConvert(t, d)(x));
    RatioIs(1.0, u);
    RatioIs(u, s);
    InAndOut(x - z, u, s);
  }

  lemma InAndOut(a: real, u: real, s: real)
    requires u > 0.0 && s > 0.0
    ensures a * (1.0 / u) * (u / s) == a / s
    ensures a / s == a <==> a == 0.0 || s == 1.0
  {
    var p, q, b := 1.0 / u, u / s, a / s;
    assert p * u == 1.0 && q * s == u && b * s == a;
    assert (a * p * q) * s == a * p * (q * s) == a * (p * u);
    assert (a * p * q - b) * s == 0.0;
    if b == a && a != 0.0 {
      assert a * (s - 1.0) == 0.0;
    }
  }

  /** A real pair of descriptors: 200 goes in without saturating and comes back as
      50, where one internal step and one unit are 1.25. */
  lemma FloatTransferLost()
    ensures var t := Tensor(UInt8, NCHW, 1.0, 0, -1, 0, 0, 0, -1, false);
            var d := IOBuf(Float32, NCHW, 4.0, 0, 1, 1, 1, 1, 1, 1, 0, 0, 0, 1, 4);
            && !InSame(t, d) && !OutSame(t, d) && Holds(t.elementType, 200.0)
            && InSupported(InRequant(t, d), t.elementType, d.elementType) && Common(d.elementType)
            && InRange(d.elementType, Scaled(InRequant(t, d), 200.0))
            && OutConvert(t, d)(InConvert(t, d)(200.0)) == 50.0 && UserScale(t) / d.scale + 1.0 == 1.25
  {
    var t := Tensor(UInt8, NCHW, 1.0, 0, -1, 0, 0, 0, -1, false);
    var d := IOBuf(Float32, NCHW, 4.0, 0, 1, 1, 1, 1, 1, 1, 0, 0, 0, 1, 4);
    assert InRequant(t, d) == AsIs && InConvert(t, d)(200.0) == 200.0;
    assert OutRequant(t, d) == Scale(4.0, 1.0) && Ratio(1.0, 4.0) == 0.25;
    assert 50.0.Floor == 50;
  }
}
