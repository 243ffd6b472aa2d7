/** The element types and the arithmetic of the copy kernels of
    tidl_rt_ovx_datamove.cpp, over the reals. */
module Requantisation {

  datatype ElementType = UInt8 | Int8 | UInt16 | Int16 | UInt32 | Int32 | Float32 | UInt64 | Int64

  function Lowest(t: ElementType): real {
    match t
    case UInt8 | UInt16 | UInt32 | UInt64 => 0.0
    case Int8 => -128.0
    case Int16 => -32768.0
    case Int32 => -2147483648.0
    case Int64 => -9223372036854775808.0
    case Float32 => -340282346638528859811704183484516925440.0
  }

  function Highest(t: ElementType): real {
    match t
    case UInt8 => 255.0
    case Int8 => 127.0
    case UInt16 => 65535.0
    case Int16 => 32767.0
    case UInt32 => 4294967295.0
    case Int32 => 2147483647.0
    case UInt64 => 18446744073709551615.0
    case Int64 => 9223372036854775807.0
    case Float32 => 340282346638528859811704183484516925440.0
  }

  predicate InRange(t: ElementType, v: real) {
    Lowest(t) <= v <= Highest(t)
  }

  /** A value that a buffer of type `t` can hold. */
  predicate Holds(t: ElementType, v: real) {
    InRange(t, v) && (!t.Float32? ==> v == v.Floor as real)
  }

  /** Conversion to an integer type drops the fraction, toward zero. */
  function Trunc(v: real): int {
    if v >= 0.0 then v.Floor else -((-v).Floor)
  }

  function Cast(t: ElementType, v: real): real {
    if t.Float32? then v else Trunc(v) as real
  }

  /** `tidl_rt_sat` */
  function Sat(t: ElementType, v: real): real {
    var out := if v < Lowest(t) then Lowest(t) else v;
    Cast(t, if out > Highest(t) then Highest(t) else out)
  }

  /** The arithmetic of the four kernel families; scales are positive. */
  datatype Requant = AsIs | Zf(zf: real) | Scale(inScale: real, outScale: real)
                   | ZfScale(zf: real, inScale: real, outScale: real)

  function Ratio(outScale: real, inScale: real): real {
    if inScale == 0.0 then 0.0 else outScale / inScale
  }

  /** The value the kernel hands to the conversion. */
  function Scaled(q: Requant, v: real): real {
    match q
    case AsIs => v
    case Zf(zf) => v - zf
    case Scale(i, o) => v * Ratio(o, i)
    case ZfScale(zf, i, o) => (v - zf) * Ratio(o, i)
  }

  function Requantise(q: Requant, t: ElementType, v: real): real {
    if q.AsIs? then Cast(t, v) else Sat(t, Scaled(q, v))
  }

  /** The branch taken on the way in. */
  function SelectIn(zp: int, zpIo: int, inScale: real, scale: real): Requant {
    if zp == zpIo && inScale == scale then AsIs
    else if zp == zpIo then Scale(inScale, scale)
    else if inScale == scale then Zf(zp as real)
    else ZfScale(zp as real, inScale, scale)
  }

  /** The branch taken on the way out. */
  function SelectOut(zp: int, zpIo: int, outScale: real, scale: real): Requant {
    if zp == zpIo && outScale == scale then AsIs
    else if zp == zpIo then Scale(scale, outScale)
    else if outScale == scale then Zf(-(zp as real))
    else ZfScale(if outScale == 0.0 then 0.0 else -(zp as real) * scale / outScale, scale, outScale)
  }

  // ----- What a conversion returns -----

  /** `r` is `v` without its fraction: the integer next to it toward zero. */
  predicate WithoutFraction(r: real, v: real) {
    && r == r.Floor as real
    && (v >= 0.0 ==> 0.0 <= r <= v < r + 1.0) && (v <= 0.0 ==> r - 1.0 < v <= r <= 0.0)
  }

  /** The bounds of the integer types. */
  predicate Bounds(t: ElementType, lo: int, hi: int) {
    match t
    case UInt8 => lo == 0 && hi == 255
    case Int8 => lo == -128 && hi == 127
    case UInt16 => lo == 0 && hi == 65535
    case Int16 => lo == -32768 && hi == 32767
    case UInt32 => lo == 0 && hi == 4294967295
    case Int32 => lo == -2147483648 && hi == 2147483647
    case UInt64 => lo == 0 && hi == 18446744073709551615
    case Int64 => lo == -9223372036854775808 && hi == 9223372036854775807
    case Float32 => false
  }

  /** An integer type takes the bound that a value passes, and any other value
      without its fraction; the conversion alone takes every value so. */
  lemma IntegerConversions(t: ElementType, lo: int, hi: int, v: real)
    requires Bounds(t, lo, hi)
    ensures v < lo as real ==> Sat(t, v) == lo as real
    ensures v > hi as real ==> Sat(t, v) == hi as real
    ensures lo as real <= v <= hi as real ==> WithoutFraction(Sat(t, v), v)
    ensures WithoutFraction(Cast(t, v), v)
  {
    TruncIs(v);
    TruncIs(lo as real);
    TruncIs(hi as real);
    assert Lowest(t) == lo as real && Highest(t) == hi as real;
  }

  /** What a buffer of the type can hold. */
  lemma HoldsIs(t: ElementType, lo: int, hi: int, v: real)
    requires Bounds(t, lo, hi)
    ensures Holds(t, v) <==> lo as real <= v <= hi as real && v == v.Floor as real
  {
    assert Lowest(t) == lo as real && Highest(t) == hi as real;
  }

  lemma TruncIs(v: real)
    ensures WithoutFraction(Trunc(v) as real, v)
    ensures v == v.Floor as real ==> Trunc(v) as real == v
  {
  }

  /** A float keeps every value within (2 - 2^-23) * 2^127 of zero. */
  lemma FloatConversions(v: real)
    ensures var max := (0x100_0000 - 1) as real * 0x1_0000_0000_0000_0000_0000_0000_00 as real;
            && Cast(Float32, v) == v
            && Sat(Float32, v) == if v < -max then -max else if v > max then max else v
  {
  }

  // ----- The error of going in and out -----

  lemma TruncError(v: real)
    ensures -1.0 < Trunc(v) as real - v < 1.0
    ensures v == v.Floor as real ==> Trunc(v) as real == v
  {
  }

  /** Saturating toward a range moves no value away from one inside it, and
      the cast drops less than one. */
  lemma SatError(t: ElementType, v: real, x: real, e: real)
    requires Holds(t, x) && -e < v - x < e && e > 0.0
    ensures -(e + 1.0) < Sat(t, v) - x < e + 1.0
  {
    var w := if v < Lowest(t) then Lowest(t) else if v > Highest(t) then Highest(t) else v;
    assert -e < w - x < e;
    TruncError(w);
  }

  lemma Rescale(a: real, r: real, k: real, y: real)
    requires k > 0.0 && r * k == 1.0 && -1.0 < y - a * r < 1.0
    ensures -k < y * k - a < k
  {
    var e := y - a * r;
    assert y * k == a * (r * k) + e * k;
    assert -k < e * k < k;
  }

  lemma RatioInverse(u: real, s: real)
    requires u > 0.0 && s > 0.0
    ensures Ratio(s, u) > 0.0 && Ratio(u, s) > 0.0 && Ratio(s, u) * Ratio(u, s) == 1.0
  {
    var a, b := s / u, u / s;
    assert a * u == s && b * s == u;
    assert a * b * s == a * (b * s);
    if a * b != 1.0 {
      assert (a * b - 1.0) * s != 0.0;
    }
  }

  lemma RatioOne(u: real)
    requires u > 0.0
    ensures Ratio(u, u) == 1.0
  {
    var r := u / u;
    assert r * u == u && (r - 1.0) * u == 0.0;
  }

  lemma RatioIs(u: real, s: real)
    requires s > 0.0
    ensures Ratio(u, s) == u / s
  {
  }

  lemma MulCancel(v: real, a: real, b: real)
    requires a * b == 1.0
    ensures v * a * b == v
  {
    assert v * a * b == v * (a * b);
  }

  /** What a copy takes off a value on the way in and adds on the way out: nothing
      when the zero points agree, the user's own otherwise. */
  function Shift(zp: int, zpIo: int): real {
    if zp == zpIo then 0.0 else zp as real
  }

  /** Whatever branch is taken, going in scales the distance from the shift ... */
  lemma ScaledIn(zp: int, zpIo: int, u: real, s: real, x: real)
    requires u > 0.0 && s > 0.0
    ensures Scaled(SelectIn(zp, zpIo, u, s), x) == (x - Shift(zp, zpIo)) * Ratio(s, u)
  {
    if u == s {
      RatioOne(u);
    }
  }

  /** ... and going out scales it back. */
  lemma ScaledOut(zp: int, zpIo: int, u: real, s: real, y: real)
    requires u > 0.0 && s > 0.0
    ensures Scaled(SelectOut(zp, zpIo, u, s), y) == y * Ratio(u, s) + Shift(zp, zpIo)
  {
    if u == s {
      RatioOne(u);
    } else if zp != zpIo {
      RatioInverse(u, s);
      var z := -(zp as real) * s / u;
      assert z == -(zp as real) * Ratio(s, u);
      MulCancel(-(zp as real), Ratio(s, u), Ratio(u, s));
      assert (y - z) * Ratio(u, s) == y * Ratio(u, s) - z * Ratio(u, s);
    }
  }

  /** The error of the two rounding steps together. */
  lemma BackError(q: Requant, t: ElementType, a: real, r: real, k: real, y: real, x: real, zp: real)
    requires k > 0.0 && r * k == 1.0 && -1.0 < y - a * r < 1.0
    requires Holds(t, x) && a == x - zp && Scaled(q, y) == y * k + zp
    ensures -(k + 1.0) < Requantise(q, t, y) - x < k + 1.0
  {
    hide Requantise, Scaled, Holds;
    Rescale(a, r, k, y);
    OutError(q, t, y, x, k);
  }

  /** A value taken in without saturating and out again with the same scales and
      zero points moves by less than one step of the coarser scale and one unit,
      in every branch, for all zero points and all pairs of types. */
  lemma RequantError(zp: int, zpIo: int, u: real, s: real, user: ElementType, internal: ElementType, x: real)
    requires u > 0.0 && s > 0.0 && Holds(user, x)
    requires InRange(internal, Scaled(SelectIn(zp, zpIo, u, s), x))
    ensures var y := Requantise(SelectIn(zp, zpIo, u, s), internal, x);
            var x' := Requantise(SelectOut(zp, zpIo, u, s), user, y);
            -(u / s + 1.0) < x' - x < u / s + 1.0
  {
    hide Requantise, SelectIn, SelectOut, Scaled, Holds, InRange, Ratio, Shift;
    var z := Shift(zp, zpIo);
    ScaledIn(zp, zpIo, u, s, x);
    InError(SelectIn(zp, zpIo, u, s), internal, x);
    var y := Requantise(SelectIn(zp, zpIo, u, s), internal, x);
    ScaledOut(zp, zpIo, u, s, y);
    RatioInverse(u, s);
    BackError(SelectOut(zp, zpIo, u, s), user, x - z, Ratio(s, u), Ratio(u, s), y, x, z);
    RatioIs(u, s);
  }

  lemma InError(q: Requant, t: ElementType, v: real)
    requires InRange(t, Scaled(q, v))
    ensures t.Float32? ==> Requantise(q, t, v) == Scaled(q, v)
    ensures -1.0 < Requantise(q, t, v) - Scaled(q, v) < 1.0
  {
    TruncError(Scaled(q, v));
  }

  lemma OutError(q: Requant, t: ElementType, y: real, x: real, k: real)
    requires Holds(t, x) && k > 0.0 && -k < Scaled(q, y) - x < k
    ensures -(k + 1.0) < Requantise(q, t, y) - x < k + 1.0
  {
    if q.AsIs? {
      TruncError(y);
    } else {
      SatError(t, Scaled(q, y), x, k);
    }
  }

  /** Saturating never takes the result further from a value the type holds: it
      lies between that and the result without saturating. */
  lemma SaturationHarmless(t: ElementType, v: real, x: real)
    requires Holds(t, x)
    ensures x <= Cast(t, v) ==> x <= Sat(t, v) <= Cast(t, v)
    ensures Cast(t, v) <= x ==> Cast(t, v) <= Sat(t, v) <= x
  {
    if !t.Float32? {
      var lo, hi := BoundsOf(t);
      assert lo as real <= x <= hi as real;
      hide Trunc, Holds, InRange, Lowest, Highest;
      TruncInt(lo);
      TruncInt(hi);
      TruncMono(v, lo as real);
      TruncMono(hi as real, v);
    }
  }

  lemma BoundsOf(t: ElementType) returns (lo: int, hi: int)
    requires !t.Float32?
    ensures lo as real == Lowest(t) && hi as real == Highest(t) && lo <= hi
  {
    lo, hi := Lowest(t).Floor, Highest(t).Floor;
  }

  lemma TruncInt(n: int)
    ensures Trunc(n as real) == n
  {
  }

  lemma TruncMono(a: real, b: real)
    ensures a <= b ==> Trunc(a) <= Trunc(b)
  {
  }
}
