/** Screen capture: the size of the transmitted image, the nearest-neighbour repacking into
    it, and the frame header that announces it.  Scale factors are doubles: reals with a
    rounding error in every operation. */
module ScreenScaling {
  import opened Basics

  // ---- Output size ----

  /** One rounding of a double: a relative error of at most 2^-53. */
  const EPS: real := 1.0 / 9007199254740992.0

  ghost predicate Close(y: real, x: real) {
    x - x * EPS <= y <= x + x * EPS
  }

  /** `fl` rounds every non-negative result as IEEE double arithmetic may round it. */
  ghost predicate Rounds(fl: real -> real) {
    forall x: real | x >= 0.0 :: Close(fl(x), x)
  }

  /** Dimensions are C ints. */
  const INT_LIMIT: int := 0x8000_0000

  lemma SmallError(x: real)
    requires 0.0 <= x <= 4294967296.0
    ensures 0.0 <= x * EPS <= 1.0 / 2097152.0
  {
    assert x * EPS <= 4294967296.0 * EPS;
  }

  /** Rounding a value up to 2^32 keeps it within 2^-21, and keeps positive values positive. */
  lemma RoundedIsNear(x: real, y: real)
    requires 0.0 <= x <= 4294967296.0 && Close(y, x)
    ensures x - 1.0 / 2097152.0 <= y <= x + 1.0 / 2097152.0 && 0.0 <= y && (x > 0.0 ==> y > 0.0)
  {
    SmallError(x);
    assert x - x * EPS == x * (1.0 - EPS);
    assert x * (1.0 - EPS) >= 0.0;
    assert x > 0.0 ==> x * (1.0 - EPS) > 0.0;
  }

  lemma QuotientOfInts(max: int, src: int)
    requires 1 <= max < src < INT_LIMIT
    ensures var x := max as real / src as real; x > 0.0 && src as real * x == max as real && x * 2147483648.0 <= 2147483647.0
  {
    var x := max as real / src as real;
    assert src as real * x == max as real;
    var gap := 1.0 - x;
    assert gap * src as real == (src - max) as real;
    assert gap > 0.0;
    Scaled(gap, src as real, 2147483648.0);
  }

  /** The computed ratio of an exceeded dimension is a proper fraction, and the exact product
      with it is within 2^-22 of the maximum. */
  lemma RatioOfExceeded(max: int, src: int, scale: real)
    requires 1 <= max < src < INT_LIMIT && Close(scale, max as real / src as real)
    ensures 0.0 < scale < 1.0
    ensures max as real - 1.0 / 2097152.0 <= src as real * scale <= max as real + 1.0 / 2097152.0
  {
    var x, s := max as real / src as real, src as real;
    QuotientOfInts(max, src);
    RoundedIsNear(x, scale);
    FractionStaysFraction(x, scale);
    SmallError(max as real);
    Scaled(s, x - x * EPS, scale);
    Scaled(s, scale, x + x * EPS);
    assert s * (x * EPS) == (s * x) * EPS;
    assert s * (x - x * EPS) == s * x - s * (x * EPS) && s * (x + x * EPS) == s * x + s * (x * EPS);
  }

  lemma FractionStaysFraction(x: real, y: real)
    requires 0.0 <= x && x * 2147483648.0 <= 2147483647.0 && Close(y, x)
    ensures y < 1.0
  {
    assert x * EPS <= EPS;
  }

  lemma Scaled(s: real, a: real, b: real)
    requires s >= 0.0 && a <= b
    ensures s * a <= s * b
  {
  }

  /** The computed size of a dimension that decides the scale: the maximum or one less. */
  lemma DecidingDimension(max: int, src: int, scale: real, product: real)
    requires 1 <= max < src < INT_LIMIT && Close(scale, max as real / src as real) && Close(product, src as real * scale)
    ensures max - 1 <= product.Floor <= max
  {
    RatioOfExceeded(max, src, scale);
    RoundedIsNear(src as real * scale, product);
  }

  lemma ProductLimit(max: int, src: int, scale: real, own: real)
    requires 1 <= max && 1 <= src < INT_LIMIT && 0.0 < scale <= own <= 1.0
    requires if src > max then Close(own, max as real / src as real) else own == 1.0
    ensures 0.0 <= src as real * scale <= (if src > max then max else src) as real + 1.0 / 2097152.0
  {
    if src > max {
      RatioOfExceeded(max, src, own);
      ProductInOrder(src as real, scale, own, max as real + 1.0 / 2097152.0);
    } else {
      ProductInOrder(src as real, scale, 1.0, src as real + 1.0 / 2097152.0);
    }
  }

  lemma ProductInOrder(s: real, a: real, b: real, limit: real)
    requires s >= 0.0 && 0.0 <= a <= b && s * b <= limit
    ensures 0.0 <= s * a <= limit
  {
    Scaled(s, 0.0, a);
    Scaled(s, a, b);
  }

  /** The computed size of any dimension under a scale no larger than its own. */
  lemma AnyDimension(max: int, src: int, scale: real, product: real, own: real)
    requires 1 <= max && 1 <= src < INT_LIMIT && 0.0 < scale <= own <= 1.0 && Close(product, src as real * scale)
    requires if src > max then Close(own, max as real / src as real) else own == 1.0
    ensures 0 <= product.Floor <= src && product.Floor <= max
  {
    ProductLimit(max, src, scale, own);
    var p := src as real * scale;
    RoundedIsNear(p, product);
    FloorAtMost(product, if src > max then max else src);
  }

  lemma FloorAtMost(y: real, n: int)
    requires 0.0 <= y < (n + 1) as real
    ensures 0 <= y.Floor <= n
  {
  }

  /** Whatever the rounding of the two divisions and two products: the output lies within the
      source and within the maximum, is never empty, is the source itself when that fits, and
      otherwise comes within one pixel of one exceeded maximum; the proportions are kept up to
      rounding. */
  method ComputeOutputSize(srcW: int, srcH: int, maxW: int, maxH: int, fl: real -> real) returns (outW: int, outH: int)
    requires 1 <= srcW < INT_LIMIT && 1 <= srcH < INT_LIMIT && maxW >= 1 && maxH >= 1 && Rounds(fl)
    ensures 1 <= outW <= srcW && 1 <= outH <= srcH
    ensures outW <= maxW && outH <= maxH
    ensures srcW <= maxW && srcH <= maxH ==> outW == srcW && outH == srcH
    ensures srcW > maxW || srcH > maxH ==> (srcW > maxW && outW >= maxW - 1) || (srcH > maxH && outH >= maxH - 1)
    ensures exists scale: real :: Near(outW, srcW, scale) && Near(outH, srcH, scale)
  {
    if srcW <= maxW && srcH <= maxH {
      assert Near(srcW, srcW, 1.0) && Near(srcH, srcH, 1.0);
      return srcW, srcH;
    }
    var scale := 1.0;
    if srcW > maxW {
      QuotientOfInts(maxW, srcW);
      scale := fl(maxW as real / srcW as real);
      RatioOfExceeded(maxW, srcW, scale);
    }
    ghost var ownW := scale;
    ghost var ownH := 1.0;
    if srcH > maxH {
      QuotientOfInts(maxH, srcH);
      var scaleH := fl(maxH as real / srcH as real);
      RatioOfExceeded(maxH, srcH, scaleH);
      ownH := scaleH;
      if scaleH < scale {
        scale := scaleH;
      }
    }
    Scaled(srcW as real, 0.0, scale);
    Scaled(srcH as real, 0.0, scale);
    var w, h := fl(srcW as real * scale), fl(srcH as real * scale);
    AnyDimension(maxW, srcW, scale, w, ownW);
    AnyDimension(maxH, srcH, scale, h, ownH);
    ProductLimit(maxW, srcW, scale, ownW);
    ProductLimit(maxH, srcH, scale, ownH);
    if srcW > maxW && scale == ownW {
      DecidingDimension(maxW, srcW, scale, w);
    } else {
      DecidingDimension(maxH, srcH, scale, h);
    }
    outW := w.Floor;
    outH := h.Floor;
    if outW < 1 {
      outW := 1;
    }
    if outH < 1 {
      outH := 1;
    }
    ComputedIsNear(srcW, scale, w, outW);
    ComputedIsNear(srcH, scale, h, outH);
  }

  /** `out` is within two pixels of `scale` times `src`. */
  ghost predicate Near(out: int, src: int, scale: real) {
    -2.0 <= out as real - src as real * scale <= 2.0
  }

  /** A computed dimension is, also after the minimum of 1. */
  lemma ComputedIsNear(src: int, scale: real, y: real, out: int)
    requires 0.0 <= src as real * scale <= 4294967296.0 && Close(y, src as real * scale)
    requires out == if y.Floor < 1 then 1 else y.Floor
    ensures Near(out, src, scale)
  {
    var p := src as real * scale;
    RoundedIsNear(p, y);
    FloorIsNear(p, y, out);
  }

  lemma FloorIsNear(p: real, y: real, out: int)
    requires 0.0 <= p && p - 0.5 <= y <= p + 0.5 && out == if y.Floor < 1 then 1 else y.Floor
    ensures -2.0 <= out as real - p <= 2.0
  {
  }

  /** The proportions are kept: whatever the scale, the cross products of two dimensions that are
      near it differ by no more than rounding explains. */
  lemma AspectKept(srcW: int, srcH: int, scale: real, outW: int, outH: int)
    requires srcW >= 1 && srcH >= 1 && Near(outW, srcW, scale) && Near(outH, srcH, scale)
    ensures var cross := outW as real * srcH as real - outH as real * srcW as real;
      -2.0 * (srcW + srcH) as real <= cross <= 2.0 * (srcW + srcH) as real
  {
    CrossError(srcW as real, srcH as real, scale, outW as real, outH as real);
  }

  lemma CrossError(w: real, h: real, scale: real, x: real, y: real)
    requires w >= 0.0 && h >= 0.0 && -2.0 <= x - w * scale <= 2.0 && -2.0 <= y - h * scale <= 2.0
    ensures -2.0 * (w + h) <= x * h - y * w <= 2.0 * (w + h)
  {
    var a, b := x - w * scale, y - h * scale;
    ErrorTimes(a, h);
    ErrorTimes(b, w);
    assert x * h - y * w == a * h - b * w by {
      assert a * h == x * h - (w * scale) * h;
      assert b * w == y * w - (h * scale) * w;
      assert (w * scale) * h == (h * scale) * w;
    }
    Combine(x * h - y * w, a * h, b * w, w, h);
  }

  lemma Combine(cross: real, e: real, f: real, w: real, h: real)
    requires cross == e - f && -2.0 * h <= e <= 2.0 * h && -2.0 * w <= f <= 2.0 * w
    ensures -2.0 * (w + h) <= cross <= 2.0 * (w + h)
  {
  }

  lemma ErrorTimes(a: real, s: real)
    requires -2.0 <= a <= 2.0 && s >= 0.0
    ensures -2.0 * s <= a * s <= 2.0 * s
  {
  }

  // ---- Repacking ----

  /** The source row or column that feeds row or column `i` of `n`. */
  function Nearest(i: nat, src: nat, n: nat): nat
    requires n >= 1
  {
    i * src / n
  }

  lemma NearestInside(i: nat, src: nat, n: nat)
    requires i < n && src >= 1
    ensures Nearest(i, src, n) < src
  {
    var q := Nearest(i, src, n);
    DivBounds(i * src, n);
    MulMonotone(i + 1, n, src);
    MulMonotone(src, q, n);
    assert i * src < n * src;
  }

  lemma NearestOfSame(i: nat, n: nat)
    requires n >= 1
    ensures Nearest(i, n, n) == i
  {
    var q := Nearest(i, n, n);
    DivBounds(i * n, n);
    MulMonotone(q + 1, i, n);
    MulMonotone(i + 1, q, n);
  }

  /** Index `s` of `src` rows or columns is the one that index `i` of `n` falls on. */
  predicate Samples(i: nat, s: nat, src: nat, n: nat) {
    s * n <= i * src < (s + 1) * n
  }

  /** Nearest computes that index, and no other satisfies this. */
  lemma NearestSamples(i: nat, src: nat, n: nat, s: nat)
    requires n >= 1
    ensures Samples(i, s, src, n) <==> s == Nearest(i, src, n)
  {
    var q := Nearest(i, src, n);
    DivBounds(i * src, n);
    assert (q + 1) * n == q * n + n;
    MulMonotone(s + 1, q, n);
    MulMonotone(q + 1, s, n);
  }

  /** Index of byte `b` of pixel (x, y) in an image with rows of `stride` bytes. */
  function Offset(x: nat, y: nat, b: nat, stride: nat): nat {
    y * stride + x * 4 + b
  }

  lemma RowsApart(y: nat, y': nat, stride: nat)
    ensures y < y' ==> y * stride + stride <= y' * stride
  {
    MulMonotone(y + 1, y', stride);
    assert (y + 1) * stride == y * stride + stride;
  }

  lemma AreaInBytes(w: nat, h: nat)
    ensures h * (w * 4) == w * h * 4
  {
    assert h * (w * 4) == (h * w) * 4;
    assert h * w == w * h;
  }

  /** Every pixel has its own four bytes of the packed image, inside it. */
  lemma OffsetInside(x: nat, y: nat, b: nat, w: nat, h: nat)
    requires x < w && y < h && b < 4
    ensures Offset(x, y, b, w * 4) < w * h * 4
  {
    RowsApart(y, h, w * 4);
    AreaInBytes(w, h);
  }

  lemma OffsetInjective(x: nat, y: nat, b: nat, x': nat, y': nat, b': nat, w: nat)
    requires x < w && x' < w && b < 4 && b' < 4
    requires Offset(x, y, b, w * 4) == Offset(x', y', b', w * 4)
    ensures x == x' && y == y' && b == b'
  {
    RowsApart(y, y', w * 4);
    RowsApart(y', y, w * 4);
  }

  lemma SourceInside(x: nat, y: nat, b: nat, w: nat, h: nat, stride: nat)
    requires x < w && y < h && b < 4 && stride >= 4 * w
    ensures Offset(x, y, b, stride) < (h - 1) * stride + 4 * w
  {
    MulMonotone(y, h - 1, stride);
  }

  /** The buffers that a repacking of these dimensions needs. */
  ghost predicate Fits(dstLen: nat, outW: nat, outH: nat, srcLen: nat, srcW: nat, srcH: nat, stride: nat) {
    && outW >= 1 && outH >= 1 && srcW >= 1 && srcH >= 1
    && stride >= 4 * srcW
    && dstLen >= outW * outH * 4
    && srcLen >= (srcH - 1) * stride + 4 * srcW
  }

  /** The byte that belongs at (x, y, b): that of the nearest source pixel. */
  function Wanted(src: seq<byte>, x: nat, y: nat, b: nat, outW: nat, outH: nat, srcW: nat, srcH: nat, stride: nat): byte
    requires outW >= 1 && outH >= 1 && srcW >= 1 && srcH >= 1 && x < outW && y < outH && b < 4
    requires stride >= 4 * srcW && |src| >= (srcH - 1) * stride + 4 * srcW
  {
    NearestInside(x, srcW, outW);
    NearestInside(y, srcH, outH);
    SourceInside(Nearest(x, srcW, outW), Nearest(y, srcH, outH), b, srcW, srcH, stride);
    src[Offset(Nearest(x, srcW, outW), Nearest(y, srcH, outH), b, stride)]
  }

  /** The first `cols` pixels of row `y` of the packed image `d` are the wanted ones. */
  ghost predicate RowDone(d: seq<byte>, src: seq<byte>, y: nat, cols: nat, outW: nat, outH: nat, srcW: nat, srcH: nat, stride: nat)
    requires Fits(|d|, outW, outH, |src|, srcW, srcH, stride) && y < outH && cols <= outW
  {
    forall x: nat, b: nat {:trigger Offset(x, y, b, outW * 4)} | x < cols && b < 4 ::
      Offset(x, y, b, outW * 4) < |d| &&
      d[Offset(x, y, b, outW * 4)] == Wanted(src, x, y, b, outW, outH, srcW, srcH, stride)
  }

  ghost predicate SameOutside(d: seq<byte>, d': seq<byte>, lo: nat, hi: nat) {
    |d| == |d'| && forall i | 0 <= i < |d| && !(lo <= i < hi) :: d'[i] == d[i]
  }

  lemma RowKept(d: seq<byte>, d': seq<byte>, lo: nat, hi: nat, src: seq<byte>, y: nat, cols: nat,
                outW: nat, outH: nat, srcW: nat, srcH: nat, stride: nat)
    requires Fits(|d|, outW, outH, |src|, srcW, srcH, stride) && y < outH && cols <= outW
    requires RowDone(d, src, y, cols, outW, outH, srcW, srcH, stride) && SameOutside(d, d', lo, hi)
    requires y * (outW * 4) + cols * 4 <= lo || hi <= y * (outW * 4)
    ensures RowDone(d', src, y, cols, outW, outH, srcW, srcH, stride)
  {
  }

  /** memcpy. */
  method CopyBytes(dst: array<byte>, at: nat, src: seq<byte>, from: nat, n: nat)
    requires at + n <= dst.Length && from + n <= |src|
    modifies dst
    ensures dst[at..at + n] == src[from..from + n]
    ensures SameOutside(old(dst[..]), dst[..], at, at + n)
  {
    forall i | 0 <= i < n {
      dst[at + i] := src[from + i];
    }
  }

  lemma PixelDone(d: seq<byte>, src: seq<byte>, x: nat, y: nat, outW: nat, outH: nat, srcW: nat, srcH: nat, stride: nat)
    requires Fits(|d|, outW, outH, |src|, srcW, srcH, stride) && y < outH && x < outW
    requires RowDone(d, src, y, x, outW, outH, srcW, srcH, stride)
    requires var at, from := Offset(x, y, 0, outW * 4), Offset(Nearest(x, srcW, outW), Nearest(y, srcH, outH), 0, stride);
      at + 4 <= |d| && from + 4 <= |src| && d[at..at + 4] == src[from..from + 4]
    ensures RowDone(d, src, y, x + 1, outW, outH, srcW, srcH, stride)
  {
    var sx, sy := Nearest(x, srcW, outW), Nearest(y, srcH, outH);
    var at, from := Offset(x, y, 0, outW * 4), Offset(sx, sy, 0, stride);
    forall b: nat | b < 4 ensures d[Offset(x, y, b, outW * 4)] == src[Offset(sx, sy, b, stride)] {
      assert d[at + b] == d[at..at + 4][b] == src[from..from + 4][b];
    }
  }

  /** One row of the general loop. */
  method RepackRow(dst: array<byte>, y: nat, outW: nat, outH: nat, src: seq<byte>, srcW: nat, srcH: nat, stride: nat)
    requires Fits(dst.Length, outW, outH, |src|, srcW, srcH, stride) && y < outH
    modifies dst
    ensures RowDone(dst[..], src, y, outW, outW, outH, srcW, srcH, stride)
    ensures SameOutside(old(dst[..]), dst[..], y * (outW * 4), y * (outW * 4) + outW * 4)
  {
    var sy := y * srcH / outH;
    NearestInside(y, srcH, outH);
    var x := 0;
    while x < outW
      invariant x <= outW
      invariant RowDone(dst[..], src, y, x, outW, outH, srcW, srcH, stride)
      invariant SameOutside(old(dst[..]), dst[..], y * (outW * 4), y * (outW * 4) + outW * 4)
    {
      var sx := x * srcW / outW;
      NearestInside(x, srcW, outW);
      OffsetInside(x, y, 3, outW, outH);
      SourceInside(sx, sy, 3, srcW, srcH, stride);
      ghost var before := dst[..];
      var at := Offset(x, y, 0, outW * 4);
      CopyBytes(dst, at, src, Offset(sx, sy, 0, stride), 4);
      RowKept(before, dst[..], at, at + 4, src, y, x, outW, outH, srcW, srcH, stride);
      PixelDone(dst[..], src, x, y, outW, outH, srcW, srcH, stride);
      x := x + 1;
    }
  }

  /** One row of the fast path: a plain copy, which is what the general formula gives when
      the sizes agree. */
  method CopyRow(dst: array<byte>, y: nat, w: nat, h: nat, src: seq<byte>, stride: nat)
    requires Fits(dst.Length, w, h, |src|, w, h, stride) && y < h
    modifies dst
    ensures RowDone(dst[..], src, y, w, w, h, w, h, stride)
    ensures SameOutside(old(dst[..]), dst[..], y * (w * 4), y * (w * 4) + w * 4)
  {
    OffsetInside(w - 1, y, 3, w, h);
    SourceInside(w - 1, y, 3, w, h, stride);
    CopyBytes(dst, y * (w * 4), src, y * stride, w * 4);
    CopiedRowIsNearest(dst[..], y, w, h, src, stride);
  }

  lemma WantedOfSame(src: seq<byte>, x: nat, y: nat, b: nat, w: nat, h: nat, stride: nat)
    requires x < w && y < h && b < 4 && stride >= 4 * w && |src| >= (h - 1) * stride + 4 * w
    ensures Offset(x, y, b, stride) < |src|
    ensures Wanted(src, x, y, b, w, h, w, h, stride) == src[Offset(x, y, b, stride)]
  {
    SourceInside(x, y, b, w, h, stride);
    NearestOfSame(x, w);
    NearestOfSame(y, h);
  }

  lemma SliceAt(d: seq<byte>, at: nat, src: seq<byte>, from: nat, n: nat, i: nat)
    requires at + n <= |d| && from + n <= |src| && d[at..at + n] == src[from..from + n] && i < n
    ensures d[at + i] == src[from + i]
  {
    assert d[at + i] == d[at..at + n][i] == src[from..from + n][i];
  }

  lemma CopiedRowIsNearest(d: seq<byte>, y: nat, w: nat, h: nat, src: seq<byte>, stride: nat)
    requires Fits(|d|, w, h, |src|, w, h, stride) && y < h
    requires y * (w * 4) + w * 4 <= |d| && y * stride + w * 4 <= |src|
    requires d[y * (w * 4)..y * (w * 4) + w * 4] == src[y * stride..y * stride + w * 4]
    ensures RowDone(d, src, y, w, w, h, w, h, stride)
  {
    forall x: nat, b: nat | x < w && b < 4
      ensures Offset(x, y, b, w * 4) < |d| && d[Offset(x, y, b, w * 4)] == Wanted(src, x, y, b, w, h, w, h, stride)
    {
      WantedOfSame(src, x, y, b, w, h, stride);
      SliceAt(d, y * (w * 4), src, y * stride, w * 4, x * 4 + b);
    }
  }

  /** After the repacking every pixel of the output is the nearest source pixel, by the fast
      path as by the general one, and nothing beyond the image is written. */
  method RepackScale(dst: array<byte>, outW: nat, outH: nat, src: seq<byte>, srcW: nat, srcH: nat, stride: nat)
    requires Fits(dst.Length, outW, outH, |src|, srcW, srcH, stride)
    modifies dst
    ensures forall y | 0 <= y < outH :: RowDone(dst[..], src, y, outW, outW, outH, srcW, srcH, stride)
    ensures Repacked(dst[..], outW, outH, src, srcW, srcH, stride)
    ensures SameOutside(old(dst[..]), dst[..], 0, outW * outH * 4)
  {
    var same := outW == srcW && outH == srcH;
    var y := 0;
    while y < outH
      invariant y <= outH
      invariant forall r | 0 <= r < y :: RowDone(dst[..], src, r, outW, outW, outH, srcW, srcH, stride)
      invariant SameOutside(old(dst[..]), dst[..], 0, outW * outH * 4)
    {
      ghost var before := dst[..];
      if same {
        CopyRow(dst, y, outW, outH, src, stride);
      } else {
        RepackRow(dst, y, outW, outH, src, srcW, srcH, stride);
      }
      OffsetInside(outW - 1, y, 3, outW, outH);
      forall r | 0 <= r < y ensures RowDone(dst[..], src, r, outW, outW, outH, srcW, srcH, stride) {
        RowsApart(r, y, outW * 4);
        RowKept(before, dst[..], y * (outW * 4), y * (outW * 4) + outW * 4, src, r, outW, outW, outH, srcW, srcH, stride);
      }
      y := y + 1;
    }
    RowsAreRepacked(dst[..], outW, outH, src, srcW, srcH, stride);
  }

  /** Every byte of every output pixel (x, y) is that of the source pixel (sx, sy) with
      sx * outW <= x * srcW < (sx + 1) * outW, and likewise for the rows. */
  ghost predicate Repacked(d: seq<byte>, outW: nat, outH: nat, src: seq<byte>, srcW: nat, srcH: nat, stride: nat) {
    forall x: nat, y: nat, b: nat, sx: nat, sy: nat
      | x < outW && y < outH && b < 4 && Samples(x, sx, srcW, outW) && Samples(y, sy, srcH, outH)
      :: Offset(x, y, b, outW * 4) < |d| && Offset(sx, sy, b, stride) < |src|
         && d[Offset(x, y, b, outW * 4)] == src[Offset(sx, sy, b, stride)]
  }

  lemma RowsAreRepacked(d: seq<byte>, outW: nat, outH: nat, src: seq<byte>, srcW: nat, srcH: nat, stride: nat)
    requires Fits(|d|, outW, outH, |src|, srcW, srcH, stride)
    requires forall y | 0 <= y < outH :: RowDone(d, src, y, outW, outW, outH, srcW, srcH, stride)
    ensures Repacked(d, outW, outH, src, srcW, srcH, stride)
  {
    forall x: nat, y: nat, b: nat, sx: nat, sy: nat
      | x < outW && y < outH && b < 4 && Samples(x, sx, srcW, outW) && Samples(y, sy, srcH, outH)
      ensures Offset(x, y, b, outW * 4) < |d| && Offset(sx, sy, b, stride) < |src|
      ensures d[Offset(x, y, b, outW * 4)] == src[Offset(sx, sy, b, stride)]
    {
      NearestSamples(x, srcW, outW, sx);
      NearestSamples(y, srcH, outH, sy);
      NearestInside(x, srcW, outW);
      NearestInside(y, srcH, outH);
      SourceInside(sx, sy, b, srcW, srcH, stride);
      assert RowDone(d, src, y, outW, outW, outH, srcW, srcH, stride);
    }
  }

  // ---- Frame header ----

  /** Big-endian encodings as the agent writes them and the viewer's DataView reads them. */
  function Hi(n: int): byte {
    n / 256 % 256
  }

  function Lo(n: int): byte {
    n % 256
  }

  function U16(hi: byte, lo: byte): nat {
    hi * 256 + lo
  }

  function FrameHeader(width: nat, height: nat, frameSeq: nat): seq<byte> {
    [0x01, Hi(width), Lo(width), Hi(height), Lo(height),
     Hi(frameSeq / 65536), Lo(frameSeq / 65536), Hi(frameSeq), Lo(frameSeq)]
  }

  function ReadHeader(h: seq<byte>): (nat, nat, nat)
    requires |h| >= 9
  {
    (U16(h[1], h[2]), U16(h[3], h[4]), U16(h[5], h[6]) * 65536 + U16(h[7], h[8]))
  }

  lemma U16RoundTrip(n: nat)
    ensures U16(Hi(n), Lo(n)) == n % 65536
  {
    assert n / 256 % 256 * 256 + n % 256 == n % 65536;
  }

  lemma U16Exact(n: nat)
    requires n < 65536
    ensures U16(Hi(n), Lo(n)) == n
  {
    U16RoundTrip(n);
  }

  lemma Remainder32(n: nat, q: nat, r: nat)
    requires n == q * 0x1_0000_0000 + r && r < 0x1_0000_0000
    ensures n % 0x1_0000_0000 == r
  {
  }

  lemma U32RoundTrip(n: nat)
    ensures n / 65536 % 65536 * 65536 + n % 65536 == n % 0x1_0000_0000
  {
    var hi := n / 65536;
    Remainder32(n, hi / 65536, hi % 65536 * 65536 + n % 65536);
  }

  lemma HeaderMeaning(width: nat, height: nat, frameSeq: nat)
    ensures ReadHeader(FrameHeader(width, height, frameSeq)) == (width % 65536, height % 65536, frameSeq % 0x1_0000_0000)
  {
    U16RoundTrip(width);
    U16RoundTrip(height);
    U16RoundTrip(frameSeq / 65536);
    U16RoundTrip(frameSeq);
    U32RoundTrip(frameSeq);
  }

  lemma Remainders(width: nat, height: nat, frameSeq: nat)
    ensures (width % 65536, height % 65536, frameSeq % 0x1_0000_0000) == (width, height, frameSeq)
       <==> width < 65536 && height < 65536 && frameSeq < 0x1_0000_0000
  {
  }

  /** The header is read back exactly if and only if the dimensions fit 16 bits and the frame
      number 32 bits; with the agent's clamp of the maxima to 1..7680 the dimensions always do. */
  lemma HeaderRoundTrip(width: nat, height: nat, frameSeq: nat)
    ensures ReadHeader(FrameHeader(width, height, frameSeq)) == (width, height, frameSeq)
       <==> width < 65536 && height < 65536 && frameSeq < 0x1_0000_0000
  {
    HeaderMeaning(width, height, frameSeq);
    Remainders(width, height, frameSeq);
  }

  /** From any screen, within any clamped maximum, the transmitted size survives the header. */
  method AnnouncedSize(srcW: int, srcH: int, maxW: int, maxH: int, fl: real -> real, frameSeq: nat)
    returns (outW: int, outH: int, header: seq<byte>)
    requires 1 <= srcW < INT_LIMIT && 1 <= srcH < INT_LIMIT && Rounds(fl)
    requires 1 <= maxW <= 7680 && 1 <= maxH <= 7680 && frameSeq < 0x1_0000_0000
    ensures 1 <= outW <= srcW && 1 <= outH <= srcH && outW <= maxW && outH <= maxH
    ensures |header| == 9 && header[0] == 0x01 && ReadHeader(header) == (outW, outH, frameSeq)
  {
    outW, outH := ComputeOutputSize(srcW, srcH, maxW, maxH, fl);
    header := FrameHeader(outW, outH, frameSeq);
    HeaderRoundTrip(outW, outH, frameSeq);
  }
}
