/** scale_rgb24 of jpeg_util.c: nearest-neighbour scaling of an RGB24 image. */
module Scale {

  import opened Bytes

  const U32: nat := 0x1_0000_0000

  // ------------------------------------------------------------ arithmetic

  // The source coordinate of destination coordinate i, as a quotient ...
  function Coord(i: nat, src: nat, dst: nat): nat
    requires 0 < dst
  {
    i * src / dst
  }

  // ... and as the code computes it, with a 32-bit product.
  function Coord32(i: nat, src: nat, dst: nat): nat
    requires 0 < dst
  {
    i * src % U32 / dst
  }

  lemma DivBounds(x: nat, d: nat)
    requires 0 < d
    ensures x / d * d <= x < x / d * d + d
  {
  }

  // q is the quotient once it brackets x.
  lemma DivIs(x: nat, d: nat, q: nat)
    requires 0 < d && q * d <= x < q * d + d
    ensures x / d == q
  {
    DivBounds(x, d);
    MulLe(x / d + 1, q, d);
    MulLe(q + 1, x / d, d);
  }

  lemma MulLe(a: nat, b: nat, c: nat)
    ensures a <= b ==> a * c <= b * c
  {
  }

  lemma QuotientBelow(x: nat, d: nat, q: nat)
    requires 0 < d && x < q * d
    ensures x / d < q
  {
    DivBounds(x, d);
    MulLe(q, x / d, d);
  }

  lemma CoordInRange(i: nat, src: nat, dst: nat)
    requires i < dst && 0 < src
    ensures Coord(i, src, dst) < src && Coord32(i, src, dst) < src
    ensures i * src < U32 ==> Coord32(i, src, dst) == Coord(i, src, dst)
  {
    MulLe(i + 1, dst, src);
    assert (i + 1) * src == i * src + src;
    QuotientBelow(i * src, dst, src);
    WrapLoses(i * src);
    QuotientBelow(i * src % U32, dst, src);
  }

  // The intended coordinate is the quotient rounded down.
  lemma CoordIsFloor(i: nat, src: nat, dst: nat)
    requires 0 < dst
    ensures Coord(i, src, dst) * dst <= i * src < (Coord(i, src, dst) + 1) * dst
  {
    DivBounds(i * src, dst);
  }

  // The 32-bit coordinate is the intended one exactly while the product fits.
  lemma CoordExactIff(i: nat, src: nat, dst: nat)
    requires 0 < dst < U32
    ensures Coord32(i, src, dst) == Coord(i, src, dst) <==> i * src < U32
  {
    if i * src >= U32 { WrappedQuotient(i * src, dst); }
  }

  // Scaling a width of 65536 to 65537: the last column is read from column 0.
  lemma CoordWraps()
    ensures Coord32(65536, 65536, 65537) == 0 && Coord(65536, 65536, 65537) == 65535
  {
  }

  lemma WrapLoses(x: nat)
    ensures x % U32 <= x && (x < U32 ==> x % U32 == x) && (x >= U32 ==> x % U32 + U32 <= x)
  {
  }

  lemma QuotientGrows(r: nat, x: nat, d: nat)
    requires 0 < d && r + d <= x
    ensures r / d < x / d
  {
    DivBounds(x, d);
    DivBounds(r, d);
    MulLe(x / d, r / d, d);
  }

  lemma WrappedQuotient(x: nat, d: nat)
    requires 0 < d < U32 <= x
    ensures x % U32 / d < x / d
  {
    WrapLoses(x);
    QuotientGrows(x % U32, x, d);
  }

  // The first destination coordinate that maps to c.
  lemma FirstUse(c: nat, src: nat, dst: nat)
    requires c < src <= dst
    ensures var i := (c * dst + src - 1) / src; i < dst && Coord(i, src, dst) == c
  {
    var y := c * dst + src - 1;
    var i := y / src;
    DivBounds(y, src);
    DivIs(i * src, dst, c);
    MulLe(c + 1, src, dst);
    MulLe(dst, i, src);
    assert i < dst by { assert (c + 1) * dst == c * dst + dst; }
  }

  lemma UsedWhenNotShrunk(c: nat, src: nat, dst: nat)
    requires c < src <= dst
    ensures Used(c, src, dst)
  {
    FirstUse(c, src, dst);
    assert Coord((c * dst + src - 1) / src, src, dst) == c;
  }

  lemma LastUnusedWhenShrunk(i: nat, src: nat, dst: nat)
    requires i < dst < src
    ensures Coord(i, src, dst) < src - 1
  {
    DivBounds(i * src, dst);
    MulLe(i + 1, dst, src);
    MulLe(src - 1, Coord(i, src, dst), dst);
    assert (src - 1) * dst == src * dst - dst;
    assert (i + 1) * src == i * src + src;
    assert i * src < (src - 1) * dst;
  }

  // Every source coordinate is used exactly when the image is not shrunk.
  lemma AllUsedIff(src: nat, dst: nat)
    requires 0 < src && 0 < dst
    ensures (forall c :: 0 <= c < src ==> Used(c, src, dst)) <==> src <= dst
  {
    if src <= dst {
      forall c | 0 <= c < src ensures Used(c, src, dst) { UsedWhenNotShrunk(c, src, dst); }
    } else {
      forall i: nat | i < dst ensures Coord(i, src, dst) < src - 1 { LastUnusedWhenShrunk(i, src, dst); }
      assert !Used(src - 1, src, dst);
    }
  }

  ghost predicate Used(c: nat, src: nat, dst: nat)
    requires 0 < dst
  {
    exists i: nat :: i < dst && Coord(i, src, dst) == c
  }

  // ------------------------------------- coverage and round trip in 32 bits

  lemma Coord32Below(i: nat, src: nat, dst: nat)
    requires 0 < dst < U32
    ensures Coord32(i, src, dst) <= Coord(i, src, dst)
    ensures i * src >= U32 ==> Coord32(i, src, dst) < Coord(i, src, dst)
  {
    if i * src >= U32 { WrappedQuotient(i * src, dst); } else { WrapLoses(i * src); }
  }

  lemma DivLe(x: nat, d: nat)
    requires 0 < d
    ensures x / d <= x
  {
    DivBounds(x, d);
    MulLe(1, d, x / d);
  }

  // The first destination coordinate that maps to the last source coordinate.
  function FirstOfLast(src: nat, dst: nat): nat
    requires 0 < src
  {
    DivLe(dst, src);
    dst - dst / src
  }

  lemma FirstOfLastBounds(src: nat, dst: nat)
    requires 0 < src && 0 < dst
    ensures (src - 1) * dst <= FirstOfLast(src, dst) * src < (src - 1) * dst + src
  {
    DivBounds(dst, src);
    assert FirstOfLast(src, dst) * src == dst * src - dst / src * src;
    assert (src - 1) * dst == dst * src - dst;
  }

  ghost predicate CodeUsed(c: nat, src: nat, dst: nat)
    requires 0 < dst
  {
    exists i: nat :: i < dst && Coord32(i, src, dst) == c
  }

  // Its first use of c is not after its first use of the last one.
  lemma FirstUseBefore(c: nat, src: nat, dst: nat)
    requires c < src <= dst
    ensures (c * dst + src - 1) / src <= FirstOfLast(src, dst)
  {
    FirstOfLastBounds(src, dst);
    MulLe(c, src - 1, dst);
    var first := FirstOfLast(src, dst);
    assert (first + 1) * src == first * src + src;
    QuotientBelow(c * dst + src - 1, src, first + 1);
  }

  lemma CodeUsedWhenFits(c: nat, src: nat, dst: nat)
    requires c < src <= dst && FirstOfLast(src, dst) * src < U32
    ensures CodeUsed(c, src, dst)
  {
    var i := (c * dst + src - 1) / src;
    FirstUse(c, src, dst);
    FirstUseBefore(c, src, dst);
    MulLe(i, FirstOfLast(src, dst), src);
    WrapLoses(i * src);
    assert Coord32(i, src, dst) == c;
  }

  lemma LastUnusedWhenWrapped(i: nat, src: nat, dst: nat)
    requires i < dst < U32 && 0 < src <= dst && FirstOfLast(src, dst) * src >= U32
    ensures Coord32(i, src, dst) < src - 1
  {
    var first := FirstOfLast(src, dst);
    Coord32Below(i, src, dst);
    FirstOfLastBounds(src, dst);
    if i < first {
      MulLe(i + 1, first, src);
      assert (i + 1) * src == i * src + src;
      QuotientBelow(i * src, dst, src - 1);
    } else {
      MulLe(first, i, src);
      CoordInRange(i, src, dst);
    }
  }

  // The code uses every source coordinate exactly when the size does not shrink and
  // the product of the first destination of the last coordinate fits.
  lemma CodeUsesAllIff(src: nat, dst: nat)
    requires 0 < src && 0 < dst < U32
    ensures (forall c :: 0 <= c < src ==> CodeUsed(c, src, dst)) <==> src <= dst && (dst - dst / src) * src < U32
  {
    if src > dst {
      forall i: nat | i < dst ensures Coord32(i, src, dst) < src - 1 {
        LastUnusedWhenShrunk(i, src, dst);
        Coord32Below(i, src, dst);
      }
      assert !CodeUsed(src - 1, src, dst);
    } else if FirstOfLast(src, dst) * src < U32 {
      forall c | 0 <= c < src ensures CodeUsed(c, src, dst) { CodeUsedWhenFits(c, src, dst); }
    } else {
      forall i: nat | i < dst ensures Coord32(i, src, dst) < src - 1 { LastUnusedWhenWrapped(i, src, dst); }
      assert !CodeUsed(src - 1, src, dst);
    }
  }

  // Scaling a width of 65537 to itself does not use every column.
  lemma CodeMissesColumn()
    ensures exists c :: 0 <= c < 65537 && !CodeUsed(c, 65537, 65537)
  {
    CodeUsesAllIff(65537, 65537);
  }

  // Scaling w coordinates to v and back with the code.
  function Back32(i: nat, w: nat, v: nat): nat
    requires 0 < w && 0 < v
  {
    Coord32(Coord32(i, v, w), w, v)
  }

  lemma Back32Fits(i: nat, w: nat, v: nat)
    requires i < w && 0 < v && v % w == 0 && (w - 1) * v < U32
    ensures Back32(i, w, v) == i
  {
    MulLe(i, w - 1, v);
    WrapLoses(i * v);
    DivBounds(i * v, w);
    WrapLoses(Coord(i, v, w) * w);
    BackIsIdentity(i, w, v);
  }

  lemma Back32Wraps(w: nat, v: nat)
    requires 0 < w < U32 && 0 < v && (w - 1) * v >= U32
    ensures Back32(w - 1, w, v) < w - 1
  {
    var x, c := (w - 1) * v, Coord32(w - 1, v, w);
    WrapLoses(x);
    DivBounds(x % U32, w);
    WrapLoses(c * w);
    QuotientBelow(c * w % U32, v, w - 1);
  }

  lemma Back32OfOne(w: nat, v: nat)
    requires 0 < w && 0 < v < U32 && v % w != 0
    ensures 1 < w && Back32(1, w, v) == 0
  {
    BackOfOne(w, v);
    WrapLoses(v);
    DivBounds(v, w);
    WrapLoses(v / w * w);
    assert 1 * v == v;
  }

  // Scaling w coordinates to v and back.
  function Back(i: nat, w: nat, v: nat): nat
    requires 0 < w && 0 < v
  {
    Coord(Coord(i, v, w), w, v)
  }

  lemma BackIsIdentity(i: nat, w: nat, v: nat)
    requires 0 < w && 0 < v && v % w == 0
    ensures Back(i, w, v) == i
  {
    var k := v / w;
    assert v == k * w;
    assert i * v == (i * k) * w by { assert i * (k * w) == (i * k) * w; }
    DivIs(i * v, w, i * k);
    assert (i * k) * w == i * v;
    DivIs((i * k) * w, v, i);
  }

  lemma BackOfOne(w: nat, v: nat)
    requires 0 < w && 0 < v && v % w != 0
    ensures 1 < w && Back(1, w, v) == 0
  {
    DivBounds(v, w);
    assert v == v / w * w + v % w;
    DivIs(v / w * w, v, 0);
  }

  // --------------------------------------------------------------- the image

  // Position of channel c of pixel (x, y) in an image w pixels wide.
  function At(x: nat, y: nat, c: nat, w: nat): nat {
    3 * (x + y * w) + c
  }

  lemma AtInRange(x: nat, y: nat, c: nat, w: nat, h: nat)
    requires x < w && y < h && c < 3
    ensures At(x, y, c, w) < 3 * (w * h)
  {
    MulLe(y + 1, h, w);
  }

  // Every position is of that form.
  function X(k: nat, w: nat): nat requires 0 < w { k / 3 % w }
  function Y(k: nat, w: nat): nat requires 0 < w { k / 3 / w }

  lemma XY(k: nat, w: nat, h: nat)
    requires 0 < w && k < 3 * (w * h)
    ensures X(k, w) < w && Y(k, w) < h && k == At(X(k, w), Y(k, w), k % 3, w)
  {
    var p := k / 3;
    DivBounds(p, w);
    MulLe(h, Y(k, w), w);
  }

  lemma AtXY(x: nat, y: nat, c: nat, w: nat)
    requires x < w && c < 3
    ensures var k := At(x, y, c, w); X(k, w) == x && Y(k, w) == y && k % 3 == c
  {
    var k := At(x, y, c, w);
    assert k / 3 == x + y * w;
    DivIs(x + y * w, w, y);
    DivBounds(x + y * w, w);
  }

  // The source position of output position k.
  function Source(k: nat, ow: nat, oh: nat, nw: nat, nh: nat): nat
    requires 0 < nw && 0 < nh
  {
    At(Coord(X(k, nw), ow, nw), Coord(Y(k, nw), oh, nh), k % 3, ow)
  }

  lemma SourceInRange(k: nat, ow: nat, oh: nat, nw: nat, nh: nat)
    requires 0 < nw && 0 < nh && 0 < ow && 0 < oh && k < 3 * (nw * nh)
    ensures Source(k, ow, oh, nw, nh) < 3 * (ow * oh)
  {
    XY(k, nw, nh);
    CoordInRange(X(k, nw), ow, nw);
    CoordInRange(Y(k, nw), oh, nh);
    AtInRange(Coord(X(k, nw), ow, nw), Coord(Y(k, nw), oh, nh), k % 3, ow, oh);
  }

  predicate Sizes(ow: nat, oh: nat, nw: nat, nh: nat) {
    0 < ow && 0 < oh && 0 < nw && 0 < nh
  }

  // The scaled image.
  function Scaled(img: seq<byte>, ow: nat, oh: nat, nw: nat, nh: nat): (r: seq<byte>)
    requires Sizes(ow, oh, nw, nh) && |img| >= 3 * (ow * oh)
    ensures |r| == 3 * (nw * nh)
    ensures forall k :: 0 <= k < |r| ==> Source(k, ow, oh, nw, nh) < |img| && r[k] == img[Source(k, ow, oh, nw, nh)]
  {
    assert forall k :: 0 <= k < 3 * (nw * nh) ==> Source(k, ow, oh, nw, nh) < |img| by {
      forall k | 0 <= k < 3 * (nw * nh) ensures Source(k, ow, oh, nw, nh) < |img| {
        SourceInRange(k, ow, oh, nw, nh);
      }
    }
    seq(3 * (nw * nh), k requires 0 <= k < 3 * (nw * nh) && Source(k, ow, oh, nw, nh) < |img| =>
      img[Source(k, ow, oh, nw, nh)])
  }

  lemma SourceAt(x: nat, y: nat, c: nat, ow: nat, oh: nat, nw: nat, nh: nat)
    requires 0 < nw && 0 < nh && x < nw && c < 3
    ensures Source(At(x, y, c, nw), ow, oh, nw, nh) == At(Coord(x, ow, nw), Coord(y, oh, nh), c, ow)
  {
    AtXY(x, y, c, nw);
  }

  predicate InImage(img: seq<byte>, w: nat, x: nat, y: nat, c: nat) {
    At(x, y, c, w) < |img|
  }

  // Channel c of pixel (x, y).
  function Pixel(img: seq<byte>, w: nat, x: nat, y: nat, c: nat): byte
    requires InImage(img, w, x, y, c)
  {
    img[At(x, y, c, w)]
  }

  // Pixel (x, y) of the result is pixel (floor(x*ow/nw), floor(y*oh/nh)) of the source.
  lemma ScaledPixel(img: seq<byte>, ow: nat, oh: nat, nw: nat, nh: nat, x: nat, y: nat, c: nat)
    requires Sizes(ow, oh, nw, nh) && |img| >= 3 * (ow * oh) && x < nw && y < nh && c < 3
    ensures InImage(Scaled(img, ow, oh, nw, nh), nw, x, y, c) && InImage(img, ow, Coord(x, ow, nw), Coord(y, oh, nh), c)
    ensures Pixel(Scaled(img, ow, oh, nw, nh), nw, x, y, c) == Pixel(img, ow, Coord(x, ow, nw), Coord(y, oh, nh), c)
  {
    AtInRange(x, y, c, nw, nh);
    SourceAt(x, y, c, ow, oh, nw, nh);
  }

  // ------------------------------------------------------------- round trips

  lemma BackPixel(img: seq<byte>, w: nat, h: nat, v: nat, u: nat, x: nat, y: nat, c: nat)
    requires Sizes(w, h, v, u) && |img| == 3 * (w * h) && x < w && y < h && c < 3
    ensures Back(x, w, v) < w && Back(y, h, u) < h
    ensures InImage(Scaled(Scaled(img, w, h, v, u), v, u, w, h), w, x, y, c)
    ensures InImage(img, w, Back(x, w, v), Back(y, h, u), c)
    ensures Pixel(Scaled(Scaled(img, w, h, v, u), v, u, w, h), w, x, y, c) == Pixel(img, w, Back(x, w, v), Back(y, h, u), c)
  {
    AtInRange(x, y, c, w, h);
    CoordInRange(x, v, w);
    CoordInRange(y, u, h);
    CoordInRange(Coord(x, v, w), w, v);
    CoordInRange(Coord(y, u, h), h, u);
    ScaledPixel(Scaled(img, w, h, v, u), v, u, w, h, x, y, c);
    ScaledPixel(img, w, h, v, u, Coord(x, v, w), Coord(y, u, h), c);
  }

  ghost predicate RestoresAll(w: nat, h: nat, v: nat, u: nat)
    requires Sizes(w, h, v, u)
  {
    forall img: seq<byte> :: |img| == 3 * (w * h) ==> Scaled(Scaled(img, w, h, v, u), v, u, w, h) == img
  }

  // An image whose only non-zero byte is the first of pixel (x, y).
  function Dot(w: nat, h: nat, x: nat, y: nat): (img: seq<byte>)
    requires 0 < w
    ensures |img| == 3 * (w * h)
  {
    seq(3 * (w * h), k requires 0 <= k => if k == At(x, y, 0, w) then 1 else 0)
  }

  // Scaling a w*h image to v*u and back restores every image exactly when v is a
  // multiple of w and u a multiple of h.
  lemma RestoresAllIff(w: nat, h: nat, v: nat, u: nat)
    requires Sizes(w, h, v, u)
    ensures RestoresAll(w, h, v, u) <==> v % w == 0 && u % h == 0
  {
    if v % w == 0 && u % h == 0 {
      forall img: seq<byte> | |img| == 3 * (w * h) ensures Scaled(Scaled(img, w, h, v, u), v, u, w, h) == img {
        MultiplesRestore(img, w, h, v, u);
      }
    } else if v % w != 0 {
      BackOfOne(w, v);
      DotIsLost(w, h, v, u, 1, 0);
    } else {
      BackOfOne(h, u);
      DotIsLost(w, h, v, u, 0, 1);
    }
  }

  lemma MultiplesRestore(img: seq<byte>, w: nat, h: nat, v: nat, u: nat)
    requires Sizes(w, h, v, u) && |img| == 3 * (w * h) && v % w == 0 && u % h == 0
    ensures Scaled(Scaled(img, w, h, v, u), v, u, w, h) == img
  {
    forall k | 0 <= k < |img| ensures Scaled(Scaled(img, w, h, v, u), v, u, w, h)[k] == img[k] {
      XY(k, w, h);
      BackPixel(img, w, h, v, u, X(k, w), Y(k, w), k % 3);
      BackIsIdentity(X(k, w), w, v);
      BackIsIdentity(Y(k, w), h, u);
    }
  }

  lemma DotIsLost(w: nat, h: nat, v: nat, u: nat, x: nat, y: nat)
    requires Sizes(w, h, v, u) && x < w && y < h
    requires Back(x, w, v) != x || Back(y, h, u) != y
    ensures !RestoresAll(w, h, v, u)
  {
    var img := Dot(w, h, x, y);
    BackPixel(img, w, h, v, u, x, y, 0);
    AtXY(x, y, 0, w);
    AtXY(Back(x, w, v), Back(y, h, u), 0, w);
    assert img[At(x, y, 0, w)] == 1;
    assert img[At(Back(x, w, v), Back(y, h, u), 0, w)] == 0;
  }

  // ---------------------------------------------------------------- the code

  // Both images fit into the address space.
  predicate MemoryFits(ow: nat, oh: nat, nw: nat, nh: nat) {
    3 * (nw * nh) <= U32 && 3 * (ow * oh) <= U32
  }

  // The products of the last column and of the last row fit into 32 bits.
  predicate ProductsFit(ow: nat, oh: nat, nw: nat, nh: nat) {
    (0 < nw ==> (nw - 1) * ow < U32) && (0 < nh ==> (nh - 1) * oh < U32)
  }

  // All 32-bit products of the code are exact.
  predicate Fits(ow: nat, oh: nat, nw: nat, nh: nat) {
    MemoryFits(ow, oh, nw, nh) && ProductsFit(ow, oh, nw, nh)
  }

  // The source position the code uses for output position k.
  function CodeSource(k: nat, ow: nat, oh: nat, nw: nat, nh: nat): nat
    requires 0 < nw && 0 < nh
  {
    At(Coord32(X(k, nw), ow, nw), Coord32(Y(k, nw), oh, nh), k % 3, ow)
  }

  lemma CodeSourceInRange(k: nat, ow: nat, oh: nat, nw: nat, nh: nat)
    requires Sizes(ow, oh, nw, nh) && k < 3 * (nw * nh)
    ensures CodeSource(k, ow, oh, nw, nh) < 3 * (ow * oh)
    ensures ProductsFit(ow, oh, nw, nh) ==> CodeSource(k, ow, oh, nw, nh) == Source(k, ow, oh, nw, nh)
  {
    XY(k, nw, nh);
    CoordInRange(X(k, nw), ow, nw);
    CoordInRange(Y(k, nw), oh, nh);
    AtInRange(Coord32(X(k, nw), ow, nw), Coord32(Y(k, nw), oh, nh), k % 3, ow, oh);
    MulLe(X(k, nw), nw - 1, ow);
    MulLe(Y(k, nw), nh - 1, oh);
  }

  // The image the code computes.
  function CodeScaled(img: seq<byte>, ow: nat, oh: nat, nw: nat, nh: nat): (r: seq<byte>)
    requires Sizes(ow, oh, nw, nh) && |img| >= 3 * (ow * oh)
    ensures |r| == 3 * (nw * nh)
    ensures forall k :: 0 <= k < |r| ==>
      CodeSource(k, ow, oh, nw, nh) < |img| && r[k] == img[CodeSource(k, ow, oh, nw, nh)]
  {
    assert forall k :: 0 <= k < 3 * (nw * nh) ==> CodeSource(k, ow, oh, nw, nh) < |img| by {
      forall k | 0 <= k < 3 * (nw * nh) ensures CodeSource(k, ow, oh, nw, nh) < |img| {
        CodeSourceInRange(k, ow, oh, nw, nh);
      }
    }
    seq(3 * (nw * nh), k requires 0 <= k < 3 * (nw * nh) && CodeSource(k, ow, oh, nw, nh) < |img| =>
      img[CodeSource(k, ow, oh, nw, nh)])
  }

  ghost predicate ScalesAll(ow: nat, oh: nat, nw: nat, nh: nat)
    requires Sizes(ow, oh, nw, nh)
  {
    forall img: seq<byte> :: |img| == 3 * (ow * oh) ==> CodeScaled(img, ow, oh, nw, nh) == Scaled(img, ow, oh, nw, nh)
  }

  lemma FittingIsScaled(img: seq<byte>, ow: nat, oh: nat, nw: nat, nh: nat)
    requires Sizes(ow, oh, nw, nh) && ProductsFit(ow, oh, nw, nh) && |img| >= 3 * (ow * oh)
    ensures CodeScaled(img, ow, oh, nw, nh) == Scaled(img, ow, oh, nw, nh)
  {
    forall k | 0 <= k < 3 * (nw * nh)
      ensures CodeScaled(img, ow, oh, nw, nh)[k] == Scaled(img, ow, oh, nw, nh)[k] {
      CodeSourceInRange(k, ow, oh, nw, nh);
    }
  }

  // The dot the pixel (x, y) should come from is not where the code looks.
  lemma DotIsMissed(ow: nat, oh: nat, nw: nat, nh: nat, x: nat, y: nat)
    requires Sizes(ow, oh, nw, nh) && x < nw && y < nh
    requires Coord32(x, ow, nw) != Coord(x, ow, nw) || Coord32(y, oh, nh) != Coord(y, oh, nh)
    ensures !ScalesAll(ow, oh, nw, nh)
  {
    var cx, cy, wx, wy := Coord(x, ow, nw), Coord(y, oh, nh), Coord32(x, ow, nw), Coord32(y, oh, nh);
    var img, k := Dot(ow, oh, cx, cy), At(x, y, 0, nw);
    AtInRange(x, y, 0, nw, nh);
    AtXY(x, y, 0, nw);
    CoordInRange(x, ow, nw);
    CoordInRange(y, oh, nh);
    AtInRange(cx, cy, 0, ow, oh);
    AtInRange(wx, wy, 0, ow, oh);
    AtXY(cx, cy, 0, ow);
    AtXY(wx, wy, 0, ow);
    assert Scaled(img, ow, oh, nw, nh)[k] == img[At(cx, cy, 0, ow)] == 1;
    assert CodeScaled(img, ow, oh, nw, nh)[k] == img[At(wx, wy, 0, ow)] == 0;
  }

  lemma SideFits(a: nat, b: nat)
    requires 0 < a && 0 < b && 3 * (a * b) <= U32
    ensures a < U32 && b < U32
  {
    MulLe(1, b, a);
    MulLe(1, a, b);
  }

  // The code scales every image right exactly if the two products fit.
  lemma ScalesAllIff(ow: nat, oh: nat, nw: nat, nh: nat)
    requires Sizes(ow, oh, nw, nh) && MemoryFits(ow, oh, nw, nh)
    ensures ScalesAll(ow, oh, nw, nh) <==> (nw - 1) * ow < U32 && (nh - 1) * oh < U32
  {
    SideFits(nw, nh);
    if ProductsFit(ow, oh, nw, nh) {
      forall img: seq<byte> | |img| == 3 * (ow * oh)
        ensures CodeScaled(img, ow, oh, nw, nh) == Scaled(img, ow, oh, nw, nh) {
        FittingIsScaled(img, ow, oh, nw, nh);
      }
    } else if (nw - 1) * ow >= U32 {
      CoordExactIff(nw - 1, ow, nw);
      DotIsMissed(ow, oh, nw, nh, nw - 1, 0);
    } else {
      CoordExactIff(nh - 1, oh, nh);
      DotIsMissed(ow, oh, nw, nh, 0, nh - 1);
    }
  }

  // ------------------------------------------------ round trips of the code

  lemma CodeSourceAt(x: nat, y: nat, c: nat, ow: nat, oh: nat, nw: nat, nh: nat)
    requires 0 < nw && 0 < nh && x < nw && c < 3
    ensures CodeSource(At(x, y, c, nw), ow, oh, nw, nh) == At(Coord32(x, ow, nw), Coord32(y, oh, nh), c, ow)
  {
    AtXY(x, y, c, nw);
  }

  // Pixel (x, y) of what the code computes is the source's pixel at the 32-bit
  // coordinates.
  lemma CodeScaledPixel(img: seq<byte>, ow: nat, oh: nat, nw: nat, nh: nat, x: nat, y: nat, c: nat)
    requires Sizes(ow, oh, nw, nh) && |img| >= 3 * (ow * oh) && x < nw && y < nh && c < 3
    ensures InImage(CodeScaled(img, ow, oh, nw, nh), nw, x, y, c)
    ensures InImage(img, ow, Coord32(x, ow, nw), Coord32(y, oh, nh), c)
    ensures Pixel(CodeScaled(img, ow, oh, nw, nh), nw, x, y, c)
         == Pixel(img, ow, Coord32(x, ow, nw), Coord32(y, oh, nh), c)
  {
    AtInRange(x, y, c, nw, nh);
    CodeSourceAt(x, y, c, ow, oh, nw, nh);
  }

  // The same by positions in the buffers: byte i comes from byte j.
  lemma CodeBytes(img: seq<byte>, ow: nat, oh: nat, nw: nat, nh: nat,
                  x: nat, y: nat, c: nat, sx: nat, sy: nat, i: nat, j: nat)
    requires Sizes(ow, oh, nw, nh) && |img| == 3 * (ow * oh) && x < nw && y < nh && c < 3
    requires sx == x * ow % 0x1_0000_0000 / nw && sy == y * oh % 0x1_0000_0000 / nh
    requires i == 3 * (x + y * nw) + c && j == 3 * (sx + sy * ow) + c
    ensures i < 3 * (nw * nh) && j < |img| && CodeScaled(img, ow, oh, nw, nh)[i] == img[j]
  {
    CodeScaledPixel(img, ow, oh, nw, nh, x, y, c);
  }

  function ThereAndBack(img: seq<byte>, w: nat, h: nat, v: nat, u: nat): (r: seq<byte>)
    requires Sizes(w, h, v, u) && |img| == 3 * (w * h)
    ensures |r| == |img|
  {
    CodeScaled(CodeScaled(img, w, h, v, u), v, u, w, h)
  }

  lemma BackPixel32(img: seq<byte>, w: nat, h: nat, v: nat, u: nat, x: nat, y: nat, c: nat)
    requires Sizes(w, h, v, u) && |img| == 3 * (w * h) && x < w && y < h && c < 3
    ensures Back32(x, w, v) < w && Back32(y, h, u) < h
    ensures InImage(ThereAndBack(img, w, h, v, u), w, x, y, c) && InImage(img, w, Back32(x, w, v), Back32(y, h, u), c)
    ensures Pixel(ThereAndBack(img, w, h, v, u), w, x, y, c) == Pixel(img, w, Back32(x, w, v), Back32(y, h, u), c)
  {
    CoordInRange(x, v, w);
    CoordInRange(y, u, h);
    CoordInRange(Coord32(x, v, w), w, v);
    CoordInRange(Coord32(y, u, h), h, u);
    CodeScaledPixel(CodeScaled(img, w, h, v, u), v, u, w, h, x, y, c);
    CodeScaledPixel(img, w, h, v, u, Coord32(x, v, w), Coord32(y, u, h), c);
  }

  ghost predicate CodeRestoresAll(w: nat, h: nat, v: nat, u: nat)
    requires Sizes(w, h, v, u)
  {
    forall img: seq<byte> :: |img| == 3 * (w * h) ==> ThereAndBack(img, w, h, v, u) == img
  }

  lemma CodeRestores(img: seq<byte>, w: nat, h: nat, v: nat, u: nat)
    requires Sizes(w, h, v, u) && |img| == 3 * (w * h)
    requires v % w == 0 && u % h == 0 && (w - 1) * v < U32 && (h - 1) * u < U32
    ensures ThereAndBack(img, w, h, v, u) == img
  {
    forall k | 0 <= k < |img| ensures ThereAndBack(img, w, h, v, u)[k] == img[k] {
      XY(k, w, h);
      BackPixel32(img, w, h, v, u, X(k, w), Y(k, w), k % 3);
      Back32Fits(X(k, w), w, v);
      Back32Fits(Y(k, w), h, u);
    }
  }

  lemma CodeLosesDot(w: nat, h: nat, v: nat, u: nat, x: nat, y: nat)
    requires Sizes(w, h, v, u) && x < w && y < h
    requires Back32(x, w, v) != x || Back32(y, h, u) != y
    ensures !CodeRestoresAll(w, h, v, u)
  {
    var img := Dot(w, h, x, y);
    BackPixel32(img, w, h, v, u, x, y, 0);
    AtXY(x, y, 0, w);
    AtXY(Back32(x, w, v), Back32(y, h, u), 0, w);
    assert img[At(x, y, 0, w)] == 1;
    assert img[At(Back32(x, w, v), Back32(y, h, u), 0, w)] == 0;
  }

  // The code scales a w*h image to v*u and back without loss, for every image,
  // exactly when v and u are multiples and the products of the way back fit.
  lemma CodeRestoresAllIff(w: nat, h: nat, v: nat, u: nat)
    requires Sizes(w, h, v, u) && w < U32 && h < U32 && v < U32 && u < U32
    ensures CodeRestoresAll(w, h, v, u)
      <==> v % w == 0 && u % h == 0 && (w - 1) * v < U32 && (h - 1) * u < U32
  {
    if v % w != 0 {
      Back32OfOne(w, v);
      CodeLosesDot(w, h, v, u, 1, 0);
    } else if u % h != 0 {
      Back32OfOne(h, u);
      CodeLosesDot(w, h, v, u, 0, 1);
    } else if (w - 1) * v >= U32 {
      Back32Wraps(w, v);
      CodeLosesDot(w, h, v, u, w - 1, 0);
    } else if (h - 1) * u >= U32 {
      Back32Wraps(h, u);
      CodeLosesDot(w, h, v, u, 0, h - 1);
    } else {
      forall img: seq<byte> | |img| == 3 * (w * h) ensures ThereAndBack(img, w, h, v, u) == img {
        CodeRestores(img, w, h, v, u);
      }
    }
  }

  // A multiple is not enough: scaling 65537 by 1 to the same size and back would
  // restore every image, and the images fit into memory, but the code loses one.
  lemma CodeLosesColumn()
    ensures MemoryFits(65537, 1, 65537, 1) && RestoresAll(65537, 1, 65537, 1) && !CodeRestoresAll(65537, 1, 65537, 1)
  {
    RestoresAllIff(65537, 1, 65537, 1);
    CodeRestoresAllIff(65537, 1, 65537, 1);
  }

  // The code's index of channel c of a pixel, in 32 bits.
  function At32(x: nat, y: nat, c: nat, w: nat): nat {
    At(x, y, c, w) % U32
  }

  lemma CodeIndices(i: nat, j: nat, c: nat, ow: nat, oh: nat, nw: nat, nh: nat)
    requires Sizes(ow, oh, nw, nh) && i < nw && j < nh && c < 3
    ensures At32(i, j, c, nw) < 3 * (nw * nh)
    ensures At32(Coord32(i, ow, nw), Coord32(j, oh, nh), c, ow) < 3 * (ow * oh)
  {
    CoordInRange(i, ow, nw);
    CoordInRange(j, oh, nh);
    AtInRange(i, j, c, nw, nh);
    AtInRange(Coord32(i, ow, nw), Coord32(j, oh, nh), c, ow, oh);
    WrapLoses(At(i, j, c, nw));
    WrapLoses(At(Coord32(i, ow, nw), Coord32(j, oh, nh), c, ow));
  }

  lemma CodeIndicesExact(i: nat, j: nat, c: nat, ow: nat, oh: nat, nw: nat, nh: nat)
    requires Sizes(ow, oh, nw, nh) && i < nw && j < nh && c < 3 && MemoryFits(ow, oh, nw, nh)
    ensures At32(i, j, c, nw) == At(i, j, c, nw)
    ensures At32(Coord32(i, ow, nw), Coord32(j, oh, nh), c, ow) == CodeSource(At(i, j, c, nw), ow, oh, nw, nh)
  {
    CoordInRange(i, ow, nw);
    CoordInRange(j, oh, nh);
    AtXY(i, j, c, nw);
    AtInRange(i, j, c, nw, nh);
    AtInRange(Coord32(i, ow, nw), Coord32(j, oh, nh), c, ow, oh);
    WrapLoses(At(i, j, c, nw));
    WrapLoses(At(Coord32(i, ow, nw), Coord32(j, oh, nh), c, ow));
  }

  // The first n bytes of the output are those of the code's image.
  ghost predicate Written(out: seq<byte>, img: seq<byte>, n: nat, ow: nat, oh: nat, nw: nat, nh: nat)
    requires 0 < nw && 0 < nh
  {
    forall k :: 0 <= k < n && k < |out| ==>
      CodeSource(k, ow, oh, nw, nh) < |img| && out[k] == img[CodeSource(k, ow, oh, nw, nh)]
  }

  // The three assignments of the inner loop.
  method ScalePixel(oldRgb: array<byte>, newRgb: array<byte>, ow: nat, oh: nat, nw: nat, nh: nat, i: nat, j: nat)
    requires newRgb != oldRgb && oldRgb.Length >= 3 * (ow * oh) && newRgb.Length >= 3 * (nw * nh)
    requires Sizes(ow, oh, nw, nh) && i < nw && j < nh
    modifies newRgb
    ensures newRgb[3 * (nw * nh)..] == old(newRgb[3 * (nw * nh)..])
    ensures MemoryFits(ow, oh, nw, nh) && Written(old(newRgb[..]), oldRgb[..], At(i, j, 0, nw), ow, oh, nw, nh) ==>
      Written(newRgb[..], oldRgb[..], At(i + 1, j, 0, nw), ow, oh, nw, nh)
  {
    var dtw := i * ow % U32 / nw;
    var dth := j * oh % U32 / nh;
    CodeIndices(i, j, 0, ow, oh, nw, nh);
    CodeIndices(i, j, 1, ow, oh, nw, nh);
    CodeIndices(i, j, 2, ow, oh, nw, nh);
    if MemoryFits(ow, oh, nw, nh) {
      CodeIndicesExact(i, j, 0, ow, oh, nw, nh);
      CodeIndicesExact(i, j, 1, ow, oh, nw, nh);
      CodeIndicesExact(i, j, 2, ow, oh, nw, nh);
    }
    newRgb[At32(i, j, 0, nw)] := oldRgb[At32(dtw, dth, 0, ow)];
    newRgb[At32(i, j, 1, nw)] := oldRgb[At32(dtw, dth, 1, ow)];
    newRgb[At32(i, j, 2, nw)] := oldRgb[At32(dtw, dth, 2, ow)];
  }

  // For any sizes the code stays inside both buffers. It writes the image CodeScaled
  // says, which is the scaled image when the products fit.
  method ScaleRgb24(oldRgb: array<byte>, newRgb: array?<byte>, ow: nat, oh: nat, nw: nat, nh: nat) returns (r: int)
    requires newRgb != null ==>
      newRgb != oldRgb && oldRgb.Length >= 3 * (ow * oh) && newRgb.Length >= 3 * (nw * nh)
    requires ow < U32 && oh < U32 && nw < U32 && nh < U32
    requires 0 < nw && 0 < nh ==> 0 < ow && 0 < oh
    modifies newRgb
    ensures r == if newRgb == null then -1 else 0
    ensures newRgb != null && Sizes(ow, oh, nw, nh) && MemoryFits(ow, oh, nw, nh) ==>
      newRgb[..3 * (nw * nh)] == CodeScaled(oldRgb[..], ow, oh, nw, nh)
    ensures newRgb != null && Sizes(ow, oh, nw, nh) && Fits(ow, oh, nw, nh) ==>
      newRgb[..3 * (nw * nh)] == Scaled(oldRgb[..], ow, oh, nw, nh)
    ensures newRgb != null ==> newRgb[3 * (nw * nh)..] == old(newRgb[3 * (nw * nh)..])
  {
    if newRgb == null {
      return -1;
    }
    ghost var exact := Sizes(ow, oh, nw, nh) && MemoryFits(ow, oh, nw, nh);
    var j := 0;
    while j < nh
      invariant j <= nh
      invariant newRgb[3 * (nw * nh)..] == old(newRgb[3 * (nw * nh)..])
      invariant exact ==> Written(newRgb[..], oldRgb[..], At(0, j, 0, nw), ow, oh, nw, nh)
    {
      var i := 0;
      while i < nw
        invariant i <= nw
        invariant newRgb[3 * (nw * nh)..] == old(newRgb[3 * (nw * nh)..])
        invariant exact ==> Written(newRgb[..], oldRgb[..], At(i, j, 0, nw), ow, oh, nw, nh)
      {
        ScalePixel(oldRgb, newRgb, ow, oh, nw, nh, i, j);
        i := i + 1;
      }
      assert At(nw, j, 0, nw) == At(0, j + 1, 0, nw);
      j := j + 1;
    }
    assert At(0, nh, 0, nw) == 3 * (nw * nh);
    if exact && ProductsFit(ow, oh, nw, nh) { FittingIsScaled(oldRgb[..], ow, oh, nw, nh); }
    return 0;
  }
}
