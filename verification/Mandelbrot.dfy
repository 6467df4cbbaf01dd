/** `compute_row` over the reals: escape times, their grey levels, and the mirror symmetry of the image. */
module Mandelbrot {
  import opened Bytes

  datatype Point = Point(x: real, y: real) {
    function Conjugate(): Point {
      Point(x, -y)
    }
  }

  /** z * z + c. */
  function Next(z: Point, c: Point): Point {
    Point(z.x * z.x - z.y * z.y + c.x, 2.0 * z.x * z.y + c.y)
  }

  predicate Bounded(z: Point) {
    z.x * z.x + z.y * z.y <= 4.0
  }

  ghost predicate StepsTo(z: Point, c: Point, next: Point) {
    Bounded(z) && next == Next(z, c)
  }

  /** The points the iteration of z * z + c visits from 0, all but the last inside the disc. */
  ghost predicate IsRun(c: Point, run: seq<Point>) {
    && run != []
    && run[0] == Point(0.0, 0.0)
    && forall k | 0 <= k < |run| - 1 :: StepsTo(run[k], c, run[k + 1])
  }

  /** A run that counts n steps and then stops: it left the disc or reached the cap. */
  ghost predicate Stops(c: Point, maxIter: nat, n: nat, run: seq<Point>) {
    && IsRun(c, run)
    && |run| == n + 1
    && n <= maxIter
    && (n < maxIter ==> !Bounded(run[n]))
  }

  /** The escape time of c is n. */
  ghost predicate EscapesAt(c: Point, maxIter: nat, n: nat) {
    exists run :: Stops(c, maxIter, n, run)
  }

  lemma {:induction false} RunsAgree(c: Point, a: seq<Point>, b: seq<Point>, k: nat)
    requires IsRun(c, a) && IsRun(c, b) && k < |a| && k < |b|
    ensures a[k] == b[k]
  {
    if k > 0 {
      RunsAgree(c, a, b, k - 1);
      assert StepsTo(a[k - 1], c, a[k - 1 + 1]) && StepsTo(b[k - 1], c, b[k - 1 + 1]);
    }
  }

  lemma EscapeTimeUnique(c: Point, maxIter: nat, m: nat, n: nat)
    requires EscapesAt(c, maxIter, m) && EscapesAt(c, maxIter, n)
    ensures m == n
  {
    var a :| Stops(c, maxIter, m, a);
    var b :| Stops(c, maxIter, n, b);
    if m < n {
      assert StepsTo(b[m], c, b[m + 1]);
      RunsAgree(c, a, b, m);
    } else if n < m {
      assert StepsTo(a[n], c, a[n + 1]);
      RunsAgree(c, a, b, n);
    }
  }

  lemma ConjugateStep(z: Point, c: Point, next: Point)
    requires StepsTo(z, c, next)
    ensures StepsTo(z.Conjugate(), c.Conjugate(), next.Conjugate())
  {
    assert (-z.y) * (-z.y) == z.y * z.y;
    assert 2.0 * z.x * (-z.y) == -(2.0 * z.x * z.y);
  }

  lemma ConjugateBounded(z: Point)
    ensures Bounded(z.Conjugate()) == Bounded(z)
  {
    assert (-z.y) * (-z.y) == z.y * z.y;
  }

  /** Conjugate points escape after the same number of steps: their runs mirror each other. */
  lemma ConjugateEscapes(c: Point, maxIter: nat, n: nat)
    requires EscapesAt(c, maxIter, n)
    ensures EscapesAt(c.Conjugate(), maxIter, n)
  {
    var run: seq<Point> :| Stops(c, maxIter, n, run);
    var mirrored := seq(|run|, k requires 0 <= k < |run| => run[k].Conjugate());
    forall k | 0 <= k < |mirrored| - 1
      ensures StepsTo(mirrored[k], c.Conjugate(), mirrored[k + 1])
    {
      ConjugateStep(run[k], c, run[k + 1]);
    }
    ConjugateBounded(run[n]);
    assert Stops(c.Conjugate(), maxIter, n, mirrored);
  }

  // ---- The iteration is z * z + c ------------------------------------------------------------

  function Add(a: Point, b: Point): Point {
    Point(a.x + b.x, a.y + b.y)
  }

  function Mul(a: Point, b: Point): Point {
    Point(a.x * b.x - a.y * b.y, a.x * b.y + a.y * b.x)
  }

  /**
   * `Mul` is the multiplication of complex numbers: commutative and distributive, with unit 1 and with i
   * squared giving -1; real factors scale.
   */
  lemma ComplexNumbers(a: Point, b: Point, c: Point, r: real)
    ensures Mul(a, b) == Mul(b, a)
    ensures Mul(Add(a, b), c) == Add(Mul(a, c), Mul(b, c))
    ensures Mul(Point(1.0, 0.0), a) == a
    ensures Mul(Point(0.0, 1.0), Point(0.0, 1.0)) == Point(-1.0, 0.0)
    ensures Mul(Point(r, 0.0), a) == Point(r * a.x, r * a.y)
  {
    Distributes(a.x, b.x, c.x);
    Distributes(a.y, b.y, c.y);
    Distributes(a.x, b.x, c.y);
    Distributes(a.y, b.y, c.x);
  }

  lemma Distributes(a: real, b: real, c: real)
    ensures (a + b) * c == a * c + b * c
  {
  }

  /** One pass of the loop squares and adds. */
  lemma NextSquares(z: Point, c: Point)
    ensures Next(z, c) == Add(Mul(z, z), c)
  {
    assert 2.0 * z.x * z.y == z.x * z.y + z.y * z.x;
  }

  /** The first point visited is c itself, so a point escapes at once exactly when it is outside the disc. */
  lemma EscapesAtOnceIff(c: Point, maxIter: nat, n: nat)
    requires EscapesAt(c, maxIter, n) && maxIter > 1
    ensures n > 0 && (n == 1 <==> c.x * c.x + c.y * c.y > 4.0)
  {
    var run: seq<Point> :| Stops(c, maxIter, n, run);
    assert Bounded(run[0]);
    assert StepsTo(run[0], c, run[1]);
    assert run[1] == c;
    if n > 1 {
      assert StepsTo(run[1], c, run[2]);
    }
  }

  /** The origin never leaves the disc. */
  lemma OriginNeverEscapes(maxIter: nat)
    ensures EscapesAt(Point(0.0, 0.0), maxIter, maxIter)
  {
    var origin := Point(0.0, 0.0);
    var run := seq(maxIter + 1, k => origin);
    forall k | 0 <= k < |run| - 1
      ensures StepsTo(run[k], origin, run[k + 1])
    {
    }
    assert Stops(origin, maxIter, maxIter, run);
  }

  datatype Frame = Frame(width: nat, height: nat, centerX: real, centerY: real, zoom: real, maxIter: nat)

  /** How far pixel i lies from the middle of `size` pixels. */
  function Offset(i: int, size: nat, zoom: real): real {
    (i as real - size as real / 2.0) * zoom
  }

  function PointAt(f: Frame, row: int, col: int): Point {
    Point(f.centerX + Offset(col, f.width, f.zoom), f.centerY - Offset(row, f.height, f.zoom))
  }

  /** `(unsigned char)(255.0 * iter / max_iter)`. */
  function Shade(iter: nat, maxIter: nat): (s: Byte)
    requires maxIter > 0 && iter <= maxIter
    ensures s as int * maxIter <= 255 * iter < s as int * maxIter + maxIter
    ensures s == 255 <==> iter == maxIter
  {
    ShadeBounds(iter, maxIter);
    var q := 255.0 * iter as real / maxIter as real;
    FloorQuotient(255 * iter, maxIter, q.Floor, q);
    q.Floor as Byte
  }

  /** The integer part of an exact quotient is the integer quotient. */
  lemma FloorQuotient(a: nat, b: nat, f: int, q: real)
    requires b > 0 && q * b as real == a as real && f as real <= q < f as real + 1.0
    ensures f * b <= a < f * b + b
  {
    MulCast(f, b);
    RealQuotient(f as real, q, b as real, (f * b) as real, a as real);
    Uncast(f * b, a, b);
  }

  lemma RealQuotient(x: real, q: real, m: real, p: real, a: real)
    requires m > 0.0 && x <= q < x + 1.0 && q * m == a && x * m == p
    ensures p <= a < p + m
  {
    MulAtMost(x, q, m);
    MulLess(q, x + 1.0, m);
    MulNext(x, m);
  }

  lemma Uncast(p: int, a: int, b: int)
    requires p as real <= a as real < p as real + b as real
    ensures p <= a < p + b
  {
  }

  lemma MulNext(x: real, m: real)
    ensures (x + 1.0) * m == x * m + m
  {
  }

  lemma MulCast(a: int, b: int)
    ensures a as real * b as real == (a * b) as real
  {
  }

  lemma MulAtMost(a: real, b: real, m: real)
    requires a <= b && m > 0.0
    ensures a * m <= b * m
  {
  }

  lemma ShadeBounds(iter: nat, maxIter: nat)
    requires maxIter > 0 && iter <= maxIter
    ensures 0.0 <= 255.0 * iter as real / maxIter as real <= 255.0
    ensures iter < maxIter ==> 255.0 * iter as real / maxIter as real < 255.0
    ensures iter == maxIter ==> 255.0 * iter as real / maxIter as real == 255.0
  {
    var i, m := iter as real, maxIter as real;
    var q := 255.0 * i / m;
    assert q * m == 255.0 * i;
    if q < 0.0 {
      MulLess(q, 0.0, m);
    }
    if q > 255.0 {
      MulLess(255.0, q, m);
    }
    if q < 255.0 {
      MulLess(q, 255.0, m);
    }
  }

  lemma MulLess(a: real, b: real, m: real)
    requires a < b && m > 0.0
    ensures a * m < b * m
  {
  }

  /** `pixels` is the row: each pixel is the shade of its point's escape time. */
  ghost predicate IsRow(f: Frame, row: int, pixels: seq<Byte>)
    requires f.maxIter > 0
  {
    && |pixels| == f.width
    && forall col | 0 <= col < f.width :: IsPixel(f, row, col, pixels[col])
  }

  ghost predicate IsPixel(f: Frame, row: int, col: int, pixel: Byte)
    requires f.maxIter > 0
  {
    exists n: nat :: EscapesAt(PointAt(f, row, col), f.maxIter, n) && pixel == Shade(n, f.maxIter)
  }

  /** The escape loop of one pixel. */
  method Escape(x0: real, y0: real, maxIter: nat) returns (iter: nat)
    ensures EscapesAt(Point(x0, y0), maxIter, iter)
  {
    var x, y := 0.0, 0.0;
    iter := 0;
    ghost var run := [Point(x, y)];
    while x * x + y * y <= 4.0 && iter < maxIter
      invariant 0 <= iter <= maxIter && |run| == iter + 1
      invariant run[iter] == Point(x, y)
      invariant IsRun(Point(x0, y0), run)
      decreases maxIter - iter
    {
      var xtemp := x * x - y * y + x0;
      y := 2.0 * x * y + y0;
      x := xtemp;
      run := run + [Point(x, y)];
      iter := iter + 1;
    }
    assert Stops(Point(x0, y0), maxIter, iter, run);
  }

  method ComputeRow(f: Frame, row: int, pixels: array<Byte>, offset: nat)
    requires f.maxIter > 0 && offset + f.width <= pixels.Length
    modifies pixels
    ensures IsRow(f, row, pixels[offset..offset + f.width])
    ensures forall k | 0 <= k < pixels.Length && !(offset <= k < offset + f.width) :: pixels[k] == old(pixels[k])
  {
    for col := 0 to f.width
      invariant forall k | offset <= k < offset + col :: IsPixel(f, row, k - offset, pixels[k])
      invariant forall k | 0 <= k < pixels.Length && !(offset <= k < offset + f.width) :: pixels[k] == old(pixels[k])
    {
      var x0 := f.centerX + (col as real - f.width as real / 2.0) * f.zoom;
      var y0 := f.centerY - (row as real - f.height as real / 2.0) * f.zoom;
      assert Point(x0, y0) == PointAt(f, row, col);
      var iter := Escape(x0, y0, f.maxIter);
      pixels[offset + col] := Shade(iter, f.maxIter);
    }
  }

  /** A row has only one correct content. */
  lemma RowUnique(f: Frame, row: int, a: seq<Byte>, b: seq<Byte>)
    requires f.maxIter > 0 && IsRow(f, row, a) && IsRow(f, row, b)
    ensures a == b
  {
    forall col | 0 <= col < f.width
      ensures a[col] == b[col]
    {
      SamePoint(f, row, col, f, row, col, a[col], b[col]);
    }
  }

  /** A point has only one shade, in whichever picture it is. */
  lemma SamePoint(f: Frame, row: int, col: int, g: Frame, row2: int, col2: int, a: Byte, b: Byte)
    requires f.maxIter == g.maxIter > 0 && PointAt(f, row, col) == PointAt(g, row2, col2)
    ensures IsPixel(f, row, col, a) && IsPixel(g, row2, col2, b) ==> a == b
  {
    if IsPixel(f, row, col, a) && IsPixel(g, row2, col2, b) {
      var c := PointAt(f, row, col);
      var m: nat :| EscapesAt(c, f.maxIter, m) && a == Shade(m, f.maxIter);
      var n: nat :| EscapesAt(c, f.maxIter, n) && b == Shade(n, f.maxIter);
      EscapeTimeUnique(c, f.maxIter, m, n);
    }
  }

  /** With the image centred on the real axis, rows r and height - r are the same pixels. */
  lemma MirrorRows(f: Frame, row: int, pixels: seq<Byte>)
    requires f.maxIter > 0 && f.centerY == 0.0
    requires IsRow(f, row, pixels)
    ensures IsRow(f, f.height - row, pixels)
  {
    forall col | 0 <= col < f.width
      ensures IsPixel(f, f.height - row, col, pixels[col])
    {
      var c := PointAt(f, row, col);
      assert IsPixel(f, row, col, pixels[col]);
      var n: nat :| EscapesAt(c, f.maxIter, n) && pixels[col] == Shade(n, f.maxIter);
      MirrorPoint(f, row, col);
      ConjugateEscapes(c, f.maxIter, n);
    }
  }

  lemma MirrorPoint(f: Frame, row: int, col: int)
    requires f.centerY == 0.0
    ensures PointAt(f, f.height - row, col) == PointAt(f, row, col).Conjugate()
  {
    OffsetMirrors(row, f.height, f.zoom);
  }

  lemma OffsetMirrors(i: int, size: nat, zoom: real)
    ensures Offset(size - i, size, zoom) == -Offset(i, size, zoom)
  {
    var half := size as real / 2.0;
    assert (size - i) as real - half == -(i as real - half);
    Negates(i as real - half, zoom);
  }

  lemma Negates(a: real, b: real)
    ensures (-a) * b == -(a * b)
  {
  }

  // ---- Where the pixels are ------------------------------------------------------------------

  /** Moving the centre right by one zoom step moves the picture left by one column. */
  lemma ShiftColumns(f: Frame, row: int, a: seq<Byte>, b: seq<Byte>)
    requires f.maxIter > 0
    requires IsRow(f, row, a) && IsRow(f.(centerX := f.centerX + f.zoom), row, b)
    ensures forall col: nat, right: nat | right == col + 1 && right < f.width :: b[col] == a[right]
  {
    var g := f.(centerX := f.centerX + f.zoom);
    forall col: nat, right: nat | right == col + 1 && right < f.width
      ensures b[col] == a[right]
    {
      PointRight(f, row, col);
      assert IsPixel(f, row, right, a[right]) && IsPixel(g, row, col, b[col]);
      SamePoint(f, row, right, g, row, col, a[right], b[col]);
    }
  }

  lemma PointRight(f: Frame, row: int, col: int)
    ensures PointAt(f, row, col + 1) == PointAt(f.(centerX := f.centerX + f.zoom), row, col)
  {
    OffsetNext(col, f.width, f.zoom);
  }

  lemma PointBelow(f: Frame, row: int, col: int)
    ensures PointAt(f, row + 1, col) == PointAt(f.(centerY := f.centerY - f.zoom), row, col)
  {
    OffsetNext(row, f.height, f.zoom);
  }

  lemma OffsetNext(i: int, size: nat, zoom: real)
    ensures Offset(i + 1, size, zoom) == Offset(i, size, zoom) + zoom
  {
    StepOn(i as real, (i + 1) as real, size as real / 2.0, zoom);
  }

  lemma StepOn(x: real, next: real, half: real, zoom: real)
    requires next == x + 1.0
    ensures (next - half) * zoom == (x - half) * zoom + zoom
  {
    Distributes(x - half, 1.0, zoom);
    assert next - half == (x - half) + 1.0;
  }

  /** Moving the centre down by one zoom step moves the picture up by one row: rows run downwards. */
  lemma ShiftRows(f: Frame, row: int, a: seq<Byte>, b: seq<Byte>)
    requires f.maxIter > 0
    requires IsRow(f, row + 1, a) && IsRow(f.(centerY := f.centerY - f.zoom), row, b)
    ensures a == b
  {
    var g := f.(centerY := f.centerY - f.zoom);
    forall col | 0 <= col < f.width
      ensures a[col] == b[col]
    {
      PointBelow(f, row, col);
      assert IsPixel(f, row + 1, col, a[col]) && IsPixel(g, row, col, b[col]);
      SamePoint(f, row + 1, col, g, row, col, a[col], b[col]);
    }
  }

  /** The middle pixel of an image of even width and height shows the centre. */
  lemma MiddlePixel(f: Frame, row: nat, col: nat, pixels: seq<Byte>, n: nat)
    requires f.maxIter > 0 && f.height == 2 * row && f.width == 2 * col && f.width > 0
    requires IsRow(f, row, pixels) && EscapesAt(Point(f.centerX, f.centerY), f.maxIter, n)
    ensures pixels[col] == Shade(n, f.maxIter)
  {
    assert f.width as real / 2.0 == col as real && f.height as real / 2.0 == row as real;
    assert PointAt(f, row, col) == Point(f.centerX, f.centerY);
    assert IsPixel(f, row, col, pixels[col]);
    var m: nat :| EscapesAt(PointAt(f, row, col), f.maxIter, m) && pixels[col] == Shade(m, f.maxIter);
    EscapeTimeUnique(Point(f.centerX, f.centerY), f.maxIter, m, n);
  }
}
