/** Clipped Bresenham line drawing (native_client/cmd/emoticongen/draw.go).

    The integer error-accumulating loop is proved against a closed form: the
    k-th pixel advances k steps along the longer axis and the nearest whole
    number of steps (ties rounded down) along the shorter one. */
module LineDrawing {

  import opened Prelude

  datatype Point = Point(x: int, y: int)

  datatype NRGBA = NRGBA(r: int, g: int, b: int, a: int)

  function Max(a: int, b: int): int {
    if a >= b then a else b
  }

  /** The coordinate reached after some unit steps from `from` towards `to`. */
  function Walk(from: int, to: int, steps: int): int {
    if from > to then from - steps else from + steps
  }

  /** q is a whole number nearest to n/d, the lower one when n/d is half-way. */
  ghost predicate IsNearestDown(n: int, d: int, q: int) {
    -d < 2 * (n - q * d) <= d
  }

  lemma NearestDownExists(n: int, d: int)
    requires n >= 0 && d > 0
    ensures exists q: nat :: IsNearestDown(n, d, q)
  {
    var q: nat := (2 * n + d - 1) / (2 * d);
    assert 2 * n + d - 1 == (2 * d) * q + (2 * n + d - 1) % (2 * d);
    assert (2 * d) * q == 2 * (q * d);
    assert IsNearestDown(n, d, q);
  }

  lemma NearestDownUnique(n: int, d: int, q: int, r: int)
    requires d > 0 && IsNearestDown(n, d, q) && IsNearestDown(n, d, r)
    ensures q == r
  {
    var m := q - r;
    assert q * d - r * d == m * d;
    if m != 0 {
      MultipleAtLeast(m, d);
    }
  }

  lemma ProductNonNegative(a: int, b: int)
    requires a >= 0 && b >= 0
    ensures a * b >= 0
  {}

  lemma MultipleAtLeast(m: int, d: int)
    requires m != 0 && d >= 0
    ensures if m > 0 then m * d >= d else m * d <= -d
  {
    if m > 0 {
      ProductNonNegative(m - 1, d);
      assert (m - 1) * d == m * d - d;
    } else {
      ProductNonNegative(-1 - m, d);
      assert (-1 - m) * d == -d - m * d;
    }
  }

  /** n/d rounded to the nearest whole number, halves down. */
  ghost function NearestDown(n: int, d: int): (q: nat)
    requires n >= 0 && d > 0
    ensures IsNearestDown(n, d, q)
  {
    NearestDownExists(n, d);
    var q: nat :| IsNearestDown(n, d, q);
    q
  }

  /** Number of unit moves between the end points. */
  function Moves(x0: int, y0: int, x1: int, y1: int): nat {
    Max(Abs(x1 - x0), Abs(y1 - y0))
  }

  /** Steps taken along an axis of extent d after k of n moves. */
  ghost function Offset(k: int, d: int, n: int): nat
    requires 0 <= k <= n && 0 <= d <= n
  {
    if d == n then k else NearestDown(k * d, n)
  }

  /** The k-th pixel of the line, by rounding instead of by accumulation. */
  ghost function LinePoint(x0: int, y0: int, x1: int, y1: int, k: nat): Point
    requires k <= Moves(x0, y0, x1, y1)
  {
    var n := Moves(x0, y0, x1, y1);
    Point(Walk(x0, x1, Offset(k, Abs(x1 - x0), n)), Walk(y0, y1, Offset(k, Abs(y1 - y0), n)))
  }

  ghost function LinePoints(x0: int, y0: int, x1: int, y1: int): (s: seq<Point>) {
    seq(Moves(x0, y0, x1, y1) + 1,
        k requires 0 <= k <= Moves(x0, y0, x1, y1) => LinePoint(x0, y0, x1, y1, k))
  }

  /** Scaled distance of the lattice point (i, j) from the ideal segment to (dx, dy). */
  function Deviation(i: int, j: int, dx: int, dy: int): int {
    i * dy - j * dx
  }

  /** The value of the loop's `err` after i moves in x and j in y. */
  function ErrorTerm(i: int, j: int, dx: int, dy: int): int {
    dx - dy - Deviation(i, j, dx, dy)
  }

  lemma ErrorTermStep(i: int, j: int, dx: int, dy: int)
    ensures ErrorTerm(i + 1, j, dx, dy) == ErrorTerm(i, j, dx, dy) - dy
    ensures ErrorTerm(i, j + 1, dx, dy) == ErrorTerm(i, j, dx, dy) + dx
    ensures ErrorTerm(i + 1, j + 1, dx, dy) == ErrorTerm(i, j, dx, dy) - dy + dx
  {}

  /** What one pass of the loop does to the counts of x and y moves:
      it takes (Offset(k, dx), Offset(k, dy)) to the same for k + 1. */
  lemma StepFollowsRounding(dx: int, dy: int, k: int, i: int, j: int)
    requires dx >= 0 && dy >= 0 && 0 <= k < Max(dx, dy)
    requires i == Offset(k, dx, Max(dx, dy)) && j == Offset(k, dy, Max(dx, dy))
    ensures var e2 := 2 * ErrorTerm(i, j, dx, dy);
            && Offset(k + 1, dx, Max(dx, dy)) == i + (if e2 > -dy then 1 else 0)
            && Offset(k + 1, dy, Max(dx, dy)) == j + (if e2 < dx then 1 else 0)
  {
    if dx == dy {
      assert Deviation(i, j, dx, dy) == 0;
    } else if dx > dy {
      NextOffset(k, j, dy, dx);
    } else {
      NextOffset(k, i, dx, dy);
    }
  }

  lemma NextOffset(k: int, q: int, minor: int, major: int)
    requires 0 <= minor < major && 0 <= k < major && q == Offset(k, minor, major)
    ensures Offset(k + 1, minor, major) ==
            q + (if 2 * (k * minor - q * major) > major - 2 * minor then 1 else 0)
    ensures -major < 2 * (k * minor - q * major) <= major
  {
    StepRounds(k, q, minor, major);
    var q' := q + (if 2 * (k * minor - q * major) > major - 2 * minor then 1 else 0);
    NearestDownUnique((k + 1) * minor, major, q', NearestDown((k + 1) * minor, major));
  }

  /** From one column to the next the rounded offset q grows by one exactly
      when the error term says so. */
  lemma StepRounds(k: int, q: int, minor: int, major: int)
    requires 0 <= minor < major && IsNearestDown(k * minor, major, q)
    ensures IsNearestDown((k + 1) * minor, major,
                          q + (if 2 * (k * minor - q * major) > major - 2 * minor then 1 else 0))
  {
    assert (k + 1) * minor == k * minor + minor;
    assert (q + 1) * major == q * major + major;
  }

  lemma OffsetEnds(d: int, n: int)
    requires 0 <= d <= n
    ensures Offset(0, d, n) == 0 && Offset(n, d, n) == d
  {
    if d != n {
      assert 0 * d == 0;
      assert IsNearestDown(0 * d, n, 0);
      NearestDownUnique(0 * d, n, 0, NearestDown(0 * d, n));
      assert n * d == d * n;
      assert IsNearestDown(n * d, n, d);
      NearestDownUnique(n * d, n, d, NearestDown(n * d, n));
    }
  }

  /** The shorter axis never gets ahead of the longer one. */
  lemma OffsetAtMost(k: int, d: int, n: int)
    requires 0 <= k <= n && 0 <= d <= n
    ensures Offset(k, d, n) <= k
  {
    if d != n {
      var q := Offset(k, d, n);
      if q > k {
        assert q * n == (q - k) * n + k * n;
        MultipleAtLeast(q - k, n);
        assert k * n == k * d + k * (n - d);
        ProductNonNegative(k, n - d);
      }
    }
  }

  /** Every visited pixel is within half a pixel of the ideal line. */
  lemma WithinHalfPixel(x0: int, y0: int, x1: int, y1: int, k: nat)
    requires k <= Moves(x0, y0, x1, y1)
    ensures var p := LinePoint(x0, y0, x1, y1, k);
            var dx, dy := Abs(x1 - x0), Abs(y1 - y0);
            && 2 * Abs(Deviation(Abs(p.x - x0), Abs(p.y - y0), dx, dy)) <= Max(dx, dy)
            && Max(Abs(p.x - x0), Abs(p.y - y0)) == k
  {
    var dx, dy := Abs(x1 - x0), Abs(y1 - y0);
    var i, j := Offset(k, dx, Max(dx, dy)), Offset(k, dy, Max(dx, dy));
    var p := LinePoint(x0, y0, x1, y1, k);
    assert Abs(p.x - x0) == i && Abs(p.y - y0) == j;
    OffsetAtMost(k, dx, Max(dx, dy));
    OffsetAtMost(k, dy, Max(dx, dy));
  }

  /** No other pixel of the same column (row, for a steep line) is nearer to
      the ideal line than the visited one. */
  lemma NoNearerPixel(x0: int, y0: int, x1: int, y1: int, k: nat, other: nat)
    requires k <= Moves(x0, y0, x1, y1)
    ensures var p := LinePoint(x0, y0, x1, y1, k);
            var dx, dy := Abs(x1 - x0), Abs(y1 - y0);
            var i, j := Abs(p.x - x0), Abs(p.y - y0);
            && (dx >= dy ==> Abs(Deviation(i, j, dx, dy)) <= Abs(Deviation(i, other, dx, dy)))
            && (dx <= dy ==> Abs(Deviation(i, j, dx, dy)) <= Abs(Deviation(other, j, dx, dy)))
  {
    WithinHalfPixel(x0, y0, x1, y1, k);
    var p := LinePoint(x0, y0, x1, y1, k);
    var dx, dy := Abs(x1 - x0), Abs(y1 - y0);
    var i, j := Abs(p.x - x0), Abs(p.y - y0);
    if dx >= dy {
      ShiftedFartherOff(i * dy, j, other, dx);
    }
    if dx <= dy {
      ShiftedFartherOff(j * dx, i, other, dy);
    }
  }

  /** If j * d is within d/2 of t, no other multiple of d is nearer. */
  lemma ShiftedFartherOff(t: int, j: int, other: int, d: int)
    requires d >= 0 && 2 * Abs(t - j * d) <= d
    ensures Abs(t - j * d) <= Abs(t - other * d)
  {
    if other != j {
      MultipleAtLeast(other - j, d);
      assert other * d == j * d + (other - j) * d;
    }
  }

  lemma NextIsNeighbour(x0: int, y0: int, x1: int, y1: int, k: nat)
    requires 0 < k <= Moves(x0, y0, x1, y1)
    ensures var s := LinePoints(x0, y0, x1, y1);
            Max(Abs(s[k].x - s[k - 1].x), Abs(s[k].y - s[k - 1].y)) == 1
  {
    OffsetMoves(k, Abs(x1 - x0), Abs(y1 - y0));
    OffsetMoves(k, Abs(y1 - y0), Abs(x1 - x0));
  }

  lemma EndPoints(x0: int, y0: int, x1: int, y1: int)
    ensures var s := LinePoints(x0, y0, x1, y1); s[0] == Point(x0, y0) && s[|s| - 1] == Point(x1, y1)
  {
    OffsetEnds(Abs(x1 - x0), Moves(x0, y0, x1, y1));
    OffsetEnds(Abs(y1 - y0), Moves(x0, y0, x1, y1));
  }

  /** Along an axis each move is of no or one step, and of one if it is the longer
      axis. */
  lemma OffsetMoves(k: nat, d: int, other: int)
    requires d >= 0 && other >= 0 && 0 < k <= Max(d, other)
    ensures var step := Offset(k, d, Max(d, other)) - Offset(k - 1, d, Max(d, other));
            0 <= step <= 1 && (d >= other ==> step == 1)
  {
    var n := Max(d, other);
    StepFollowsRounding(d, other, k - 1, Offset(k - 1, d, n), Offset(k - 1, other, n));
  }

  /** The line starts and ends on the given points, and consecutive pixels are
      distinct 8-neighbours. */
  lemma LineIsConnected(x0: int, y0: int, x1: int, y1: int)
    ensures var s := LinePoints(x0, y0, x1, y1);
            && s[0] == Point(x0, y0)
            && s[|s| - 1] == Point(x1, y1)
            && forall k :: 0 < k < |s| ==>
                 && Max(Abs(s[k].x - s[k - 1].x), Abs(s[k].y - s[k - 1].y)) == 1
  {
    EndPoints(x0, y0, x1, y1);
    var s := LinePoints(x0, y0, x1, y1);
    forall k | 0 < k < |s|
      ensures Max(Abs(s[k].x - s[k - 1].x), Abs(s[k].y - s[k - 1].y)) == 1
    {
      NextIsNeighbour(x0, y0, x1, y1, k);
    }
  }

  class Image {
    const minX: int
    const minY: int
    const maxX: int
    const maxY: int
    const pix: array2<NRGBA>

    ghost predicate Valid() {
      minX <= maxX && minY <= maxY && pix.Length0 == maxX - minX && pix.Length1 == maxY - minY
    }

    constructor (minX: int, minY: int, maxX: int, maxY: int)
      requires minX <= maxX && minY <= maxY
      ensures Valid() && fresh(pix)
      ensures this.minX == minX && this.minY == minY && this.maxX == maxX && this.maxY == maxY
      ensures pix.Length0 == maxX - minX && pix.Length1 == maxY - minY
      ensures forall i, j :: 0 <= i < maxX - minX && 0 <= j < maxY - minY ==> pix[i, j] == NRGBA(0, 0, 0, 0)
    {
      this.minX, this.minY, this.maxX, this.maxY := minX, minY, maxX, maxY;
      pix := new NRGBA[maxX - minX, maxY - minY]((_, _) => NRGBA(0, 0, 0, 0));
    }

    predicate InBounds(p: Point) {
      minX <= p.x < maxX && minY <= p.y < maxY
    }

    method Set(p: Point, c: NRGBA)
      requires Valid() && minX <= p.x < maxX && minY <= p.y < maxY
      modifies pix
      ensures forall i, j :: 0 <= i < pix.Length0 && 0 <= j < pix.Length1 ==>
                pix[i, j] == if p == Point(minX + i, minY + j) then c else old(pix[i, j])
    {
      pix[p.x - minX, p.y - minY] := c;
    }

    /** The guarded write at the head of the loop: element (i, j) is pixel
        (minX + i, minY + j), and a point without an element changes nothing. */
    method SetClipped(p: Point, c: NRGBA)
      requires Valid()
      modifies pix
      ensures forall i, j :: 0 <= i < pix.Length0 && 0 <= j < pix.Length1 ==>
                pix[i, j] == if p == Point(minX + i, minY + j) then c else old(pix[i, j])
    {
      if InBounds(p) {
        Set(p, c);
      }
    }
  }

  /** One pass of the loop takes the point p with error term err to p' and err'. */
  predicate Advances(p: Point, err: int, p': Point, err': int, dx: int, dy: int, sx: int, sy: int) {
    var e2 := 2 * err;
    && p'.x == p.x + (if e2 > -dy then sx else 0)
    && p'.y == p.y + (if e2 < dx then sy else 0)
    && err' == err - (if e2 > -dy then dy else 0) + (if e2 < dx then dx else 0)
  }

  function Sign(from: int, to: int): int {
    if from > to then -1 else 1
  }

  /** The error terms that go with the points of a line. */
  ghost predicate IsTrace(x0: int, y0: int, x1: int, y1: int, path: seq<Point>, errs: seq<int>) {
    var dx, dy := Abs(x1 - x0), Abs(y1 - y0);
    && |path| == |errs| > 0
    && path[0] == Point(x0, y0) && errs[0] == dx - dy
    && (forall k :: 0 <= k < |path| - 1 ==>
          Advances(path[k], errs[k], path[k + 1], errs[k + 1], dx, dy, Sign(x0, x1), Sign(y0, y1)))
    && (forall k :: 0 <= k < |path| ==> (path[k] == Point(x1, y1) <==> k == |path| - 1))
  }

  ghost function ErrorAt(x0: int, y0: int, x1: int, y1: int, k: nat): int
    requires k <= Moves(x0, y0, x1, y1)
  {
    var dx, dy, n := Abs(x1 - x0), Abs(y1 - y0), Moves(x0, y0, x1, y1);
    ErrorTerm(Offset(k, dx, n), Offset(k, dy, n), dx, dy)
  }

  lemma StepAdvances(x0: int, y0: int, x1: int, y1: int, k: nat)
    requires k < Moves(x0, y0, x1, y1)
    ensures Advances(LinePoint(x0, y0, x1, y1, k), ErrorAt(x0, y0, x1, y1, k),
                     LinePoint(x0, y0, x1, y1, k + 1), ErrorAt(x0, y0, x1, y1, k + 1),
                     Abs(x1 - x0), Abs(y1 - y0), Sign(x0, x1), Sign(y0, y1))
  {
    var dx, dy, n := Abs(x1 - x0), Abs(y1 - y0), Moves(x0, y0, x1, y1);
    var i, j := Offset(k, dx, n), Offset(k, dy, n);
    StepFollowsRounding(dx, dy, k, i, j);
    ErrorTermStep(i, j, dx, dy);
  }

  lemma TraceOfLine(x0: int, y0: int, x1: int, y1: int) returns (errs: seq<int>)
    ensures IsTrace(x0, y0, x1, y1, LinePoints(x0, y0, x1, y1), errs)
  {
    var n := Moves(x0, y0, x1, y1);
    errs := seq(n + 1, k requires 0 <= k <= n => ErrorAt(x0, y0, x1, y1, k));
    var path := LinePoints(x0, y0, x1, y1);
    OffsetEnds(Abs(x1 - x0), n);
    OffsetEnds(Abs(y1 - y0), n);
    forall k | 0 <= k < n
      ensures Advances(path[k], errs[k], path[k + 1], errs[k + 1],
                       Abs(x1 - x0), Abs(y1 - y0), Sign(x0, x1), Sign(y0, y1))
    {
      StepAdvances(x0, y0, x1, y1, k);
    }
    forall k | 0 <= k <= n
      ensures path[k] == Point(x1, y1) <==> k == n
    {
      AtTargetOnlyAtEnd(x0, y0, x1, y1, k);
    }
  }

  /** Draws the line: for all end points the loop stops after exactly
      Moves(x0, y0, x1, y1) moves on (x1, y1), and it changes the array elements
      of the pixels among LinePoints and no others. `visited` lists the points in order. */
  method DrawLine(dst: Image, x0: int, y0: int, x1: int, y1: int, c: NRGBA)
    returns (ghost visited: seq<Point>)
    requires dst.Valid()
    modifies dst.pix
    ensures visited == LinePoints(x0, y0, x1, y1)
    ensures forall i, j :: 0 <= i < dst.pix.Length0 && 0 <= j < dst.pix.Length1 ==>
              dst.pix[i, j] == if Point(dst.minX + i, dst.minY + j) in LinePoints(x0, y0, x1, y1) then c
                               else old(dst.pix[i, j])
  {
    ghost var errs := TraceOfLine(x0, y0, x1, y1);
    visited := LinePoints(x0, y0, x1, y1);
    DrawAlong(dst, x0, y0, x1, y1, c, visited, errs);
  }

  /** The body of drawLine, for any trace of its error term. */
  method DrawAlong(dst: Image, x0: int, y0: int, x1: int, y1: int, c: NRGBA,
                   ghost path: seq<Point>, ghost errs: seq<int>)
    requires dst.Valid() && IsTrace(x0, y0, x1, y1, path, errs)
    modifies dst.pix
    ensures forall i, j :: 0 <= i < dst.pix.Length0 && 0 <= j < dst.pix.Length1 ==>
              dst.pix[i, j] == if Point(dst.minX + i, dst.minY + j) in path then c else old(dst.pix[i, j])
  {
    var dx := Abs(x1 - x0);
    var dy := Abs(y1 - y0);
    var sx, sy := 1, 1;
    if x0 > x1 {
      sx := -1;
    }
    if y0 > y1 {
      sy := -1;
    }
    var err := dx - dy;
    var x, y := x0, y0;
    ghost var k := 0;
    while true
      invariant 0 <= k < |path| && Point(x, y) == path[k] && err == errs[k]
      invariant forall i, j :: 0 <= i < dst.pix.Length0 && 0 <= j < dst.pix.Length1 ==>
                  dst.pix[i, j] == if Point(dst.minX + i, dst.minY + j) in path[..k] then c else old(dst.pix[i, j])
      decreases |path| - k
    {
      dst.SetClipped(Point(x, y), c);
      assert path[..k + 1] == path[..k] + [Point(x, y)];
      if x == x1 && y == y1 {
        break;
      }
      assert Advances(path[k], errs[k], path[k + 1], errs[k + 1], dx, dy, sx, sy);
      var e2 := 2 * err;
      if e2 > -dy {
        err := err - dy;
        x := x + sx;
      }
      if e2 < dx {
        err := err + dx;
        y := y + sy;
      }
      k := k + 1;
    }
    assert path[..k + 1] == path;
  }

  /** The target is reached no earlier than the last move. */
  lemma AtTargetOnlyAtEnd(x0: int, y0: int, x1: int, y1: int, k: nat)
    requires k <= Moves(x0, y0, x1, y1)
    ensures LinePoint(x0, y0, x1, y1, k) == Point(x1, y1) <==> k == Moves(x0, y0, x1, y1)
  {
    WithinHalfPixel(x0, y0, x1, y1, k);
    OffsetEnds(Abs(x1 - x0), Moves(x0, y0, x1, y1));
    OffsetEnds(Abs(y1 - y0), Moves(x0, y0, x1, y1));
  }

  const INT64_MAX := 0x7FFF_FFFF_FFFF_FFFF

  predicate FitsInt64(n: int) {
    -INT64_MAX - 1 <= n <= INT64_MAX
  }

  /** What the loop computes with at the k-th point: the error term, its double,
      and the error term after either update alone and after both stay within
      three times the longer extent. So for extents below 2^61 nothing but the
      coordinates themselves could overflow a 64-bit integer. */
  lemma ErrorTermBounded(x0: int, y0: int, x1: int, y1: int, k: nat)
    requires k <= Moves(x0, y0, x1, y1)
    ensures var dx, dy, err := Abs(x1 - x0), Abs(y1 - y0), ErrorAt(x0, y0, x1, y1, k);
            forall n :: n == err || n == 2 * err || n == err - dy || n == err + dx || n == err - dy + dx ==>
              && Abs(n) <= 3 * Max(dx, dy)
              && (Max(dx, dy) < 0x2000_0000_0000_0000 ==> FitsInt64(n))
  {
    WithinHalfPixel(x0, y0, x1, y1, k);
    var p := LinePoint(x0, y0, x1, y1, k);
    var dx, dy, n := Abs(x1 - x0), Abs(y1 - y0), Moves(x0, y0, x1, y1);
    OffsetAtMost(k, dx, n);
    OffsetAtMost(k, dy, n);
    assert Abs(p.x - x0) == Offset(k, dx, n) && Abs(p.y - y0) == Offset(k, dy, n);
    TermsBounded(dx, dy, Deviation(Offset(k, dx, n), Offset(k, dy, n), dx, dy));
  }

  lemma TermsBounded(dx: int, dy: int, deviation: int)
    requires dx >= 0 && dy >= 0 && 2 * Abs(deviation) <= Max(dx, dy)
    ensures var err := dx - dy - deviation;
            forall n :: n == err || n == 2 * err || n == err - dy || n == err + dx || n == err - dy + dx ==>
              && Abs(n) <= 3 * Max(dx, dy)
              && (Max(dx, dy) < 0x2000_0000_0000_0000 ==> FitsInt64(n))
  {}
}
