/** The line loop of the two display drivers: an endless loop that stops, and the closed form of every
    point it writes. */
module Line {

  type int8 = x: int | -128 <= x < 128
  type uint16 = x: int | 0 <= x < 0x1_0000

  datatype Point = Point(x: int, y: int)

  function Abs(a: int): (r: int)
    ensures r >= 0
  {
    if a < 0 then -a else a
  }

  /** k steps from a towards b. */
  function Toward(a: int, b: int, k: int): int { if a < b then a + k else a - k }

  function Product(k: int, d: int): int { k * d }

  lemma ProductNext(k: int, d: int)
    ensures Product(k + 1, d) == Product(k, d) + d && Product(0, d) == 0
  {}

  lemma ProductOrder(j: int, k: int, d: nat)
    requires j <= k
    ensures Product(j, d) <= Product(k, d)
  {}

  lemma ProductComm(j: int, k: int)
    ensures Product(j, k) == Product(k, j)
  {}

  // ----- the ideal line -----

  /** What the error term is after k steps along the major axis and n along the other. */
  function Slack(k: int, n: int, minor: nat, major: nat): int { major / 2 - Product(k, minor) + Product(n, major) }

  /** Steps along the minor axis after k steps along the major one: k * minor / major rounded to the
      nearest whole number, halves downwards. */
  function Minor(k: nat, minor: nat, major: nat): int
    requires major > 0
  {
    (Product(k, minor) + major - 1 - major / 2) / major
  }

  lemma QuotientIs(a: int, m: nat, n: int)
    requires m > 0
    ensures n == a / m <==> 0 <= a - Product(n, m) < m
  {
    var q, r := a / m, a % m;
    assert a == q * m + r;
    if n < q { ProductOrder(n + 1, q, m); ProductNext(n, m); }
    if n > q { ProductOrder(q + 1, n, m); ProductNext(q, m); }
  }

  lemma MinorIs(k: nat, n: int, minor: nat, major: nat)
    requires major > 0
    ensures n == Minor(k, minor, major) <==> 0 <= Slack(k, n, minor, major) < major
  {
    hide Product;
    QuotientIs(Product(k, minor) + major - 1 - major / 2, major, n);
  }

  /** The rounding is at most half a pixel off, and no whole number is nearer. */
  lemma MinorNearest(k: nat, j: int, minor: nat, major: nat)
    requires major > 0
    ensures var n := Minor(k, minor, major);
      2 * Abs(Product(k, minor) - Product(n, major)) <= major &&
      Abs(Product(k, minor) - Product(n, major)) <= Abs(Product(k, minor) - Product(j, major))
  {
    hide Product;
    var n := Minor(k, minor, major);
    MinorIs(k, n, minor, major);
    ProductNext(n, major);
    ProductNext(n - 1, major);
    if j < n { ProductOrder(j, n - 1, major); }
    if j > n { ProductOrder(n + 1, j, major); }
  }

  lemma MinorEnds(minor: nat, major: nat)
    requires major > 0
    ensures Minor(0, minor, major) == 0 && Minor(major, minor, major) == minor
  {
    hide Product, Minor;
    ProductNext(0, minor);
    ProductNext(0, major);
    ProductComm(major, minor);
    MinorIs(0, 0, minor, major);
    MinorIs(major, minor, minor, major);
  }

  /** One step along the major axis takes none or one along the other. */
  lemma MinorStep(k: nat, minor: nat, major: nat)
    requires 0 < major && minor <= major
    ensures var n := Minor(k, minor, major);
      Minor(k + 1, minor, major) == if Slack(k, n, minor, major) < minor then n + 1 else n
  {
    hide Product, Minor;
    var n := Minor(k, minor, major);
    MinorIs(k, n, minor, major);
    ProductNext(k, minor);
    ProductNext(n, major);
    MinorIs(k + 1, n + 1, minor, major);
    MinorIs(k + 1, n, minor, major);
  }

  lemma {:induction false} MinorBounds(k: nat, j: nat, minor: nat, major: nat)
    requires 0 < major && minor <= major && j <= k
    ensures Minor(j, minor, major) <= Minor(k, minor, major)
    decreases k - j
  {
    hide Minor;
    if j < k {
      MinorBounds(k - 1, j, minor, major);
      MinorStep(k - 1, minor, major);
    }
  }

  /** Number of steps along the major axis. */
  function Steps(dx: nat, dy: nat): nat { if dx > dy then dx else dy }

  /** The k-th point of the line from (x0, y0) to (x1, y1). */
  function LinePoint(x0: int, y0: int, x1: int, y1: int, k: nat): Point {
    var dx, dy := Abs(x1 - x0), Abs(y1 - y0);
    if dx > dy then Point(Toward(x0, x1, k), Toward(y0, y1, Minor(k, dy, dx)))
    else if dy > 0 then Point(Toward(x0, x1, Minor(k, dx, dy)), Toward(y0, y1, k))
    else Point(x0, y0)
  }

  lemma LineEnds(x0: int, y0: int, x1: int, y1: int)
    ensures LinePoint(x0, y0, x1, y1, 0) == Point(x0, y0)
    ensures LinePoint(x0, y0, x1, y1, Steps(Abs(x1 - x0), Abs(y1 - y0))) == Point(x1, y1)
  {
    hide Minor;
    var dx, dy := Abs(x1 - x0), Abs(y1 - y0);
    if dx > dy { MinorEnds(dy, dx); } else if dy > 0 { MinorEnds(dx, dy); }
  }

  /** Neighbouring points differ by one along the major axis and by at most one along the other. */
  lemma LineMoves(x0: int, y0: int, x1: int, y1: int, k: nat)
    requires (x0, y0) != (x1, y1)
    ensures var p, q := LinePoint(x0, y0, x1, y1, k), LinePoint(x0, y0, x1, y1, k + 1);
      if Abs(x1 - x0) > Abs(y1 - y0) then Abs(q.x - p.x) == 1 && Abs(q.y - p.y) <= 1
      else Abs(q.y - p.y) == 1 && Abs(q.x - p.x) <= 1
  {
    hide Minor, Slack;
    var dx, dy := Abs(x1 - x0), Abs(y1 - y0);
    if dx > dy { MinorStep(k, dy, dx); } else { MinorStep(k, dx, dy); }
  }

  /** Every point is within half a pixel of the segment. */
  lemma LineClose(x0: int, y0: int, x1: int, y1: int, k: nat)
    ensures var p, dx, dy := LinePoint(x0, y0, x1, y1, k), Abs(x1 - x0), Abs(y1 - y0);
      2 * Abs(Product(Abs(p.x - x0), dy) - Product(Abs(p.y - y0), dx)) <= Steps(dx, dy)
  {
    hide Minor, Product;
    var dx, dy := Abs(x1 - x0), Abs(y1 - y0);
    ProductNext(0, 0);
    if dx > dy {
      MinorEnds(dy, dx);
      MinorBounds(k, 0, dy, dx);
      MinorNearest(k, 0, dy, dx);
    } else if dy > 0 {
      MinorEnds(dx, dy);
      MinorBounds(k, 0, dx, dy);
      MinorNearest(k, 0, dx, dy);
    }
  }

  /** Every point lies in the box of the two ends. */
  lemma LineInside(x0: int, y0: int, x1: int, y1: int, k: nat)
    requires k <= Steps(Abs(x1 - x0), Abs(y1 - y0))
    ensures var p := LinePoint(x0, y0, x1, y1, k);
      (x0 <= p.x <= x1 || x1 <= p.x <= x0) && (y0 <= p.y <= y1 || y1 <= p.y <= y0)
  {
    hide Minor;
    var dx, dy := Abs(x1 - x0), Abs(y1 - y0);
    if dx > dy {
      MinorEnds(dy, dx);
      MinorBounds(k, 0, dy, dx);
      MinorBounds(dx, k, dy, dx);
    } else if dy > 0 {
      MinorEnds(dx, dy);
      MinorBounds(k, 0, dx, dy);
      MinorBounds(dy, k, dx, dy);
    }
  }

  // ----- the loop -----

  /** The error term after k steps: below the major distance, on the side its start chose. */
  function Err(dx: int, dy: int, k: nat): int
    requires dx >= 0 && dy >= 0
  {
    if dx > dy then Slack(k, Minor(k, dy, dx), dy, dx)
    else if dy > 0 then -Slack(k, Minor(k, dx, dy), dx, dy)
    else 0
  }

  /** Its start; the division truncates. */
  function FirstErr(dx: int, dy: int): int
    requires dx >= 0 && dy >= 0
  {
    if dx > dy then dx / 2 else -(dy / 2)
  }

  lemma ErrRange(dx: int, dy: int, k: nat)
    requires dx >= 0 && dy >= 0
    ensures dx > dy ==> 0 <= Err(dx, dy, k) < dx
    ensures dy >= dx && dy > 0 ==> -dy < Err(dx, dy, k) <= 0
  {
    hide Minor, Slack;
    if dx > dy { MinorIs(k, Minor(k, dy, dx), dy, dx); } else if dy > 0 { MinorIs(k, Minor(k, dx, dy), dx, dy); }
  }

  lemma ErrStart(dx: nat, dy: nat)
    ensures Err(dx, dy, 0) == FirstErr(dx, dy)
  {
    hide Product, Minor;
    if dx > dy { MinorEnds(dy, dx); ProductNext(0, dy); ProductNext(0, dx); }
    else if dy > 0 { MinorEnds(dx, dy); ProductNext(0, dx); ProductNext(0, dy); }
  }

  /** What the two tests of the loop body do. */
  lemma LoopStep(x0: int, y0: int, x1: int, y1: int, k: nat)
    requires (x0, y0) != (x1, y1)
    ensures var dx, dy := Abs(x1 - x0), Abs(y1 - y0);
      var e, p, q := Err(dx, dy, k), LinePoint(x0, y0, x1, y1, k), LinePoint(x0, y0, x1, y1, k + 1);
      Err(dx, dy, k + 1) == e - (if e > -dx then dy else 0) + (if e < dy then dx else 0) &&
      q.x == p.x + (if e > -dx then Toward(0, x1 - x0, 1) else 0) &&
      q.y == p.y + (if e < dy then Toward(0, y1 - y0, 1) else 0)
  {
    hide Product, Minor;
    var dx, dy := Abs(x1 - x0), Abs(y1 - y0);
    ErrRange(dx, dy, k);
    ProductNext(k, dx);
    ProductNext(k, dy);
    if dx > dy {
      MinorStep(k, dy, dx);
      ProductNext(Minor(k, dy, dx), dx);
    } else {
      MinorStep(k, dx, dy);
      ProductNext(Minor(k, dx, dy), dy);
    }
  }

  /** The line is not finished before its last step. */
  lemma NotYet(x0: int, y0: int, x1: int, y1: int, k: nat)
    requires k <= Steps(Abs(x1 - x0), Abs(y1 - y0))
    ensures LinePoint(x0, y0, x1, y1, k) == Point(x1, y1) <==> k == Steps(Abs(x1 - x0), Abs(y1 - y0))
  {
    hide Minor;
    LineEnds(x0, y0, x1, y1);
  }

  /** The loop both display drivers write out, over unbounded coordinates: the pixels written, in order. */
  method DrawLine(x0: int, y0: int, x1: int, y1: int) returns (points: seq<Point>)
    ensures |points| == Steps(Abs(x1 - x0), Abs(y1 - y0)) + 1
    ensures forall k :: 0 <= k < |points| ==> points[k] == LinePoint(x0, y0, x1, y1, k)
  {
    hide Err, LinePoint;
    var x, y := x0, y0;
    var dx, dy := Abs(x1 - x0), Abs(y1 - y0);
    var sx: int := if x0 < x1 then 1 else -1;
    var sy: int := if y0 < y1 then 1 else -1;
    var err := FirstErr(dx, dy);
    points := [];
    ErrStart(dx, dy);
    LineEnds(x0, y0, x1, y1);
    while true
      invariant |points| <= Steps(dx, dy)
      invariant forall k :: 0 <= k < |points| ==> points[k] == LinePoint(x0, y0, x1, y1, k)
      invariant Point(x, y) == LinePoint(x0, y0, x1, y1, |points|) && err == Err(dx, dy, |points|)
      decreases Steps(dx, dy) - |points|
    {
      ghost var k := |points|;
      NotYet(x0, y0, x1, y1, k);
      points := points + [Point(x, y)];
      if x == x1 && y == y1 { break; }
      LoopStep(x0, y0, x1, y1, k);
      var e2 := err;
      if e2 > -dx {
        err := err - dy;
        x := x + sx;
      }
      if e2 < dy {
        err := err + dx;
        y := y + sy;
      }
    }
  }

  /** ks0713_draw_line: no coordinate leaves the signed 8-bit type. */
  method Ks0713DrawLine(x0: int8, y0: int8, x1: int8, y1: int8) returns (points: seq<Point>)
    ensures |points| == Steps(Abs(x1 - x0), Abs(y1 - y0)) + 1
    ensures forall k :: 0 <= k < |points| ==>
      points[k] == LinePoint(x0, y0, x1, y1, k) && -0x80 <= points[k].x < 0x80 && -0x80 <= points[k].y < 0x80
  {
    hide LinePoint;
    points := DrawLine(x0, y0, x1, y1);
    forall k | 0 <= k < |points| ensures -0x80 <= points[k].x < 0x80 && -0x80 <= points[k].y < 0x80 {
      LineInside(x0, y0, x1, y1, k);
    }
  }

  /** ili9340_drawLine: no coordinate leaves the unsigned 16-bit type. */
  method Ili9340DrawLine(x0: uint16, y0: uint16, x1: uint16, y1: uint16) returns (points: seq<Point>)
    ensures |points| == Steps(Abs(x1 - x0), Abs(y1 - y0)) + 1
    ensures forall k :: 0 <= k < |points| ==>
      points[k] == LinePoint(x0, y0, x1, y1, k) && 0 <= points[k].x < 0x1_0000 && 0 <= points[k].y < 0x1_0000
  {
    hide LinePoint;
    points := DrawLine(x0, y0, x1, y1);
    forall k | 0 <= k < |points| ensures 0 <= points[k].x < 0x1_0000 && 0 <= points[k].y < 0x1_0000 {
      LineInside(x0, y0, x1, y1, k);
    }
  }
}
