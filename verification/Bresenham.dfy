/** The line of hal/display_fb.c against the exact line. */
module Bresenham {

  datatype Point = Point(x: int, y: int)

  function Abs(n: int): nat { if n < 0 then -n else n }
  function Sign(a: int, b: int): int { if a < b then 1 else -1 }
  function Max(a: int, b: int): int { if a < b then b else a }

  /** `num / den` rounded to the nearest integer, halves up. */
  function Round(num: nat, den: nat): nat
    requires den > 0
  {
    (2 * num + den) / (2 * den)
  }

  /** Offset along the minor axis, of length `minor`, after `i` of `major` steps along the other one. */
  function Minor(i: nat, minor: nat, major: nat): nat {
    if major == 0 then 0 else Round(i * minor, major)
  }

  /** Number of steps from one end to the other. */
  function Steps(p: Point, q: Point): nat {
    Max(Abs(q.x - p.x), Abs(q.y - p.y))
  }

  /** Point `i` of the line: the exact line rounded on its minor axis. */
  function LinePoint(p: Point, q: Point, i: nat): Point {
    var dx, dy := Abs(q.x - p.x), Abs(q.y - p.y);
    if dy <= dx then Point(p.x + Sign(p.x, q.x) * i, p.y + Sign(p.y, q.y) * Minor(i, dy, dx))
    else Point(p.x + Sign(p.x, q.x) * Minor(i, dx, dy), p.y + Sign(p.y, q.y) * i)
  }

  function Line(p: Point, q: Point): (r: seq<Point>)
    ensures |r| == Steps(p, q) + 1
  {
    seq(Steps(p, q) + 1, i requires 0 <= i <= Steps(p, q) => LinePoint(p, q, i))
  }

  // ---------------------------------------------------------------- rounding

  lemma MulMono(d: nat, a: int, b: int)
    requires a <= b
    ensures d * a <= d * b
  {
  }

  lemma DivUnique(n: int, d: nat, q: int)
    requires d > 0 && d * q <= n < d * q + d
    ensures n / d == q
  {
    var r := n / d;
    assert d * r <= n < d * r + d;
    if r < q { MulMono(d, r + 1, q); }
    if q < r { MulMono(d, q + 1, r); }
  }

  /** `b` is the rounding of `num / den` exactly when it is at most half a unit off. */
  lemma RoundIff(num: nat, den: nat, b: nat)
    requires den > 0
    ensures b == Round(num, den) <==> -(den as int) <= 2 * (num - b * den) < den
  {
    var n, d := 2 * num + den, 2 * den;
    var q := n / d;
    assert d * q <= n < d * q + d;
    assert d * b == 2 * (b * den) && d * q == 2 * (q * den);
    if -(den as int) <= 2 * (num - b * den) < den { DivUnique(n, d, b); }
  }

  /** The rounded offset is at most half a unit off the exact one. */
  lemma HalfUnit(i: nat, minor: nat, major: nat)
    requires minor <= major && i <= major
    ensures -(major as int) <= 2 * (i * minor - Minor(i, minor, major) * major) <= major
  {
    hide Round;
    if major > 0 { RoundIff(i * minor, major, Minor(i, minor, major)); }
  }

  /** How far point `r` is off the line through `p` and `q` on the minor axis, times the length of the major axis. */
  function Deviation(p: Point, q: Point, r: Point): int {
    (r.x - p.x) * (q.y - p.y) - (r.y - p.y) * (q.x - p.x)
  }

  /** Every plotted point is within half a pixel of the exact line, on the minor axis. */
  lemma HalfPixel(p: Point, q: Point, i: nat)
    requires i <= Steps(p, q)
    ensures 2 * Abs(Deviation(p, q, LinePoint(p, q, i))) <= Steps(p, q)
  {
    var dx, dy := Abs(q.x - p.x), Abs(q.y - p.y);
    var m := if dy <= dx then Minor(i, dy, dx) else Minor(i, dx, dy);
    if dy <= dx { HalfUnit(i, dy, dx); } else { HalfUnit(i, dx, dy); }
    hide Minor;
    SignedEnd(p.x, q.x);
    SignedEnd(p.y, q.y);
    if dy <= dx {
      Signs(Sign(p.x, q.x), Sign(p.y, q.y), i, m, dx, dy);
    } else {
      Signs(Sign(p.y, q.y), Sign(p.x, q.x), i, m, dy, dx);
    }
  }

  lemma SignedEnd(a: int, b: int)
    ensures b - a == Sign(a, b) * Abs(b - a)
  {
  }

  lemma Signs(s: int, t: int, i: nat, m: nat, major: nat, minor: nat)
    requires (s == 1 || s == -1) && (t == 1 || t == -1)
    ensures Abs((s * i) * (t * minor) - (t * m) * (s * major)) == Abs(i * minor - m * major)
    ensures Abs((t * m) * (s * major) - (s * i) * (t * minor)) == Abs(i * minor - m * major)
  {
    Product(s, t, i, minor);
    Product(t, s, m, major);
  }

  lemma Product(s: int, t: int, a: int, b: int)
    requires (s == 1 || s == -1) && (t == 1 || t == -1)
    ensures (s * a) * (t * b) == if s == t then a * b else -(a * b)
  {
    if s == 1 && t == -1 { assert (1 * a) * (-1 * b) == -(a * b); }
    if s == -1 && t == 1 { assert (-1 * a) * (1 * b) == -(a * b); }
    if s == -1 && t == -1 { assert (-1 * a) * (-1 * b) == a * b; }
  }

  lemma MinorEnds(minor: nat, major: nat)
    requires minor <= major
    ensures Minor(0, minor, major) == 0 && Minor(major, minor, major) == minor
  {
    hide Round;
    if major > 0 {
      RoundIff(0, major, 0);
      assert major * minor == minor * major;
      RoundIff(major * minor, major, minor);
    }
  }

  lemma MinorAtMost(i: nat, minor: nat, major: nat)
    requires minor <= major && i <= major
    ensures Minor(i, minor, major) <= minor
  {
    if major > 0 {
      var b, im, bm, mm := Minor(i, minor, major), i * minor, Minor(i, minor, major) * major, minor * major;
      hide Round, Minor;
      assert -(major as int) <= 2 * (im - bm) by { HalfUnit(i, minor, major); }
      assert im <= mm by { MulMono(minor, i, major); }
      assert bm >= mm + major || b <= minor by { if b > minor { MulMono(major, minor + 1, b); } }
    }
  }

  lemma MinorBounds(i: nat, minor: nat, major: nat)
    requires minor <= major && i <= major
    ensures Minor(i, minor, major) <= minor
    ensures i == 0 ==> Minor(i, minor, major) == 0
    ensures i == major ==> Minor(i, minor, major) == minor
  {
    hide Round, Minor;
    MinorAtMost(i, minor, major);
    MinorEnds(minor, major);
  }

  /** The error bound carries over to the next point: the minor axis advances exactly when the bound asks for it. */
  lemma NextMinor(i: nat, minor: nat, major: nat)
    requires minor <= major && 0 < major
    ensures var b := Minor(i, minor, major);
            Minor(i + 1, minor, major) == if 2 * (b * major) + major <= 2 * (i * minor) + 2 * minor then b + 1 else b
  {
    hide Round;
    var b := Minor(i, minor, major);
    var b' := if 2 * (b * major) + major <= 2 * (i * minor) + 2 * minor then b + 1 else b;
    var e := i * minor - b * major;
    RoundIff(i * minor, major, b);
    assert (i + 1) * minor == i * minor + minor;
    assert (b + 1) * major == b * major + major;
    RoundIff((i + 1) * minor, major, b');
  }

  /** The line never leaves the box of its ends, and has both ends. */
  lemma LineInBox(p: Point, q: Point, i: nat)
    requires i <= Steps(p, q)
    ensures var r := LinePoint(p, q, i);
            && (p.x <= r.x <= q.x || q.x <= r.x <= p.x) && (p.y <= r.y <= q.y || q.y <= r.y <= p.y)
            && (i == 0 ==> r == p) && (r == q <==> i == Steps(p, q))
  {
    var dx, dy := Abs(q.x - p.x), Abs(q.y - p.y);
    hide Round;
    if dy <= dx { MinorBounds(i, dy, dx); } else { MinorBounds(i, dx, dy); }
    SignTimes(p.x, q.x);
    SignTimes(p.y, q.y);
    MinorInBox(p, q, i);
  }

  lemma SignTimes(a: int, b: int)
    ensures a + Sign(a, b) * Abs(b - a) == b
  {
  }

  lemma MinorInBox(p: Point, q: Point, i: nat)
    requires i <= Steps(p, q)
    ensures var r := LinePoint(p, q, i);
            Abs(r.x - p.x) <= Abs(q.x - p.x) && Abs(r.y - p.y) <= Abs(q.y - p.y)
  {
    var dx, dy := Abs(q.x - p.x), Abs(q.y - p.y);
    hide Round;
    if dy <= dx { MinorBounds(i, dy, dx); } else { MinorBounds(i, dx, dy); }
  }
}
