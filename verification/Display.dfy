/** The frame buffer of hal/display_fb.c: pixels, lines, rectangles and the span of dirty rows. */
module Display {
  import opened Bresenham

  type Color = c: int | 0 <= c < 0x10000

  const I16_MAX := 0x7fff
  const I16_MIN := -0x8000

  predicate I16(n: int) { I16_MIN <= n <= I16_MAX }

  /** The cast to int16_t. */
  function Wrap16(n: int): (r: int)
    ensures I16(r) && (I16(n) ==> r == n)
  {
    (n + 0x8000) % 0x10000 - 0x8000
  }

  // ---------------------------------------------------------------- dirty rows

  datatype Span = Clean | Rows(y0: int, y1: int)

  /** mark_rows */
  function Mark(s: Span, y0: int, y1: int): Span {
    if y0 >= y1 then s
    else if s.Clean? then Rows(y0, y1)
    else Rows(if y0 < s.y0 then y0 else s.y0, if y1 > s.y1 then y1 else s.y1)
  }

  predicate Covers(s: Span, y: int) {
    s.Rows? && s.y0 <= y < s.y1
  }

  /** The span is the hull of the rows: it has both its ends and no row is outside. */
  ghost predicate Hull(s: Span, rows: set<int>) {
    if s.Clean? then rows == {}
    else s.y0 in rows && s.y1 - 1 in rows && forall y :: y in rows ==> s.y0 <= y < s.y1
  }

  function RowSet(y0: int, y1: int): (r: set<int>)
    ensures forall y :: y in r <==> y0 <= y < y1
    decreases y1 - y0
  {
    if y0 >= y1 then {} else RowSet(y0, y1 - 1) + {y1 - 1}
  }

  /** Marking more rows keeps the span the hull of all rows marked so far. */
  lemma MarkHull(s: Span, rows: set<int>, y0: int, y1: int)
    requires Hull(s, rows)
    ensures Hull(Mark(s, y0, y1), rows + RowSet(y0, y1))
  {
    if y0 < y1 {
      assert y0 in RowSet(y0, y1) && y1 - 1 in RowSet(y0, y1);
    } else {
      assert RowSet(y0, y1) == {};
      assert rows + {} == rows;
    }
  }

  // ---------------------------------------------------------------- pixels

  predicate OnScreen(w: int, h: int, p: Point) {
    0 <= p.x < w && 0 <= p.y < h
  }

  function Index(w: int, p: Point): int { p.y * w + p.x }

  lemma IndexInRange(w: int, h: int, p: Point)
    requires OnScreen(w, h, p)
    ensures 0 <= Index(w, p) < w * h
  {
    assert p.y * w <= (h - 1) * w;
    assert p.y * w >= 0;
  }

  /** Row and column of a place in the buffer. */
  lemma IndexParts(w: int, p: Point)
    requires 0 <= p.x < w
    ensures Index(w, p) / w == p.y && Index(w, p) % w == p.x
  {
    DivUnique(Index(w, p), w, p.y);
  }

  function Plot(w: int, h: int, px: seq<Color>, p: Point, c: Color): (r: seq<Color>)
    requires |px| == Area(w, h)
    ensures |r| == |px|
  {
    if OnScreen(w, h, p) then (IndexInRange(w, h, p); px[Index(w, p) := c]) else px
  }

  function Area(w: int, h: int): nat {
    if w <= 0 || h <= 0 then 0 else w * h
  }

  function PlotAll(w: int, h: int, px: seq<Color>, ps: seq<Point>, c: Color): (r: seq<Color>)
    requires |px| == Area(w, h)
    ensures |r| == |px|
    decreases |ps|
  {
    if ps == [] then px else Plot(w, h, PlotAll(w, h, px, ps[..|ps| - 1], c), ps[|ps| - 1], c)
  }

  function MarkAll(w: int, h: int, s: Span, ps: seq<Point>): Span
    decreases |ps|
  {
    if ps == [] then s
    else
      var t, p := MarkAll(w, h, s, ps[..|ps| - 1]), ps[|ps| - 1];
      if OnScreen(w, h, p) then Mark(t, p.y, p.y + 1) else t
  }

  // ---------------------------------------------------------------- rectangles

  /** Columns `x0` to `x1` of rows `y0` to `y1`, or nothing. */
  datatype Box = Empty | Box(x0: int, x1: int, y0: int, y1: int)

  function MakeBox(x0: int, x1: int, y0: int, y1: int): Box {
    if x0 >= x1 || y0 >= y1 then Empty else Box(x0, x1, y0, y1)
  }

  function Low(n: int): int { if n < 0 then 0 else n }
  function Cap(n: int, limit: int): int { if n > limit then limit else n }

  /** The part of a rectangle that is on the screen. */
  function IdealBox(sw: int, sh: int, x: int, y: int, w: int, h: int): Box {
    if w <= 0 || h <= 0 then Empty else MakeBox(Low(x), Cap(x + w, sw), Low(y), Cap(y + h, sh))
  }

  /** That is: a point of the screen is in it exactly when it is in the rectangle. */
  lemma VisibleIff(sw: int, sh: int, x: int, y: int, w: int, h: int, p: Point)
    requires OnScreen(sw, sh, p)
    ensures var b := IdealBox(sw, sh, x, y, w, h);
            b.Box? && b.x0 <= p.x < b.x1 && b.y0 <= p.y < b.y1 <==> x <= p.x < x + w && y <= p.y < y + h
  {
  }

  /** What display_fb_fill_rect works on: the far corner has gone through int16_t. */
  function CodeBox(sw: int, sh: int, x: int, y: int, w: int, h: int): Box {
    if w <= 0 || h <= 0 then Empty else MakeBox(Low(x), Cap(Wrap16(x + w), sw), Low(y), Cap(Wrap16(y + h), sh))
  }

  /** The code fills the visible part of the rectangle exactly when the far corner fits, or nothing is visible. */
  lemma RectExactIff(sw: int, sh: int, x: int, y: int, w: int, h: int)
    requires I16(sw) && I16(sh) && I16(x) && I16(y) && I16(w) && I16(h)
    ensures CodeBox(sw, sh, x, y, w, h) == IdealBox(sw, sh, x, y, w, h)
            <==> (x + w <= I16_MAX && y + h <= I16_MAX) || IdealBox(sw, sh, x, y, w, h) == Empty
  {
    if w > 0 && h > 0 {
      WrapOver(x, w);
      WrapOver(y, h);
    }
  }

  lemma WrapOver(a: int, b: int)
    requires I16(a) && I16(b) && b > 0
    ensures a + b > I16_MAX ==> Wrap16(a + b) < 0
  {
    if a + b > I16_MAX { assert (a + b + 0x8000) % 0x10000 == a + b + 0x8000 - 0x10000; }
  }

  /** A visible rectangle that is not drawn at all, because its right edge passes column 32767. */
  lemma RectLost()
    ensures IdealBox(320, 240, 10, 10, 0x7fff, 5) == Box(10, 320, 10, 15)
            && CodeBox(320, 240, 10, 10, 0x7fff, 5) == Empty
  {
    WrapOver(10, 0x7fff);
  }

  predicate InBox(w: int, b: Box, idx: int)
    requires w > 0
  {
    b.Box? && b.y0 <= idx / w < b.y1 && b.x0 <= idx % w < b.x1
  }

  function FillBox(w: int, px: seq<Color>, b: Box, c: Color): (r: seq<Color>)
    requires px != [] ==> w > 0
    ensures |r| == |px|
  {
    seq(|px|, i requires 0 <= i < |px| => if InBox(w, b, i) then c else px[i])
  }

  /** The stretch of the buffer that one row of a box takes. */
  lemma RowStretch(w: int, row: int, x0: int, x1: int, i: int)
    requires 0 <= x0 <= x1 <= w && 0 < w
    ensures row * w + x0 <= i < row * w + x1 <==> i / w == row && x0 <= i % w < x1
  {
    if row * w + x0 <= i < row * w + x1 {
      IndexParts(w, Point(i - row * w, row));
    } else if i / w == row {
      assert i == row * w + i % w;
    }
  }

  lemma RowsJoin(w: int, px: seq<Color>, x0: int, x1: int, y0: int, row: int, c: Color)
    requires w > 0 && y0 <= row && x0 < x1
    ensures FillBox(w, FillBox(w, px, MakeBox(x0, x1, y0, row), c), Box(x0, x1, row, row + 1), c)
            == FillBox(w, px, Box(x0, x1, y0, row + 1), c)
  {
  }

  /** Every pixel of a filled box has the colour, and every other pixel is as it was. */
  lemma FilledPixel(w: int, h: int, px: seq<Color>, b: Box, c: Color, p: Point)
    requires |px| == Area(w, h) && OnScreen(w, h, p)
    ensures 0 <= Index(w, p) < |px|
    ensures FillBox(w, px, b, c)[Index(w, p)]
            == if b.Box? && b.x0 <= p.x < b.x1 && b.y0 <= p.y < b.y1 then c else px[Index(w, p)]
  {
    IndexInRange(w, h, p);
    IndexParts(w, p);
    hide Index;
  }

  lemma SamePlace(w: int, p: Point, q: Point)
    requires 0 <= p.x < w && 0 <= q.x < w && Index(w, p) == Index(w, q)
    ensures p == q
  {
    IndexParts(w, p);
    IndexParts(w, q);
  }

  lemma PlottedOne(w: int, h: int, px: seq<Color>, p: Point, c: Color, q: Point)
    requires |px| == Area(w, h) && OnScreen(w, h, q)
    ensures 0 <= Index(w, q) < |px|
    ensures Plot(w, h, px, p, c)[Index(w, q)] == if p == q then c else px[Index(w, q)]
  {
    IndexInRange(w, h, q);
    hide Index;
    if OnScreen(w, h, p) && p != q && Index(w, p) == Index(w, q) { SamePlace(w, p, q); }
  }

  /** Every visible point among those plotted has the colour, and every other pixel is as it was. */
  lemma {:induction false} PlottedPixel(w: int, h: int, px: seq<Color>, ps: seq<Point>, c: Color, q: Point)
    requires |px| == Area(w, h) && OnScreen(w, h, q)
    ensures 0 <= Index(w, q) < |px|
    ensures PlotAll(w, h, px, ps, c)[Index(w, q)] == if q in ps then c else px[Index(w, q)]
    decreases |ps|
  {
    hide Index, Plot;
    if ps == [] {
      PlottedOne(w, h, px, q, c, q);
    } else {
      var before, p := ps[..|ps| - 1], ps[|ps| - 1];
      PlottedPixel(w, h, px, before, c, q);
      PlottedOne(w, h, PlotAll(w, h, px, before, c), p, c, q);
      assert ps == before + [p];
    }
  }

  class FrameBuffer {
    const px: array?<Color>
    const w: int
    const h: int
    var dirty: bool
    var dirtyY0: int
    var dirtyY1: int

    ghost predicate Valid() {
      I16(w) && I16(h) && (px != null ==> px.Length == Area(w, h))
    }

    /** display_fb_init */
    constructor (px: array?<Color>, w: int, h: int)
      requires I16(w) && I16(h) && (px != null ==> px.Length == Area(w, h))
      ensures Valid() && this.px == px && this.w == w && this.h == h && span() == Clean
    {
      this.px, this.w, this.h := px, w, h;
      dirty, dirtyY0, dirtyY1 := false, 0, 0;
    }

    function span(): Span
      reads this
    {
      if dirty then Rows(dirtyY0, dirtyY1) else Clean
    }

    method MarkRows(y0: int, y1: int)
      modifies this
      ensures span() == Mark(old(span()), y0, y1)
    {
      if y0 >= y1 { return; }
      if !dirty {
        dirtyY0, dirtyY1, dirty := y0, y1, true;
        return;
      }
      if y0 < dirtyY0 { dirtyY0 := y0; }
      if y1 > dirtyY1 { dirtyY1 := y1; }
    }

    method DrawPixel(x: int, y: int, c: Color)
      requires Valid() && I16(x) && I16(y)
      modifies this, px
      ensures px != null ==> px[..] == Plot(w, h, old(px[..]), Point(x, y), c)
      ensures span() == if px != null && OnScreen(w, h, Point(x, y)) then Mark(old(span()), y, y + 1) else old(span())
    {
      if px == null || x < 0 || y < 0 || x >= w || y >= h { return; }
      IndexInRange(w, h, Point(x, y));
      px[y * w + x] := c;
      MarkRows(y, Wrap16(y + 1));
    }

    /** The inner loop of display_fb_fill_rect. */
    method FillRow(row: int, x0: int, x1: int, c: Color)
      requires Valid() && px != null && 0 <= x0 < x1 <= w && 0 <= row < h
      modifies px
      ensures px[..] == FillBox(w, old(px[..]), Box(x0, x1, row, row + 1), c)
    {
      ghost var before := px[..];
      IndexInRange(w, h, Point(x0, row));
      IndexInRange(w, h, Point(x1 - 1, row));
      var dst := row * w + x0;
      for col := x0 to x1
        invariant dst == row * w + col
        invariant forall i :: 0 <= i < px.Length ==> px[i] == if row * w + x0 <= i < dst then c else before[i]
      {
        px[dst] := c;
        dst := dst + 1;
      }
      forall i | 0 <= i < px.Length ensures px[i] == FillBox(w, before, Box(x0, x1, row, row + 1), c)[i] {
        RowStretch(w, row, x0, x1, i);
      }
    }

    method FillRect(x: int, y: int, rw: int, rh: int, c: Color)
      requires Valid() && I16(x) && I16(y) && I16(rw) && I16(rh)
      modifies this, px
      ensures var b := CodeBox(w, h, x, y, rw, rh);
              && (px != null ==> (px.Length > 0 ==> w > 0) && px[..] == FillBox(w, old(px[..]), b, c))
              && span() == if px != null && b.Box? then Mark(old(span()), b.y0, b.y1) else old(span())
    {
      if px == null || rw <= 0 || rh <= 0 { return; }
      var x1, y1 := Wrap16(x + rw), Wrap16(y + rh);
      var x0 := if x < 0 then 0 else x;
      var y0 := if y < 0 then 0 else y;
      if x1 > w { x1 := w; }
      if y1 > h { y1 := h; }
      if x0 >= x1 || y0 >= y1 { return; }
      ghost var before := px[..];
      for row := y0 to y1
        invariant px[..] == FillBox(w, before, MakeBox(x0, x1, y0, row), c) && span() == old(span())
      {
        FillRow(row, x0, x1, c);
        RowsJoin(w, before, x0, x1, y0, row, c);
      }
      MarkRows(y0, y1);
    }

    /** display_fb_dirty_rows: first row and number of rows, or nothing. */
    method DirtyRows() returns (any: bool, y: int, rows: int)
      ensures any == span().Rows? && (any ==> y == span().y0 && rows == Wrap16(span().y1 - span().y0))
    {
      if !dirty { return false, 0, 0; }
      return true, dirtyY0, Wrap16(dirtyY1 - dirtyY0);
    }

    /** display_fb_clear_dirty */
    method ClearDirty()
      modifies this
      ensures span() == Clean
    {
      dirty, dirtyY0, dirtyY1 := false, 0, 0;
    }

    /** display_fb_draw_line: the loop plots the exact line, rounded, and stops at its far end. */
    method DrawLine(x0: int, y0: int, x1: int, y1: int, c: Color)
      requires Valid() && I16(x0) && I16(y0) && I16(x1) && I16(y1)
      modifies this, px
      ensures px != null ==> px[..] == PlotAll(w, h, old(px[..]), Line(Point(x0, y0), Point(x1, y1)), c)
      ensures px != null ==> span() == MarkAll(w, h, old(span()), Line(Point(x0, y0), Point(x1, y1)))
      ensures px == null ==> span() == old(span())
    {
      hide LinePoint, Plot, Mark, PlotAll, MarkAll, Line, Err;
      var dx, sx := Abs(x1 - x0), if x0 < x1 then 1 else -1;
      var dy: int, sy := 0 - Abs(y1 - y0), if y0 < y1 then 1 else -1;
      var err: int := dx + dy;
      ghost var p, q := Point(x0, y0), Point(x1, y1);
      var x, y := x0, y0;
      ghost var i := 0;
      ghost var n := Steps(p, q);
      LineInBox(p, q, 0);
      AtStart(p, q);
      if px != null { NothingPlotted(w, h, px[..], span(), p, q, c); }
      while true
        invariant 0 <= i <= n && Point(x, y) == LinePoint(p, q, i) && I16(x) && I16(y)
        invariant err == Err(p, q, i)
        invariant px != null ==> px[..] == PlotAll(w, h, old(px[..]), Line(p, q)[..i], c)
        invariant px != null ==> span() == MarkAll(w, h, old(span()), Line(p, q)[..i])
        invariant px == null ==> span() == old(span())
        decreases n - i
      {
        DrawPixel(x, y, c);
        if px != null { OnePlotted(w, h, old(px[..]), old(span()), p, q, i, c); }
        LineInBox(p, q, i);
        if x == x1 && y == y1 {
          assert Line(p, q)[..i + 1] == Line(p, q);
          break;
        }
        LineInBox(p, q, i + 1);
        NextPoint(p, q, i);
        var e2 := 2 * err;
        if e2 >= dy {
          err := err + dy;
          x := Wrap16(x + sx);
        }
        if e2 <= dx {
          err := err + dx;
          y := Wrap16(y + sy);
        }
        i := i + 1;
      }
    }
  }

  lemma NothingPlotted(w: int, h: int, px: seq<Color>, s: Span, p: Point, q: Point, c: Color)
    requires |px| == Area(w, h)
    ensures PlotAll(w, h, px, Line(p, q)[..0], c) == px && MarkAll(w, h, s, Line(p, q)[..0]) == s
  {
  }

  lemma OnePlotted(w: int, h: int, px: seq<Color>, s: Span, p: Point, q: Point, i: nat, c: Color)
    requires |px| == Area(w, h) && i <= Steps(p, q)
    ensures var r := LinePoint(p, q, i);
            && PlotAll(w, h, px, Line(p, q)[..i + 1], c) == Plot(w, h, PlotAll(w, h, px, Line(p, q)[..i], c), r, c)
            && MarkAll(w, h, s, Line(p, q)[..i + 1]) ==
               (if OnScreen(w, h, r) then Mark(MarkAll(w, h, s, Line(p, q)[..i]), r.y, r.y + 1)
                else MarkAll(w, h, s, Line(p, q)[..i]))
  {
    hide LinePoint, Plot, Mark;
    assert Line(p, q)[..i + 1][..i] == Line(p, q)[..i] && Line(p, q)[..i + 1][i] == LinePoint(p, q, i);
  }

  /** Steps taken along each axis up to point `i`. */
  function XSteps(p: Point, q: Point, i: nat): nat {
    var dx, dy := Abs(q.x - p.x), Abs(q.y - p.y);
    if dy <= dx then i else Minor(i, dx, dy)
  }

  function YSteps(p: Point, q: Point, i: nat): nat {
    var dx, dy := Abs(q.x - p.x), Abs(q.y - p.y);
    if dy <= dx then Minor(i, dy, dx) else i
  }

  /** The running error at point `i`. */
  function Err(p: Point, q: Point, i: nat): int {
    (YSteps(p, q, i) + 1) * Abs(q.x - p.x) - (XSteps(p, q, i) + 1) * Abs(q.y - p.y)
  }

  lemma AtStart(p: Point, q: Point)
    ensures Err(p, q, 0) == Abs(q.x - p.x) - Abs(q.y - p.y)
  {
    var dx, dy := Abs(q.x - p.x), Abs(q.y - p.y);
    if dy <= dx { MinorEnds(dy, dx); } else { MinorEnds(dx, dy); }
  }

  /** The error seen from the major axis, `b` steps along the minor one. */
  function MajorErr(i: nat, minor: nat, major: nat, b: nat): int {
    (b + 1) * major - (i + 1) * minor
  }

  /** The test for the major axis always passes; the one for the minor axis passes when the line rounds up. */
  lemma ErrStep(i: nat, minor: nat, major: nat)
    requires minor <= major && 0 < major
    ensures var b, b' := Minor(i, minor, major), Minor(i + 1, minor, major);
            var e := MajorErr(i, minor, major, b);
            && 2 * e + minor >= 0
            && b' == (if 2 * e <= major then b + 1 else b)
            && MajorErr(i + 1, minor, major, b') == e - minor + (if 2 * e <= major then major else 0)
  {
    var b := Minor(i, minor, major);
    var along, across := i * minor, b * major;
    RoundIff(along, major, b);
    assert 2 * (along - across) < major;
    hide Minor, Round, MajorErr;
    NextMinor(i, minor, major);
    ErrParts(i, minor, major, b, along, across);
    ErrTurn(i, minor, major, b, along, across);
  }

  lemma ErrParts(i: nat, minor: nat, major: nat, b: nat, along: int, across: int)
    requires along == i * minor && across == b * major
    ensures MajorErr(i, minor, major, b) == across + major - (along + minor)
    ensures MajorErr(i + 1, minor, major, b) == across + major - (along + 2 * minor)
    ensures MajorErr(i + 1, minor, major, b + 1) == across + 2 * major - (along + 2 * minor)
  {
    OneMore(i, minor);
    OneMore(i + 1, minor);
    OneMore(b, major);
    OneMore(b + 1, major);
  }

  lemma ErrTurn(i: nat, minor: nat, major: nat, b: nat, along: int, across: int)
    requires 2 * (along - across) < major && minor <= major
    requires MajorErr(i, minor, major, b) == across + major - (along + minor)
    requires MajorErr(i + 1, minor, major, b) == across + major - (along + 2 * minor)
    requires MajorErr(i + 1, minor, major, b + 1) == across + 2 * major - (along + 2 * minor)
    ensures var b' := if 2 * across + major <= 2 * along + 2 * minor then b + 1 else b;
            var e := MajorErr(i, minor, major, b);
            && 2 * e + minor >= 0
            && b' == (if 2 * e <= major then b + 1 else b)
            && MajorErr(i + 1, minor, major, b') == e - minor + (if 2 * e <= major then major else 0)
  {
    hide MajorErr;
  }

  lemma OneMore(k: nat, m: nat)
    ensures (k + 1) * m == k * m + m
  {
  }

  /** The two tests of the loop move to the next point and keep the error in step. */
  lemma NextPoint(p: Point, q: Point, i: nat)
    requires i < Steps(p, q)
    ensures var dx: int, dy: int, e2 := Abs(q.x - p.x), Abs(q.y - p.y), 2 * Err(p, q, i);
            var r := LinePoint(p, q, i);
            && LinePoint(p, q, i + 1) == Point(if e2 >= 0 - dy then r.x + Sign(p.x, q.x) else r.x,
                                               if e2 <= dx then r.y + Sign(p.y, q.y) else r.y)
            && Err(p, q, i + 1) == Err(p, q, i) - (if e2 >= 0 - dy then dy else 0) + (if e2 <= dx then dx else 0)
  {
    var dx, dy := Abs(q.x - p.x), Abs(q.y - p.y);
    hide Minor, Sign;
    SignStep(p.x, q.x, i);
    SignStep(p.y, q.y, i);
    if dy <= dx {
      ErrStep(i, dy, dx);
      SignStep(p.y, q.y, Minor(i, dy, dx));
    } else {
      ErrStep(i, dx, dy);
      SignStep(p.x, q.x, Minor(i, dx, dy));
    }
  }

  lemma SignStep(a: int, b: int, k: nat)
    ensures a + Sign(a, b) * (k + 1) == a + Sign(a, b) * k + Sign(a, b)
  {
  }

  // ---------------------------------------------------------------- runs of drawing

  datatype Draw =
    | PixelDraw(p: Point, c: Color)
    | LineDraw(from: Point, to: Point, c: Color)
    | RectDraw(x: int, y: int, rw: int, rh: int, c: Color)

  datatype Screen = Screen(w: int, h: int, px: seq<Color>, span: Span)

  ghost predicate Sized(sc: Screen) { |sc.px| == Area(sc.w, sc.h) }

  /** One drawing call on a screen with a buffer. */
  function Apply(sc: Screen, d: Draw): (r: Screen)
    requires Sized(sc)
    ensures Sized(r) && r.w == sc.w && r.h == sc.h
  {
    match d
    case PixelDraw(p, c) =>
      sc.(px := Plot(sc.w, sc.h, sc.px, p, c), span := MarkAll(sc.w, sc.h, sc.span, [p]))
    case LineDraw(p, q, c) =>
      sc.(px := PlotAll(sc.w, sc.h, sc.px, Line(p, q), c), span := MarkAll(sc.w, sc.h, sc.span, Line(p, q)))
    case RectDraw(x, y, rw, rh, c) =>
      var b := CodeBox(sc.w, sc.h, x, y, rw, rh);
      sc.(px := FillBox(sc.w, sc.px, b, c), span := if b.Box? then Mark(sc.span, b.y0, b.y1) else sc.span)
  }

  function DrawAll(sc: Screen, ds: seq<Draw>): (r: Screen)
    requires Sized(sc)
    ensures Sized(r) && r.w == sc.w && r.h == sc.h
    decreases |ds|
  {
    if ds == [] then sc else DrawAll(Apply(sc, ds[0]), ds[1..])
  }

  function RowsOf(w: int, h: int, ps: seq<Point>): set<int>
    decreases |ps|
  {
    if ps == [] then {}
    else
      var rest, p := RowsOf(w, h, ps[..|ps| - 1]), ps[|ps| - 1];
      if OnScreen(w, h, p) then rest + RowSet(p.y, p.y + 1) else rest
  }

  /** Rows a drawing call writes to. */
  function Touched(w: int, h: int, d: Draw): set<int> {
    match d
    case PixelDraw(p, c) => RowsOf(w, h, [p])
    case LineDraw(p, q, c) => RowsOf(w, h, Line(p, q))
    case RectDraw(x, y, rw, rh, c) =>
      var b := CodeBox(w, h, x, y, rw, rh);
      if b.Box? then RowSet(b.y0, b.y1) else {}
  }

  function TouchedAll(w: int, h: int, ds: seq<Draw>): set<int>
    decreases |ds|
  {
    if ds == [] then {} else Touched(w, h, ds[0]) + TouchedAll(w, h, ds[1..])
  }

  /** Pixels in untouched rows are as they were. */
  ghost predicate SameOutside(w: int, px: seq<Color>, px': seq<Color>, rows: set<int>) {
    |px| == |px'| && (px != [] ==> w > 0) && forall i :: 0 <= i < |px| && px'[i] != px[i] ==> i / w in rows
  }

  lemma PlotOutside(w: int, h: int, px: seq<Color>, p: Point, c: Color)
    requires |px| == Area(w, h)
    ensures SameOutside(w, px, Plot(w, h, px, p, c), if OnScreen(w, h, p) then RowSet(p.y, p.y + 1) else {})
  {
    if OnScreen(w, h, p) {
      IndexInRange(w, h, p);
      IndexParts(w, p);
    }
  }

  lemma OutsideJoin(w: int, a: seq<Color>, b: seq<Color>, c: seq<Color>, r: set<int>, s: set<int>)
    requires SameOutside(w, a, b, r) && SameOutside(w, b, c, s)
    ensures SameOutside(w, a, c, r + s)
  {
    forall i | 0 <= i < |a| && c[i] != a[i] ensures i / w in r + s {
      if b[i] != a[i] { assert i / w in r; } else { assert i / w in s; }
    }
  }

  lemma {:induction false} PlotAllOutside(w: int, h: int, px: seq<Color>, ps: seq<Point>, c: Color, s: Span,
                                          rows: set<int>)
    requires |px| == Area(w, h) && Hull(s, rows)
    ensures SameOutside(w, px, PlotAll(w, h, px, ps, c), RowsOf(w, h, ps))
    ensures Hull(MarkAll(w, h, s, ps), rows + RowsOf(w, h, ps))
    decreases |ps|
  {
    hide Plot, Mark, Hull, RowSet;
    if ps == [] {
      assert rows + {} == rows;
    } else {
      var before, p := ps[..|ps| - 1], ps[|ps| - 1];
      PlotAllOutside(w, h, px, before, c, s, rows);
      PlotOutside(w, h, PlotAll(w, h, px, before, c), p, c);
      OutsideJoin(w, px, PlotAll(w, h, px, before, c), PlotAll(w, h, px, ps, c), RowsOf(w, h, before),
                  if OnScreen(w, h, p) then RowSet(p.y, p.y + 1) else {});
      MarkHull(MarkAll(w, h, s, before), rows + RowsOf(w, h, before), p.y, p.y + 1);
      assert rows + RowsOf(w, h, before) + RowSet(p.y, p.y + 1) == rows + (RowsOf(w, h, before) + RowSet(p.y, p.y + 1));
      assert RowsOf(w, h, before) + {} == RowsOf(w, h, before);
    }
  }

  lemma FillOutside(w: int, h: int, px: seq<Color>, x: int, y: int, rw: int, rh: int, c: Color)
    requires |px| == Area(w, h)
    ensures var b := CodeBox(w, h, x, y, rw, rh);
            SameOutside(w, px, FillBox(w, px, b, c), if b.Box? then RowSet(b.y0, b.y1) else {})
  {
    hide CodeBox;
  }

  lemma PlotIsPlotAll(w: int, h: int, px: seq<Color>, p: Point, c: Color)
    requires |px| == Area(w, h)
    ensures PlotAll(w, h, px, [p], c) == Plot(w, h, px, p, c)
  {
    assert [p][..0] == [];
  }

  lemma ApplyTouches(sc: Screen, d: Draw, rows: set<int>)
    requires Sized(sc) && Hull(sc.span, rows)
    ensures SameOutside(sc.w, sc.px, Apply(sc, d).px, Touched(sc.w, sc.h, d))
    ensures Hull(Apply(sc, d).span, rows + Touched(sc.w, sc.h, d))
  {
    hide Plot, PlotAll, MarkAll, Mark, Hull, RowSet, RowsOf, Line, CodeBox, FillBox, SameOutside;
    match d
    case PixelDraw(p, c) =>
      PlotIsPlotAll(sc.w, sc.h, sc.px, p, c);
      PlotAllOutside(sc.w, sc.h, sc.px, [p], c, sc.span, rows);
    case LineDraw(p, q, c) =>
      PlotAllOutside(sc.w, sc.h, sc.px, Line(p, q), c, sc.span, rows);
    case RectDraw(x, y, rw, rh, c) =>
      var b := CodeBox(sc.w, sc.h, x, y, rw, rh);
      FillOutside(sc.w, sc.h, sc.px, x, y, rw, rh, c);
      if b.Box? { MarkHull(sc.span, rows, b.y0, b.y1); } else { assert rows + {} == rows; }
  }

  lemma {:induction false} DrawAllTouches(sc: Screen, ds: seq<Draw>, rows: set<int>)
    requires Sized(sc) && Hull(sc.span, rows)
    ensures SameOutside(sc.w, sc.px, DrawAll(sc, ds).px, TouchedAll(sc.w, sc.h, ds))
    ensures Hull(DrawAll(sc, ds).span, rows + TouchedAll(sc.w, sc.h, ds))
    decreases |ds|
  {
    hide Apply, Touched, Hull;
    if ds == [] {
      assert rows + {} == rows;
    } else {
      var sc1, t := Apply(sc, ds[0]), Touched(sc.w, sc.h, ds[0]);
      ApplyTouches(sc, ds[0], rows);
      DrawAllTouches(sc1, ds[1..], rows + t);
      OutsideJoin(sc.w, sc.px, sc1.px, DrawAll(sc, ds).px, t, TouchedAll(sc.w, sc.h, ds[1..]));
      assert rows + t + TouchedAll(sc.w, sc.h, ds[1..]) == rows + (t + TouchedAll(sc.w, sc.h, ds[1..]));
    }
  }

  /**
   * After any drawing since the last clear, every pixel that changed is in a dirty row, and the dirty span is no larger
   * than it must be: its first and its last row were drawn to.
   */
  lemma DirtyExact(sc: Screen, ds: seq<Draw>, i: nat)
    requires Sized(sc) && sc.span == Clean && i < |sc.px|
    ensures var r := DrawAll(sc, ds);
            && Hull(r.span, TouchedAll(sc.w, sc.h, ds))
            && (r.px[i] != sc.px[i] ==> sc.w > 0 && Covers(r.span, i / sc.w))
  {
    DrawAllTouches(sc, ds, {});
    var t := TouchedAll(sc.w, sc.h, ds);
    assert {} + t == t;
  }
}
