/** The selection of Jcrop: two corners, one fixed and one dragged, that are made a rectangle inside the
    image, with sides between the given limits. Scale 1, no aspect ratio. */
module CropCoords {
  datatype Point = Point(x: real, y: real)

  /** Along one axis: the length of the image, the longest side (0: none) and the shortest. */
  datatype Axis = Axis(bound: nat, limit: nat, least: nat)

  datatype Rect = Rect(x: int, y: int, x2: int, y2: int)

  /** The fixed and the dragged corner. */
  datatype Corners = Corners(x1: int, y1: int, x2: int, y2: int)

  function Abs(x: int): nat {
    if x < 0 then -x else x
  }

  /** The side for two corners a distance `d` apart. */
  function Sized(a: Axis, d: nat): nat {
    if d < a.least then a.least else if a.limit != 0 && d > a.limit then a.limit else d
  }

  /** A side that the limits allow. */
  predicate Allowed(a: Axis, s: nat) {
    a.least <= s && (a.limit == 0 || s <= a.limit)
  }

  /** Where the limits allow any side, the sized one is allowed, and no allowed one is nearer to the distance. */
  lemma SizedIsNearest(a: Axis, d: nat)
    ensures Allowed(a, Sized(a, d)) <==> exists s: nat :: Allowed(a, s)
    ensures forall s: nat | Allowed(a, s) :: Abs(Sized(a, d) - d) <= Abs(s - d)
    ensures Allowed(a, d) ==> Sized(a, d) == d
  {
    if s: nat :| Allowed(a, s) {
    }
  }

  /** The place inside the image for a side `s` that should begin at `low`. */
  function Fit(a: Axis, low: int, s: nat): int {
    var m := if low < 0 then 0 else low;
    if m + s > a.bound then a.bound - s else m
  }

  function Round(x: real): int {
    (x + 0.5).Floor
  }

  function Rebound(a: Axis, x: real): (r: int)
    ensures 0 <= r <= a.bound
    ensures 0.0 <= x <= a.bound as real ==> r as real - 0.5 <= x < r as real + 0.5
    ensures (x <= 0.0 ==> r == 0) && (x >= a.bound as real ==> r == a.bound)
  {
    Round(if x < 0.0 then 0.0 else if x > a.bound as real then a.bound as real else x)
  }

  function Distance(x: real, k: int): real {
    if x < k as real then k as real - x else x - k as real
  }

  /** No place in the image is nearer to the position. */
  lemma ReboundIsNearest(a: Axis, x: real, k: int)
    requires 0 <= k <= a.bound
    ensures 0 <= Rebound(a, x) <= a.bound && Distance(x, Rebound(a, x)) <= Distance(x, k)
    ensures Distance(x, Rebound(a, x)) == Distance(x, k) ==> k <= Rebound(a, x)
  {
    var r := Rebound(a, x);
    if k < r {
      assert k as real <= (r - 1) as real;
    } else if k > r {
      assert k as real >= (r + 1) as real;
    }
  }

  /** Where the side sized for corners `p` and `q` begins, `p` being fixed. */
  function Low(a: Axis, p: int, q: int): int {
    if q > p then p else p - Sized(a, Abs(q - p))
  }

  /** The fixed corner is the upper one, and the side, once moved off the lower edge, ends beyond the image. */
  predicate Overhangs(a: Axis, p: int, q: int) {
    var low, s := Low(a, p, q), Sized(a, Abs(q - p));
    q <= p && s > 0 && (if low < 0 then 0 else low) + s > a.bound
  }

  /** Where the side begins once it is off the lower edge and, as far as its dragged corner goes, off the
      upper one. */
  function Lower(a: Axis, p: int, q: int): int {
    var low, s := Low(a, p, q), Sized(a, Abs(q - p));
    if q > p then Fit(a, low, s) else Min(a.bound, Max(0, low))
  }

  /** Where the vertical side begins when the horizontal one overhangs and ends at `over`. */
  function Upset(a: Axis, p: int, q: int, over: int): int {
    var low, s := Lower(a, p, q), Sized(a, Abs(q - p));
    if q > p then Min(a.bound, low + a.bound - over) else Min(a.bound, low + s + a.bound - over) - s
  }

  /** The rectangle for corners `c`. */
  function RectOf(h: Axis, v: Axis, c: Corners): Rect {
    var s, t := Sized(h, Abs(c.x2 - c.x1)), Sized(v, Abs(c.y2 - c.y1));
    var x := Lower(h, c.x1, c.x2);
    var y := if Overhangs(h, c.x1, c.x2) then Upset(v, c.y1, c.y2, x + s) else Fit(v, Low(v, c.y1, c.y2), t);
    Rect(x, y, x + s, y + t)
  }

  /** Rectangle `r`, with the fixed corner on the side where it is in `c`. */
  function Turned(c: Corners, r: Rect): Corners {
    Corners(if c.x2 > c.x1 then r.x else r.x2, if c.y2 > c.y1 then r.y else r.y2,
            if c.x2 > c.x1 then r.x2 else r.x, if c.y2 > c.y1 then r.y2 else r.y)
  }

  ghost predicate Within(a: Axis, p: int, q: int) {
    0 <= p <= a.bound && 0 <= q <= a.bound
  }

  ghost predicate Inside(h: Axis, v: Axis, c: Corners) {
    Within(h, c.x1, c.x2) && Within(v, c.y1, c.y2)
  }

  /** The longest and the shortest side do not contradict each other or the image. */
  ghost predicate Sensible(a: Axis) {
    a.least <= a.bound && (a.limit == 0 || a.least <= a.limit)
  }

  class Coords {
    const h: Axis
    const v: Axis
    var x1: int
    var y1: int
    var x2: int
    var y2: int
    var ox: int
    var oy: int

    constructor (h: Axis, v: Axis)
      ensures this.h == h && this.v == v && InImage()
    {
      this.h, this.v := h, v;
      x1, y1, x2, y2, ox, oy := 0, 0, 0, 0, 0, 0;
    }

    ghost function Now(): Corners
      reads this
    {
      Corners(x1, y1, x2, y2)
    }

    ghost predicate InImage()
      reads this
    {
      Inside(h, v, Now())
    }

    method SetPressed(pos: Point)
      modifies this
      ensures x1 == x2 == Rebound(h, pos.x) && y1 == y2 == Rebound(v, pos.y) && InImage()
    {
      x1, y1 := Rebound(h, pos.x), Rebound(v, pos.y);
      x2, y2 := x1, y1;
    }

    method SetCurrent(pos: Point)
      modifies this
      ensures x1 == old(x1) && y1 == old(y1) && x2 == Rebound(h, pos.x) && y2 == Rebound(v, pos.y)
      ensures x2 == old(x2) + ox && y2 == old(y2) + oy
      ensures old(InImage()) ==> InImage()
    {
      var x, y := Rebound(h, pos.x), Rebound(v, pos.y);
      ox, oy := x - x2, y - y2;
      x2, y2 := x, y;
    }

    /** Moves both corners alike. A rectangle with the fixed corner at its upper left goes to the place in
        the image next to where it should. Any other selection stays in the image exactly if the whole move does. */
    method MoveOffset(dx: int, dy: int)
      modifies this
      ensures x2 - x1 == old(x2 - x1) && y2 - y1 == old(y2 - y1) && ox == old(ox) && oy == old(oy)
      ensures x1 == Min(Max(old(x1) + dx, 0), old(x1) + h.bound - old(x2))
      ensures y1 == Min(Max(old(y1) + dy, 0), old(y1) + v.bound - old(y2))
      ensures old(x1 <= x2) ==> x1 == Fit(h, old(x1) + dx, old(x2 - x1))
      ensures old(y1 <= y2) ==> y1 == Fit(v, old(y1) + dy, old(y2 - y1))
      ensures old(InImage()) ==>
                (InImage() <==> old((x1 <= x2 || (-x2 <= dx <= h.bound - x1)) &&
                                    (y1 <= y2 || (-y2 <= dy <= v.bound - y1))))
    {
      var a, b := dx, dy;
      if 0 > x1 + a {
        a := a - (a + x1);
      }
      if 0 > y1 + b {
        b := b - (b + y1);
      }
      if v.bound < y2 + b {
        b := b + (v.bound - (y2 + b));
      }
      if h.bound < x2 + a {
        a := a + (h.bound - (x2 + a));
      }
      x1, x2, y1, y2 := x1 + a, x2 + a, y1 + b, y2 + b;
    }

    /** The first half of `getRect`: the dragged corner gives way to the limits. */
    method LimitSides()
      modifies this`x2, this`y2
      ensures Abs(x2 - x1) == Sized(h, old(Abs(x2 - x1))) &&
              (x2 > x1 <==> old(x2 > x1) && Sized(h, old(Abs(x2 - x1))) > 0)
      ensures Abs(y2 - y1) == Sized(v, old(Abs(y2 - y1))) &&
              (y2 > y1 <==> old(y2 > y1) && Sized(v, old(Abs(y2 - y1))) > 0)
    {
      var xsize, ysize := x2 - x1, y2 - y1;
      if h.limit != 0 && Abs(xsize) > h.limit {
        x2 := if xsize > 0 then x1 + h.limit else x1 - h.limit;
      }
      if v.limit != 0 && Abs(ysize) > v.limit {
        y2 := if ysize > 0 then y1 + v.limit else y1 - v.limit;
      }
      if v.least != 0 && Abs(ysize) < v.least {
        y2 := if ysize > 0 then y1 + v.least else y1 - v.least;
      }
      if h.least != 0 && Abs(xsize) < h.least {
        x2 := if xsize > 0 then x1 + h.least else x1 - h.least;
      }
    }

    /** Off the left and the upper edge. */
    method ShiftUp()
      modifies this`x1, this`x2, this`y1, this`y2
      ensures x2 - x1 == old(x2 - x1) && y2 - y1 == old(y2 - y1)
      ensures Min(x1, x2) == Max(0, old(Min(x1, x2))) && Min(y1, y2) == Max(0, old(Min(y1, y2)))
    {
      if x1 < 0 {
        x2 := x2 - x1;
        x1 := x1 - x1;
      }
      if y1 < 0 {
        y2 := y2 - y1;
        y1 := y1 - y1;
      }
      if x2 < 0 {
        x1 := x1 - x2;
        x2 := x2 - x2;
      }
      if y2 < 0 {
        y1 := y1 - y2;
        y2 := y2 - y2;
      }
    }

    /** Off the right and the lower edge; the last but one step corrects the wrong axis. */
    method ShiftDown()
      modifies this`x1, this`x2, this`y1, this`y2
      ensures x2 - x1 == old(x2 - x1) && y2 - y1 == old(y2 - y1)
      ensures old(x1 > x2 && x1 > h.bound) ==>
                && Max(x1, x2) > h.bound && Min(x1, x2) == Min(h.bound, old(Min(x1, x2)))
                && y1 == Min(v.bound, old(y1) - Max(0, old(y2) - v.bound) + v.bound - x1)
      ensures !old(x1 > x2 && x1 > h.bound) ==>
              Max(x1, x2) == Min(h.bound, old(Max(x1, x2))) && Max(y1, y2) == Min(v.bound, old(Max(y1, y2)))
    {
      if x2 > h.bound {
        var delta := x2 - h.bound;
        x1, x2 := x1 - delta, x2 - delta;
      }
      if y2 > v.bound {
        var delta := y2 - v.bound;
        y1, y2 := y1 - delta, y2 - delta;
      }
      if x1 > h.bound {
        var delta := x1 - v.bound;
        y2, y1 := y2 - delta, y1 - delta;
      }
      if y1 > v.bound {
        var delta := y1 - v.bound;
        y2, y1 := y2 - delta, y1 - delta;
      }
    }

    /** `getRect`, the getter that moves the corners. The rectangle has the sides that the limits allow; it
        is the one inside the image, next to the selection, unless the selection overhangs on the right. */
    method GetRect() returns (r: Rect)
      modifies this`x1, this`x2, this`y1, this`y2
      ensures r == FlipCoords(x1, y1, x2, y2) == RectOf(h, v, old(Now())) && Now() == Turned(old(Now()), r)
    {
      ghost var c := Now();
      LimitSides();
      ShiftUp();
      ghost var d := Now();
      ShiftDown();
      Horizontal(h, c, d, Now());
      Vertical(h, v, c, d, Now());
      r := FlipCoords(x1, y1, x2, y2);
    }
  }

  function Min(a: int, b: int): int {
    if a < b then a else b
  }

  function Max(a: int, b: int): int {
    if a < b then b else a
  }

  function FlipCoords(x1: int, y1: int, x2: int, y2: int): Rect {
    Rect(if x2 < x1 then x2 else x1, if y2 < y1 then y2 else y1, if x2 < x1 then x1 else x2, if y2 < y1 then y1 else y2)
  }

  /** No other place inside the image is nearer to the one asked for. */
  lemma FitIsNearest(a: Axis, low: int, s: nat, other: int)
    requires 0 <= other && other + s <= a.bound
    ensures 0 <= Fit(a, low, s) && Fit(a, low, s) + s <= a.bound && Abs(Fit(a, low, s) - low) <= Abs(other - low)
  {
  }

  /** Corners `d` have the side that the limits allow and are off the lower edge. */
  ghost predicate OffLowerEdge(a: Axis, p: int, q: int, p': int, q': int) {
    var s: int := Sized(a, Abs(q - p));
    Min(p', q') == Max(0, Low(a, p, q)) && q' - p' == if q > p then s else 0 - s
  }

  lemma Horizontal(h: Axis, c: Corners, d: Corners, e: Corners)
    requires OffLowerEdge(h, c.x1, c.x2, d.x1, d.x2) && e.x2 - e.x1 == d.x2 - d.x1
    requires if d.x1 > d.x2 && d.x1 > h.bound then Min(e.x1, e.x2) == Min(h.bound, Min(d.x1, d.x2))
             else Max(e.x1, e.x2) == Min(h.bound, Max(d.x1, d.x2))
    ensures Min(e.x1, e.x2) == Lower(h, c.x1, c.x2) && (c.x2 > c.x1 ==> e.x1 <= e.x2) && (c.x2 <= c.x1 ==> e.x2 <= e.x1)
    ensures Abs(e.x2 - e.x1) == Sized(h, Abs(c.x2 - c.x1))
  {
  }

  lemma Vertical(h: Axis, v: Axis, c: Corners, d: Corners, e: Corners)
    requires OffLowerEdge(h, c.x1, c.x2, d.x1, d.x2) && OffLowerEdge(v, c.y1, c.y2, d.y1, d.y2) &&
             e.y2 - e.y1 == d.y2 - d.y1
    requires d.x1 > d.x2 && d.x1 > h.bound ==>
               Max(e.x1, e.x2) == Lower(h, c.x1, c.x2) + Sized(h, Abs(c.x2 - c.x1)) && e.x1 >= e.x2 &&
               e.y1 == Min(v.bound, d.y1 - Max(0, d.y2 - v.bound) + v.bound - e.x1)
    requires !(d.x1 > d.x2 && d.x1 > h.bound) ==> Max(e.y1, e.y2) == Min(v.bound, Max(d.y1, d.y2))
    ensures Min(e.y1, e.y2) == RectOf(h, v, c).y && (c.y2 > c.y1 ==> e.y1 <= e.y2) && (c.y2 <= c.y1 ==> e.y2 <= e.y1)
    ensures Abs(e.y2 - e.y1) == Sized(v, Abs(c.y2 - c.y1))
  {
  }

  /** The rectangle has the sides that the limits allow. It is the one inside the image, next to the
      selection, exactly unless the selection overhangs on the right or a side is longer than the image;
      with an overhang it ends outside. */
  lemma RectFacts(h: Axis, v: Axis, c: Corners)
    ensures var r, s, t := RectOf(h, v, c), Sized(h, Abs(c.x2 - c.x1)), Sized(v, Abs(c.y2 - c.y1));
            && r.x2 - r.x == s && r.y2 - r.y == t
            && (if Overhangs(h, c.x1, c.x2) then r.x2 > h.bound
                else r.x == Fit(h, Low(h, c.x1, c.x2), s) && r.y == Fit(v, Low(v, c.y1, c.y2), t))
            && (Inside(h, v, Corners(r.x, r.y, r.x2, r.y2)) <==>
                !Overhangs(h, c.x1, c.x2) && s <= h.bound && t <= v.bound)
  {
  }

  /** A selection whose corners are in the image never overhangs, so that its rectangle is in the image. */
  lemma WithinFits(a: Axis, p: int, q: int)
    requires Sensible(a) && Within(a, p, q)
    ensures !Overhangs(a, p, q)
    ensures var s := Sized(a, Abs(q - p)); var low := Fit(a, Low(a, p, q), s);
            0 <= low && low + s <= a.bound && a.least <= s && (a.limit != 0 ==> s <= a.limit)
  {
  }

  /** Along one axis: corners inside give way only as far as the limits and the image ask for. A side that the
      limits allow stays as it is; the fixed corner stays exactly if the sized side has room on the dragged side. */
  lemma CornersGiveWay(a: Axis, p: int, q: int)
    requires Sensible(a) && Within(a, p, q)
    ensures var s := Sized(a, Abs(q - p));
            var low := Fit(a, Low(a, p, q), s);
            && (Allowed(a, Abs(q - p)) ==> low == Min(p, q) && low + s == Max(p, q))
            && ((if q > p then low else low + s) == p <==> if q > p then p + s <= a.bound else s <= p)
  {
  }

  /** The same of the rectangle: selections within the limits are given back as they are. */
  lemma SelectionGivenBack(h: Axis, v: Axis, c: Corners)
    requires Sensible(h) && Sensible(v) && Inside(h, v, c)
    ensures Allowed(h, Abs(c.x2 - c.x1)) && Allowed(v, Abs(c.y2 - c.y1)) ==>
              RectOf(h, v, c) == FlipCoords(c.x1, c.y1, c.x2, c.y2) && Turned(c, RectOf(h, v, c)) == c
    ensures Turned(c, RectOf(h, v, c)).x1 == c.x1 <==>
            var s := Sized(h, Abs(c.x2 - c.x1)); if c.x2 > c.x1 then c.x1 + s <= h.bound else s <= c.x1
    ensures Turned(c, RectOf(h, v, c)).y1 == c.y1 <==>
            var s := Sized(v, Abs(c.y2 - c.y1)); if c.y2 > c.y1 then c.y1 + s <= v.bound else s <= c.y1
  {
    CornersGiveWay(h, c.x1, c.x2);
    CornersGiveWay(v, c.y1, c.y2);
    WithinFits(h, c.x1, c.x2);
    RectFacts(h, v, c);
  }

  lemma SettledStays(a: Axis, p: int, q: int, d: nat)
    requires Sensible(a) && Within(a, p, q) && Abs(q - p) == Sized(a, d)
    ensures Sized(a, Abs(q - p)) == Abs(q - p) && Fit(a, Low(a, p, q), Abs(q - p)) == Min(p, q)
  {
  }

  /** Inside the image, `getRect` gives a rectangle inside with sides within the limits, and keeps the corners
      inside. */
  method Ask(c: Coords) returns (r: Rect)
    requires Sensible(c.h) && Sensible(c.v) && c.InImage()
    modifies c
    ensures c.InImage() && r == FlipCoords(c.x1, c.y1, c.x2, c.y2)
    ensures 0 <= r.x <= r.x2 <= c.h.bound && 0 <= r.y <= r.y2 <= c.v.bound
    ensures Abs(c.x2 - c.x1) == r.x2 - r.x == Sized(c.h, old(Abs(c.x2 - c.x1)))
    ensures Abs(c.y2 - c.y1) == r.y2 - r.y == Sized(c.v, old(Abs(c.y2 - c.y1)))
    ensures c.h.least <= r.x2 - r.x && (c.h.limit != 0 ==> r.x2 - r.x <= c.h.limit)
    ensures c.v.least <= r.y2 - r.y && (c.v.limit != 0 ==> r.y2 - r.y <= c.v.limit)
  {
    StaysInside(c.h, c.v, c.Now(), Act.Ask);
    RectFacts(c.h, c.v, c.Now());
    r := c.GetRect();
  }

  /** Asking again changes nothing. */
  method AskTwice(c: Coords) returns (r: Rect, again: Rect)
    requires Sensible(c.h) && Sensible(c.v) && c.InImage()
    modifies c
    ensures again == r
  {
    ghost var dx, dy := Abs(c.x2 - c.x1), Abs(c.y2 - c.y1);
    r := Ask(c);
    SettledStays(c.h, c.x1, c.x2, dx);
    SettledStays(c.v, c.y1, c.y2, dy);
    RectFacts(c.h, c.v, c.Now());
    WithinFits(c.h, c.x1, c.x2);
    again := c.GetRect();
  }

  // ----- whole runs

  datatype Act = Press(pos: Point) | Drag(pos: Point) | Move(dx: int, dy: int) | Ask

  /** What an act makes of the corners. */
  function After(h: Axis, v: Axis, c: Corners, act: Act): Corners {
    match act
    case Press(pos) => Corners(Rebound(h, pos.x), Rebound(v, pos.y), Rebound(h, pos.x), Rebound(v, pos.y))
    case Drag(pos) => Corners(c.x1, c.y1, Rebound(h, pos.x), Rebound(v, pos.y))
    case Move(dx, dy) =>
      var x1, y1 := Min(Max(c.x1 + dx, 0), c.x1 + h.bound - c.x2), Min(Max(c.y1 + dy, 0), c.y1 + v.bound - c.y2);
      Corners(x1, y1, x1 + c.x2 - c.x1, y1 + c.y2 - c.y1)
    case Ask => Turned(c, RectOf(h, v, c))
  }

  /** A move of a rectangle with the fixed corner first, or one that stays inside as a whole. */
  predicate Admits(h: Axis, v: Axis, c: Corners, act: Act) {
    act.Move? ==>
      (c.x1 <= c.x2 || -c.x2 <= act.dx <= h.bound - c.x1) &&
      (c.y1 <= c.y2 || -c.y2 <= act.dy <= v.bound - c.y1)
  }

  function Played(h: Axis, v: Axis, c: Corners, acts: seq<Act>): Corners {
    if acts == [] then c else After(h, v, Played(h, v, c, acts[..|acts| - 1]), acts[|acts| - 1])
  }

  ghost predicate AlwaysInside(h: Axis, v: Axis, c: Corners, acts: seq<Act>) {
    Inside(h, v, Played(h, v, c, acts)) && (acts != [] ==> AlwaysInside(h, v, c, acts[..|acts| - 1]))
  }

  predicate AllAdmitted(h: Axis, v: Axis, c: Corners, acts: seq<Act>) {
    acts == [] ||
    var front, act := acts[..|acts| - 1], acts[|acts| - 1];
    AllAdmitted(h, v, c, front) && Admits(h, v, Played(h, v, c, front), act)
  }

  /** One act keeps the corners inside exactly if it is admitted, and the rectangle is then inside too, with
      sides within the limits. */
  lemma StaysInside(h: Axis, v: Axis, c: Corners, act: Act)
    requires Sensible(h) && Sensible(v) && Inside(h, v, c)
    ensures Inside(h, v, After(h, v, c, act)) <==> Admits(h, v, c, act)
    ensures var r := RectOf(h, v, c);
            && Inside(h, v, Corners(r.x, r.y, r.x2, r.y2))
            && h.least <= r.x2 - r.x && (h.limit != 0 ==> r.x2 - r.x <= h.limit)
            && v.least <= r.y2 - r.y && (v.limit != 0 ==> r.y2 - r.y <= v.limit)
  {
    WithinFits(h, c.x1, c.x2);
    WithinFits(v, c.y1, c.y2);
  }

  /** In every run of presses, drags, moves and questions, the corners stay in the image all the way exactly
      if every move is admitted. */
  lemma {:induction false} RunStaysInside(h: Axis, v: Axis, c: Corners, acts: seq<Act>)
    requires Sensible(h) && Sensible(v) && Inside(h, v, c)
    ensures AlwaysInside(h, v, c, acts) <==> AllAdmitted(h, v, c, acts)
  {
    if acts != [] {
      var front, act := acts[..|acts| - 1], acts[|acts| - 1];
      RunStaysInside(h, v, c, front);
      if AlwaysInside(h, v, c, front) {
        StaysInside(h, v, Played(h, v, c, front), act);
      }
    }
  }

  /** A run on the object itself. */
  method Play(c: Coords, acts: seq<Act>)
    modifies c
    ensures c.Now() == Played(c.h, c.v, old(c.Now()), acts)
  {
    for i := 0 to |acts|
      invariant c.Now() == Played(c.h, c.v, old(c.Now()), acts[..i])
    {
      assert acts[..i + 1][..i] == acts[..i];
      match acts[i] {
        case Press(pos) => c.SetPressed(pos);
        case Drag(pos) => c.SetCurrent(pos);
        case Move(dx, dy) => c.MoveOffset(dx, dy);
        case Ask => var _ := c.GetRect();
      }
    }
    assert acts[..|acts|] == acts;
  }

  /** A rectangle dragged out to the left, then moved to the right past the edge: `getRect` leaves it
      outside, where the move has left it. */
  method MovedPastTheEdge() returns (r: Rect)
    ensures r.x == 100 && r.x2 == 140
  {
    var c := new Coords(Axis(100, 0, 0), Axis(200, 0, 0));
    c.SetPressed(Point(50.0, 0.0));
    c.SetCurrent(Point(10.0, 0.0));
    c.MoveOffset(95, 0);
    RectFacts(c.h, c.v, c.Now());
    r := c.GetRect();
  }
}
