/** The pass of jsgantt over its flat list of tasks: depth and visibility go down the tree of groups,
    dates and completion come up. */
module Gantt {
  import opened Numbers

  /** What the pass only reads of a task. */
  datatype Row = Row(id: int, parent: int, group: bool, open: bool)

  /** What the pass writes. A missing completion reads as 0. */
  datatype Bar = Bar(start: int, finish: int, comp: real, kids: nat, level: int, visible: bool)

  /** The two readings of the clock at the beginning of one call. */
  datatype Readings = Readings(start: int, finish: int)

  class TaskItem {
    const row: Row
    var start: int
    var finish: int
    var comp: real
    var numKid: nat
    var level: int
    var visible: bool

    constructor (row: Row, start: int, finish: int, comp: real)
      ensures this.row == row && Now() == Bar(start, finish, comp, 0, 0, true)
    {
      this.row, this.start, this.finish, this.comp := row, start, finish, comp;
      numKid, level, visible := 0, 0, true;
    }

    function Now(): Bar
      reads this
    {
      Bar(start, finish, comp, numKid, level, visible)
    }
  }

  // ----- the tree

  /** Groups have ids of their own, and not the id that stands for the top. */
  ghost predicate Identified(rows: seq<Row>) {
    && (forall i: nat | i < |rows| && rows[i].group :: rows[i].id != 0)
    && (forall i: nat, j: nat | i < j < |rows| && rows[i].group && rows[j].group :: rows[i].id != rows[j].id)
  }

  predicate IsChild(rows: seq<Row>, i: nat, k: nat) {
    i < |rows| && k < |rows| && rows[i].group && rows[k].parent == rows[i].id
  }

  /** Places of rows from a top task down, through groups. */
  ghost predicate IsPath(rows: seq<Row>, p: seq<nat>) {
    && (p != [] ==> p[0] < |rows| && rows[p[0]].parent == 0)
    && (forall k: nat | k < |p| :: p[k] < |rows|)
    && (forall j: nat, k: nat {:trigger p[j], p[k]} | j < |p| && k == j + 1 < |p| :: IsChild(rows, p[j], p[k]))
  }

  /** The id whose children are next below `p`. */
  function IdOf(rows: seq<Row>, p: seq<nat>): int
    requires p != [] ==> p[|p| - 1] < |rows|
  {
    if p == [] then 0 else rows[p[|p| - 1]].id
  }

  lemma Prefix(rows: seq<Row>, p: seq<nat>, n: nat)
    requires IsPath(rows, p) && n <= |p|
    ensures IsPath(rows, p[..n]) && (n < |p| ==> rows[p[n]].parent == IdOf(rows, p[..n]))
  {
    assert forall k: nat | k < n :: p[..n][k] == p[k];
    if 0 < n < |p| {
      assert IsChild(rows, p[n - 1], p[n]);
    }
  }

  lemma Grown(rows: seq<Row>, p: seq<nat>, k: nat)
    requires IsPath(rows, p) && k < |rows| && rows[k].parent == IdOf(rows, p) && (p != [] ==> rows[p[|p| - 1]].group)
    ensures IsPath(rows, p + [k])
  {
    var q := p + [k];
    assert forall j: nat | j < |p| :: q[j] == p[j];
  }

  lemma {:induction false} PathUnique(rows: seq<Row>, p: seq<nat>, q: seq<nat>)
    requires Identified(rows) && IsPath(rows, p) && IsPath(rows, q)
    requires p != [] && q != [] && p[|p| - 1] == q[|q| - 1]
    ensures p == q
    decreases |p|
  {
    var m, n := |p| - 1, |q| - 1;
    assert m > 0 ==> IsChild(rows, p[m - 1], p[m]);
    assert n > 0 ==> IsChild(rows, q[n - 1], q[n]);
    if m > 0 {
      Prefix(rows, p, m);
      Prefix(rows, q, n);
      PathUnique(rows, p[..m], q[..n]);
      assert p == p[..m] + [p[m]] && q == q[..n] + [q[n]];
    }
  }

  lemma PathDistinct(rows: seq<Row>, p: seq<nat>, i: nat, j: nat)
    requires Identified(rows) && IsPath(rows, p) && i < j < |p|
    ensures p[i] != p[j]
  {
    if p[i] == p[j] {
      Prefix(rows, p, i + 1);
      Prefix(rows, p, j + 1);
      PathUnique(rows, p[..i + 1], p[..j + 1]);
      assert false;
    }
  }

  lemma {:induction false} Pigeons(p: seq<nat>, n: nat)
    requires forall i: nat | i < |p| :: p[i] < n
    requires forall i: nat, j: nat | i < j < |p| :: p[i] != p[j]
    ensures |p| <= n
    decreases n
  {
    if p != [] {
      assert p[0] < n;
      if k: nat :| k < |p| && p[k] == n - 1 {
        var q := p[..k] + p[k + 1..];
        Pigeons(q, n - 1);
      } else {
        Pigeons(p, n - 1);
      }
    }
  }

  /** Whatever the parents are, a path is no longer than the list: no cycle is ever entered. */
  lemma PathIsShort(rows: seq<Row>, p: seq<nat>)
    requires Identified(rows) && IsPath(rows, p)
    ensures |p| <= |rows|
  {
    forall i: nat, j: nat | i < j < |p| ensures p[i] != p[j] {
      PathDistinct(rows, p, i, j);
    }
    Pigeons(p, |rows|);
  }

  ghost predicate Reaches(rows: seq<Row>, p: seq<nat>, i: nat) {
    p != [] && IsPath(rows, p) && p[|p| - 1] == i
  }

  /** The path to row `i`; none if the row is not below a top task by groups alone. */
  ghost function PathTo(rows: seq<Row>, i: nat): (p: seq<nat>)
    ensures p != [] ==> Reaches(rows, p, i)
    ensures p == [] ==> forall q :: !Reaches(rows, q, i)
  {
    if q :| Reaches(rows, q, i) then q else []
  }

  lemma PathIs(rows: seq<Row>, p: seq<nat>)
    requires Identified(rows) && IsPath(rows, p) && p != []
    ensures PathTo(rows, p[|p| - 1]) == p
  {
    assert Reaches(rows, p, p[|p| - 1]);
    PathUnique(rows, p, PathTo(rows, p[|p| - 1]));
  }

  predicate AllOpen(rows: seq<Row>, p: seq<nat>)
    requires forall k: nat | k < |p| :: p[k] < |rows|
  {
    forall k: nat | k < |p| :: rows[p[k]].open
  }

  // ----- totals over the children among the first `n` rows

  function Kids(rows: seq<Row>, id: int, n: nat): nat
    requires n <= |rows|
  {
    if n == 0 then 0 else Kids(rows, id, n - 1) + if rows[n - 1].parent == id then 1 else 0
  }

  function CompSum(rows: seq<Row>, w: seq<Bar>, id: int, n: nat): real
    requires n <= |rows| == |w|
  {
    if n == 0 then 0.0 else CompSum(rows, w, id, n - 1) + if rows[n - 1].parent == id then w[n - 1].comp else 0.0
  }

  ghost predicate IsEarliest(rows: seq<Row>, w: seq<Bar>, id: int, n: nat, start: int)
    requires n <= |rows| == |w|
  {
    && (forall j: nat | j < n && rows[j].parent == id :: start <= w[j].start)
    && (exists j: nat :: j < n && rows[j].parent == id && w[j].start == start)
  }

  ghost predicate IsLatest(rows: seq<Row>, w: seq<Bar>, id: int, n: nat, finish: int)
    requires n <= |rows| == |w|
  {
    && (forall j: nat | j < n && rows[j].parent == id :: w[j].finish <= finish)
    && (exists j: nat :: j < n && rows[j].parent == id && w[j].finish == finish)
  }

  lemma {:induction false} KidsNone(rows: seq<Row>, id: int, n: nat)
    requires n <= |rows|
    ensures Kids(rows, id, n) == 0 <==> forall j: nat | j < n :: rows[j].parent != id
  {
    if n > 0 {
      KidsNone(rows, id, n - 1);
    }
  }

  lemma {:induction false} SumFrame(rows: seq<Row>, w: seq<Bar>, x: seq<Bar>, id: int, n: nat)
    requires n <= |rows| == |w| == |x|
    requires forall j: nat | j < n && rows[j].parent == id :: w[j] == x[j]
    ensures CompSum(rows, w, id, n) == CompSum(rows, x, id, n)
  {
    if n > 0 {
      SumFrame(rows, w, x, id, n - 1);
    }
  }

  /** The variables of one call. */
  datatype Running = Running(minDate: int, maxDate: int, minSet: bool, maxSet: bool, numKid: nat, compSum: real)

  /** The running results, over the children among the first `n` rows; with no child, the clock. */
  ghost predicate Totals(rows: seq<Row>, w: seq<Bar>, id: int, n: nat, now: Readings, t: Running)
    requires n <= |rows| == |w|
  {
    && t.numKid == Kids(rows, id, n) && t.minSet == t.maxSet == (t.numKid > 0)
    && t.compSum == CompSum(rows, w, id, n)
    && (if t.numKid == 0 then t.minDate == now.start && t.maxDate == now.finish
        else IsEarliest(rows, w, id, n, t.minDate) && IsLatest(rows, w, id, n, t.maxDate))
  }

  /** The mean completion, rounded up; without children it is no number and reads as 0. */
  function Mean(sum: real, kids: nat): real {
    if kids == 0 then 0.0 else Ceil(sum / kids as real) as real
  }

  function Sums(b: Bar, compSum: real): Running {
    Running(b.start, b.finish, b.kids > 0, b.kids > 0, b.kids, compSum)
  }

  /** Bar `b` shows the children of `id`. */
  ghost predicate Summarised(rows: seq<Row>, w: seq<Bar>, id: int, now: Readings, b: Bar)
    requires |rows| == |w|
  {
    var sum := CompSum(rows, w, id, |rows|);
    b.comp == Mean(sum, b.kids) && Totals(rows, w, id, |rows|, now, Sums(b, sum))
  }

  lemma TotalsFrame(rows: seq<Row>, w: seq<Bar>, x: seq<Bar>, id: int, n: nat, now: Readings, t: Running)
    requires n <= |rows| == |w| == |x| && Totals(rows, w, id, n, now, t)
    requires forall j: nat | j < n && rows[j].parent == id :: w[j] == x[j]
    ensures Totals(rows, x, id, n, now, t)
  {
    SumFrame(rows, w, x, id, n);
  }

  lemma SummaryFrame(rows: seq<Row>, w: seq<Bar>, x: seq<Bar>, id: int, now: Readings, b: Bar)
    requires |rows| == |w| == |x| && Summarised(rows, w, id, now, b)
    requires forall j: nat | j < |rows| && rows[j].parent == id :: w[j] == x[j]
    ensures Summarised(rows, x, id, now, b)
  {
    SumFrame(rows, w, x, id, |rows|);
    TotalsFrame(rows, w, x, id, |rows|, now, Sums(b, CompSum(rows, w, id, |rows|)));
  }

  /** Running results `t`, with one more child. */
  function Counted(t: Running, b: Bar): Running {
    Running(if !t.minSet || b.start < t.minDate then b.start else t.minDate,
            if !t.maxSet || b.finish > t.maxDate then b.finish else t.maxDate,
            true, true, t.numKid + 1, t.compSum + b.comp)
  }

  /** The running results after the first `n` rows. */
  function Folded(rows: seq<Row>, w: seq<Bar>, id: int, n: nat, now: Readings): Running
    requires n <= |rows| == |w|
  {
    if n == 0 then Running(now.start, now.finish, false, false, 0, 0.0)
    else
      var t := Folded(rows, w, id, n - 1, now);
      if rows[n - 1].parent == id then Counted(t, w[n - 1]) else t
  }

  lemma TotalsStep(rows: seq<Row>, w: seq<Bar>, id: int, n: nat, now: Readings, t: Running)
    requires n < |rows| == |w| && Totals(rows, w, id, n, now, t)
    ensures Totals(rows, w, id, n + 1, now, if rows[n].parent == id then Counted(t, w[n]) else t)
  {
    KidsNone(rows, id, n);
    if t.numKid > 0 {
      var j: nat :| j < n && rows[j].parent == id && w[j].start == t.minDate;
      var k: nat :| k < n && rows[k].parent == id && w[k].finish == t.maxDate;
    }
  }

  /** The running results are number, completion, earliest start and latest end of the children. */
  lemma {:induction false} FoldedTotals(rows: seq<Row>, w: seq<Bar>, id: int, n: nat, now: Readings)
    requires n <= |rows| == |w|
    ensures Totals(rows, w, id, n, now, Folded(rows, w, id, n, now))
  {
    if n > 0 {
      FoldedTotals(rows, w, id, n - 1, now);
      TotalsStep(rows, w, id, n - 1, now, Folded(rows, w, id, n - 1, now));
    }
  }

  lemma {:induction false} FoldedFrame(rows: seq<Row>, w: seq<Bar>, x: seq<Bar>, id: int, n: nat, now: Readings)
    requires n <= |rows| == |w| == |x|
    requires forall j: nat | j < n && rows[j].parent == id :: w[j] == x[j]
    ensures Folded(rows, w, id, n, now) == Folded(rows, x, id, n, now)
  {
    if n > 0 {
      FoldedFrame(rows, w, x, id, n - 1, now);
    }
  }

  method Count(t: Running, b: TaskItem) returns (u: Running)
    ensures u == Counted(t, b.Now())
  {
    u := t.(numKid := t.numKid + 1);
    if !t.minSet || b.start < t.minDate {
      u := u.(minDate := b.start, minSet := true);
    }
    if !t.maxSet || b.finish > t.maxDate {
      u := u.(maxDate := b.finish, maxSet := true);
    }
    u := u.(compSum := t.compSum + b.comp);
  }

  // ----- the pass

  /** Row `j`, reached by path `p`, after a pass from `v` to `w`. */
  ghost predicate Right(rows: seq<Row>, v: seq<Bar>, w: seq<Bar>, clock: int -> Readings, j: nat, p: seq<nat>)
    requires |rows| == |v| == |w| && Reaches(rows, p, j)
  {
    && w[j].level == |p| && w[j].visible == AllOpen(rows, p[..|p| - 1])
    && (if rows[j].group then Summarised(rows, w, rows[j].id, clock(j), w[j])
        else w[j] == v[j].(level := w[j].level, visible := w[j].visible))
  }

  /** Below path `p`, by a child among the first `n` rows. */
  ghost predicate Below(rows: seq<Row>, p: seq<nat>, n: nat, j: nat) {
    var q := PathTo(rows, j);
    |p| < |q| && p == q[..|p|] && q[|p|] < n
  }

  /** The children of `p` among the first `n` rows are done, with all below them, and nothing else is. */
  ghost predicate Passed(rows: seq<Row>, v: seq<Bar>, w: seq<Bar>, clock: int -> Readings, p: seq<nat>, n: nat) {
    && |rows| == |v| == |w|
    && forall j: nat | j < |rows| ::
       if Below(rows, p, n, j) then Right(rows, v, w, clock, j, PathTo(rows, j)) else w[j] == v[j]
  }

  /** One whole call: as Passed, and the row of the call shows its children. */
  ghost predicate Called(rows: seq<Row>, v: seq<Bar>, w: seq<Bar>, clock: int -> Readings, p: seq<nat>)
    requires IsPath(rows, p)
  {
    if p == [] then Passed(rows, v, w, clock, p, |rows|)
    else
      var i := p[|p| - 1];
      && |rows| == |v| == |w|
      && Passed(rows, v, w[i := v[i]], clock, p, |rows|)
      && w[i].level == v[i].level && w[i].visible == v[i].visible
      && Summarised(rows, w[i := v[i]], rows[i].id, clock(i), w[i])
  }

  lemma ChildPath(rows: seq<Row>, p: seq<nat>, j: nat, k: nat)
    requires Identified(rows) && Reaches(rows, p, j) && rows[j].group && k < |rows| && rows[k].parent == rows[j].id
    ensures IsPath(rows, p + [k]) && PathTo(rows, k) == p + [k]
  {
    Grown(rows, p, k);
    PathIs(rows, p + [k]);
  }

  lemma RightFrame(rows: seq<Row>, v: seq<Bar>, w: seq<Bar>, x: seq<Bar>, y: seq<Bar>, clock: int -> Readings, j: nat,
                   p: seq<nat>)
    requires |rows| == |v| == |w| == |x| == |y| && Identified(rows) && Reaches(rows, p, j) &&
             Right(rows, v, w, clock, j, p)
    requires v[j] == x[j] && w[j] == y[j]
    requires forall k: nat | k < |rows| && PathTo(rows, k) == p + [k] :: w[k] == y[k]
    ensures Right(rows, x, y, clock, j, p)
  {
    if rows[j].group {
      forall k: nat | k < |rows| && rows[k].parent == rows[j].id ensures w[k] == y[k] {
        ChildPath(rows, p, j, k);
      }
      SummaryFrame(rows, w, y, rows[j].id, clock(j), w[j]);
    }
  }

  /** The loop's body: child `i` gets its place, and if it is a group, is called. */
  lemma ChildDone(rows: seq<Row>, v: seq<Bar>, w: seq<Bar>, x: seq<Bar>, y: seq<Bar>, clock: int -> Readings,
                  p: seq<nat>, i: nat)
    requires Identified(rows) && i < |rows| && IsPath(rows, p) && IsPath(rows, p + [i]) &&
             Passed(rows, v, w, clock, p, i)
    requires x == w[i := w[i].(level := |p| + 1, visible := AllOpen(rows, p))]
    requires if rows[i].group then Called(rows, x, y, clock, p + [i]) else y == x
    ensures Passed(rows, v, y, clock, p, i + 1)
  {
    PathIs(rows, p + [i]);
    assert PathTo(rows, i) == p + [i];
    forall j: nat | j < |rows|
      ensures if Below(rows, p, i + 1, j) then Right(rows, v, y, clock, j, PathTo(rows, j)) else y[j] == v[j]
    {
      var q := PathTo(rows, j);
      if !Below(rows, p, i + 1, j) {
        NotBelowChild(rows, p, i, j);
      } else if q[|p|] < i {
        EarlierRight(rows, v, w, x, y, clock, p, i, j);
      } else if j == i {
        ChildRight(rows, v, w, x, y, clock, p, i);
      } else {
        DeeperBelow(rows, p, i, j);
        DeeperRight(rows, v, w, x, y, clock, p, i, j);
      }
    }
  }

  lemma DeeperBelow(rows: seq<Row>, p: seq<nat>, i: nat, j: nat)
    requires Below(rows, p, i + 1, j) && PathTo(rows, j)[|p|] == i && j != i && i < |rows|
    ensures Below(rows, p + [i], |rows|, j) && rows[i].group
  {
    var q := PathTo(rows, j);
    assert q[..|p| + 1] == p + [i];
    assert q[|q| - 1] == j;
    assert |q| > |p| + 1 ==> IsChild(rows, q[|p|], q[|p| + 1]);
  }

  lemma NotBelowChild(rows: seq<Row>, p: seq<nat>, i: nat, j: nat)
    requires i < |rows| && PathTo(rows, i) == p + [i] && !Below(rows, p, i + 1, j)
    ensures j != i && !Below(rows, p, i, j) && !Below(rows, p + [i], |rows|, j)
  {
    var q := PathTo(rows, j);
    if |p| < |q| {
      assert q[..|p| + 1] == q[..|p|] + [q[|p|]];
    }
  }

  /** Placing child `i` and calling it if it is a group: what ChildDone speaks of. */
  ghost predicate ChildCall(rows: seq<Row>, v: seq<Bar>, w: seq<Bar>, x: seq<Bar>, y: seq<Bar>,
                            clock: int -> Readings, p: seq<nat>, i: nat) {
    && Identified(rows) && i < |rows| && IsPath(rows, p) && IsPath(rows, p + [i]) && PathTo(rows, i) == p + [i]
    && Passed(rows, v, w, clock, p, i)
    && x == w[i := w[i].(level := |p| + 1, visible := AllOpen(rows, p))]
    && if rows[i].group then Called(rows, x, y, clock, p + [i]) else y == x
  }

  lemma Outside(rows: seq<Row>, v: seq<Bar>, w: seq<Bar>, x: seq<Bar>, y: seq<Bar>, clock: int -> Readings,
                p: seq<nat>, i: nat, k: nat)
    requires ChildCall(rows, v, w, x, y, clock, p, i) && k < |rows| && !(p + [i] <= PathTo(rows, k))
    ensures |w| == |y| == |rows| && y[k] == w[k]
  {
    assert k != i;
    assert !Below(rows, p + [i], |rows|, k);
  }

  lemma EarlierRight(rows: seq<Row>, v: seq<Bar>, w: seq<Bar>, x: seq<Bar>, y: seq<Bar>, clock: int -> Readings,
                     p: seq<nat>, i: nat, j: nat)
    requires ChildCall(rows, v, w, x, y, clock, p, i) && j < |rows| && Below(rows, p, i, j)
    ensures |v| == |y| == |rows| && Right(rows, v, y, clock, j, PathTo(rows, j))
  {
    var q := PathTo(rows, j);
    Outside(rows, v, w, x, y, clock, p, i, j);
    forall k: nat | k < |rows| && PathTo(rows, k) == q + [k] ensures w[k] == y[k] {
      assert (q + [k])[|p|] != i;
      Outside(rows, v, w, x, y, clock, p, i, k);
    }
    RightFrame(rows, v, w, v, y, clock, j, q);
  }

  lemma ChildRight(rows: seq<Row>, v: seq<Bar>, w: seq<Bar>, x: seq<Bar>, y: seq<Bar>, clock: int -> Readings,
                   p: seq<nat>, i: nat)
    requires ChildCall(rows, v, w, x, y, clock, p, i)
    ensures |v| == |y| == |rows| && Right(rows, v, y, clock, i, PathTo(rows, i))
  {
    var q := p + [i];
    assert q[..|p|] == p;
    assert !Below(rows, p, i, i);
    if rows[i].group {
      var z := y[i := x[i]];
      forall k: nat | k < |rows| && rows[k].parent == rows[i].id ensures z[k] == y[k] {
        ChildPath(rows, q, i, k);
        assert |q + [k]| != |q|;
      }
      SummaryFrame(rows, z, y, rows[i].id, clock(i), y[i]);
    }
  }

  lemma DeeperRight(rows: seq<Row>, v: seq<Bar>, w: seq<Bar>, x: seq<Bar>, y: seq<Bar>, clock: int -> Readings,
                    p: seq<nat>, i: nat, j: nat)
    requires ChildCall(rows, v, w, x, y, clock, p, i) && j < |rows| && Below(rows, p + [i], |rows|, j) && rows[i].group
    ensures |v| == |y| == |rows| && Right(rows, v, y, clock, j, PathTo(rows, j))
  {
    var q := PathTo(rows, j);
    var z := y[i := x[i]];
    assert j != i && q[|p|] == (p + [i])[|p|] == i;
    assert !Below(rows, p, i, j);
    assert v[j] == x[j];
    forall k: nat | k < |rows| && PathTo(rows, k) == q + [k] ensures z[k] == y[k] {
      assert |q + [k]| > |p + [i]|;
    }
    RightFrame(rows, x, z, v, y, clock, j, q);
  }

  lemma CallsShrink(rows: seq<Row>, p: seq<nat>, i: nat)
    requires Identified(rows) && IsPath(rows, p) && i < |rows| && rows[i].parent == IdOf(rows, p)
    requires p != [] ==> rows[p[|p| - 1]].group
    ensures IsPath(rows, p + [i]) && |p| < |rows|
  {
    Grown(rows, p, i);
    PathIsShort(rows, p + [i]);
  }

  lemma AllOpenNext(rows: seq<Row>, p: seq<nat>, i: nat)
    requires i < |rows| && forall k: nat | k < |p| :: p[k] < |rows|
    ensures AllOpen(rows, p + [i]) == (AllOpen(rows, p) && rows[i].open)
  {
    var q := p + [i];
    assert forall k: nat | k < |p| :: q[k] == p[k];
    assert q[|p|] == i;
  }

  lemma NotAChild(rows: seq<Row>, v: seq<Bar>, w: seq<Bar>, clock: int -> Readings, p: seq<nat>, i: nat)
    requires i < |rows| && Passed(rows, v, w, clock, p, i) && IsPath(rows, p) && rows[i].parent != IdOf(rows, p)
    ensures Passed(rows, v, w, clock, p, i + 1)
  {
    forall j: nat | j < |rows| ensures Below(rows, p, i + 1, j) == Below(rows, p, i, j) {
      NoneBelow(rows, p, i, j);
    }
  }

  lemma NoneBelow(rows: seq<Row>, p: seq<nat>, i: nat, j: nat)
    requires i < |rows| && IsPath(rows, p) && rows[i].parent != IdOf(rows, p)
    ensures Below(rows, p, i + 1, j) == Below(rows, p, i, j)
  {
    var q := PathTo(rows, j);
    if |p| < |q| && p == q[..|p|] {
      Prefix(rows, q, |p|);
    }
  }

  lemma PathToChild(rows: seq<Row>, p: seq<nat>, j: nat)
    requires Identified(rows) && IsPath(rows, p) && j < |rows| && rows[j].parent == IdOf(rows, p)
    requires p != [] ==> rows[p[|p| - 1]].group
    ensures PathTo(rows, j) == p + [j]
  {
    CallsShrink(rows, p, j);
    PathIs(rows, p + [j]);
  }

  lemma Elsewhere(p: seq<nat>, i: nat, j: nat)
    requires i != j
    ensures !(p + [i] <= p + [j])
  {
    assert (p + [j])[|p|] != (p + [i])[|p|];
  }

  lemma SiblingsKept(rows: seq<Row>, v: seq<Bar>, w: seq<Bar>, x: seq<Bar>, y: seq<Bar>, clock: int -> Readings,
                     p: seq<nat>, i: nat, j: nat)
    requires ChildCall(rows, v, w, x, y, clock, p, i) && (p != [] ==> rows[p[|p| - 1]].group)
    requires j < i && rows[j].parent == IdOf(rows, p)
    ensures |w| == |y| == |rows| && w[j] == y[j]
  {
    PathToChild(rows, p, j);
    Elsewhere(p, i, j);
    Outside(rows, v, w, x, y, clock, p, i, j);
  }

  lemma TotalsKept(rows: seq<Row>, v: seq<Bar>, w: seq<Bar>, x: seq<Bar>, y: seq<Bar>, clock: int -> Readings,
                   p: seq<nat>, i: nat,
                   now: Readings)
    requires ChildCall(rows, v, w, x, y, clock, p, i) && (p != [] ==> rows[p[|p| - 1]].group)
    ensures |w| == |y| == |rows| && Folded(rows, w, IdOf(rows, p), i, now) == Folded(rows, y, IdOf(rows, p), i, now)
  {
    forall j: nat | j < i && rows[j].parent == IdOf(rows, p) ensures w[j] == y[j] {
      SiblingsKept(rows, v, w, x, y, clock, p, i, j);
    }
    FoldedFrame(rows, w, y, IdOf(rows, p), i, now);
  }

  lemma CallDone(rows: seq<Row>, v: seq<Bar>, w: seq<Bar>, x: seq<Bar>, clock: int -> Readings, p: seq<nat>, t: Running)
    requires Identified(rows) && IsPath(rows, p) && p != [] && Passed(rows, v, w, clock, p, |rows|)
    requires var i := p[|p| - 1];
             && t == Folded(rows, w, rows[i].id, |rows|, clock(i))
             && x == w[i := w[i].(start := t.minDate, finish := t.maxDate, kids := t.numKid,
                                  comp := Mean(t.compSum, t.numKid))]
    ensures Called(rows, v, x, clock, p)
  {
    var i := p[|p| - 1];
    PathIs(rows, p);
    FoldedTotals(rows, w, rows[i].id, |rows|, clock(i));
    assert !Below(rows, p, |rows|, i);
    assert x[i := v[i]] == w;
    assert Sums(x[i], t.compSum) == t;
  }

  // ----- the list

  function Rows(list: seq<TaskItem>): (rows: seq<Row>)
    ensures |rows| == |list| && forall i: nat {:trigger rows[i]} | i < |list| :: rows[i] == list[i].row
  {
    seq(|list|, i requires 0 <= i < |list| => list[i].row)
  }

  ghost function Bars(list: seq<TaskItem>): (bars: seq<Bar>)
    reads list
    ensures |bars| == |list| && forall i: nat {:trigger bars[i]} | i < |list| :: bars[i] == list[i].Now()
  {
    seq(|list|, i requires 0 <= i < |list| reads list => list[i].Now())
  }

  /** No task is listed twice. */
  ghost predicate Separate(list: seq<TaskItem>) {
    forall i: nat, j: nat | i < j < |list| :: list[i] != list[j]
  }

  method SetPlace(list: seq<TaskItem>, i: nat, level: int, visible: bool)
    requires Separate(list) && i < |list|
    modifies list[i]
    ensures Bars(list) == old(Bars(list))[i := old(list[i].Now()).(level := level, visible := visible)]
  {
    list[i].level, list[i].visible := level, visible;
  }

  method SetTotals(list: seq<TaskItem>, i: nat, start: int, finish: int, numKid: nat, comp: real)
    requires Separate(list) && i < |list|
    modifies list[i]
    ensures Bars(list) == old(Bars(list))[i := old(list[i].Now()).(start := start, finish := finish, kids := numKid,
                                                                   comp := comp)]
  {
    list[i].start, list[i].finish, list[i].numKid, list[i].comp := start, finish, numKid, comp;
  }

  /** `processRows`. `clock` gives what the two `new Date()` of the call for a row read. */
  method ProcessRows(list: seq<TaskItem>, pID: int, pRow: int, pLevel: int, pOpen: bool, clock: int -> Readings,
                     ghost p: seq<nat>)
    requires Separate(list) && Identified(Rows(list)) && IsPath(Rows(list), p) && pID == IdOf(Rows(list), p)
    requires p == [] || list[p[|p| - 1]].row.group
    requires pRow == (if p == [] then -1 else p[|p| - 1]) && pLevel == |p| + 1 && pOpen == AllOpen(Rows(list), p)
    modifies list
    ensures Called(Rows(list), old(Bars(list)), Bars(list), clock, p)
    decreases |list| - |p|, 2
  {
    ghost var rows, v := Rows(list), Bars(list);
    var t := PassChildren(list, pID, pRow, pLevel, pOpen, clock, p);
    if pRow >= 0 {
      ghost var w := Bars(list);
      SetTotals(list, pRow, t.minDate, t.maxDate, t.numKid, Mean(t.compSum, t.numKid));
      CallDone(rows, v, w, Bars(list), clock, p, t);
    }
  }

  /** The loop of ProcessRows. */
  method PassChildren(list: seq<TaskItem>, pID: int, pRow: int, pLevel: int, pOpen: bool, clock: int -> Readings,
                      ghost p: seq<nat>)
    returns (t: Running)
    requires Separate(list) && Identified(Rows(list)) && IsPath(Rows(list), p) && pID == IdOf(Rows(list), p)
    requires p == [] || list[p[|p| - 1]].row.group
    requires pLevel == |p| + 1 && pOpen == AllOpen(Rows(list), p)
    modifies list
    ensures Passed(Rows(list), old(Bars(list)), Bars(list), clock, p, |list|)
    ensures t == Folded(Rows(list), Bars(list), pID, |list|, clock(pRow))
    decreases |list| - |p|, 1
  {
    ghost var v := Bars(list);
    var now := clock(pRow);
    t := Running(now.start, now.finish, false, false, 0, 0.0);
    for i: nat := 0 to |list|
      invariant Passed(Rows(list), v, Bars(list), clock, p, i)
      invariant t == Folded(Rows(list), Bars(list), pID, i, now)
    {
      if list[i].row.parent == pID {
        t := VisitChild(list, i, pLevel, pOpen, clock, p, v, now, t);
      } else {
        NotAChild(Rows(list), v, Bars(list), clock, p, i);
      }
    }
  }

  /** What the loop does with a child: it gets its place, a group is called, and the child is counted. */
  method VisitChild(list: seq<TaskItem>, i: nat, level: int, open: bool, clock: int -> Readings, ghost p: seq<nat>,
                    ghost v: seq<Bar>, ghost now: Readings, t: Running)
    returns (u: Running)
    requires Separate(list) && Identified(Rows(list)) && IsPath(Rows(list), p) && level == |p| + 1 &&
             open == AllOpen(Rows(list), p)
    requires p == [] || list[p[|p| - 1]].row.group
    requires i < |list| && list[i].row.parent == IdOf(Rows(list), p)
    requires Passed(Rows(list), v, Bars(list), clock, p, i)
    requires t == Folded(Rows(list), Bars(list), IdOf(Rows(list), p), i, now)
    modifies list
    ensures Passed(Rows(list), v, Bars(list), clock, p, i + 1)
    ensures u == Folded(Rows(list), Bars(list), IdOf(Rows(list), p), i + 1, now)
    decreases |list| - |p|, 0
  {
    ghost var rows, w := Rows(list), Bars(list);
    CallsShrink(rows, p, i);
    SetPlace(list, i, level, open);
    ghost var x := Bars(list);
    if list[i].row.group {
      AllOpenNext(rows, p, i);
      ProcessRows(list, list[i].row.id, i, level + 1, open && list[i].row.open, clock, p + [i]);
    }
    PathIs(rows, p + [i]);
    ChildDone(rows, v, w, x, Bars(list), clock, p, i);
    TotalsKept(rows, v, w, x, Bars(list), clock, p, i, now);
    u := Count(t, list[i]);
  }
}
