/** What one call of `processRows` for the whole list leaves in the tasks. */
module GanttTheorems {
  import opened Numbers
  import opened Gantt

  /** The call that jsgantt makes: from the top, everything open. */
  ghost predicate WholePass(rows: seq<Row>, v: seq<Bar>, w: seq<Bar>, clock: int -> Readings) {
    Identified(rows) && Called(rows, v, w, clock, [])
  }

  function Last(p: seq<nat>): nat
    requires p != []
  {
    p[|p| - 1]
  }

  lemma AfterPass(rows: seq<Row>, v: seq<Bar>, w: seq<Bar>, clock: int -> Readings, p: seq<nat>)
    requires WholePass(rows, v, w, clock) && IsPath(rows, p) && p != []
    ensures Reaches(rows, p, Last(p)) && |v| == |w| == |rows| && Right(rows, v, w, clock, Last(p), p)
  {
    PathIs(rows, p);
    assert Below(rows, [], |rows|, Last(p));
  }

  /** Levels are depths, a task is visible exactly when all groups above it are open, and a task that no
      path reaches, under a task that is no group or on a cycle, is left alone. */
  lemma PlaceByPath(rows: seq<Row>, v: seq<Bar>, w: seq<Bar>, clock: int -> Readings, j: nat)
    requires WholePass(rows, v, w, clock) && j < |rows|
    ensures forall p | Reaches(rows, p, j) ::
            w[j].level == |p| && (w[j].visible <==> forall k: nat | k < |p| - 1 :: rows[p[k]].open)
    ensures (forall p :: !Reaches(rows, p, j)) ==> w[j] == v[j]
  {
    forall p | Reaches(rows, p, j)
      ensures w[j].level == |p| && (w[j].visible <==> forall k: nat | k < |p| - 1 :: rows[p[k]].open)
    {
      AfterPass(rows, v, w, clock, p);
      var q := p[..|p| - 1];
      assert forall k: nat | k < |p| - 1 :: q[k] == p[k];
    }
    if forall p :: !Reaches(rows, p, j) {
      assert PathTo(rows, j) == [];
    }
  }

  // ----- dates

  /** A task without tasks below it: no group, or an empty one. */
  predicate Terminal(rows: seq<Row>, j: nat)
    requires j < |rows|
  {
    !rows[j].group || Kids(rows, rows[j].id, |rows|) == 0
  }

  /** `q` leads from the task at `p` to a terminal task; none, if it is one itself. */
  ghost predicate LeadsToTerminal(rows: seq<Row>, p: seq<nat>, q: seq<nat>) {
    p != [] && IsPath(rows, p + q) && Terminal(rows, Last(p + q))
  }

  /** The dates a terminal task has by itself: its own, or, for an empty group, the clock's. */
  function Own(rows: seq<Row>, v: seq<Bar>, clock: int -> Readings, j: nat): Readings
    requires j < |rows| == |v|
  {
    if rows[j].group then clock(j) else Readings(v[j].start, v[j].finish)
  }

  lemma OwnDates(rows: seq<Row>, v: seq<Bar>, w: seq<Bar>, clock: int -> Readings, p: seq<nat>)
    requires WholePass(rows, v, w, clock) && IsPath(rows, p) && p != [] && Terminal(rows, Last(p))
    ensures |v| == |w| == |rows| && Own(rows, v, clock, Last(p)) == Readings(w[Last(p)].start, w[Last(p)].finish)
  {
    AfterPass(rows, v, w, clock, p);
  }

  lemma Deeper(rows: seq<Row>, p: seq<nat>, q: seq<nat>)
    requires IsPath(rows, p + q) && p != [] && q != [] && Identified(rows)
    ensures var i := Last(p); i < |rows| && q[0] < |rows| && rows[i].group && rows[q[0]].parent == rows[i].id
    ensures IsPath(rows, p) && IsPath(rows, p + [q[0]]) && p + q == (p + [q[0]]) + q[1..] && |p| < |rows|
  {
    var r, n := p + q, |p|;
    Prefix(rows, r, n);
    Prefix(rows, r, n + 1);
    assert r[..n] == p && r[..n + 1] == p + [q[0]] && r[n - 1] == Last(p) && r[n] == q[0];
    PathIsShort(rows, p + [q[0]]);
  }

  /** No terminal task below starts before a task, or ends after it. */
  lemma {:induction false} SpanCovers(rows: seq<Row>, v: seq<Bar>, w: seq<Bar>, clock: int -> Readings, p: seq<nat>,
                                      q: seq<nat>)
    requires WholePass(rows, v, w, clock) && LeadsToTerminal(rows, p, q) && IsPath(rows, p)
    ensures var own := Own(rows, v, clock, Last(p + q));
            w[Last(p)].start <= own.start && own.finish <= w[Last(p)].finish
    decreases |q|
  {
    if q == [] {
      assert p + q == p;
      OwnDates(rows, v, w, clock, p);
    } else {
      Deeper(rows, p, q);
      AfterPass(rows, v, w, clock, p);
      var i := Last(p);
      KidsNone(rows, rows[i].id, |rows|);
      SpanCovers(rows, v, w, clock, p + [q[0]], q[1..]);
    }
  }

  lemma StartChild(rows: seq<Row>, v: seq<Bar>, w: seq<Bar>, clock: int -> Readings, p: seq<nat>) returns (k: nat)
    requires WholePass(rows, v, w, clock) && IsPath(rows, p) && p != [] && !Terminal(rows, Last(p))
    ensures |w| == |rows| && |p| < |rows| && k < |rows| && IsPath(rows, p + [k]) && w[k].start == w[Last(p)].start
  {
    AfterPass(rows, v, w, clock, p);
    var i := Last(p);
    k :| k < |rows| && rows[k].parent == rows[i].id && w[k].start == w[i].start;
    ChildPath(rows, p, i, k);
    PathIsShort(rows, p + [k]);
  }

  /** Some terminal task below starts when a task starts. */
  lemma {:induction false} StartIsMet(rows: seq<Row>, v: seq<Bar>, w: seq<Bar>, clock: int -> Readings, p: seq<nat>)
    returns (q: seq<nat>)
    requires WholePass(rows, v, w, clock) && IsPath(rows, p) && p != []
    ensures |v| == |w| == |rows| && LeadsToTerminal(rows, p, q) &&
            w[Last(p)].start == Own(rows, v, clock, Last(p + q)).start
    decreases |rows| - |p|
  {
    if Terminal(rows, Last(p)) {
      q := [];
      assert p + q == p;
      OwnDates(rows, v, w, clock, p);
    } else {
      var k := StartChild(rows, v, w, clock, p);
      q := StartIsMet(rows, v, w, clock, p + [k]);
      assert p + [k] + q == p + ([k] + q);
      q := [k] + q;
    }
  }

  lemma FinishChild(rows: seq<Row>, v: seq<Bar>, w: seq<Bar>, clock: int -> Readings, p: seq<nat>) returns (k: nat)
    requires WholePass(rows, v, w, clock) && IsPath(rows, p) && p != [] && !Terminal(rows, Last(p))
    ensures |w| == |rows| && |p| < |rows| && k < |rows| && IsPath(rows, p + [k]) && w[k].finish == w[Last(p)].finish
  {
    AfterPass(rows, v, w, clock, p);
    var i := Last(p);
    k :| k < |rows| && rows[k].parent == rows[i].id && w[k].finish == w[i].finish;
    ChildPath(rows, p, i, k);
    PathIsShort(rows, p + [k]);
  }

  /** Some terminal task below ends when a task ends. */
  lemma {:induction false} FinishIsMet(rows: seq<Row>, v: seq<Bar>, w: seq<Bar>, clock: int -> Readings, p: seq<nat>)
    returns (q: seq<nat>)
    requires WholePass(rows, v, w, clock) && IsPath(rows, p) && p != []
    ensures |v| == |w| == |rows| && LeadsToTerminal(rows, p, q) &&
            w[Last(p)].finish == Own(rows, v, clock, Last(p + q)).finish
    decreases |rows| - |p|
  {
    if Terminal(rows, Last(p)) {
      q := [];
      assert p + q == p;
      OwnDates(rows, v, w, clock, p);
    } else {
      var k := FinishChild(rows, v, w, clock, p);
      q := FinishIsMet(rows, v, w, clock, p + [k]);
      assert p + [k] + q == p + ([k] + q);
      q := [k] + q;
    }
  }

  /** A task spans exactly the terminal tasks below it. */
  lemma SpanIsExact(rows: seq<Row>, v: seq<Bar>, w: seq<Bar>, clock: int -> Readings, p: seq<nat>)
    requires WholePass(rows, v, w, clock) && IsPath(rows, p) && p != []
    ensures |v| == |w| == |rows|
    ensures forall q | LeadsToTerminal(rows, p, q) ::
              var own := Own(rows, v, clock, Last(p + q));
                  w[Last(p)].start <= own.start && own.finish <= w[Last(p)].finish
    ensures exists q :: LeadsToTerminal(rows, p, q) && Own(rows, v, clock, Last(p + q)).start == w[Last(p)].start
    ensures exists q :: LeadsToTerminal(rows, p, q) && Own(rows, v, clock, Last(p + q)).finish == w[Last(p)].finish
  {
    forall q | LeadsToTerminal(rows, p, q)
      ensures var own := Own(rows, v, clock, Last(p + q));
              w[Last(p)].start <= own.start && own.finish <= w[Last(p)].finish
    {
      SpanCovers(rows, v, w, clock, p, q);
    }
    var q := StartIsMet(rows, v, w, clock, p);
    var r := FinishIsMet(rows, v, w, clock, p);
  }

  // ----- completion

  /** The tasks that are no groups have completions from 0 to `top`. */
  ghost predicate Percentages(rows: seq<Row>, v: seq<Bar>, top: nat) {
    |v| == |rows| && forall j: nat | j < |rows| && !rows[j].group :: 0.0 <= v[j].comp <= top as real
  }

  lemma Times(n: nat, t: real)
    ensures (n + 1) as real * t == n as real * t + t
  {
  }

  lemma {:induction false} SumBounds(rows: seq<Row>, w: seq<Bar>, id: int, n: nat, top: nat)
    requires n <= |rows| == |w| && forall j: nat | j < n && rows[j].parent == id :: 0.0 <= w[j].comp <= top as real
    ensures 0.0 <= CompSum(rows, w, id, n) <= Kids(rows, id, n) as real * top as real
  {
    if n > 0 {
      SumBounds(rows, w, id, n - 1, top);
      Times(Kids(rows, id, n - 1), top as real);
    }
  }

  lemma {:induction false} SumZero(rows: seq<Row>, w: seq<Bar>, id: int, n: nat)
    requires n <= |rows| == |w| && forall j: nat | j < n && rows[j].parent == id :: 0.0 <= w[j].comp
    ensures 0.0 <= CompSum(rows, w, id, n)
    ensures CompSum(rows, w, id, n) == 0.0 <==> forall j: nat | j < n && rows[j].parent == id :: w[j].comp == 0.0
  {
    if n > 0 {
      SumZero(rows, w, id, n - 1);
    }
  }

  lemma Quotient(sum: real, kids: real, top: real)
    requires kids > 0.0 && 0.0 <= sum <= kids * top
    ensures 0.0 <= sum / kids <= top && (sum / kids == 0.0 <==> sum == 0.0)
  {
    var m := sum / kids;
    assert m * kids == sum;
    assert m > top ==> (m - top) * kids > 0.0;
    assert m < 0.0 ==> (0.0 - m) * kids > 0.0;
  }

  lemma CeilBounds(m: real, c: int, top: nat)
    requires 0.0 <= m <= top as real && c as real - 1.0 < m <= c as real
    ensures 0 <= c <= top && (c == 0 <==> m == 0.0)
  {
    assert (c - 1) as real < top as real;
    assert c as real > -1.0;
  }

  lemma MeanBounds(sum: real, kids: nat, top: nat)
    requires 0.0 <= sum <= kids as real * top as real
    ensures 0.0 <= Mean(sum, kids) <= top as real
    ensures kids > 0 ==> (Mean(sum, kids) == 0.0 <==> sum == 0.0)
  {
    if kids > 0 {
      var k, m := kids as real, sum / kids as real;
      assert 0.0 <= m <= top as real && (m == 0.0 <==> sum == 0.0) by {
        Quotient(sum, k, top as real);
      }
      CeilBounds(m, Ceil(m), top);
    }
  }

  /** Completions stay percentages, and a task shows 0 exactly if every terminal task below that is no group
      shows 0: rounding up never hides that something has been done. */
  lemma {:induction false} CompletionShows(rows: seq<Row>, v: seq<Bar>, w: seq<Bar>, clock: int -> Readings,
                                           p: seq<nat>, top: nat)
    requires WholePass(rows, v, w, clock) && Percentages(rows, v, top) && IsPath(rows, p) && p != []
    ensures |w| == |rows| && 0.0 <= w[Last(p)].comp <= top as real
    ensures w[Last(p)].comp == 0.0 <==>
            forall q | LeadsToTerminal(rows, p, q) && !rows[Last(p + q)].group :: v[Last(p + q)].comp == 0.0
    decreases |rows| - |p|
  {
    AfterPass(rows, v, w, clock, p);
    var i := Last(p);
    if rows[i].group {
      forall k: nat | k < |rows| && rows[k].parent == rows[i].id
        ensures IsPath(rows, p + [k]) && 0.0 <= w[k].comp <= top as real
        ensures w[k].comp == 0.0 <==> NothingDone(rows, v, p + [k])
      {
        ChildPath(rows, p, i, k);
        PathIsShort(rows, p + [k]);
        CompletionShows(rows, v, w, clock, p + [k], top);
      }
      GroupShows(rows, v, w, clock(i), p, top);
    } else {
      SingleShows(rows, v, p);
    }
  }

  ghost predicate NothingDone(rows: seq<Row>, v: seq<Bar>, p: seq<nat>)
    requires |v| == |rows|
  {
    forall q | LeadsToTerminal(rows, p, q) && !rows[Last(p + q)].group :: v[Last(p + q)].comp == 0.0
  }

  lemma SingleShows(rows: seq<Row>, v: seq<Bar>, p: seq<nat>)
    requires Identified(rows) && |v| == |rows| && IsPath(rows, p) && p != [] && !rows[Last(p)].group
    ensures NothingDone(rows, v, p) <==> v[Last(p)].comp == 0.0
  {
    assert p + [] == p;
    assert LeadsToTerminal(rows, p, []);
    forall q | LeadsToTerminal(rows, p, q) ensures q == [] {
      if q != [] {
        Deeper(rows, p, q);
      }
    }
  }

  lemma GroupShows(rows: seq<Row>, v: seq<Bar>, w: seq<Bar>, now: Readings, p: seq<nat>, top: nat)
    requires Identified(rows) && |v| == |w| == |rows| && IsPath(rows, p) && p != [] && rows[Last(p)].group
    requires Summarised(rows, w, rows[Last(p)].id, now, w[Last(p)])
    requires forall k: nat | k < |rows| && rows[k].parent == rows[Last(p)].id ::
               0.0 <= w[k].comp <= top as real && (w[k].comp == 0.0 <==> NothingDone(rows, v, p + [k]))
    ensures 0.0 <= w[Last(p)].comp <= top as real && (w[Last(p)].comp == 0.0 <==> NothingDone(rows, v, p))
  {
    var id := rows[Last(p)].id;
    MeanShows(rows, w, id, top);
    NothingDoneBelow(rows, v, p);
  }

  lemma MeanShows(rows: seq<Row>, w: seq<Bar>, id: int, top: nat)
    requires |w| == |rows| && forall k: nat | k < |rows| && rows[k].parent == id :: 0.0 <= w[k].comp <= top as real
    ensures var m := Mean(CompSum(rows, w, id, |rows|), Kids(rows, id, |rows|));
            0.0 <= m <= top as real && (m == 0.0 <==> forall k: nat | k < |rows| && rows[k].parent == id ::
                                        w[k].comp == 0.0)
  {
    SumBounds(rows, w, id, |rows|, top);
    SumZero(rows, w, id, |rows|);
    MeanBounds(CompSum(rows, w, id, |rows|), Kids(rows, id, |rows|), top);
    KidsNone(rows, id, |rows|);
  }

  lemma NothingDoneBelow(rows: seq<Row>, v: seq<Bar>, p: seq<nat>)
    requires Identified(rows) && |v| == |rows| && IsPath(rows, p) && p != [] && rows[Last(p)].group
    ensures NothingDone(rows, v, p) <==>
            forall k: nat | k < |rows| && rows[k].parent == rows[Last(p)].id :: NothingDone(rows, v, p + [k])
  {
    if NothingDone(rows, v, p) {
      forall k: nat, q | LeadsToTerminal(rows, p + [k], q) && !rows[Last(p + [k] + q)].group
        ensures v[Last(p + [k] + q)].comp == 0.0
      {
        assert p + [k] + q == p + ([k] + q);
        assert LeadsToTerminal(rows, p, [k] + q);
      }
    }
    if forall k: nat | k < |rows| && rows[k].parent == rows[Last(p)].id :: NothingDone(rows, v, p + [k]) {
      forall q | LeadsToTerminal(rows, p, q) && !rows[Last(p + q)].group ensures v[Last(p + q)].comp == 0.0 {
        assert p + [] == p;
        if q != [] {
          Deeper(rows, p, q);
          assert NothingDone(rows, v, p + [q[0]]);
        }
      }
    }
  }

  /** The tasks among the first `n` whose parent is `id`. */
  ghost function ChildrenOf(rows: seq<Row>, id: int, n: nat): set<nat>
    requires n <= |rows|
  {
    set j: nat | j < n && rows[j].parent == id
  }

  /** The completions of some tasks together, taken in any order. */
  ghost function SumOver(w: seq<Bar>, tasks: set<nat>): real
    requires forall j | j in tasks :: j < |w|
  {
    if tasks == {} then 0.0 else var j :| j in tasks; w[j].comp + SumOver(w, tasks - {j})
  }

  lemma {:induction false} SumOverOne(w: seq<Bar>, tasks: set<nat>, j: nat)
    requires j in tasks && forall k | k in tasks :: k < |w|
    ensures SumOver(w, tasks) == w[j].comp + SumOver(w, tasks - {j})
  {
    var k :| k in tasks && SumOver(w, tasks) == w[k].comp + SumOver(w, tasks - {k});
    if k != j {
      SumOverOne(w, tasks - {k}, j);
      SumOverOne(w, tasks - {j}, k);
      assert tasks - {k} - {j} == tasks - {j} - {k};
    }
  }

  /** The running count and sum are those of the children. */
  lemma {:induction false} ChildrenCounted(rows: seq<Row>, w: seq<Bar>, id: int, n: nat)
    requires n <= |rows| == |w|
    ensures Kids(rows, id, n) == |ChildrenOf(rows, id, n)|
    ensures CompSum(rows, w, id, n) == SumOver(w, ChildrenOf(rows, id, n))
  {
    if n > 0 {
      ChildrenCounted(rows, w, id, n - 1);
      var before, now := ChildrenOf(rows, id, n - 1), ChildrenOf(rows, id, n);
      if rows[n - 1].parent == id {
        assert now == before + {n - 1} && now - {n - 1} == before;
        SumOverOne(w, now, n - 1);
      } else {
        assert now == before;
      }
    }
  }

  /** `c` is `sum / k`, rounded up. */
  predicate RoundsUp(c: int, sum: real, k: nat) {
    (c - 1) as real * k as real < sum <= c as real * k as real
  }

  lemma MeanRoundsUp(sum: real, kids: nat)
    requires kids > 0
    ensures exists c: int :: Mean(sum, kids) == c as real && RoundsUp(c, sum, kids)
  {
    var k, m := kids as real, sum / kids as real;
    var c := Ceil(m);
    assert m * k == sum;
    Scaled((c - 1) as real, m, k);
    assert c as real == m || c as real > m;
    if c as real > m {
      Scaled(m, c as real, k);
    }
    assert Mean(sum, kids) == c as real && RoundsUp(c, sum, kids);
  }

  lemma Scaled(x: real, y: real, k: real)
    requires x < y && k > 0.0
    ensures x * k < y * k
  {
    assert (y - x) * k > 0.0;
  }

  /** A group shows the number of its children and the mean of what they show, rounded up; an empty one shows 0. */
  lemma CompletionIsMean(rows: seq<Row>, v: seq<Bar>, w: seq<Bar>, clock: int -> Readings, p: seq<nat>)
    requires WholePass(rows, v, w, clock) && IsPath(rows, p) && p != [] && rows[Last(p)].group
    ensures |w| == |rows|
    ensures var children, shown := ChildrenOf(rows, rows[Last(p)].id, |rows|), w[Last(p)];
            && shown.kids == |children|
            && if children == {} then shown.comp == 0.0
               else exists c: int :: shown.comp == c as real && RoundsUp(c, SumOver(w, children), |children|)
  {
    AfterPass(rows, v, w, clock, p);
    var id := rows[Last(p)].id;
    ChildrenCounted(rows, w, id, |rows|);
    if Kids(rows, id, |rows|) > 0 {
      MeanRoundsUp(CompSum(rows, w, id, |rows|), Kids(rows, id, |rows|));
    }
  }

  // ----- a second pass

  /** Where no group is empty, a second pass changes nothing, whatever the clock then reads. */
  lemma SecondPassChangesNothing(rows: seq<Row>, v: seq<Bar>, w: seq<Bar>, x: seq<Bar>, clock: int -> Readings,
                                 later: int -> Readings)
    requires WholePass(rows, v, w, clock) && WholePass(rows, w, x, later)
    requires forall j: nat | j < |rows| && rows[j].group :: Kids(rows, rows[j].id, |rows|) > 0
    ensures x == w
  {
    forall j: nat | j < |rows| ensures x[j] == w[j] {
      if p :| Reaches(rows, p, j) {
        SameBar(rows, v, w, x, clock, later, p);
      } else {
        assert PathTo(rows, j) == [];
      }
    }
  }

  lemma {:induction false} SameBar(rows: seq<Row>, v: seq<Bar>, w: seq<Bar>, x: seq<Bar>, clock: int -> Readings,
                                   later: int -> Readings, p: seq<nat>)
    requires WholePass(rows, v, w, clock) && WholePass(rows, w, x, later) && IsPath(rows, p) && p != []
    requires forall j: nat | j < |rows| && rows[j].group :: Kids(rows, rows[j].id, |rows|) > 0
    ensures |w| == |x| == |rows| && x[Last(p)] == w[Last(p)]
    decreases |rows| - |p|
  {
    AfterPass(rows, v, w, clock, p);
    AfterPass(rows, w, x, later, p);
    var i := Last(p);
    if rows[i].group {
      forall k: nat | k < |rows| && rows[k].parent == rows[i].id ensures x[k] == w[k] {
        ChildPath(rows, p, i, k);
        PathIsShort(rows, p + [k]);
        SameBar(rows, v, w, x, clock, later, p + [k]);
      }
      SameSummary(rows, w, x, rows[i].id, clock(i), later(i), w[i], x[i]);
    }
  }

  lemma SameSummary(rows: seq<Row>, w: seq<Bar>, x: seq<Bar>, id: int, now: Readings, later: Readings, a: Bar, b: Bar)
    requires |w| == |x| == |rows| && Kids(rows, id, |rows|) > 0
    requires Summarised(rows, w, id, now, a) && Summarised(rows, x, id, later, b)
    requires forall k: nat | k < |rows| && rows[k].parent == id :: x[k] == w[k]
    ensures a.(level := 0, visible := true) == b.(level := 0, visible := true)
  {
    SumFrame(rows, w, x, id, |rows|);
  }
}
