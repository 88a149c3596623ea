/** Sampling from the alias table, its exact distribution, and the rejection loop that collects the
    distinct winners. */
module WinnerDraw {
  import opened Base
  import opened AliasTable

  /** What the generator hands to one sampling: a column and a height in it. */
  datatype Draw = Draw(i: nat, p: nat)

  predicate IsShapedTable(t: Table, n: nat) {
    |t.prob| == |t.alias| == n
  }

  /** Draws inside the ranges the sampler asks the generator for. */
  predicate ValidDraws(draws: seq<Draw>, n: nat, total: nat) {
    forall j :: 0 <= j < |draws| ==> draws[j].i < n && draws[j].p < total
  }

  function Sample(t: Table, d: Draw): nat
    requires IsShapedTable(t, |t.prob|) && d.i < |t.prob|
  {
    if d.p < t.prob[d.i] then d.i else t.alias[d.i]
  }

  /* The exact distribution of one sample. */

  ghost function Column(i: nat, lo: nat, hi: nat): (c: set<Draw>)
    requires lo <= hi
    ensures forall d :: d in c <==> d.i == i && lo <= d.p < hi
    ensures |c| == hi - lo
    decreases hi - lo
  {
    if lo == hi then {} else Column(i, lo, hi - 1) + {Draw(i, hi - 1)}
  }

  lemma UnionSize<T>(a: set<T>, b: set<T>, c: set<T>)
    requires a !! b && forall x :: x in c <==> x in a || x in b
    ensures |c| == |a| + |b|
  {
    assert c == a + b;
  }

  /** All draws with a column below `m` and a height below `total`. */
  ghost function Grid(m: nat, total: nat): (g: set<Draw>)
    ensures forall d :: d in g <==> d.i < m && d.p < total
  {
    set i: nat, p: nat | i < m && p < total :: Draw(i, p)
  }

  lemma GridAddColumn(m: nat, total: nat)
    ensures |Grid(m + 1, total)| == |Grid(m, total)| + total
  {
    UnionSize(Grid(m, total), Column(m, 0, total), Grid(m + 1, total));
  }

  lemma {:induction false} GridSize(m: nat, total: nat)
    ensures |Grid(m, total)| == m * total
    decreases m
  {
    if m == 0 {
      assert Grid(m, total) == {};
    } else {
      GridAddColumn(m - 1, total);
      GridSize(m - 1, total);
      assert m * total == (m - 1) * total + total;
    }
  }

  /** The draws that `Sample` maps to `k`, among those with column below `m`. */
  ghost function Cells(t: Table, total: nat, k: nat, m: nat): set<Draw>
    requires IsShapedTable(t, |t.prob|) && m <= |t.prob|
  {
    set d | d in Grid(m, total) && Sample(t, d) == k
  }

  ghost function Row(t: Table, total: nat, k: nat, i: nat): set<Draw>
    requires IsShapedTable(t, |t.prob|) && i < |t.prob|
  {
    set d | d in Column(i, 0, total) && Sample(t, d) == k
  }

  /** The cells of one column that belong to `k`: the lower part, the upper part, both or none. */
  lemma RowSize(t: Table, total: nat, k: nat, i: nat)
    requires IsShapedTable(t, |t.prob|) && i < |t.prob| && 0 <= t.prob[i] <= total
    ensures |Row(t, total, k, i)|
         == (if i == k then t.prob[i] else 0) + (if t.alias[i] == k then total - t.prob[i] else 0)
  {
    var low, high := Column(i, 0, t.prob[i]), Column(i, t.prob[i], total);
    var mine := if i == k then low else {};
    var other := if t.alias[i] == k then high else {};
    forall d ensures d in Row(t, total, k, i) <==> d in mine || d in other {
    }
    UnionSize(mine, other, Row(t, total, k, i));
  }

  lemma CellsAddRow(t: Table, total: nat, k: nat, m: nat)
    requires IsShapedTable(t, |t.prob|) && m < |t.prob|
    ensures |Cells(t, total, k, m + 1)| == |Cells(t, total, k, m)| + |Row(t, total, k, m)|
  {
    UnionSize(Cells(t, total, k, m), Row(t, total, k, m), Cells(t, total, k, m + 1));
  }

  lemma CellsNext(t: Table, total: nat, k: nat, m: nat)
    requires IsShapedTable(t, |t.prob|) && m < |t.prob| && 0 <= t.prob[m] <= total
    ensures |Cells(t, total, k, m + 1)| == |Cells(t, total, k, m)| + (if m == k then t.prob[m] else 0)
                                           + (if t.alias[m] == k then total - t.prob[m] else 0)
  {
    RowSize(t, total, k, m);
    CellsAddRow(t, total, k, m);
  }

  lemma {:induction false} CellsSize(t: Table, total: nat, k: nat, m: nat)
    requires IsShapedTable(t, |t.prob|) && m <= |t.prob|
    requires forall i :: 0 <= i < |t.prob| ==> 0 <= t.prob[i] <= total
    ensures |Cells(t, total, k, m)| == (if k < m then t.prob[k] else 0) + Inflow(t.prob, t.alias, total, k, m)
    decreases m
  {
    if m == 0 {
      assert Cells(t, total, k, m) == {};
    } else {
      CellsNext(t, total, k, m - 1);
      CellsSize(t, total, k, m - 1);
    }
  }

  /** Of the `|ws| * total` equally likely draws, exactly `|ws| * ws[k]` select index `k`. */
  lemma ExactSampling(t: Table, ws: seq<nat>, total: nat, k: nat)
    requires IsAliasTable(t, ws, total) && k < |ws|
    ensures |Cells(t, total, k, |ws|)| == |ws| * ws[k]
  {
    CellsSize(t, total, k, |ws|);
  }

  /** A sample always has positive weight, and every index of positive weight has a draw. */
  lemma SampleSupport(t: Table, ws: seq<nat>, total: nat, d: Draw)
    requires IsAliasTable(t, ws, total) && d.i < |ws| && d.p < total
    ensures Sample(t, d) < |ws| && ws[Sample(t, d)] > 0
  {
    var k := Sample(t, d);
    assert d in Cells(t, total, k, |ws|);
    ExactSampling(t, ws, total, k);
  }

  lemma DrawFor(t: Table, ws: seq<nat>, total: nat, k: nat) returns (d: Draw)
    requires IsAliasTable(t, ws, total) && k < |ws| && ws[k] > 0
    ensures d.i < |ws| && d.p < total && Sample(t, d) == k
  {
    ExactSampling(t, ws, total, k);
    assert |ws| * ws[k] > 0;
    d :| d in Cells(t, total, k, |ws|);
  }

  /* The rejection loop. */

  /** The winner set after these draws: it grows until it has `max` members. */
  function Collected(t: Table, max: nat, draws: seq<Draw>): set<nat>
    requires IsShapedTable(t, |t.prob|) && forall j :: 0 <= j < |draws| ==> draws[j].i < |t.prob|
  {
    if draws == [] then {}
    else
      var before := Collected(t, max, draws[..|draws| - 1]);
      if |before| == max then before else before + {Sample(t, draws[|draws| - 1])}
  }

  /** The members of `s` below `n`, in ascending order, as the bit set's iterator lists them. */
  function Ascending(s: set<nat>, n: nat): (r: seq<nat>)
    ensures forall k :: k in r <==> k in s && k < n
  {
    if n == 0 then []
    else if n - 1 in s then Ascending(s, n - 1) + [n - 1]
    else Ascending(s, n - 1)
  }

  predicate StrictlyIncreasing(s: seq<nat>) {
    forall i, j :: 0 <= i < j < |s| ==> s[i] < s[j]
  }

  ghost function Below(s: set<nat>, n: nat): set<nat> {
    set k | k in s && k < n
  }

  lemma {:induction false} AscendingIncreases(s: set<nat>, n: nat)
    ensures StrictlyIncreasing(Ascending(s, n))
  {
    if n > 0 {
      AscendingIncreases(s, n - 1);
      var rest := Ascending(s, n - 1);
      forall i, j | 0 <= i < j < |Ascending(s, n)| ensures Ascending(s, n)[i] < Ascending(s, n)[j] {
        assert rest[i] in rest;
      }
    }
  }

  lemma {:induction false} AscendingSize(s: set<nat>, n: nat)
    ensures |Ascending(s, n)| == |Below(s, n)|
  {
    if n > 0 {
      AscendingSize(s, n - 1);
      assert Below(s, n) == if n - 1 in s then Below(s, n - 1) + {n - 1} else Below(s, n - 1);
    }
  }

  /** The draw as a function of the random stream: winners, a panic, or a loop that is still running when
      the stream ends. */
  function PickWinners(ws: seq<nat>, total: nat, max: nat, draws: seq<Draw>): Result<seq<nat>>
    requires |ws| <= U16_MAX && (forall k :: 0 <= k < |ws| ==> ws[k] <= U16_MAX) && total <= U16_MAX
    requires ValidDraws(draws, |ws|, total)
  {
    var built := BuildTable(ws, AsI16(total));
    if built.None? then Err(Panicked)
    else if max == 0 then Ok([])
    else if |ws| == 0 || AsI16(total) <= 0 then Err(Panicked)
    else
      var winners := Collected(built.value, max, draws);
      if |winners| == max then Ok(Ascending(winners, |ws|)) else Err(DrawStillRunning)
  }

  method RunPickWinners(ws: seq<nat>, total: nat, max: nat, draws: seq<Draw>) returns (r: Result<seq<nat>>)
    requires |ws| <= U16_MAX && (forall k :: 0 <= k < |ws| ==> ws[k] <= U16_MAX) && total <= U16_MAX
    requires ValidDraws(draws, |ws|, total)
    ensures r == PickWinners(ws, total, max, draws)
  {
    var built := CreateAliasTable(ws, AsI16(total));
    if built.None? {
      return Err(Panicked);
    }
    var winnerSet: set<nat> := {};
    var j := 0;
    while |winnerSet| != max
      invariant j <= |draws| && winnerSet == Collected(built.value, max, draws[..j])
      invariant j > 0 ==> |ws| > 0 && AsI16(total) > 0
      invariant max == 0 ==> winnerSet == {}
      decreases |draws| - j
    {
      if |ws| == 0 || AsI16(total) <= 0 {
        return Err(Panicked);
      }
      if j == |draws| {
        assert draws[..j] == draws;
        return Err(DrawStillRunning);
      }
      assert draws[..j + 1][..j] == draws[..j];
      winnerSet := winnerSet + {Sample(built.value, draws[j])};
      j := j + 1;
    }
    if max > 0 {
      CollectedStops(built.value, max, draws, j);
    }
    r := Ok(Ascending(winnerSet, |ws|));
    AscendingSize({}, |ws|);
    assert Below({}, |ws|) == {};
  }

  lemma {:induction false} CollectedStops(t: Table, max: nat, draws: seq<Draw>, j: nat)
    requires IsShapedTable(t, |t.prob|) && forall j :: 0 <= j < |draws| ==> draws[j].i < |t.prob|
    requires j <= |draws| && |Collected(t, max, draws[..j])| == max
    ensures Collected(t, max, draws) == Collected(t, max, draws[..j])
  {
    if j < |draws| {
      assert draws[..|draws| - 1][..j] == draws[..j];
      CollectedStops(t, max, draws[..|draws| - 1], j);
    } else {
      assert draws[..j] == draws;
    }
  }

  ghost function Positive(ws: seq<nat>): set<nat> {
    set k: nat | k < |ws| && ws[k] > 0
  }

  lemma {:induction false} CollectedBounds(t: Table, ws: seq<nat>, total: nat, max: nat, draws: seq<Draw>)
    requires IsAliasTable(t, ws, total) && ValidDraws(draws, |ws|, total)
    ensures Collected(t, max, draws) <= Positive(ws) && |Collected(t, max, draws)| <= max
  {
    if draws != [] {
      var front := draws[..|draws| - 1];
      CollectedBounds(t, ws, total, max, front);
      SampleSupport(t, ws, total, draws[|draws| - 1]);
    }
  }

  lemma SubsetSize<T>(a: set<T>, b: set<T>)
    requires a <= b
    ensures |a| <= |b| && (|a| == |b| ==> a == b)
  {
    assert b == a + (b - a);
  }

  /** The number of weights fits where the total does; it always does when every weight is positive. */
  predicate CountFits(ws: seq<nat>, total: nat) {
    |ws| <= I16_MAX || |ws| <= total <= U16_MAX
  }

  /** Whatever list `PickWinners` returns is strictly increasing, of the requested length, and names only
      indices of positive weight. */
  lemma WinnersSound(ws: seq<nat>, total: nat, max: nat, draws: seq<Draw>)
    requires Sum(ws) == total <= U16_MAX && CountFits(ws, total)
    requires ValidDraws(draws, |ws|, total)
    ensures forall k :: 0 <= k < |ws| ==> ws[k] <= U16_MAX
    ensures PickWinners(ws, total, max, draws).Ok? ==>
              var winners := PickWinners(ws, total, max, draws).value;
              && |winners| == max && StrictlyIncreasing(winners)
              && forall i :: 0 <= i < max ==> winners[i] < |ws| && ws[winners[i]] > 0
  {
    SumBounds(ws);
    if PickWinners(ws, total, max, draws).Ok? && max > 0 {
      TableCorrect(ws, total);
      var t := BuildTable(ws, total).value;
      var s := Collected(t, max, draws);
      CollectedBounds(t, ws, total, max, draws);
      AscendingIncreases(s, |ws|);
      AscendingSize(s, |ws|);
      assert Below(s, |ws|) == s;
      var winners := PickWinners(ws, total, max, draws).value;
      forall i | 0 <= i < max ensures winners[i] < |ws| && ws[winners[i]] > 0 {
        assert winners[i] in winners;
      }
    }
  }

  /* Which winners: the first distinct samples. */

  /** The indices that the first `j` draws sample. */
  ghost function Samples(t: Table, draws: seq<Draw>, j: nat): set<nat>
    requires IsShapedTable(t, |t.prob|) && j <= |draws|
    requires forall i :: 0 <= i < |draws| ==> draws[i].i < |t.prob|
  {
    set i | 0 <= i < j :: Sample(t, draws[i])
  }

  lemma SamplesNext(t: Table, draws: seq<Draw>, j: nat)
    requires IsShapedTable(t, |t.prob|) && j < |draws|
    requires forall i :: 0 <= i < |draws| ==> draws[i].i < |t.prob|
    ensures Samples(t, draws, 0) == {}
    ensures Samples(t, draws, j + 1) == Samples(t, draws, j) + {Sample(t, draws[j])}
  {
  }

  lemma SamplesPrefix(t: Table, draws: seq<Draw>, m: nat, j: nat)
    requires IsShapedTable(t, |t.prob|) && j <= m <= |draws|
    requires forall i :: 0 <= i < |draws| ==> draws[i].i < |t.prob|
    ensures Samples(t, draws[..m], j) == Samples(t, draws, j)
  {
    assert forall i :: 0 <= i < j ==> draws[..m][i] == draws[i];
  }

  /** The first `j` draws sample `max` indices, and no fewer draws do. */
  ghost predicate FirstFull(t: Table, max: nat, draws: seq<Draw>, j: nat)
    requires IsShapedTable(t, |t.prob|)
    requires forall i :: 0 <= i < |draws| ==> draws[i].i < |t.prob|
  {
    && j <= |draws| && |Samples(t, draws, j)| == max
    && forall i: nat :: i < j ==> |Samples(t, draws, i)| < max
  }

  lemma {:induction false} CollectedAtMost(t: Table, max: nat, draws: seq<Draw>)
    requires IsShapedTable(t, |t.prob|) && forall i :: 0 <= i < |draws| ==> draws[i].i < |t.prob|
    ensures |Collected(t, max, draws)| <= max
  {
    if draws != [] {
      CollectedAtMost(t, max, draws[..|draws| - 1]);
    }
  }

  lemma SamplesOfFront(t: Table, draws: seq<Draw>)
    requires IsShapedTable(t, |t.prob|) && draws != []
    requires forall i :: 0 <= i < |draws| ==> draws[i].i < |t.prob|
    ensures forall i: nat :: i < |draws| ==> Samples(t, draws, i) == Samples(t, draws[..|draws| - 1], i)
  {
    forall i: nat | i < |draws| ensures Samples(t, draws, i) == Samples(t, draws[..|draws| - 1], i) {
      SamplesPrefix(t, draws, |draws| - 1, i);
    }
  }

  /** While the loop is still running, the winner set is everything sampled so far. */
  lemma {:induction false} RunningCollectsAll(t: Table, max: nat, draws: seq<Draw>)
    requires IsShapedTable(t, |t.prob|) && max > 0
    requires forall i :: 0 <= i < |draws| ==> draws[i].i < |t.prob|
    requires |Collected(t, max, draws)| < max
    ensures Collected(t, max, draws) == Samples(t, draws, |draws|)
    ensures forall i: nat :: i <= |draws| ==> |Samples(t, draws, i)| < max
  {
    if draws == [] {
      assert Samples(t, draws, 0) == {};
    } else {
      var m := |draws| - 1;
      CollectedAtMost(t, max, draws[..m]);
      RunningCollectsAll(t, max, draws[..m]);
      SamplesOfFront(t, draws);
      SamplesNext(t, draws, m);
    }
  }

  /** Once it has ended, the winner set is what was sampled by the first draws that sample `max` indices. */
  lemma {:induction false} EndedCollectsFirst(t: Table, max: nat, draws: seq<Draw>) returns (j: nat)
    requires IsShapedTable(t, |t.prob|) && max > 0
    requires forall i :: 0 <= i < |draws| ==> draws[i].i < |t.prob|
    requires |Collected(t, max, draws)| == max
    ensures FirstFull(t, max, draws, j) && Collected(t, max, draws) == Samples(t, draws, j)
  {
    var m := |draws| - 1;
    var front := draws[..m];
    SamplesOfFront(t, draws);
    CollectedAtMost(t, max, front);
    if |Collected(t, max, front)| == max {
      j := EndedCollectsFirst(t, max, front);
    } else {
      RunningCollectsAll(t, max, front);
      SamplesNext(t, draws, m);
      j := |draws|;
    }
  }

  /** `w` lists exactly the indices sampled by the first draws that sample `max` different ones. */
  ghost predicate FirstSampled(t: Table, max: nat, draws: seq<Draw>, w: seq<nat>)
    requires IsShapedTable(t, |t.prob|)
    requires forall i :: 0 <= i < |draws| ==> draws[i].i < |t.prob|
  {
    exists j: nat :: FirstFull(t, max, draws, j) && forall k :: k in w <==> k in Samples(t, draws, j)
  }

  lemma EndedListsFirst(t: Table, ws: seq<nat>, total: nat, max: nat, draws: seq<Draw>)
    requires IsAliasTable(t, ws, total) && ValidDraws(draws, |ws|, total) && max > 0
    requires |Collected(t, max, draws)| == max
    ensures exists j: nat :: FirstFull(t, max, draws, j)
    ensures FirstSampled(t, max, draws, Ascending(Collected(t, max, draws), |ws|))
  {
    CollectedBounds(t, ws, total, max, draws);
    var j := EndedCollectsFirst(t, max, draws);
    var s := Collected(t, max, draws);
    assert forall k :: k in Ascending(s, |ws|) <==> k in s;
  }

  lemma RunningIsNotFull(t: Table, max: nat, draws: seq<Draw>)
    requires IsShapedTable(t, |t.prob|) && max > 0
    requires forall i :: 0 <= i < |draws| ==> draws[i].i < |t.prob|
    requires |Collected(t, max, draws)| != max
    ensures forall j: nat :: !FirstFull(t, max, draws, j)
  {
    CollectedAtMost(t, max, draws);
    RunningCollectsAll(t, max, draws);
  }

  /** The draw returns exactly when the table can be built and some prefix of the stream samples `max` different
      indices; the winners are the indices sampled by the shortest such prefix. */
  lemma WinnersAreSampled(ws: seq<nat>, total: nat, max: nat, draws: seq<Draw>)
    requires Sum(ws) == total <= U16_MAX && CountFits(ws, total) && max > 0
    requires ValidDraws(draws, |ws|, total)
    ensures forall k :: 0 <= k < |ws| ==> ws[k] <= U16_MAX
    ensures var r, built := PickWinners(ws, total, max, draws), BuildTable(ws, AsI16(total));
            && (r.Ok? <==>
                  && 0 < total <= I16_MAX && built.Some?
                  && exists j: nat :: FirstFull(built.value, max, draws, j))
            && (r.Ok? ==> FirstSampled(built.value, max, draws, r.value))
  {
    SumBounds(ws);
    var built := BuildTable(ws, AsI16(total));
    if 0 < total <= I16_MAX && built.Some? {
      TableCorrect(ws, total);
      if |Collected(built.value, max, draws)| == max {
        EndedListsFirst(built.value, ws, total, max, draws);
      } else {
        RunningIsNotFull(built.value, max, draws);
      }
    }
  }

  /** With a table, the loop either has enough winners or is still running. */
  lemma PickFromTable(ws: seq<nat>, total: nat, max: nat, draws: seq<Draw>, t: Table)
    requires |ws| <= U16_MAX && (forall k :: 0 <= k < |ws| ==> ws[k] <= U16_MAX) && 0 < total <= I16_MAX
    requires ValidDraws(draws, |ws|, total) && max > 0 && |ws| > 0
    requires BuildTable(ws, total) == Some(t)
    ensures var r := PickWinners(ws, total, max, draws);
            r.Err? ==> r.error == DrawStillRunning && |Collected(t, max, draws)| != max
  {
  }

  lemma PickWithoutTable(ws: seq<nat>, total: nat, max: nat, draws: seq<Draw>)
    requires |ws| <= U16_MAX && (forall k :: 0 <= k < |ws| ==> ws[k] <= U16_MAX) && total <= U16_MAX
    requires ValidDraws(draws, |ws|, total) && max > 0
    requires total == 0 || total > I16_MAX || BuildTable(ws, total).None?
    ensures PickWinners(ws, total, max, draws) == Err(Panicked)
  {
  }

  /** And when it does not return: a panic is a total or a scaled weight out of range; otherwise no prefix of the stream
      samples enough. */
  lemma DrawRefused(ws: seq<nat>, total: nat, max: nat, draws: seq<Draw>)
    requires Sum(ws) == total <= U16_MAX && CountFits(ws, total) && max > 0
    requires ValidDraws(draws, |ws|, total)
    ensures forall k :: 0 <= k < |ws| ==> ws[k] <= U16_MAX
    ensures var r, built := PickWinners(ws, total, max, draws), BuildTable(ws, AsI16(total));
            r.Err? ==>
              if r.error == Panicked then !(0 < total <= I16_MAX && Fits(ws))
              else r.error == DrawStillRunning && built.Some? && forall j: nat :: !FirstFull(built.value, max, draws, j)
  {
    SumBounds(ws);
    if 0 < total <= I16_MAX && BuildTable(ws, total).Some? {
      var t := BuildTable(ws, total).value;
      PickFromTable(ws, total, max, draws, t);
      if |Collected(t, max, draws)| != max {
        RunningIsNotFull(t, max, draws);
      }
    } else {
      PickWithoutTable(ws, total, max, draws);
      if 0 < total <= I16_MAX {
        TableCorrect(ws, total);
      }
    }
  }

  /** When no winner is wanted the loop does not run. */
  lemma NothingToDraw(ws: seq<nat>, total: nat, draws: seq<Draw>)
    requires |ws| <= U16_MAX && (forall k :: 0 <= k < |ws| ==> ws[k] <= U16_MAX) && total <= U16_MAX
    requires ValidDraws(draws, |ws|, total)
    ensures PickWinners(ws, total, 0, draws) == if BuildTable(ws, AsI16(total)).Some? then Ok([]) else Err(Panicked)
  {
  }

  lemma CollectedAfter(t: Table, max: nat, front: seq<Draw>, d: Draw)
    requires IsShapedTable(t, |t.prob|) && d.i < |t.prob| && forall j :: 0 <= j < |front| ==> front[j].i < |t.prob|
    ensures var before := Collected(t, max, front);
            Collected(t, max, front + [d]) == if |before| == max then before else before + {Sample(t, d)}
  {
    assert (front + [d])[..|front|] == front;
  }

  /** One draw in full: the second sample repeats the first, so the third one ends the loop. */
  lemma ThreeDrawsTwoWinners()
    ensures PickWinners([1, 1, 3, 3], 8, 2, [Draw(3, 4), Draw(3, 7), Draw(1, 3)]) == Ok([1, 2])
  {
    FourColumns();
    ThreeDraws([1, 1, 3, 3], 8, 2, Draw(3, 4), Draw(3, 7), Draw(1, 3), Table([4, 4, 8, 4], [3, 3, 0, 2]));
  }

  lemma ThreeDraws(ws: seq<nat>, total: nat, max: nat, a: Draw, b: Draw, c: Draw, t: Table)
    requires ws == [1, 1, 3, 3] && total == 8 && max == 2 && BuildTable(ws, total) == Some(t)
    requires a == Draw(3, 4) && b == Draw(3, 7) && c == Draw(1, 3) && t == Table([4, 4, 8, 4], [3, 3, 0, 2])
    ensures PickWinners(ws, total, max, [a, b, c]) == Ok([1, 2])
  {
    ThreeCollected(t, max, a, b, c);
    OneAndTwoListed();
  }

  lemma ThreeCollected(t: Table, max: nat, a: Draw, b: Draw, c: Draw)
    requires a == Draw(3, 4) && b == Draw(3, 7) && c == Draw(1, 3) && t == Table([4, 4, 8, 4], [3, 3, 0, 2])
    requires max == 2
    ensures Collected(t, max, [a, b, c]) == {1, 2}
  {
    CollectedAfter(t, max, [], a);
    CollectedAfter(t, max, [a], b);
    CollectedAfter(t, max, [a, b], c);
    assert [] + [a] == [a] && [a] + [b] == [a, b] && [a, b] + [c] == [a, b, c];
    assert Collected(t, max, [a, b]) == {2};
  }

  lemma OneAndTwoListed()
    ensures Ascending({1, 2}, 4) == [1, 2] && |{1, 2}| == 2
  {
    assert Ascending({1, 2}, 1) == [];
    assert Ascending({1, 2}, 2) == [1];
    assert Ascending({1, 2}, 3) == [1, 2];
  }

  /* When the loop ends. */

  type Stream = nat -> Draw

  function Prefix(stream: Stream, n: nat): (r: seq<Draw>)
    ensures |r| == n && forall j :: 0 <= j < n ==> r[j] == stream(j)
  {
    seq(n, j requires 0 <= j < n => stream(j))
  }

  ghost predicate ValidStream(stream: Stream, n: nat, total: nat) {
    forall j: nat :: stream(j).i < n && stream(j).p < total
  }

  ghost predicate Recurs(stream: Stream, d: Draw, m: nat) {
    exists j: nat :: j >= m && stream(j) == d
  }

  /** Every draw keeps recurring. */
  ghost predicate Fair(stream: Stream, n: nat, total: nat) {
    forall d: Draw, m: nat :: d.i < n && d.p < total ==> Recurs(stream, d, m)
  }

  lemma {:induction false} CollectedGrows(t: Table, max: nat, stream: Stream, m: nat, n: nat)
    requires IsShapedTable(t, |t.prob|) && forall j: nat :: stream(j).i < |t.prob|
    requires m <= n
    ensures Collected(t, max, Prefix(stream, m)) <= Collected(t, max, Prefix(stream, n))
    decreases n
  {
    if m < n {
      assert Prefix(stream, n)[..n - 1] == Prefix(stream, n - 1);
      CollectedGrows(t, max, stream, m, n - 1);
    }
  }

  lemma CollectedNext(t: Table, max: nat, stream: Stream, j: nat)
    requires IsShapedTable(t, |t.prob|) && forall j: nat :: stream(j).i < |t.prob|
    requires |Collected(t, max, Prefix(stream, j))| != max
    ensures Collected(t, max, Prefix(stream, j + 1)) == Collected(t, max, Prefix(stream, j)) + {Sample(t, stream(j))}
  {
    assert Prefix(stream, j + 1)[..j] == Prefix(stream, j);
  }

  /** A draw outside the winner set makes the set grow, by the time it has been taken. */
  lemma FreshDrawCounts(t: Table, max: nat, stream: Stream, n: nat, j: nat) returns (m: nat)
    requires IsShapedTable(t, |t.prob|) && forall j: nat :: stream(j).i < |t.prob|
    requires n <= j && |Collected(t, max, Prefix(stream, n))| < max
    requires Sample(t, stream(j)) !in Collected(t, max, Prefix(stream, n))
    ensures Collected(t, max, Prefix(stream, n)) < Collected(t, max, Prefix(stream, m))
  {
    CollectedGrows(t, max, stream, n, j);
    m := j;
    if Collected(t, max, Prefix(stream, j)) == Collected(t, max, Prefix(stream, n)) {
      CollectedNext(t, max, stream, j);
      m := j + 1;
    }
  }

  /** On a fair stream the set is never stuck below both `max` and the number of positive weights. */
  lemma GatherOne(t: Table, ws: seq<nat>, total: nat, max: nat, stream: Stream, n: nat) returns (m: nat)
    requires IsAliasTable(t, ws, total) && ValidStream(stream, |ws|, total) && Fair(stream, |ws|, total)
    requires |Collected(t, max, Prefix(stream, n))| < max
    requires |Collected(t, max, Prefix(stream, n))| < |Positive(ws)|
    ensures |Collected(t, max, Prefix(stream, n))| < |Collected(t, max, Prefix(stream, m))|
  {
    var d := NewWinner(t, ws, total, max, Prefix(stream, n));
    assert Recurs(stream, d, n);
    var j: nat :| j >= n && stream(j) == d;
    m := FreshDrawCounts(t, max, stream, n, j);
    SubsetSize(Collected(t, max, Prefix(stream, n)), Collected(t, max, Prefix(stream, m)));
  }

  lemma NewWinner(t: Table, ws: seq<nat>, total: nat, max: nat, draws: seq<Draw>) returns (d: Draw)
    requires IsAliasTable(t, ws, total) && ValidDraws(draws, |ws|, total)
    requires |Collected(t, max, draws)| < |Positive(ws)|
    ensures d.i < |ws| && d.p < total && Sample(t, d) !in Collected(t, max, draws)
  {
    var have := Collected(t, max, draws);
    CollectedBounds(t, ws, total, max, draws);
    if Positive(ws) - have == {} {
      assert Positive(ws) <= have;
      SubsetSize(Positive(ws), have);
    }
    var k :| k in Positive(ws) - have;
    d := DrawFor(t, ws, total, k);
  }

  lemma {:induction false} Gather(t: Table, ws: seq<nat>, total: nat, max: nat, stream: Stream, size: nat)
    returns (n: nat)
    requires IsAliasTable(t, ws, total) && ValidStream(stream, |ws|, total) && Fair(stream, |ws|, total)
    requires size <= max && size <= |Positive(ws)|
    ensures |Collected(t, max, Prefix(stream, n))| >= size
  {
    n := 0;
    if size > 0 {
      n := Gather(t, ws, total, max, stream, size - 1);
      if |Collected(t, max, Prefix(stream, n))| < size {
        n := GatherOne(t, ws, total, max, stream, n);
      }
    }
  }

  /** The exact condition under which a draw can ever finish. */
  predicate Drawable(ws: seq<nat>, total: nat, max: nat) {
    && 0 < total <= I16_MAX
    && Fits(ws)
    && max <= PositiveCount(ws)
  }

  function PositiveCount(ws: seq<nat>): (n: nat)
    ensures n == |Positive(ws)|
  {
    if ws == [] then
      assert Positive(ws) == {};
      0
    else
      var front := ws[..|ws| - 1];
      assert Positive(ws) == Positive(front) + (if ws[|ws| - 1] > 0 then {|ws| - 1} else {});
      PositiveCount(front) + if ws[|ws| - 1] > 0 then 1 else 0
  }

  /** A finished draw of at least one winner had a total in range, fitting weights and enough candidates. */
  lemma FinishedWasDrawable(ws: seq<nat>, total: nat, max: nat, draws: seq<Draw>)
    requires Sum(ws) == total <= U16_MAX && CountFits(ws, total) && max > 0
    requires ValidDraws(draws, |ws|, total)
    requires (forall k :: 0 <= k < |ws| ==> ws[k] <= U16_MAX) && PickWinners(ws, total, max, draws).Ok?
    ensures Drawable(ws, total, max)
  {
    TableCorrect(ws, total);
    var t := BuildTable(ws, total).value;
    CollectedBounds(t, ws, total, max, draws);
    SubsetSize(Collected(t, max, draws), Positive(ws));
  }

  lemma FairDrawFinishes(ws: seq<nat>, total: nat, max: nat, stream: Stream) returns (n: nat)
    requires Sum(ws) == total && CountFits(ws, total) && max > 0 && Drawable(ws, total, max)
    requires ValidStream(stream, |ws|, total) && Fair(stream, |ws|, total)
    ensures forall k :: 0 <= k < |ws| ==> ws[k] <= U16_MAX
    ensures PickWinners(ws, total, max, Prefix(stream, n)).Ok?
  {
    TableCorrect(ws, total);
    var t := BuildTable(ws, total).value;
    n := Gather(t, ws, total, max, stream, max);
    CollectedBounds(t, ws, total, max, Prefix(stream, n));
    SumBounds(ws);
  }

  /** On a stream where every draw keeps recurring, the rejection loop returns if and only if the total
      fits a positive i16, no scaled weight overflows, and enough weights are positive. */
  lemma DrawTerminates(ws: seq<nat>, total: nat, max: nat, stream: Stream)
    requires Sum(ws) == total <= U16_MAX && CountFits(ws, total) && max > 0
    requires ValidStream(stream, |ws|, total) && Fair(stream, |ws|, total)
    ensures forall k :: 0 <= k < |ws| ==> ws[k] <= U16_MAX
    ensures (exists n: nat :: PickWinners(ws, total, max, Prefix(stream, n)).Ok?) <==> Drawable(ws, total, max)
  {
    SumBounds(ws);
    if Drawable(ws, total, max) {
      var n := FairDrawFinishes(ws, total, max, stream);
    }
    forall n: nat | PickWinners(ws, total, max, Prefix(stream, n)).Ok? ensures Drawable(ws, total, max) {
      FinishedWasDrawable(ws, total, max, Prefix(stream, n));
    }
  }

  /** A drawable raffle has a finite stream that finishes it. */
  lemma {:induction false} WinningDraws(t: Table, ws: seq<nat>, total: nat, max: nat, size: nat)
    returns (draws: seq<Draw>)
    requires IsAliasTable(t, ws, total) && size <= max && size <= |Positive(ws)|
    ensures ValidDraws(draws, |ws|, total) && |Collected(t, max, draws)| == size
  {
    draws := [];
    if size > 0 {
      var front := WinningDraws(t, ws, total, max, size - 1);
      var d := NewWinner(t, ws, total, max, front);
      draws := front + [d];
      assert draws[..|draws| - 1] == front;
    }
  }

  /** Some stream finishes the draw if and only if it is drawable. */
  lemma DrawPossible(ws: seq<nat>, total: nat, max: nat)
    requires Sum(ws) == total <= U16_MAX && CountFits(ws, total) && max > 0
    ensures forall k :: 0 <= k < |ws| ==> ws[k] <= U16_MAX
    ensures (exists draws :: ValidDraws(draws, |ws|, total) && PickWinners(ws, total, max, draws).Ok?)
            <==> Drawable(ws, total, max)
  {
    SumBounds(ws);
    if Drawable(ws, total, max) {
      TableCorrect(ws, total);
      var draws := WinningDraws(BuildTable(ws, total).value, ws, total, max, max);
      assert PickWinners(ws, total, max, draws).Ok?;
    }
    forall draws | ValidDraws(draws, |ws|, total) && PickWinners(ws, total, max, draws).Ok?
      ensures Drawable(ws, total, max)
    {
      FinishedWasDrawable(ws, total, max, draws);
    }
  }

  /* The distribution of every further winner. */

  ghost function WeightOf(ws: seq<nat>, chosen: set<nat>): nat
    requires forall k :: k in chosen ==> k < |ws|
  {
    Sum(seq(|ws|, k requires 0 <= k < |ws| => if k in chosen then ws[k] else 0))
  }

  /** The draws whose sample is already in the winner set, and is therefore rejected. */
  ghost function Rejected(t: Table, total: nat, chosen: set<nat>): set<Draw>
    requires IsShapedTable(t, |t.prob|)
  {
    set d | d in Grid(|t.prob|, total) && Sample(t, d) in chosen
  }

  lemma WeightOfAdd(ws: seq<nat>, chosen: set<nat>, k: nat)
    requires (forall c :: c in chosen ==> c < |ws|) && k < |ws| && k !in chosen
    ensures WeightOf(ws, chosen + {k}) == WeightOf(ws, chosen) + ws[k]
  {
    var before := seq(|ws|, j requires 0 <= j < |ws| => if j in chosen then ws[j] else 0);
    var after := seq(|ws|, j requires 0 <= j < |ws| => if j in chosen + {k} then ws[j] else 0);
    assert after == before[k := ws[k]];
    SumUpdate(before, k, ws[k]);
  }

  lemma {:induction false} AllZero(xs: seq<nat>)
    requires forall k :: 0 <= k < |xs| ==> xs[k] == 0
    ensures Sum(xs) == 0
  {
    if xs != [] {
      AllZero(xs[..|xs| - 1]);
    }
  }

  /** With a set of winners already chosen, exactly `|ws|` times their weight of all draws is rejected, so
      the next accepted winner `k` is drawn from `|ws| * ws[k]` of the remaining
      `|ws| * (total - WeightOf(ws, chosen))`: in proportion to its weight, without replacement. */
  lemma {:induction false} RejectionExact(t: Table, ws: seq<nat>, total: nat, chosen: set<nat>)
    requires IsAliasTable(t, ws, total) && forall k :: k in chosen ==> k < |ws|
    ensures |Rejected(t, total, chosen)| == |ws| * WeightOf(ws, chosen)
    decreases |chosen|
  {
    if chosen == {} {
      assert Rejected(t, total, chosen) == {};
      AllZero(seq(|ws|, k requires 0 <= k < |ws| => if k in chosen then ws[k] else 0));
    } else {
      var k :| k in chosen;
      var rest := chosen - {k};
      assert chosen == rest + {k};
      RejectionExact(t, ws, total, rest);
      RejectedAdd(t, ws, total, rest, k);
      WeightOfAdd(ws, rest, k);
      ProductOfSum(|ws|, WeightOf(ws, rest), ws[k]);
    }
  }

  lemma RejectedAdd(t: Table, ws: seq<nat>, total: nat, chosen: set<nat>, k: nat)
    requires IsAliasTable(t, ws, total) && k < |ws| && k !in chosen
    ensures |Rejected(t, total, chosen + {k})| == |Rejected(t, total, chosen)| + |ws| * ws[k]
  {
    ExactSampling(t, ws, total, k);
    var cells := Cells(t, total, k, |ws|);
    assert Rejected(t, total, chosen + {k}) == Rejected(t, total, chosen) + cells;
    assert Rejected(t, total, chosen) !! cells;
  }
}
