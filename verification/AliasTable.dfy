/** The integer alias table of the weighted draw: construction in checked 16-bit arithmetic, and the
    mass it assigns to every index. */
module AliasTable {
  import opened Base

  datatype Table = Table(prob: seq<int>, alias: seq<nat>)

  /** The two vectors under construction and the two worklists that are popped and pushed. */
  datatype Work = Work(prob: seq<int>, alias: seq<nat>, small: seq<nat>, large: seq<nat>)

  predicate Indices(stack: seq<nat>, n: nat) {
    forall i :: 0 <= i < |stack| ==> stack[i] < n
  }

  predicate Shaped(w: Work) {
    && |w.alias| == |w.prob|
    && Indices(w.small, |w.prob|)
    && Indices(w.large, |w.prob|)
  }

  /* The construction as a function. */

  /** Pushes `k` on the worklist its current value belongs to. */
  function Classify(w: Work, total: int, k: nat): (r: Work)
    requires Shaped(w) && k < |w.prob|
    ensures Shaped(r) && r.prob == w.prob && r.alias == w.alias
    ensures |r.small| + |r.large| == |w.small| + |w.large| + 1
  {
    if w.prob[k] < total then w.(small := w.small + [k]) else w.(large := w.large + [k])
  }

  /** Scales and classifies the weights from index `i` on; `None` is an overflow panic. */
  function Fill(ws: seq<nat>, total: int, i: nat, w: Work): (r: Option<Work>)
    requires |ws| <= U16_MAX && forall k :: 0 <= k < |ws| ==> ws[k] <= U16_MAX
    requires Shaped(w) && |w.prob| == |ws| && i <= |ws|
    ensures r.Some? ==> Shaped(r.value) && |r.value.prob| == |ws|
    decreases |ws| - i
  {
    if i == |ws| then Some(w)
    else
      var x := AsI16(|ws|) * AsI16(ws[i]);
      if !InI16(x) then None
      else Fill(ws, total, i + 1, Classify(w.(prob := w.prob[i := x]), total, i))
  }

  /** One round of the main loop: the top of `small` is completed by the top of `large`. */
  function PairOnce(w: Work, total: int): (r: Option<Work>)
    requires Shaped(w) && w.small != [] && w.large != []
    ensures r.Some? ==> Shaped(r.value) && |r.value.small| + |r.value.large| == |w.small| + |w.large| - 1
    ensures var l, g := w.small[|w.small| - 1], w.large[|w.large| - 1];
            r.Some? ==>
              && r.value.prob == w.prob[g := w.prob[g] - (total - w.prob[l])]
              && r.value.alias == w.alias[l := g]
  {
    var l := w.small[|w.small| - 1];
    var g := w.large[|w.large| - 1];
    var missing := total - w.prob[l];
    if !InI16(missing) || !InI16(w.prob[g] - missing) then None
    else
      Some(Classify(Work(w.prob[g := w.prob[g] - missing], w.alias[l := g],
                         w.small[..|w.small| - 1], w.large[..|w.large| - 1]), total, g))
  }

  function PairUp(w: Work, total: int): (r: Option<Work>)
    requires Shaped(w)
    ensures r.Some? ==> Shaped(r.value) && |r.value.prob| == |w.prob|
    ensures r.Some? ==> r.value.small == [] || r.value.large == []
    decreases |w.small| + |w.large|
  {
    if w.small == [] || w.large == [] then Some(w)
    else
      var next := PairOnce(w, total);
      if next.None? then None else PairUp(next.value, total)
  }

  /** A trailing loop: every index left on the stack gets the full column. */
  function Drain(prob: seq<int>, stack: seq<nat>, total: int): (r: seq<int>)
    requires Indices(stack, |prob|)
    ensures |r| == |prob|
    decreases |stack|
  {
    if stack == [] then prob
    else Drain(prob[stack[|stack| - 1] := total], stack[..|stack| - 1], total)
  }

  function EmptyWork(n: nat): (w: Work)
    ensures Shaped(w) && |w.prob| == n
  {
    Work(seq(n, _ => 0), seq(n, _ => 0), [], [])
  }

  function BuildTable(ws: seq<nat>, total: int): (r: Option<Table>)
    requires |ws| <= U16_MAX && forall k :: 0 <= k < |ws| ==> ws[k] <= U16_MAX
    ensures r.Some? ==> |r.value.prob| == |r.value.alias| == |ws|
  {
    var filled := Fill(ws, total, 0, EmptyWork(|ws|));
    if filled.None? then None
    else
      var paired := PairUp(filled.value, total);
      if paired.None? then None
      else
        var w := paired.value;
        Some(Table(Drain(Drain(w.prob, w.large, total), w.small, total), w.alias))
  }

  /* The construction as the program runs it. */

  method FillWorklists(ws: seq<nat>, total: int, prob: array<int>)
    returns (ok: bool, small: seq<nat>, large: seq<nat>)
    requires |ws| <= U16_MAX && forall k :: 0 <= k < |ws| ==> ws[k] <= U16_MAX
    requires prob[..] == EmptyWork(|ws|).prob
    modifies prob
    ensures ok <==> Fill(ws, total, 0, EmptyWork(|ws|)).Some?
    ensures ok ==>
              Fill(ws, total, 0, EmptyWork(|ws|)).value == Work(prob[..], EmptyWork(|ws|).alias, small, large)
  {
    small, large := [], [];
    ghost var zeros := EmptyWork(|ws|).alias;
    var i := 0;
    while i < |ws|
      invariant i <= |ws| == prob.Length
      invariant Shaped(Work(prob[..], zeros, small, large))
      invariant Fill(ws, total, i, Work(prob[..], zeros, small, large)) == Fill(ws, total, 0, EmptyWork(|ws|))
    {
      var scaled := AsI16(|ws|) * AsI16(ws[i]);
      ghost var was := Work(prob[..], zeros, small, large);
      if !InI16(scaled) {
        ok := false;
        return;
      }
      prob[i] := scaled;
      assert prob[..] == was.prob[i := scaled];
      if prob[i] < total {
        small := small + [i];
      } else {
        large := large + [i];
      }
      assert Work(prob[..], zeros, small, large) == Classify(was.(prob := was.prob[i := scaled]), total, i);
      i := i + 1;
    }
    ok := true;
  }

  /** Column `l` hands what it is missing over to column `g`. */
  method CloseColumn(prob: array<int>, alias: array<nat>, l: nat, g: nat, missing: int)
    requires l < alias.Length && g < prob.Length
    modifies prob, alias
    ensures prob[..] == old(prob[..])[g := old(prob[g]) - missing]
    ensures alias[..] == old(alias[..])[l := g]
  {
    alias[l] := g;
    prob[g] := prob[g] - missing;
  }

  method PairWorklists(prob: array<int>, alias: array<nat>, total: int, small0: seq<nat>, large0: seq<nat>)
    returns (ok: bool, small: seq<nat>, large: seq<nat>)
    requires Shaped(Work(prob[..], alias[..], small0, large0))
    modifies prob, alias
    ensures ok <==> PairUp(old(Work(prob[..], alias[..], small0, large0)), total).Some?
    ensures ok ==>
              PairUp(old(Work(prob[..], alias[..], small0, large0)), total).value
              == Work(prob[..], alias[..], small, large)
  {
    small, large := small0, large0;
    ghost var start := Work(prob[..], alias[..], small0, large0);
    while |small| > 0 && |large| > 0
      invariant alias.Length == prob.Length && Indices(small, prob.Length) && Indices(large, prob.Length)
      invariant PairUp(Work(prob[..], alias[..], small, large), total) == PairUp(start, total)
      decreases |small| + |large|
    {
      ghost var was := Work(prob[..], alias[..], small, large);
      ghost var next := PairOnce(was, total);
      var l, g := small[|small| - 1], large[|large| - 1];
      small, large := small[..|small| - 1], large[..|large| - 1];
      var missing := total - prob[l];
      if !InI16(missing) || !InI16(prob[g] - missing) {
        ok := false;
        return;
      }
      CloseColumn(prob, alias, l, g, missing);
      assert prob[..] == next.value.prob && alias[..] == next.value.alias;
      if prob[g] < total {
        small := small + [g];
      } else {
        large := large + [g];
      }
      assert small == next.value.small && large == next.value.large;
    }
    ok := true;
  }

  method DrainWorklist(prob: array<int>, stack0: seq<nat>, total: int)
    requires Indices(stack0, prob.Length)
    modifies prob
    ensures prob[..] == Drain(old(prob[..]), stack0, total)
  {
    var stack := stack0;
    while |stack| > 0
      invariant Indices(stack, prob.Length)
      invariant Drain(prob[..], stack, total) == Drain(old(prob[..]), stack0, total)
      decreases |stack|
    {
      ghost var was := prob[..];
      prob[stack[|stack| - 1]] := total;
      assert prob[..] == was[stack[|stack| - 1] := total];
      stack := stack[..|stack| - 1];
    }
  }

  method CreateAliasTable(ws: seq<nat>, total: int) returns (r: Option<Table>)
    requires |ws| <= U16_MAX && forall k :: 0 <= k < |ws| ==> ws[k] <= U16_MAX
    requires InI16(total)
    ensures r == BuildTable(ws, total)
    ensures total == Sum(ws) && total > 0 && |ws| <= I16_MAX ==>
              (r.Some? <==> Fits(ws)) && (r.Some? ==> IsAliasTable(r.value, ws, total))
  {
    if total == Sum(ws) && total > 0 && |ws| <= I16_MAX {
      TableCorrect(ws, total);
    }
    var prob, alias := new int[|ws|](_ => 0), new nat[|ws|](_ => 0);
    assert prob[..] == EmptyWork(|ws|).prob && alias[..] == EmptyWork(|ws|).alias;
    var ok, small, large := FillWorklists(ws, total, prob);
    if !ok {
      return None;
    }
    ok, small, large := PairWorklists(prob, alias, total, small, large);
    if !ok {
      return None;
    }
    DrainWorklist(prob, large, total);
    DrainWorklist(prob, small, total);
    r := Some(Table(prob[..], alias[..]));
  }

  /* What a table means. */

  /** What the columns `0..m` hand over to index `k`: column j gives `total - prob[j]` to `target[j]`. */
  function Inflow(prob: seq<int>, target: seq<int>, total: int, k: int, m: nat): int
    requires |prob| == |target| && m <= |prob|
  {
    if m == 0 then 0
    else Inflow(prob, target, total, k, m - 1) + (if target[m - 1] == k then total - prob[m - 1] else 0)
  }

  /** Every index owns exactly `|ws| * ws[k]` of the `|ws| * total` cells. */
  ghost predicate IsAliasTable(t: Table, ws: seq<nat>, total: int) {
    && |t.prob| == |t.alias| == |ws|
    && (forall k :: 0 <= k < |ws| ==> 0 <= t.prob[k] <= total && t.alias[k] < |ws|)
    && (forall k :: 0 <= k < |ws| ==> t.prob[k] + Inflow(t.prob, t.alias, total, k, |ws|) == |ws| * ws[k])
  }

  /** No scaled weight leaves the signed 16-bit range. */
  predicate Fits(ws: seq<nat>) {
    forall k :: 0 <= k < |ws| ==> |ws| * ws[k] <= I16_MAX
  }

  /* The invariant of the main loop. */

  /** The columns still on a worklist, with how often each occurs there. */
  function Open(w: Work): multiset<nat> {
    multiset(w.small) + multiset(w.large)
  }

  /** Where each column's remainder goes; -1 while the column is still on a worklist. */
  ghost function Targets(w: Work): (t: seq<int>)
    requires Shaped(w)
    ensures |t| == |w.prob|
    ensures forall j :: 0 <= j < |t| ==> t[j] == if j in Open(w) then -1 else w.alias[j]
  {
    seq<int>(|w.prob|, j requires 0 <= j < |w.prob| => if j in Open(w) then -1 else w.alias[j] as int)
  }

  /** How much the columns on a stack hold above `total` each, all together. */
  function Excess(prob: seq<int>, stack: seq<nat>, total: int): int
    requires Indices(stack, |prob|)
  {
    if stack == [] then 0
    else Excess(prob, stack[..|stack| - 1], total) + prob[stack[|stack| - 1]] - total
  }

  /** The mass every index has to end up with. */
  function Scaled(ws: seq<nat>): (r: seq<nat>)
    ensures |r| == |ws| && forall k :: 0 <= k < |ws| ==> r[k] == |ws| * ws[k]
  {
    seq(|ws|, k requires 0 <= k < |ws| => |ws| * ws[k])
  }

  /** The part of the invariant that does not count: ranges, and what being open or closed means. */
  ghost predicate Ranged(w: Work, mass: seq<nat>, total: int) {
    && Shaped(w) && |w.prob| == |mass|
    && (forall k :: Open(w)[k] <= 1)
    && (forall k :: 0 <= k < |mass| ==> 0 <= w.prob[k] <= mass[k] && w.alias[k] < |mass|)
    && Sorted(w, total)
    && (forall k :: 0 <= k < |mass| && k !in Open(w) ==> w.prob[k] < total)
  }

  /** Each worklist is on its side of `total`. */
  ghost predicate Sorted(w: Work, total: int)
    requires Shaped(w)
  {
    (forall k :: k in w.small ==> w.prob[k] < total) && (forall k :: k in w.large ==> w.prob[k] >= total)
  }

  /** Every index has its mass, in its own column or in what closed columns hand over to it. */
  ghost predicate MassHeld(w: Work, mass: seq<nat>, total: int)
    requires Shaped(w) && |w.prob| == |mass|
  {
    forall k :: 0 <= k < |mass| ==> w.prob[k] + Inflow(w.prob, Targets(w), total, k, |mass|) == mass[k]
  }

  ghost predicate Balanced(w: Work, mass: seq<nat>, total: int) {
    && Ranged(w, mass, total)
    && MassHeld(w, mass, total)
    && Excess(w.prob, w.small, total) + Excess(w.prob, w.large, total) == 0
  }

  ghost predicate AllFit(mass: seq<nat>) {
    forall k :: 0 <= k < |mass| ==> mass[k] <= I16_MAX
  }

  lemma {:induction false} InflowChange(p: seq<int>, q: seq<int>, s: seq<int>, t: seq<int>,
                                        total: int, k: int, l: nat, m: nat)
    requires |p| == |q| == |s| == |t| && l < |p| && m <= |p|
    requires forall j :: 0 <= j < |p| && j != l && (s[j] == k || t[j] == k) ==> s[j] == t[j] && p[j] == q[j]
    ensures Inflow(q, t, total, k, m) - Inflow(p, s, total, k, m)
         == if l < m then (if t[l] == k then total - q[l] else 0) - (if s[l] == k then total - p[l] else 0) else 0
  {
    if m > 0 {
      InflowChange(p, q, s, t, total, k, l, m - 1);
    }
  }

  lemma {:induction false} ExcessOther(prob: seq<int>, stack: seq<nat>, total: int, g: nat, v: int)
    requires Indices(stack, |prob|) && g < |prob| && g !in stack
    ensures Excess(prob[g := v], stack, total) == Excess(prob, stack, total)
  {
    if stack != [] {
      ExcessOther(prob, stack[..|stack| - 1], total, g, v);
    }
  }

  lemma ExcessPush(prob: seq<int>, stack: seq<nat>, total: int, k: nat)
    requires Indices(stack, |prob|) && k < |prob|
    ensures Excess(prob, stack + [k], total) == Excess(prob, stack, total) + prob[k] - total
  {
    assert (stack + [k])[..|stack|] == stack;
  }

  /** A non-empty stack of columns all below `total` lacks something. */
  lemma {:induction false} ExcessBelow(prob: seq<int>, stack: seq<nat>, total: int)
    requires Indices(stack, |prob|) && forall k :: k in stack ==> prob[k] < total
    ensures if stack == [] then Excess(prob, stack, total) == 0 else Excess(prob, stack, total) < 0
  {
    if stack != [] {
      assert stack[|stack| - 1] in stack;
      ExcessBelow(prob, stack[..|stack| - 1], total);
    }
  }

  /** A stack of columns all at least `total` has no excess only if each holds exactly `total`. */
  lemma {:induction false} ExcessAbove(prob: seq<int>, stack: seq<nat>, total: int)
    requires Indices(stack, |prob|) && forall k :: k in stack ==> prob[k] >= total
    ensures Excess(prob, stack, total) >= 0
    ensures Excess(prob, stack, total) == 0 ==> forall k :: k in stack ==> prob[k] == total
  {
    if stack != [] {
      var rest, top := stack[..|stack| - 1], stack[|stack| - 1];
      assert top in stack;
      ExcessAbove(prob, rest, total);
      assert stack == rest + [top];
    }
  }

  lemma PopStack(stack: seq<nat>, n: nat)
    requires stack != [] && Indices(stack, n)
    ensures var rest, top := stack[..|stack| - 1], stack[|stack| - 1];
            top < n && Indices(rest, n) && multiset(stack) == multiset(rest) + multiset{top}
  {
    assert stack == stack[..|stack| - 1] + [stack[|stack| - 1]];
  }

  /** What one round does to the worklists: exactly the popped small column is closed. */
  lemma PairOnceOpen(w: Work, total: int)
    requires Shaped(w) && (forall k :: Open(w)[k] <= 1) && w.small != [] && w.large != []
    requires PairOnce(w, total).Some?
    ensures var l, g := w.small[|w.small| - 1], w.large[|w.large| - 1];
            && l in w.small && g in w.large && l != g
            && g !in w.small[..|w.small| - 1] && g !in w.large[..|w.large| - 1]
            && Open(PairOnce(w, total).value) == Open(w) - multiset{l}
  {
    PopStack(w.small, |w.prob|);
    PopStack(w.large, |w.prob|);
    var l, g := w.small[|w.small| - 1], w.large[|w.large| - 1];
    var a, b := w.small[..|w.small| - 1], w.large[..|w.large| - 1];
    assert Open(w) == multiset(a) + multiset{l} + multiset(b) + multiset{g};
    assert Open(w)[g] <= 1;
  }

  /** In a balanced state neither checked subtraction of a round overflows. */
  lemma PairOnceFits(w: Work, mass: seq<nat>, total: int)
    requires Ranged(w, mass, total) && AllFit(mass) && 0 < total <= I16_MAX
    requires w.small != [] && w.large != []
    ensures var l, g := w.small[|w.small| - 1], w.large[|w.large| - 1];
            0 <= w.prob[l] < total <= w.prob[g] <= mass[g] <= I16_MAX
    ensures PairOnce(w, total).Some?
  {
    var l, g := w.small[|w.small| - 1], w.large[|w.large| - 1];
    assert l in w.small && g in w.large;
  }

  /** Pushing an index keeps each worklist on its side of `total`. */
  lemma ClassifySorts(w: Work, total: int, k: nat)
    requires Shaped(w) && k < |w.prob|
    requires Sorted(w, total)
    ensures var v := Classify(w, total, k);
            Sorted(v, total) && Open(v) == Open(w) + multiset{k}
  {
    var v := Classify(w, total, k);
    forall j | j in v.small ensures v.prob[j] < total {
      assert j in w.small || j == k;
    }
    forall j | j in v.large ensures v.prob[j] >= total {
      assert j in w.large || j == k;
    }
  }

  lemma PairOnceSorts(w: Work, total: int)
    requires Shaped(w) && (forall k :: Open(w)[k] <= 1) && w.small != [] && w.large != [] && Sorted(w, total)
    requires PairOnce(w, total).Some?
    ensures Sorted(PairOnce(w, total).value, total)
  {
    PairOnceOpen(w, total);
    var g, v := w.large[|w.large| - 1], PairOnce(w, total).value;
    ClassifySorts(Work(v.prob, v.alias, w.small[..|w.small| - 1], w.large[..|w.large| - 1]), total, g);
  }

  lemma PairOnceRanged(w: Work, mass: seq<nat>, total: int)
    requires Ranged(w, mass, total) && AllFit(mass) && 0 < total <= I16_MAX
    requires w.small != [] && w.large != []
    ensures PairOnce(w, total).Some? && Ranged(PairOnce(w, total).value, mass, total)
  {
    PairOnceFits(w, mass, total);
    PairOnceOpen(w, total);
    PairOnceSorts(w, total);
    var l, g, v := w.small[|w.small| - 1], w.large[|w.large| - 1], PairOnce(w, total).value;
    forall k | 0 <= k < |mass| && k !in Open(v) ensures v.prob[k] < total {
      assert k != g by { assert g in Open(w) && g in Open(v); }
      assert k in Open(w) ==> k == l;
    }
  }

  lemma PairOnceBalanced(w: Work, mass: seq<nat>, total: int)
    requires Balanced(w, mass, total) && AllFit(mass) && 0 < total <= I16_MAX
    requires w.small != [] && w.large != []
    ensures PairOnce(w, total).Some? && Balanced(PairOnce(w, total).value, mass, total)
  {
    PairOnceRanged(w, mass, total);
    PairOnceMass(w, mass, total);
    PairOnceExcess(w, total);
  }

  /** The mass the large column gives up is the mass the small column's remainder now hands to it. */
  lemma PairOnceMass(w: Work, mass: seq<nat>, total: int)
    requires Shaped(w) && |w.prob| == |mass| && MassHeld(w, mass, total)
    requires (forall k :: Open(w)[k] <= 1) && w.small != [] && w.large != []
    requires PairOnce(w, total).Some?
    ensures MassHeld(PairOnce(w, total).value, mass, total)
  {
    PairOnceOpen(w, total);
    var l, g, v := w.small[|w.small| - 1], w.large[|w.large| - 1], PairOnce(w, total).value;
    var s, t := Targets(w), Targets(v);
    assert g in Open(w) && l in Open(w) && g in Open(v) && l !in Open(v);
    assert forall j :: 0 <= j < |s| && j != l ==> s[j] == t[j];
    forall k | 0 <= k < |mass| ensures v.prob[k] + Inflow(v.prob, t, total, k, |mass|) == mass[k] {
      InflowChange(w.prob, v.prob, s, t, total, k, l, |mass|);
    }
  }

  /** A round takes one column and exactly `total` out of the worklists. */
  lemma PairOnceExcess(w: Work, total: int)
    requires Shaped(w) && (forall k :: Open(w)[k] <= 1) && w.small != [] && w.large != []
    requires PairOnce(w, total).Some?
    ensures var v := PairOnce(w, total).value;
            Excess(v.prob, v.small, total) + Excess(v.prob, v.large, total)
            == Excess(w.prob, w.small, total) + Excess(w.prob, w.large, total)
  {
    PairOnceOpen(w, total);
    var l, g, v := w.small[|w.small| - 1], w.large[|w.large| - 1], PairOnce(w, total).value;
    var a, b := w.small[..|w.small| - 1], w.large[..|w.large| - 1];
    var p := w.prob[g := w.prob[g] - (total - w.prob[l])];
    assert v.prob == p;
    ExcessOther(w.prob, a, total, g, p[g]);
    ExcessOther(w.prob, b, total, g, p[g]);
    ExcessPush(p, a, total, g);
    ExcessPush(p, b, total, g);
    assert (v.small == a + [g] && v.large == b) || (v.small == a && v.large == b + [g]);
  }

  lemma {:induction false} PairUpBalanced(w: Work, mass: seq<nat>, total: int)
    requires Balanced(w, mass, total) && AllFit(mass) && 0 < total <= I16_MAX
    ensures PairUp(w, total).Some? && Balanced(PairUp(w, total).value, mass, total)
    decreases |w.small| + |w.large|
  {
    if w.small != [] && w.large != [] {
      PairOnceBalanced(w, mass, total);
      PairUpBalanced(PairOnce(w, total).value, mass, total);
    }
  }

  /** When the main loop stops, `small` is empty and every column left in `large` is exactly full, so
      neither trailing loop changes anything. */
  lemma NothingLostToDrains(w: Work, mass: seq<nat>, total: int)
    requires Balanced(w, mass, total) && (w.small == [] || w.large == [])
    ensures w.small == [] && forall k :: k in w.large ==> w.prob[k] == total
    ensures Drain(Drain(w.prob, w.large, total), w.small, total) == w.prob
  {
    ExcessBelow(w.prob, w.small, total);
    ExcessAbove(w.prob, w.large, total);
    DrainFull(w.prob, w.large, total);
  }

  lemma {:induction false} DrainFull(prob: seq<int>, stack: seq<nat>, total: int)
    requires Indices(stack, |prob|) && forall k :: k in stack ==> prob[k] == total
    ensures Drain(prob, stack, total) == prob
  {
    if stack != [] {
      assert stack[|stack| - 1] in stack;
      assert prob[stack[|stack| - 1] := total] == prob;
      assert forall x :: x in stack[..|stack| - 1] ==> x in stack;
      DrainFull(prob, stack[..|stack| - 1], total);
    }
  }

  /** The state of the filling loop after `i` weights. */
  ghost predicate Filled(mass: seq<nat>, total: int, i: nat, w: Work) {
    && Shaped(w) && |w.prob| == |mass| && i <= |mass|
    && (forall k: nat :: Open(w)[k] == if k < i then 1 else 0)
    && (forall k :: 0 <= k < i ==> w.prob[k] == mass[k])
    && (forall k :: 0 <= k < |mass| ==> w.alias[k] == 0)
    && Sorted(w, total)
    && Excess(w.prob, w.small, total) + Excess(w.prob, w.large, total) == Surplus(mass, total, i)
  }

  /** How much the first `i` masses exceed `total` each, all together. */
  function Surplus(mass: seq<nat>, total: int, i: nat): int
    requires i <= |mass|
  {
    if i == 0 then 0 else Surplus(mass, total, i - 1) + mass[i - 1] - total
  }

  lemma {:induction false} SurplusIs(mass: seq<nat>, total: int, i: nat)
    requires i <= |mass|
    ensures Surplus(mass, total, i) == Sum(mass[..i]) - i * total
  {
    if i > 0 {
      SurplusIs(mass, total, i - 1);
      assert mass[..i][..i - 1] == mass[..i - 1];
      assert i * total == (i - 1) * total + total;
    }
  }

  lemma NotYetOpen(w: Work, i: nat)
    requires forall k: nat :: Open(w)[k] == if k < i then 1 else 0
    ensures i !in w.small && i !in w.large
  {
    assert Open(w)[i] == 0;
    assert i !in multiset(w.small) && i !in multiset(w.large);
  }

  lemma FillOpens(w: Work, total: int, i: nat)
    requires Shaped(w) && i < |w.prob| && forall k: nat :: Open(w)[k] == if k < i then 1 else 0
    ensures forall k: nat :: Open(Classify(w, total, i))[k] == if k < i + 1 then 1 else 0
  {
    forall k: nat ensures Open(Classify(w, total, i))[k] == Open(w)[k] + (if k == i then 1 else 0) {
    }
  }

  lemma FillKeepsEntries(mass: seq<nat>, total: int, i: nat, w: Work)
    requires Filled(mass, total, i, w) && i < |mass|
    ensures var v := Classify(w.(prob := w.prob[i := mass[i]]), total, i);
            && |v.prob| == |mass| && (forall k :: 0 <= k < i + 1 ==> v.prob[k] == mass[k])
            && forall k :: 0 <= k < |mass| ==> v.alias[k] == 0
  {
  }

  lemma FillOne(mass: seq<nat>, total: int, i: nat, w: Work)
    requires Filled(mass, total, i, w) && i < |mass|
    ensures Filled(mass, total, i + 1, Classify(w.(prob := w.prob[i := mass[i]]), total, i))
  {
    var u := w.(prob := w.prob[i := mass[i]]);
    NotYetOpen(w, i);
    FillSorts(mass, total, i, w);
    FillExcess(mass, total, i, w);
    FillKeepsEntries(mass, total, i, w);
    assert Open(u) == Open(w);
    FillOpens(u, total, i);
  }

  lemma FillSorts(mass: seq<nat>, total: int, i: nat, w: Work)
    requires Shaped(w) && |w.prob| == |mass| && i < |mass| && i !in w.small && i !in w.large && Sorted(w, total)
    ensures var v := Classify(w.(prob := w.prob[i := mass[i]]), total, i);
            Sorted(v, total) && Open(v) == Open(w) + multiset{i}
  {
    ClassifySorts(w.(prob := w.prob[i := mass[i]]), total, i);
  }

  lemma FillExcess(mass: seq<nat>, total: int, i: nat, w: Work)
    requires Shaped(w) && |w.prob| == |mass| && i < |mass| && i !in w.small && i !in w.large
    requires Excess(w.prob, w.small, total) + Excess(w.prob, w.large, total) == Surplus(mass, total, i)
    ensures var v := Classify(w.(prob := w.prob[i := mass[i]]), total, i);
            Excess(v.prob, v.small, total) + Excess(v.prob, v.large, total) == Surplus(mass, total, i + 1)
  {
    var p := w.prob[i := mass[i]];
    ExcessOther(w.prob, w.small, total, i, mass[i]);
    ExcessOther(w.prob, w.large, total, i, mass[i]);
    ExcessPush(p, w.small, total, i);
    ExcessPush(p, w.large, total, i);
  }

  /** One round in terms of the exact scaled weight: it panics exactly when that leaves i16. */
  lemma FillStep(ws: seq<nat>, total: int, i: nat, w: Work)
    requires |ws| <= I16_MAX && (forall k :: 0 <= k < |ws| ==> ws[k] <= I16_MAX)
    requires Shaped(w) && |w.prob| == |ws| && i < |ws|
    ensures Fill(ws, total, i, w)
         == if Scaled(ws)[i] > I16_MAX then None
            else Fill(ws, total, i + 1, Classify(w.(prob := w.prob[i := Scaled(ws)[i]]), total, i))
  {
  }

  lemma {:induction false} FillPanics(ws: seq<nat>, total: int, i: nat, w: Work)
    requires |ws| <= I16_MAX && forall k :: 0 <= k < |ws| ==> ws[k] <= I16_MAX
    requires Shaped(w) && |w.prob| == |ws| && i <= |ws|
    ensures Fill(ws, total, i, w).Some? <==> forall k :: i <= k < |ws| ==> Scaled(ws)[k] <= I16_MAX
    decreases |ws| - i
  {
    if i < |ws| {
      FillStep(ws, total, i, w);
      if Scaled(ws)[i] <= I16_MAX {
        FillPanics(ws, total, i + 1, Classify(w.(prob := w.prob[i := Scaled(ws)[i]]), total, i));
      }
    }
  }

  lemma {:induction false} FillKeeps(ws: seq<nat>, total: int, i: nat, w: Work)
    requires |ws| <= I16_MAX && forall k :: 0 <= k < |ws| ==> ws[k] <= I16_MAX
    requires Filled(Scaled(ws), total, i, w) && Fill(ws, total, i, w).Some?
    ensures Filled(Scaled(ws), total, |ws|, Fill(ws, total, i, w).value)
    decreases |ws| - i
  {
    if i < |ws| {
      FillStep(ws, total, i, w);
      FillOne(Scaled(ws), total, i, w);
      FillKeeps(ws, total, i + 1, Classify(w.(prob := w.prob[i := Scaled(ws)[i]]), total, i));
    }
  }

  /** The filling loop panics exactly when a remaining scaled weight does not fit. */
  lemma FillCorrect(ws: seq<nat>, total: int, i: nat, w: Work)
    requires |ws| <= I16_MAX && forall k :: 0 <= k < |ws| ==> ws[k] <= I16_MAX
    requires Filled(Scaled(ws), total, i, w)
    ensures Fill(ws, total, i, w).Some? <==> forall k :: i <= k < |ws| ==> Scaled(ws)[k] <= I16_MAX
    ensures Fill(ws, total, i, w).Some? ==> Filled(Scaled(ws), total, |ws|, Fill(ws, total, i, w).value)
  {
    FillPanics(ws, total, i, w);
    if Fill(ws, total, i, w).Some? {
      FillKeeps(ws, total, i, w);
    }
  }

  lemma {:induction false} SumScaled(ws: seq<nat>, mass: seq<nat>, n: nat)
    requires |mass| == |ws| && forall k :: 0 <= k < |ws| ==> mass[k] == n * ws[k]
    ensures Sum(mass) == n * Sum(ws)
  {
    if ws != [] {
      SumScaled(ws[..|ws| - 1], mass[..|ws| - 1], n);
    }
  }

  lemma {:induction false} InflowNone(prob: seq<int>, target: seq<int>, total: int, k: int, m: nat)
    requires |prob| == |target| && m <= |prob|
    requires forall j :: 0 <= j < m ==> target[j] != k
    ensures Inflow(prob, target, total, k, m) == 0
  {
    if m > 0 {
      InflowNone(prob, target, total, k, m - 1);
    }
  }

  /** Columns whose remainder is empty may have any target. */
  lemma {:induction false} InflowFull(prob: seq<int>, s: seq<int>, t: seq<int>, total: int, k: int, m: nat)
    requires |prob| == |s| == |t| && m <= |prob|
    requires forall j :: 0 <= j < m ==> s[j] == t[j] || prob[j] == total
    ensures Inflow(prob, s, total, k, m) == Inflow(prob, t, total, k, m)
  {
    if m > 0 {
      InflowFull(prob, s, t, total, k, m - 1);
    }
  }

  lemma FilledIsBalanced(mass: seq<nat>, total: int, w: Work)
    requires Filled(mass, total, |mass|, w) && Sum(mass) == |mass| * total
    ensures Balanced(w, mass, total)
  {
    assert mass[..|mass|] == mass;
    SurplusIs(mass, total, |mass|);
    assert forall k: nat :: k < |mass| ==> Open(w)[k] == 1 && k in Open(w);
    forall k | 0 <= k < |mass| ensures w.prob[k] + Inflow(w.prob, Targets(w), total, k, |mass|) == mass[k] {
      InflowNone(w.prob, Targets(w), total, k, |mass|);
    }
  }

  /** A finished work state is a table: closing the full columns does not move any mass. */
  lemma BalancedIsTable(w: Work, ws: seq<nat>, total: int)
    requires Balanced(w, Scaled(ws), total) && w.small == []
    requires forall k :: k in w.large ==> w.prob[k] == total
    ensures IsAliasTable(Table(w.prob, w.alias), ws, total)
  {
    forall k | 0 <= k < |ws|
      ensures w.prob[k] <= total
      ensures w.prob[k] + Inflow(w.prob, w.alias, total, k, |ws|) == |ws| * ws[k]
    {
      assert k in Open(w) ==> k in w.large;
      InflowFull(w.prob, Targets(w), w.alias, total, k, |ws|);
    }
  }

  lemma FilledStart(ws: seq<nat>, total: int)
    ensures Filled(Scaled(ws), total, 0, EmptyWork(|ws|))
  {
    assert Open(EmptyWork(|ws|)) == multiset{};
  }

  lemma TableFits(ws: seq<nat>, total: int, filled: Work)
    requires Sum(ws) == total && 0 < total <= I16_MAX && Fits(ws)
    requires Filled(Scaled(ws), total, |ws|, filled)
    ensures var w := PairUp(filled, total);
            && w.Some? && Drain(Drain(w.value.prob, w.value.large, total), w.value.small, total) == w.value.prob
            && IsAliasTable(Table(w.value.prob, w.value.alias), ws, total)
  {
    var mass := Scaled(ws);
    SumScaled(ws, mass, |ws|);
    FilledIsBalanced(mass, total, filled);
    PairUpBalanced(filled, mass, total);
    var w := PairUp(filled, total).value;
    NothingLostToDrains(w, mass, total);
    BalancedIsTable(w, ws, total);
  }

  /** For weights that sum to a total in signed 16-bit range, construction succeeds if and only if every
      scaled weight fits, and the table it returns gives every index its exact mass. */
  lemma TableCorrect(ws: seq<nat>, total: int)
    requires Sum(ws) == total && 0 < total <= I16_MAX && |ws| <= I16_MAX
    ensures forall k :: 0 <= k < |ws| ==> ws[k] <= U16_MAX
    ensures BuildTable(ws, total).Some? <==> Fits(ws)
    ensures BuildTable(ws, total).Some? ==> IsAliasTable(BuildTable(ws, total).value, ws, total)
  {
    SumBounds(ws);
    FilledStart(ws, total);
    FillCorrect(ws, total, 0, EmptyWork(|ws|));
    assert Fits(ws) <==> AllFit(Scaled(ws));
    if Fits(ws) {
      TableFits(ws, total, Fill(ws, total, 0, EmptyWork(|ws|)).value);
    }
  }

  /* One table in full. */

  lemma FillsTo(ws: seq<nat>, total: int, i: nat, w: Work, x: nat, v: Work)
    requires |ws| <= I16_MAX && (forall k :: 0 <= k < |ws| ==> ws[k] <= I16_MAX)
    requires Shaped(w) && |w.prob| == |ws| && i < |ws| && x == |ws| * ws[i] <= I16_MAX
    requires v.prob == w.prob[i := x] && v.alias == w.alias
    requires if x < total then v.small == w.small + [i] && v.large == w.large
             else v.small == w.small && v.large == w.large + [i]
    ensures Shaped(v) && Fill(ws, total, i, w) == Fill(ws, total, i + 1, v)
  {
    assert AsI16(|ws|) * AsI16(ws[i]) == x;
  }

  lemma PairsTo(w: Work, total: int, a: seq<nat>, l: nat, b: seq<nat>, g: nat, v: Work)
    requires Shaped(w) && w.small == a + [l] && w.large == b + [g] && l < |w.prob| && g < |w.prob|
    requires InI16(total - w.prob[l]) && InI16(w.prob[g] - (total - w.prob[l]))
    requires v.prob == w.prob[g := w.prob[g] - (total - w.prob[l])] && v.alias == w.alias[l := g]
    requires if v.prob[g] < total then v.small == a + [g] && v.large == b else v.small == a && v.large == b + [g]
    ensures Shaped(v) && PairUp(w, total) == PairUp(v, total)
  {
    assert w.small[..|w.small| - 1] == a && w.large[..|w.large| - 1] == b;
    assert PairOnce(w, total) == Some(v);
  }

  /** Four weights: two small columns are completed from the last large one, and what that lacks from the other. */
  lemma FourColumns()
    ensures BuildTable([1, 1, 3, 3], 8) == Some(Table([4, 4, 8, 4], [3, 3, 0, 2]))
  {
    FourFilled();
    FourPaired();
    assert [4, 4, 8, 4][2 := 8] == [4, 4, 8, 4];
    assert Drain([4, 4, 8, 4], [2], 8) == Drain([4, 4, 8, 4], [], 8);
  }

  lemma FourFilled()
    ensures Fill([1, 1, 3, 3], 8, 0, EmptyWork(4)) == Some(Work([4, 4, 12, 12], [0, 0, 0, 0], [0, 1], [2, 3]))
  {
    FillsFour([1, 1, 3, 3], EmptyWork(4), [0, 0, 0, 0]);
  }

  lemma FillsFour(ws: seq<nat>, w: Work, zeros: seq<nat>)
    requires ws == [1, 1, 3, 3] && zeros == [0, 0, 0, 0] && w == Work(zeros, zeros, [], [])
    ensures Fill(ws, 8, 0, w) == Some(Work([4, 4, 12, 12], zeros, [0, 1], [2, 3]))
  {
    FillsTo(ws, 8, 0, w, 4, Work([4, 0, 0, 0], zeros, [0], []));
    FillsTo(ws, 8, 1, Work([4, 0, 0, 0], zeros, [0], []), 4, Work([4, 4, 0, 0], zeros, [0, 1], []));
    FillsTo(ws, 8, 2, Work([4, 4, 0, 0], zeros, [0, 1], []), 12, Work([4, 4, 12, 0], zeros, [0, 1], [2]));
    FillsTo(ws, 8, 3, Work([4, 4, 12, 0], zeros, [0, 1], [2]), 12, Work([4, 4, 12, 12], zeros, [0, 1], [2, 3]));
  }

  lemma FourPaired()
    ensures PairUp(Work([4, 4, 12, 12], [0, 0, 0, 0], [0, 1], [2, 3]), 8)
         == Some(Work([4, 4, 8, 4], [3, 3, 0, 2], [], [2]))
  {
    PairsFour(Work([4, 4, 12, 12], [0, 0, 0, 0], [0, 1], [2, 3]), Work([4, 4, 12, 8], [0, 3, 0, 0], [0], [2, 3]),
              Work([4, 4, 12, 4], [3, 3, 0, 0], [3], [2]), Work([4, 4, 8, 4], [3, 3, 0, 2], [], [2]), 8);
  }

  lemma PairsFour(w4: Work, w5: Work, w6: Work, w7: Work, total: int)
    requires total == 8
    requires w4 == Work([4, 4, 12, 12], [0, 0, 0, 0], [0, 1], [2, 3])
    requires w5 == Work([4, 4, 12, 8], [0, 3, 0, 0], [0], [2, 3])
    requires w6 == Work([4, 4, 12, 4], [3, 3, 0, 0], [3], [2])
    requires w7 == Work([4, 4, 8, 4], [3, 3, 0, 2], [], [2])
    ensures PairUp(w4, total) == Some(w7)
  {
    FirstPair(w4, w5, total);
    SecondPair(w5, w6, total);
    ThirdPair(w6, w7, total);
  }

  lemma FirstPair(w: Work, v: Work, total: int)
    requires total == 8 && w == Work([4, 4, 12, 12], [0, 0, 0, 0], [0, 1], [2, 3])
    requires v == Work([4, 4, 12, 8], [0, 3, 0, 0], [0], [2, 3])
    ensures Shaped(w) && Shaped(v) && PairUp(w, total) == PairUp(v, total)
  {
    PairsTo(w, total, [0], 1, [2], 3, v);
  }

  lemma SecondPair(w: Work, v: Work, total: int)
    requires total == 8 && w == Work([4, 4, 12, 8], [0, 3, 0, 0], [0], [2, 3])
    requires v == Work([4, 4, 12, 4], [3, 3, 0, 0], [3], [2])
    ensures Shaped(w) && Shaped(v) && PairUp(w, total) == PairUp(v, total)
  {
    PairsTo(w, total, [], 0, [2], 3, v);
  }

  lemma ThirdPair(w: Work, v: Work, total: int)
    requires total == 8 && w == Work([4, 4, 12, 4], [3, 3, 0, 0], [3], [2])
    requires v == Work([4, 4, 8, 4], [3, 3, 0, 2], [], [2])
    ensures Shaped(w) && PairUp(w, total) == Some(v)
  {
    PairsTo(w, total, [], 3, [], 2, v);
  }
}
