/** The column layout of overlapping interventions in one day column of the week view
  * (`getEventColumns`). The passes are specified here as functions of the events;
  * the module `WeekLayout` runs them in place on arrays. */
module WeekView {
  import opened Seqs
  import opened Types

  /** An intervention with its start and end in minutes since midnight. */
  datatype Event = Event(intervention: Intervention, startMinutes: int, endMinutes: int)

  /** The strict overlap test: events that only touch do not overlap. */
  predicate Overlaps(a: Event, b: Event) {
    a.startMinutes < b.endMinutes && a.endMinutes > b.startMinutes
  }

  lemma OverlapSymmetric(a: Event, b: Event)
    ensures Overlaps(a, b) <==> Overlaps(b, a)
  {
  }

  /** One event ending exactly when the other starts is not an overlap. */
  lemma TouchingDoNotOverlap(a: Event, b: Event)
    requires a.endMinutes == b.startMinutes
    ensures !Overlaps(a, b) && !Overlaps(b, a)
  {
  }

  /** `(a, b) => a.startMinutes - b.startMinutes`, as "a may come before b". */
  predicate StartLe(a: Event, b: Event) {
    a.startMinutes <= b.startMinutes
  }

  /** The events in the order the layout works in: by start, ties in input order. */
  function SortedEvents(input: seq<Event>): (ev: seq<Event>)
    ensures multiset(ev) == multiset(input)
    ensures SortedBy(ev, StartLe)
  {
    SortBySorted(input, StartLe);
    SortBy(input, StartLe)
  }

  /** Events starting together stay in their input order. */
  lemma SortedEventsStable(input: seq<Event>, rank: Event -> int)
    requires forall i, j :: 0 <= i < j < |input| ==> rank(input[i]) < rank(input[j])
    ensures TiesRanked(SortedEvents(input), StartLe, rank)
  {
    SortByStable(input, StartLe, rank);
  }

  /** The `column` and `totalColumns` fields of all events. */
  datatype Layout = Layout(cols: seq<int>, tots: seq<int>)

  predicate Sized(ev: seq<Event>, l: Layout) {
    |l.cols| == |ev| && |l.tots| == |ev|
  }

  /** Every event starts in column 0 of 1. */
  function Initial(n: nat): (l: Layout)
    ensures |l.cols| == n && |l.tots| == n
    ensures forall i :: 0 <= i < n ==> l.cols[i] == 0 && l.tots[i] == 1
  {
    Layout(Repeat(0, n), Repeat(1, n))
  }

  /** The columns of the events among the first `k` that overlap event `i`, in order:
    * `events.slice(0, i).filter(overlaps).map((e) => e.column)` for `k == i`. */
  function UsedColumns(ev: seq<Event>, cols: seq<int>, i: nat, k: nat): (r: seq<int>)
    requires k <= i < |ev| && |cols| == |ev|
    ensures |r| <= k
    decreases k
  {
    if k == 0 then []
    else
      var r := UsedColumns(ev, cols, i, k - 1);
      if Overlaps(ev[i], ev[k - 1]) then r + [cols[k - 1]] else r
  }

  /** The column of every one of the first `k` events overlapping event `i` is listed. */
  lemma {:induction false} UsedColumnsHas(ev: seq<Event>, cols: seq<int>, i: nat, k: nat)
    requires k <= i < |ev| && |cols| == |ev|
    ensures forall j :: 0 <= j < k && Overlaps(ev[i], ev[j]) ==> cols[j] in UsedColumns(ev, cols, i, k)
  {
    if k > 0 {
      UsedColumnsHas(ev, cols, i, k - 1);
    }
  }

  /** Every listed column is the column of an earlier overlapping event. */
  lemma {:induction false} UsedColumnsFrom(ev: seq<Event>, cols: seq<int>, i: nat, k: nat, d: int)
    requires k <= i < |ev| && |cols| == |ev|
    requires d in UsedColumns(ev, cols, i, k)
    ensures exists j :: 0 <= j < k && Overlaps(ev[i], ev[j]) && cols[j] == d
  {
    var r := UsedColumns(ev, cols, i, k - 1);
    if d in r {
      UsedColumnsFrom(ev, cols, i, k - 1, d);
    } else {
      assert cols[k - 1] == d;
    }
  }

  /** The list depends only on the columns of the first `k` events. */
  lemma {:induction false} UsedColumnsPrefix(ev: seq<Event>, a: seq<int>, b: seq<int>, i: nat, k: nat)
    requires k <= i < |ev| && |a| == |ev| && |b| == |ev|
    requires forall j :: 0 <= j < k ==> a[j] == b[j]
    ensures UsedColumns(ev, a, i, k) == UsedColumns(ev, b, i, k)
  {
    if k > 0 {
      UsedColumnsPrefix(ev, a, b, i, k - 1);
    }
  }

  /** A list holding each of 0, ..., c - 1 has at least c elements. */
  lemma {:induction false} Pigeonhole(used: seq<int>, c: nat)
    requires forall d :: 0 <= d < c ==> d in used
    ensures c <= |used|
  {
    if c > 0 {
      assert c - 1 in used;
      var p :| 0 <= p < |used| && used[p] == c - 1;
      var rest := used[..p] + used[p + 1..];
      forall d | 0 <= d < c - 1 ensures d in rest {
        assert d in used;
        var q :| 0 <= q < |used| && used[q] == d;
        if q < p {
          assert rest[q] == d;
        } else {
          assert rest[q - 1] == d;
        }
      }
      Pigeonhole(rest, c - 1);
    }
  }

  /** `let column = 0; while (usedColumns.includes(column)) column++;`, from `c` on. */
  function FirstFree(used: seq<int>, c: nat): (r: nat)
    requires forall d :: 0 <= d < c ==> d in used
    ensures r >= c && r !in used
    ensures forall d :: 0 <= d < r ==> d in used
    ensures r <= |used|
    decreases |used| - c
  {
    Pigeonhole(used, c);
    if c in used then
      Pigeonhole(used, c + 1);
      FirstFree(used, c + 1)
    else c
  }

  function Max(a: int, b: int): int {
    if a >= b then a else b
  }

  /** `Math.max(m, ...s)`. */
  function MaxWith(m: int, s: seq<int>): (r: int)
    ensures r >= m && forall x :: x in s ==> r >= x
    ensures r == m || r in s
    decreases |s|
  {
    if s == [] then m
    else
      assert forall x :: x in s ==> x == s[0] || x in s[1..];
      MaxWith(Max(m, s[0]), s[1..])
  }

  /** `current.totalColumns = t`, and `t` raised on the earlier events overlapping it. */
  function Raised(ev: seq<Event>, tots: seq<int>, i: nat, t: int): (r: seq<int>)
    requires |tots| == |ev| && i < |ev|
    ensures |r| == |ev|
  {
    RaisedUpTo(ev, tots, i, t, |ev|)
  }

  /** The new total of event `j` in `Raised`. */
  function RaisedValue(ev: seq<Event>, tots: seq<int>, i: nat, t: int, j: nat): int
    requires |tots| == |ev| && i < |ev| && j < |ev|
  {
    if j == i then t else if j < i && Overlaps(ev[i], ev[j]) then Max(tots[j], t) else tots[j]
  }

  /** The first `n` totals of `Raised`. */
  function RaisedUpTo(ev: seq<Event>, tots: seq<int>, i: nat, t: int, n: nat): (r: seq<int>)
    requires |tots| == |ev| && i < |ev| && n <= |ev|
    ensures |r| == n
  {
    if n == 0 then [] else RaisedUpTo(ev, tots, i, t, n - 1) + [RaisedValue(ev, tots, i, t, n - 1)]
  }

  lemma {:induction false} RaisedUpToAt(ev: seq<Event>, tots: seq<int>, i: nat, t: int, n: nat, j: nat)
    requires |tots| == |ev| && i < |ev| && j < n <= |ev|
    ensures RaisedUpTo(ev, tots, i, t, n)[j] == RaisedValue(ev, tots, i, t, j)
  {
    if j < n - 1 {
      RaisedUpToAt(ev, tots, i, t, n - 1, j);
    }
  }

  /** `Raised` sets event `i` to `t`, raises the earlier events overlapping it to `t` and
    * leaves the others alone. */
  lemma RaisedAll(ev: seq<Event>, tots: seq<int>, i: nat, t: int)
    requires |tots| == |ev| && i < |ev|
    ensures forall j :: 0 <= j < |ev| ==> Raised(ev, tots, i, t)[j] == RaisedValue(ev, tots, i, t, j)
  {
    forall j | 0 <= j < |ev| ensures Raised(ev, tots, i, t)[j] == RaisedValue(ev, tots, i, t, j) {
      RaisedUpToAt(ev, tots, i, t, |ev|, j);
    }
  }

  /** The first pass at event `i`: the least free column, and the total it implies raised
    * on the earlier overlapping events. */
  function Pass1Step(ev: seq<Event>, l: Layout, i: nat): (r: Layout)
    requires Sized(ev, l) && i < |ev|
    ensures Sized(ev, r)
    ensures forall j :: 0 <= j < |ev| && j != i ==> r.cols[j] == l.cols[j]
    ensures forall j :: 0 <= j < |ev| && j != i ==> r.tots[j] >= l.tots[j]
    ensures r.tots[i] > r.cols[i]
    ensures forall j :: i < j < |ev| ==> r.tots[j] == l.tots[j]
  {
    var used := UsedColumns(ev, l.cols, i, i);
    var c := FirstFree(used, 0);
    RaisedAll(ev, l.tots, i, MaxWith(c, used) + 1);
    Layout(l.cols[i := c], Raised(ev, l.tots, i, MaxWith(c, used) + 1))
  }

  /** The state after the first `k` rounds of the first pass. */
  function Pass1(ev: seq<Event>, k: nat): (r: Layout)
    requires k <= |ev|
    ensures Sized(ev, r)
  {
    if k == 0 then Initial(|ev|) else Pass1Step(ev, Pass1(ev, k - 1), k - 1)
  }

  /** `Math.max(current.totalColumns, ...overlapping.map((e) => e.totalColumns))` over
    * the first `k` events. */
  function MaxTotalAround(ev: seq<Event>, tots: seq<int>, i: nat, k: nat): (r: int)
    requires i < |ev| && k <= |ev| && |tots| == |ev|
    ensures r >= tots[i]
  {
    if k == 0 then tots[i]
    else
      var m := MaxTotalAround(ev, tots, i, k - 1);
      if k - 1 != i && Overlaps(ev[i], ev[k - 1]) then Max(m, tots[k - 1]) else m
  }

  /** `current.totalColumns = m` and `e.totalColumns = m` on every event overlapping it. */
  function Spread(ev: seq<Event>, tots: seq<int>, i: nat, m: int): (r: seq<int>)
    requires |tots| == |ev| && i < |ev|
    ensures |r| == |ev|
  {
    SpreadUpTo(ev, tots, i, m, |ev|)
  }

  /** The new total of event `j` in `Spread`. */
  function SpreadValue(ev: seq<Event>, tots: seq<int>, i: nat, m: int, j: nat): int
    requires |tots| == |ev| && i < |ev| && j < |ev|
  {
    if j == i || Overlaps(ev[i], ev[j]) then m else tots[j]
  }

  /** The first `n` totals of `Spread`. */
  function SpreadUpTo(ev: seq<Event>, tots: seq<int>, i: nat, m: int, n: nat): (r: seq<int>)
    requires |tots| == |ev| && i < |ev| && n <= |ev|
    ensures |r| == n
  {
    if n == 0 then [] else SpreadUpTo(ev, tots, i, m, n - 1) + [SpreadValue(ev, tots, i, m, n - 1)]
  }

  lemma {:induction false} SpreadUpToAt(ev: seq<Event>, tots: seq<int>, i: nat, m: int, n: nat, j: nat)
    requires |tots| == |ev| && i < |ev| && j < n <= |ev|
    ensures SpreadUpTo(ev, tots, i, m, n)[j] == SpreadValue(ev, tots, i, m, j)
  {
    if j < n - 1 {
      SpreadUpToAt(ev, tots, i, m, n - 1, j);
    }
  }

  /** `Spread` gives event `i` and every event overlapping it the total `m` and leaves the
    * others alone. */
  lemma SpreadAll(ev: seq<Event>, tots: seq<int>, i: nat, m: int)
    requires |tots| == |ev| && i < |ev|
    ensures forall j :: 0 <= j < |ev| ==> Spread(ev, tots, i, m)[j] == SpreadValue(ev, tots, i, m, j)
  {
    forall j | 0 <= j < |ev| ensures Spread(ev, tots, i, m)[j] == SpreadValue(ev, tots, i, m, j) {
      SpreadUpToAt(ev, tots, i, m, |ev|, j);
    }
  }

  /** The final pass at event `i`: it and every event overlapping it get the largest of
    * their totals. */
  function Pass2Step(ev: seq<Event>, l: Layout, i: nat): (r: Layout)
    requires Sized(ev, l) && i < |ev|
    ensures Sized(ev, r) && r.cols == l.cols
  {
    Layout(l.cols, Spread(ev, l.tots, i, MaxTotalAround(ev, l.tots, i, |ev|)))
  }

  /** A round of the final pass lowers no total and gives event `i` and every event
    * overlapping it the largest total around event `i`. */
  lemma Pass2StepLaws(ev: seq<Event>, l: Layout, i: nat)
    requires Sized(ev, l) && i < |ev|
    ensures var r := Pass2Step(ev, l, i);
      && Below(l.tots, r.tots)
      && forall j :: 0 <= j < |ev| && (j == i || Overlaps(ev[i], ev[j])) ==>
        r.tots[j] == MaxTotalAround(ev, l.tots, i, |ev|)
  {
    MaxTotalAroundAbove(ev, l.tots, i, |ev|);
    SpreadAll(ev, l.tots, i, MaxTotalAround(ev, l.tots, i, |ev|));
  }

  /** The state after the first `k` rounds of the final pass, from `l`. */
  function Pass2(ev: seq<Event>, l: Layout, k: nat): (r: Layout)
    requires Sized(ev, l) && k <= |ev|
    ensures Sized(ev, r) && r.cols == l.cols
  {
    if k == 0 then l else Pass2Step(ev, Pass2(ev, l, k - 1), k - 1)
  }

  /** Both passes of `getEventColumns` as written. */
  function LayoutAsWritten(ev: seq<Event>): (r: Layout)
    ensures Sized(ev, r)
  {
    Pass2(ev, Pass1(ev, |ev|), |ev|)
  }

  /** The events a round has not reached yet are still in column 0 of 1. */
  lemma {:induction false} Pass1Untouched(ev: seq<Event>, k: nat)
    requires k <= |ev|
    ensures forall j :: k <= j < |ev| ==> Pass1(ev, k).cols[j] == 0 && Pass1(ev, k).tots[j] == 1
  {
    if k > 0 {
      Pass1Untouched(ev, k - 1);
    }
  }

  /** Once an event has its column, later rounds of the first pass leave it alone. */
  lemma {:induction false} Pass1Keeps(ev: seq<Event>, k: nat, k': nat)
    requires k <= k' <= |ev|
    ensures forall j :: 0 <= j < k ==> Pass1(ev, k').cols[j] == Pass1(ev, k).cols[j]
    decreases k'
  {
    forall j | 0 <= j < k ensures Pass1(ev, k').cols[j] == Pass1(ev, k).cols[j] {
      Pass1KeepsAt(ev, j, k, k');
    }
  }

  /** `Pass1Keeps` for one event. */
  lemma {:induction false} Pass1KeepsAt(ev: seq<Event>, j: nat, k: nat, k': nat)
    requires j < k <= k' <= |ev|
    ensures Pass1(ev, k').cols[j] == Pass1(ev, k).cols[j]
    decreases k'
  {
    if k' > k {
      Pass1KeepsAt(ev, j, k, k' - 1);
      Pass1StepKeeps(ev, Pass1(ev, k' - 1), k' - 1, j);
    }
  }

  /** A round of the first pass leaves the column of an earlier event alone. */
  lemma Pass1StepKeeps(ev: seq<Event>, l: Layout, i: nat, j: nat)
    requires Sized(ev, l) && j < i < |ev|
    ensures Pass1Step(ev, l, i).cols[j] == l.cols[j]
  {
  }

  /** Every column is below its total throughout the first pass. */
  lemma {:induction false} Pass1InRange(ev: seq<Event>, k: nat)
    requires k <= |ev|
    ensures forall j :: 0 <= j < |ev| ==> 0 <= Pass1(ev, k).cols[j] < Pass1(ev, k).tots[j]
  {
    if k > 0 {
      Pass1InRange(ev, k - 1);
    }
  }

  /** Round `k` of the first pass, from the state `a` the earlier rounds reached. */
  lemma Pass1Round(ev: seq<Event>, k: nat, a: Layout, used: seq<int>, c: nat, t: int, b: Layout)
    requires k < |ev| && Pass1(ev, k) == a
    requires UsedColumns(ev, a.cols, k, k) == used
    requires FirstFree(used, 0) == c && MaxWith(c, used) + 1 == t
    requires b.cols == a.cols[k := c]
    requires |b.tots| == |ev| && forall j :: 0 <= j < |ev| ==> b.tots[j] == RaisedValue(ev, a.tots, k, t, j)
    ensures Pass1(ev, k + 1) == b
  {
    RaisedAll(ev, a.tots, k, t);
  }

  /** The column the first pass gives event `i`: the least one that no earlier event
    * overlapping it occupies in the finished layout. */
  lemma ColumnChoice(ev: seq<Event>, i: nat)
    requires i < |ev|
    ensures var cols := Pass1(ev, |ev|).cols;
      cols[i] == FirstFree(UsedColumns(ev, cols, i, i), 0)
  {
    var final := Pass1(ev, |ev|).cols;
    Pass1Keeps(ev, i + 1, |ev|);
    Pass1Keeps(ev, i, |ev|);
    UsedColumnsPrefix(ev, Pass1(ev, i).cols, final, i, i);
  }

  /** An event's column is at most the number of earlier events overlapping it (the
    * length of the list of their columns), so at most its position. */
  lemma ColumnAtMostOverlaps(ev: seq<Event>, i: nat)
    requires i < |ev|
    ensures var cols := Pass1(ev, |ev|).cols;
      cols[i] <= |UsedColumns(ev, cols, i, i)| <= i
  {
    ColumnChoice(ev, i);
  }

  /** An earlier event overlapping event `i` sits in column `d`. */
  ghost predicate Occupied(ev: seq<Event>, cols: seq<int>, i: nat, d: int)
    requires i < |ev| && |cols| == |ev|
  {
    exists j :: 0 <= j < i && Overlaps(ev[i], ev[j]) && cols[j] == d
  }

  /** What the first pass promises about columns: an event never shares a column with an
    * earlier event it overlaps, and every smaller column is taken by one of them. */
  lemma FirstPassColumns(ev: seq<Event>)
    ensures var l := Pass1(ev, |ev|);
      && (forall i :: 0 <= i < |ev| ==> 0 <= l.cols[i] < l.tots[i])
      && (forall i, j :: 0 <= j < i < |ev| && Overlaps(ev[i], ev[j]) ==> l.cols[i] != l.cols[j])
      && (forall i :: 0 <= i < |ev| ==> forall d :: 0 <= d < l.cols[i] ==> Occupied(ev, l.cols, i, d))
  {
    var l := Pass1(ev, |ev|);
    Pass1InRange(ev, |ev|);
    forall i | 0 <= i < |ev|
      ensures forall j :: 0 <= j < i && Overlaps(ev[i], ev[j]) ==> l.cols[i] != l.cols[j]
      ensures forall d :: 0 <= d < l.cols[i] ==> Occupied(ev, l.cols, i, d)
    {
      ColumnChoice(ev, i);
      UsedColumnsHas(ev, l.cols, i, i);
      forall d | 0 <= d < l.cols[i] ensures Occupied(ev, l.cols, i, d) {
        UsedColumnsFrom(ev, l.cols, i, i, d);
      }
    }
  }

  /** Totals on which `M` is an upper bound. */
  predicate Bounded(tots: seq<int>, M: int) {
    forall j :: 0 <= j < |tots| ==> tots[j] <= M
  }

  /** Every pointwise element of `a` is at most the one of `b`. */
  predicate Below(a: seq<int>, b: seq<int>) {
    |a| == |b| && forall j :: 0 <= j < |a| ==> a[j] <= b[j]
  }

  /** The largest total around an event is one of the totals, so under any bound on them. */
  lemma {:induction false} MaxTotalAroundBounded(ev: seq<Event>, tots: seq<int>, i: nat, k: nat, M: int)
    requires i < |ev| && k <= |ev| && |tots| == |ev| && Bounded(tots, M)
    ensures MaxTotalAround(ev, tots, i, k) <= M
  {
    if k > 0 {
      MaxTotalAroundBounded(ev, tots, i, k - 1, M);
    }
  }

  /** The largest total around an event is at least the total of every event among the
    * first `k` overlapping it. */
  lemma {:induction false} MaxTotalAroundAbove(ev: seq<Event>, tots: seq<int>, i: nat, k: nat)
    requires i < |ev| && k <= |ev| && |tots| == |ev|
    ensures forall j :: 0 <= j < k && Overlaps(ev[i], ev[j]) ==> MaxTotalAround(ev, tots, i, k) >= tots[j]
  {
    if k > 0 {
      MaxTotalAroundAbove(ev, tots, i, k - 1);
    }
  }

  /** The largest total around an event is the least bound on its own total and those
    * of the events overlapping it. */
  lemma {:induction false} MaxTotalAroundLeast(ev: seq<Event>, tots: seq<int>, i: nat, k: nat, B: int)
    requires i < |ev| && k <= |ev| && |tots| == |ev| && tots[i] <= B
    requires forall j :: 0 <= j < k && j != i && Overlaps(ev[i], ev[j]) ==> tots[j] <= B
    ensures MaxTotalAround(ev, tots, i, k) <= B
  {
    if k > 0 {
      MaxTotalAroundLeast(ev, tots, i, k - 1, B);
    }
  }

  /** The final pass only copies totals around, so it never exceeds a bound on them. */
  lemma {:induction false} Pass2Bounded(ev: seq<Event>, l: Layout, k: nat, M: int)
    requires Sized(ev, l) && k <= |ev| && Bounded(l.tots, M)
    ensures Bounded(Pass2(ev, l, k).tots, M)
  {
    if k > 0 {
      Pass2Bounded(ev, l, k - 1, M);
      Pass2Unfold(ev, l, k);
      Pass2StepBounded(ev, Pass2(ev, l, k - 1), k - 1, M);
    }
  }

  /** One round of the final pass keeps a bound on the totals. */
  lemma Pass2StepBounded(ev: seq<Event>, l: Layout, i: nat, M: int)
    requires Sized(ev, l) && i < |ev| && Bounded(l.tots, M)
    ensures Bounded(Pass2Step(ev, l, i).tots, M)
  {
    var m := MaxTotalAround(ev, l.tots, i, |ev|);
    MaxTotalAroundBounded(ev, l.tots, i, |ev|, M);
    SpreadAll(ev, l.tots, i, m);
  }

  /** Totals only grow from one round of the final pass to the next. */
  lemma {:induction false} Pass2Grows(ev: seq<Event>, l: Layout, k: nat, k': nat)
    requires Sized(ev, l) && k <= k' <= |ev|
    ensures Below(Pass2(ev, l, k).tots, Pass2(ev, l, k').tots)
    decreases k'
  {
    forall j | 0 <= j < |ev| ensures Pass2(ev, l, k).tots[j] <= Pass2(ev, l, k').tots[j] {
      Pass2GrowsAt(ev, l, j, k, k');
    }
  }

  /** `Pass2Grows` for one event. */
  lemma {:induction false} Pass2GrowsAt(ev: seq<Event>, l: Layout, j: nat, k: nat, k': nat)
    requires Sized(ev, l) && j < |ev| && k <= k' <= |ev|
    ensures Pass2(ev, l, k).tots[j] <= Pass2(ev, l, k').tots[j]
    decreases k'
  {
    if k' > k {
      Pass2GrowsAt(ev, l, j, k, k' - 1);
      Pass2Unfold(ev, l, k');
      Pass2StepGrows(ev, Pass2(ev, l, k' - 1), k' - 1, j);
    }
  }

  /** A round of the final pass does not lower a total. */
  lemma Pass2StepGrows(ev: seq<Event>, l: Layout, i: nat, j: nat)
    requires Sized(ev, l) && i < |ev| && j < |ev|
    ensures l.tots[j] <= Pass2Step(ev, l, i).tots[j]
  {
    Pass2StepLaws(ev, l, i);
  }

  /** Two overlapping events that disagree on their total make the final pass raise one
    * of them: round `i` gives both the largest total around event `i`, and later rounds
    * only raise totals. */
  lemma DisagreementRaises(ev: seq<Event>, l: Layout, i: nat, j: nat)
    requires Sized(ev, l) && i < |ev| && j < |ev| && Overlaps(ev[i], ev[j]) && l.tots[i] != l.tots[j]
    ensures Pass2(ev, l, |ev|).tots[i] > l.tots[i] || Pass2(ev, l, |ev|).tots[j] > l.tots[j]
  {
    var b, f := Pass2(ev, l, i + 1), Pass2(ev, l, |ev|);
    MeetAbove(ev, l, i, j);
    Pass2GrowsAt(ev, l, i, i + 1, |ev|);
    Pass2GrowsAt(ev, l, j, i + 1, |ev|);
    OneRises(l.tots[i], l.tots[j], b.tots[i], f.tots[i], f.tots[j]);
  }

  /** Two different values raised to one shared value, then raised again. */
  lemma OneRises(a: int, b: int, w: int, fa: int, fb: int)
    requires a != b && w >= a && w >= b && fa >= w && fb >= w
    ensures fa > a || fb > b
  {
  }

  /** After round `i` of the final pass, event `i` and an event overlapping it share a
    * total at least both of theirs before the pass. */
  lemma MeetAbove(ev: seq<Event>, l: Layout, i: nat, j: nat)
    requires Sized(ev, l) && i < |ev| && j < |ev| && Overlaps(ev[i], ev[j])
    ensures var b := Pass2(ev, l, i + 1);
      b.tots[i] == b.tots[j] && b.tots[i] >= l.tots[i] && b.tots[j] >= l.tots[j]
  {
    Pass2GrowsAt(ev, l, i, 0, i);
    Pass2GrowsAt(ev, l, j, 0, i);
    RoundMeets(ev, l, i, j);
  }

  /** Round `i` of the final pass gives event `i` and an event overlapping it the larger
    * of their totals, at least. */
  lemma RoundMeets(ev: seq<Event>, l: Layout, i: nat, j: nat)
    requires Sized(ev, l) && i < |ev| && j < |ev| && Overlaps(ev[i], ev[j])
    ensures var a, b := Pass2(ev, l, i), Pass2(ev, l, i + 1);
      b.tots[i] == b.tots[j] >= a.tots[i] && b.tots[j] >= a.tots[j]
  {
    Pass2Unfold(ev, l, i + 1);
    Pass2StepLaws(ev, Pass2(ev, l, i), i);
  }

  /** What the final pass is meant to achieve: overlapping events share one total. */
  predicate SharedTotals(ev: seq<Event>, tots: seq<int>)
    requires |tots| == |ev|
  {
    forall i, j :: 0 <= i < |ev| && 0 <= j < |ev| && Overlaps(ev[i], ev[j]) ==> tots[i] == tots[j]
  }

  /** While two overlapping events disagree, the final pass changes the totals. */
  lemma NotSharedRaises(ev: seq<Event>, l: Layout)
    requires Sized(ev, l) && !SharedTotals(ev, l.tots)
    ensures Pass2(ev, l, |ev|).tots != l.tots
  {
    var i, j :| 0 <= i < |ev| && 0 <= j < |ev| && Overlaps(ev[i], ev[j]) && l.tots[i] != l.tots[j];
    DisagreementRaises(ev, l, i, j);
  }

  /** Spreading a total over events that already have it changes nothing. */
  lemma SpreadStill(ev: seq<Event>, tots: seq<int>, i: nat)
    requires |tots| == |ev| && i < |ev|
    requires forall j :: 0 <= j < |ev| && Overlaps(ev[i], ev[j]) ==> tots[j] == tots[i]
    ensures Spread(ev, tots, i, tots[i]) == tots
  {
    SpreadAll(ev, tots, i, tots[i]);
  }

  /** Round `k` of the final pass leaves the layout alone when every event overlapping
    * event `k` already has its total. */
  lemma Pass2Still(ev: seq<Event>, l: Layout, k: nat, a: Layout)
    requires Sized(ev, l) && k < |ev| && Pass2(ev, l, k) == a
    requires forall j :: 0 <= j < |ev| && Overlaps(ev[k], ev[j]) ==> a.tots[j] == a.tots[k]
    ensures Pass2(ev, l, k + 1) == a
  {
    MaxTotalAroundLeast(ev, a.tots, k, |ev|, a.tots[k]);
    Pass2Unfold(ev, l, k + 1);
    SpreadStill(ev, a.tots, k);
  }

  /** A round of the final pass over shared totals changes nothing. */
  lemma SharedStill(ev: seq<Event>, l: Layout, k: nat, a: Layout)
    requires Sized(ev, l) && k < |ev| && Pass2(ev, l, k) == a && SharedTotals(ev, a.tots)
    ensures Pass2(ev, l, k + 1) == a
  {
    Pass2Still(ev, l, k, a);
  }

  /** Round `k` of the final pass, from the state `a` the earlier rounds reached. */
  lemma Pass2Round(ev: seq<Event>, l: Layout, k: nat, a: Layout, m: int, t: seq<int>)
    requires Sized(ev, l) && k < |ev| && Pass2(ev, l, k) == a
    requires MaxTotalAround(ev, a.tots, k, |ev|) == m
    requires |t| == |ev| && forall j :: 0 <= j < |ev| ==> t[j] == SpreadValue(ev, a.tots, k, m, j)
    ensures Pass2(ev, l, k + 1) == Layout(a.cols, t)
  {
    Pass2Unfold(ev, l, k + 1);
    SpreadAll(ev, a.tots, k, m);
  }

  /** Once overlapping events share their totals the rest of the final pass changes
    * nothing. */
  lemma {:induction false} SharedStays(ev: seq<Event>, l: Layout, k0: nat, k: nat)
    requires Sized(ev, l) && k0 <= k <= |ev| && SharedTotals(ev, Pass2(ev, l, k0).tots)
    ensures Pass2(ev, l, k) == Pass2(ev, l, k0)
    decreases k
  {
    if k > k0 {
      SharedStays(ev, l, k0, k - 1);
      SharedStill(ev, l, k - 1, Pass2(ev, l, k0));
    }
  }

  /** Round `k` of the final pass is one step after the first `k - 1`. */
  lemma Pass2Unfold(ev: seq<Event>, l: Layout, k: nat)
    requires Sized(ev, l) && 0 < k <= |ev|
    ensures Pass2(ev, l, k) == Pass2Step(ev, Pass2(ev, l, k - 1), k - 1)
  {
  }

  /** Over shared totals the final pass changes nothing. */
  lemma SharedIsFixpoint(ev: seq<Event>, l: Layout, k: nat)
    requires Sized(ev, l) && k <= |ev| && SharedTotals(ev, l.tots)
    ensures Pass2(ev, l, k) == l
  {
    SharedStays(ev, l, 0, k);
  }

  /** How far the totals are, together, from the bound `M`. */
  function Gap(tots: seq<int>, M: int): int {
    if tots == [] then 0 else (M - tots[0]) + Gap(tots[1..], M)
  }

  /** Raising totals under the bound shrinks the gap, strictly unless nothing changed. */
  lemma {:induction false} GapShrinks(a: seq<int>, b: seq<int>, M: int)
    requires Below(a, b) && Bounded(b, M)
    ensures 0 <= Gap(b, M) <= Gap(a, M)
    ensures a != b ==> Gap(b, M) < Gap(a, M)
  {
    if a != [] {
      GapShrinks(a[1..], b[1..], M);
      if a != b {
        assert a[0] != b[0] || a[1..] != b[1..];
      }
    }
  }

  /** The final pass repeated until overlapping events agree; `M` bounds the totals. */
  function Settle(ev: seq<Event>, l: Layout, M: int): (r: Layout)
    requires Sized(ev, l) && Bounded(l.tots, M)
    ensures Sized(ev, r) && r.cols == l.cols
    ensures Below(l.tots, r.tots) && Bounded(r.tots, M)
    ensures SharedTotals(ev, r.tots)
    decreases Gap(l.tots, M)
  {
    if SharedTotals(ev, l.tots) then l
    else
      var next := Pass2(ev, l, |ev|);
      Pass2Grows(ev, l, 0, |ev|);
      NotSharedRaises(ev, l);
      Pass2Bounded(ev, l, |ev|, M);
      GapShrinks(l.tots, next.tots, M);
      Settle(ev, next, M)
  }

  /** The evidently intended layout: the first pass, then the final pass until every two
    * overlapping events agree on their total. */
  function LayoutCorrected(ev: seq<Event>): (r: Layout)
    ensures Sized(ev, r)
  {
    var first := Pass1(ev, |ev|);
    assert forall j :: 0 <= j < |first.tots| ==> first.tots[j] in first.tots;
    Settle(ev, first, MaxWith(1, first.tots))
  }

  /** The corrected layout starts from the first pass with a bound on its totals. */
  lemma CorrectedUnfold(ev: seq<Event>)
    ensures var first := Pass1(ev, |ev|);
      Bounded(first.tots, MaxWith(1, first.tots)) &&
      LayoutCorrected(ev) == Settle(ev, first, MaxWith(1, first.tots))
  {
    var first := Pass1(ev, |ev|);
    assert forall j :: 0 <= j < |first.tots| ==> first.tots[j] in first.tots;
  }

  /** The corrected totals are at least those of the code as written. */
  lemma CorrectedAbove(ev: seq<Event>)
    ensures Below(LayoutAsWritten(ev).tots, LayoutCorrected(ev).tots)
  {
    var first := Pass1(ev, |ev|);
    var M := MaxWith(1, first.tots);
    CorrectedUnfold(ev);
    if SharedTotals(ev, first.tots) {
      SharedIsFixpoint(ev, first, |ev|);
    } else {
      Pass2Bounded(ev, first, |ev|, M);
      assert Settle(ev, first, M) == Settle(ev, Pass2(ev, first, |ev|), M);
    }
  }

  /** The corrected layout keeps the columns of the first pass and gives every two
    * overlapping events one total above both their columns; it never draws an event
    * narrower than the code as written does. */
  lemma LayoutCorrectedLaws(ev: seq<Event>)
    ensures var l := LayoutCorrected(ev);
      && l.cols == Pass1(ev, |ev|).cols == LayoutAsWritten(ev).cols
      && (forall i :: 0 <= i < |ev| ==> 0 <= l.cols[i] < l.tots[i])
      && SharedTotals(ev, l.tots)
      && (forall i, j :: 0 <= i < |ev| && 0 <= j < |ev| && i != j && Overlaps(ev[i], ev[j]) ==> l.cols[i] != l.cols[j])
      && Below(LayoutAsWritten(ev).tots, l.tots)
  {
    var first := Pass1(ev, |ev|);
    var l := LayoutCorrected(ev);
    CorrectedUnfold(ev);
    CorrectedAbove(ev);
    assert l.cols == first.cols && Below(first.tots, l.tots);
    FirstPassColumns(ev);
    forall i, j | 0 <= i < |ev| && 0 <= j < |ev| && i != j && Overlaps(ev[i], ev[j])
      ensures l.cols[i] != l.cols[j]
    {
      OverlapSymmetric(ev[i], ev[j]);
    }
  }

  /** The code as written keeps the columns of the first pass, so overlapping events never
    * share a column, and it only raises totals, so each column stays below its total. */
  lemma LayoutAsWrittenLaws(ev: seq<Event>)
    ensures var l := LayoutAsWritten(ev);
      && l.cols == Pass1(ev, |ev|).cols
      && (forall i :: 0 <= i < |ev| ==> 0 <= l.cols[i] < l.tots[i])
      && (forall i, j :: 0 <= i < |ev| && 0 <= j < |ev| && i != j && Overlaps(ev[i], ev[j]) ==> l.cols[i] != l.cols[j])
      && Below(Pass1(ev, |ev|).tots, l.tots)
  {
    var first := Pass1(ev, |ev|);
    var l := LayoutAsWritten(ev);
    Pass2Grows(ev, first, 0, |ev|);
    FirstPassColumns(ev);
    forall i, j | 0 <= i < |ev| && 0 <= j < |ev| && i != j && Overlaps(ev[i], ev[j])
      ensures l.cols[i] != l.cols[j]
    {
      OverlapSymmetric(ev[i], ev[j]);
    }
  }

  /** Where the code as written already gives overlapping events one total, the
    * correction changes nothing. */
  lemma CorrectionKeepsSharedLayouts(ev: seq<Event>)
    requires SharedTotals(ev, LayoutAsWritten(ev).tots)
    ensures LayoutCorrected(ev) == LayoutAsWritten(ev)
  {
    var first := Pass1(ev, |ev|);
    var M := MaxWith(1, first.tots);
    CorrectedUnfold(ev);
    if SharedTotals(ev, first.tots) {
      SharedIsFixpoint(ev, first, |ev|);
    } else {
      var w := Pass2(ev, first, |ev|);
      Pass2Bounded(ev, first, |ev|, M);
      assert Settle(ev, first, M) == Settle(ev, w, M);
      assert Settle(ev, w, M) == w;
    }
  }

  /** The horizontal extent of an event, in percent of the day column. */
  datatype Box = Box(left: real, width: real)

  /** `width = 100 / totalColumns; left = column * width`. */
  function EventBox(column: int, totalColumns: int): Box
    requires totalColumns > 0
  {
    var width := 100.0 / totalColumns as real;
    Box(column as real * width, width)
  }

  /** A column below its total lies inside the day column. */
  lemma BoxInside(column: int, totalColumns: int)
    requires 0 <= column < totalColumns
    ensures var b := EventBox(column, totalColumns);
      0.0 <= b.left && b.left + b.width <= 100.0
  {
    var w := 100.0 / totalColumns as real;
    assert w * totalColumns as real == 100.0;
    assert (column + 1) as real * w <= totalColumns as real * w;
  }

  lemma ScaleLe(a: real, b: real, w: real)
    requires a <= b && w > 0.0
    ensures a * w <= b * w
  {
    assert b * w - a * w == (b - a) * w;
  }

  /** Two different columns of the same total do not overlap on screen. */
  lemma BoxesApart(c1: int, c2: int, totalColumns: int)
    requires 0 <= c1 < totalColumns && 0 <= c2 < totalColumns && c1 != c2
    ensures var a, b := EventBox(c1, totalColumns), EventBox(c2, totalColumns);
      a.left + a.width <= b.left || b.left + b.width <= a.left
  {
    var w := 100.0 / totalColumns as real;
    assert EventBox(c1, totalColumns) == Box(c1 as real * w, w);
    assert EventBox(c2, totalColumns) == Box(c2 as real * w, w);
    if c1 < c2 {
      ScaleLe((c1 + 1) as real, c2 as real, w);
      assert (c1 + 1) as real * w == c1 as real * w + w;
    } else {
      ScaleLe((c2 + 1) as real, c1 as real, w);
      assert (c2 + 1) as real * w == c2 as real * w + w;
    }
  }

  /** Two boxes that share some width are drawn over each other. */
  predicate BoxesMeet(a: Box, b: Box) {
    a.left < b.left + b.width && b.left < a.left + a.width
  }

  /** With the corrected layout, overlapping interventions are drawn side by side, each
    * inside the day column. */
  lemma CorrectedBoxesApart(ev: seq<Event>, i: nat, j: nat)
    requires i < |ev| && j < |ev| && i != j && Overlaps(ev[i], ev[j])
    ensures var l := LayoutCorrected(ev);
      && l.tots[i] > 0 && l.tots[j] > 0
      && !BoxesMeet(EventBox(l.cols[i], l.tots[i]), EventBox(l.cols[j], l.tots[j]))
      && 0.0 <= EventBox(l.cols[i], l.tots[i]).left
      && EventBox(l.cols[i], l.tots[i]).left + EventBox(l.cols[i], l.tots[i]).width <= 100.0
  {
    var l := LayoutCorrected(ev);
    LayoutCorrectedLaws(ev);
    BoxesApart(l.cols[i], l.cols[j], l.tots[i]);
    BoxInside(l.cols[i], l.tots[i]);
  }

  /** 09:00-10:00, 09:30-10:30 and 10:00-11:00: the middle one overlaps both others,
    * which only touch. */
  function ChainOfThree(x: Intervention): seq<Event> {
    [Event(x, 540, 600), Event(x, 570, 630), Event(x, 600, 660)]
  }

  /** The chain of three takes two columns, the outer events sharing column 0, and all
    * three are drawn half as wide; the correction agrees. */
  lemma ChainOfThreeLayout(x: Intervention)
    ensures LayoutAsWritten(ChainOfThree(x)) == Layout([0, 1, 0], [2, 2, 2])
    ensures LayoutCorrected(ChainOfThree(x)) == Layout([0, 1, 0], [2, 2, 2])
  {
    var ev := ChainOfThree(x);
    var l0, l2 := Layout([0, 0, 0], [1, 1, 1]), Layout([0, 1, 0], [2, 2, 1]);
    var l3 := Layout([0, 1, 0], [2, 2, 2]);
    assert Pass1(ev, 0) == l0;
    Pass1Round(ev, 0, l0, [], 0, 1, l0);
    assert UsedColumns(ev, l0.cols, 1, 1) == [0];
    Pass1Round(ev, 1, l0, [0], 1, 2, l2);
    assert UsedColumns(ev, l2.cols, 2, 1) == [];
    assert UsedColumns(ev, l2.cols, 2, 2) == [1];
    Pass1Round(ev, 2, l2, [1], 0, 2, l3);
    assert SharedTotals(ev, l3.tots);
    SharedIsFixpoint(ev, l3, 3);
    CorrectionKeepsSharedLayouts(ev);
  }

  /** 09:00-09:30, 09:00-10:00, 09:30-10:30, 10:00-11:00, 10:30-11:00 and 10:30-11:30,
    * already in start order. */
  function StaggeredMorning(x: Intervention): seq<Event> {
    [Event(x, 540, 570), Event(x, 540, 600), Event(x, 570, 630),
     Event(x, 600, 660), Event(x, 630, 660), Event(x, 630, 690)]
  }

  /** The first two rounds of the first pass over the staggered morning. */
  lemma StaggeredRounds2(x: Intervention)
    ensures Pass1(StaggeredMorning(x), 2) == Layout([0, 1, 0, 0, 0, 0], [2, 2, 1, 1, 1, 1])
  {
    var ev := StaggeredMorning(x);
    var l0 := Layout([0, 0, 0, 0, 0, 0], [1, 1, 1, 1, 1, 1]);
    assert Pass1(ev, 0) == l0;
    Pass1Round(ev, 0, l0, [], 0, 1, l0);
    assert UsedColumns(ev, l0.cols, 1, 1) == [0];
    Pass1Round(ev, 1, l0, [0], 1, 2, Layout([0, 1, 0, 0, 0, 0], [2, 2, 1, 1, 1, 1]));
  }

  /** Round three. */
  lemma StaggeredRounds3(x: Intervention)
    ensures Pass1(StaggeredMorning(x), 3) == Layout([0, 1, 0, 0, 0, 0], [2, 2, 2, 1, 1, 1])
  {
    var ev := StaggeredMorning(x);
    var a := Layout([0, 1, 0, 0, 0, 0], [2, 2, 1, 1, 1, 1]);
    StaggeredRounds2(x);
    assert UsedColumns(ev, a.cols, 2, 1) == [];
    assert UsedColumns(ev, a.cols, 2, 2) == [1];
    Pass1Round(ev, 2, a, [1], 0, 2, Layout([0, 1, 0, 0, 0, 0], [2, 2, 2, 1, 1, 1]));
  }

  /** Round four. */
  lemma StaggeredRounds4(x: Intervention)
    ensures Pass1(StaggeredMorning(x), 4) == Layout([0, 1, 0, 1, 0, 0], [2, 2, 2, 2, 1, 1])
  {
    var ev := StaggeredMorning(x);
    var a := Layout([0, 1, 0, 0, 0, 0], [2, 2, 2, 1, 1, 1]);
    StaggeredRounds3(x);
    assert UsedColumns(ev, a.cols, 3, 2) == [];
    assert UsedColumns(ev, a.cols, 3, 3) == [0];
    Pass1Round(ev, 3, a, [0], 1, 2, Layout([0, 1, 0, 1, 0, 0], [2, 2, 2, 2, 1, 1]));
  }

  /** Round five. */
  lemma StaggeredRounds5(x: Intervention)
    ensures Pass1(StaggeredMorning(x), 5) == Layout([0, 1, 0, 1, 0, 0], [2, 2, 2, 2, 2, 1])
  {
    var ev := StaggeredMorning(x);
    var a := Layout([0, 1, 0, 1, 0, 0], [2, 2, 2, 2, 1, 1]);
    StaggeredRounds4(x);
    assert UsedColumns(ev, a.cols, 4, 2) == [];
    assert UsedColumns(ev, a.cols, 4, 3) == [];
    assert UsedColumns(ev, a.cols, 4, 4) == [1];
    Pass1Round(ev, 4, a, [1], 0, 2, Layout([0, 1, 0, 1, 0, 0], [2, 2, 2, 2, 2, 1]));
  }

  /** The first pass over the staggered morning. */
  lemma StaggeredFirstPass(x: Intervention)
    ensures Pass1(StaggeredMorning(x), 6) == Layout([0, 1, 0, 1, 0, 2], [2, 2, 2, 3, 3, 3])
  {
    var ev := StaggeredMorning(x);
    var a := Layout([0, 1, 0, 1, 0, 0], [2, 2, 2, 2, 2, 1]);
    StaggeredRounds5(x);
    assert UsedColumns(ev, a.cols, 5, 2) == [];
    assert UsedColumns(ev, a.cols, 5, 3) == [];
    assert UsedColumns(ev, a.cols, 5, 4) == [1];
    assert UsedColumns(ev, a.cols, 5, 5) == [1, 0];
    assert FirstFree([1, 0], 0) == 2;
    Pass1Round(ev, 5, a, [1, 0], 2, 3, Layout([0, 1, 0, 1, 0, 2], [2, 2, 2, 3, 3, 3]));
  }

  /** The first three rounds of the final pass over the staggered morning. */
  lemma StaggeredFinalRounds3(x: Intervention)
    ensures var l := Layout([0, 1, 0, 1, 0, 2], [2, 2, 2, 3, 3, 3]);
      Pass2(StaggeredMorning(x), l, 3) == Layout(l.cols, [2, 3, 3, 3, 3, 3])
  {
    var ev := StaggeredMorning(x);
    var l := Layout([0, 1, 0, 1, 0, 2], [2, 2, 2, 3, 3, 3]);
    Pass2Still(ev, l, 0, l);
    Pass2Still(ev, l, 1, l);
    assert MaxTotalAround(ev, l.tots, 2, 6) == 3 by {
      MaxTotalAroundLeast(ev, l.tots, 2, 6, 3);
      MaxTotalAroundAbove(ev, l.tots, 2, 6);
      assert Overlaps(ev[2], ev[3]);
    }
    Pass2Round(ev, l, 2, l, 3, [2, 3, 3, 3, 3, 3]);
  }

  /** The final pass as written over the staggered morning: the first event is settled
    * at a total of 2 before the third event raises its neighbour to 3. */
  lemma StaggeredFinalPass(x: Intervention)
    ensures LayoutAsWritten(StaggeredMorning(x)) == Layout([0, 1, 0, 1, 0, 2], [2, 3, 3, 3, 3, 3])
  {
    var ev := StaggeredMorning(x);
    var l := Layout([0, 1, 0, 1, 0, 2], [2, 2, 2, 3, 3, 3]);
    var r := Layout(l.cols, [2, 3, 3, 3, 3, 3]);
    StaggeredFirstPass(x);
    StaggeredFinalRounds3(x);
    Pass2Still(ev, l, 3, r);
    Pass2Still(ev, l, 4, r);
    Pass2Still(ev, l, 5, r);
  }

  /** The code as written draws two overlapping interventions over each other: 09:00-09:30
    * gets the left half of the column, 09:00-10:00 the middle third. */
  lemma AsWrittenDrawsOverlap(x: Intervention)
    ensures var ev, l := StaggeredMorning(x), LayoutAsWritten(StaggeredMorning(x));
      && Overlaps(ev[0], ev[1])
      && l.tots[0] != l.tots[1]
      && !SharedTotals(ev, l.tots)
      && l.tots[0] > 0 && l.tots[1] > 0
      && BoxesMeet(EventBox(l.cols[0], l.tots[0]), EventBox(l.cols[1], l.tots[1]))
  {
    StaggeredFinalPass(x);
    assert EventBox(0, 2) == Box(0.0, 50.0);
    assert EventBox(1, 3) == Box(100.0 / 3.0, 100.0 / 3.0);
  }

  /** A second sweep of the final pass over the staggered morning gives every event a
    * third of the column. */
  lemma StaggeredSecondSweep(x: Intervention)
    ensures var cols := [0, 1, 0, 1, 0, 2];
      Pass2(StaggeredMorning(x), Layout(cols, [2, 3, 3, 3, 3, 3]), 6) == Layout(cols, [3, 3, 3, 3, 3, 3])
  {
    var ev := StaggeredMorning(x);
    var w := Layout([0, 1, 0, 1, 0, 2], [2, 3, 3, 3, 3, 3]);
    var r := Layout(w.cols, [3, 3, 3, 3, 3, 3]);
    assert MaxTotalAround(ev, w.tots, 0, 6) == 3 by {
      MaxTotalAroundLeast(ev, w.tots, 0, 6, 3);
      MaxTotalAroundAbove(ev, w.tots, 0, 6);
      assert Overlaps(ev[0], ev[1]);
    }
    Pass2Round(ev, w, 0, w, 3, r.tots);
    StaggeredThirdsShared(x);
    SharedStays(ev, w, 1, 6);
  }

  /** Settling totals that overlapping events already share changes nothing. */
  lemma SettleDone(ev: seq<Event>, l: Layout, M: int)
    requires Sized(ev, l) && Bounded(l.tots, M) && SharedTotals(ev, l.tots)
    ensures Settle(ev, l, M) == l
  {
  }

  /** While overlapping events disagree, settling runs the final pass once more. */
  lemma SettleStep(ev: seq<Event>, l: Layout, M: int)
    requires Sized(ev, l) && Bounded(l.tots, M) && !SharedTotals(ev, l.tots)
    ensures Bounded(Pass2(ev, l, |ev|).tots, M)
    ensures Settle(ev, l, M) == Settle(ev, Pass2(ev, l, |ev|), M)
  {
    Pass2Bounded(ev, l, |ev|, M);
  }

  /** Equal totals are shared. */
  lemma SameTotalsShared(ev: seq<Event>, tots: seq<int>, m: int)
    requires |tots| == |ev| && forall j :: 0 <= j < |tots| ==> tots[j] == m
    ensures SharedTotals(ev, tots)
  {
  }

  /** Every event of the staggered morning with a third of the column. */
  lemma StaggeredThirdsShared(x: Intervention)
    ensures SharedTotals(StaggeredMorning(x), [3, 3, 3, 3, 3, 3])
  {
    SameTotalsShared(StaggeredMorning(x), [3, 3, 3, 3, 3, 3], 3);
  }

  /** After the first pass and after one final pass, some two overlapping events of the
    * staggered morning still disagree. */
  lemma StaggeredNotShared(x: Intervention)
    ensures !SharedTotals(StaggeredMorning(x), [2, 2, 2, 3, 3, 3])
    ensures !SharedTotals(StaggeredMorning(x), [2, 3, 3, 3, 3, 3])
  {
    var ev := StaggeredMorning(x);
    assert Overlaps(ev[2], ev[3]);
    assert Overlaps(ev[0], ev[1]);
  }

  /** The corrected layout gives the whole staggered morning thirds of the column. */
  lemma CorrectedStaggeredMorning(x: Intervention)
    ensures LayoutCorrected(StaggeredMorning(x)) == Layout([0, 1, 0, 1, 0, 2], [3, 3, 3, 3, 3, 3])
  {
    var ev := StaggeredMorning(x);
    var first := Layout([0, 1, 0, 1, 0, 2], [2, 2, 2, 3, 3, 3]);
    var w := Layout(first.cols, [2, 3, 3, 3, 3, 3]);
    var r := Layout(first.cols, [3, 3, 3, 3, 3, 3]);
    StaggeredFirstPass(x);
    CorrectedUnfold(ev);
    assert MaxWith(1, [2, 2, 2, 3, 3, 3]) == 3;
    StaggeredNotShared(x);
    SettleStep(ev, first, 3);
    StaggeredFinalPass(x);
    SettleStep(ev, w, 3);
    StaggeredSecondSweep(x);
    StaggeredThirdsShared(x);
    SettleDone(ev, r, 3);
  }
}
