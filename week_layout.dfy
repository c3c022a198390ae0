/** `getEventColumns` of the week view as the program runs it: the events are laid out
  * in place, their `column` and `totalColumns` fields held in two arrays indexed like
  * the sorted events. */
module WeekLayout {
  import opened Wrappers
  import opened Types
  import opened Time
  import opened WeekView

  /** Every start and end time reads as minutes since midnight. */
  predicate TimesRead(interventions: seq<Intervention>) {
    forall k :: 0 <= k < |interventions| ==>
      TimeToMinutes(interventions[k].startTime).Some? && TimeToMinutes(interventions[k].endTime).Some?
  }

  /** `interventions.map(...)`: each intervention with its start and end in minutes. */
  function ToEvents(interventions: seq<Intervention>): (ev: seq<Event>)
    requires TimesRead(interventions)
    ensures |ev| == |interventions|
    ensures forall k :: 0 <= k < |ev| ==>
      && ev[k].intervention == interventions[k]
      && TimeToMinutes(interventions[k].startTime) == Some(ev[k].startMinutes)
      && TimeToMinutes(interventions[k].endTime) == Some(ev[k].endMinutes)
  {
    seq(|interventions|, k requires 0 <= k < |interventions| =>
      Event(interventions[k],
            TimeToMinutes(interventions[k].startTime).value,
            TimeToMinutes(interventions[k].endTime).value))
  }

  /** Round `i` of the first loop: the first free column, then the total it implies on
    * event `i` and on the earlier events overlapping it. */
  method AssignColumn(ev: seq<Event>, column: array<int>, total: array<int>, i: nat)
    requires column.Length == |ev| && total.Length == |ev| && column != total && i < |ev|
    modifies column, total
    ensures Layout(column[..], total[..]) == Pass1Step(ev, Layout(old(column[..]), old(total[..])), i)
  {
    var before := Layout(column[..], total[..]);
    var used := UsedColumns(ev, column[..], i, i);
    var c := 0;
    while c in used
      invariant forall d :: 0 <= d < c ==> d in used
      invariant column[..] == before.cols && total[..] == before.tots
      decreases |used| - c
    {
      Pigeonhole(used, c + 1);
      c := c + 1;
    }
    assert FirstFree(used, 0) == c;
    column[i] := c;
    var t := MaxWith(c, used) + 1;
    total[i] := t;
    for j := 0 to i
      invariant column[..] == before.cols[i := c]
      invariant forall k :: 0 <= k < |ev| ==>
        total[k] == if k == i then t
                    else if k < j && Overlaps(ev[i], ev[k]) then Max(before.tots[k], t)
                    else before.tots[k]
    {
      if Overlaps(ev[i], ev[j]) {
        total[j] := Max(total[j], t);
      }
    }
    RaisedAll(ev, before.tots, i, t);
    assert total[..] == Raised(ev, before.tots, i, t);
  }

  /** The first loop of `getEventColumns`, from every event in column 0 of 1. */
  method AssignColumns(ev: seq<Event>, column: array<int>, total: array<int>)
    requires column.Length == |ev| && total.Length == |ev| && column != total
    requires column[..] == Initial(|ev|).cols && total[..] == Initial(|ev|).tots
    modifies column, total
    ensures Layout(column[..], total[..]) == Pass1(ev, |ev|)
  {
    assert Layout(column[..], total[..]) == Pass1(ev, 0);
    for i := 0 to |ev|
      invariant Layout(column[..], total[..]) == Pass1(ev, i)
    {
      AssignColumn(ev, column, total, i);
    }
  }

  /** Round `i` of the final loop: event `i` and every event overlapping it get the
    * largest of their totals. */
  method ShareTotal(ev: seq<Event>, total: array<int>, i: nat)
    requires total.Length == |ev| && i < |ev|
    modifies total
    ensures total[..] == Spread(ev, old(total[..]), i, MaxTotalAround(ev, old(total[..]), i, |ev|))
  {
    var before := total[..];
    var m := MaxTotalAround(ev, total[..], i, |ev|);
    total[i] := m;
    for j := 0 to |ev|
      invariant forall k :: 0 <= k < |ev| ==>
        total[k] == if k == i || (k < j && Overlaps(ev[i], ev[k])) then m else before[k]
    {
      if j != i && Overlaps(ev[i], ev[j]) {
        total[j] := m;
      }
    }
    SpreadAll(ev, before, i, m);
    assert total[..] == Spread(ev, before, i, m);
  }

  /** The final loop of `getEventColumns`. */
  method ShareTotals(ev: seq<Event>, cols: seq<int>, total: array<int>)
    requires total.Length == |ev| && |cols| == |ev|
    modifies total
    ensures Layout(cols, total[..]) == Pass2(ev, Layout(cols, old(total[..])), |ev|)
  {
    ghost var start := Layout(cols, total[..]);
    for i := 0 to |ev|
      invariant Layout(cols, total[..]) == Pass2(ev, start, i)
    {
      ShareTotal(ev, total, i);
    }
  }

  /** The final loop repeated until every two overlapping events agree on their total;
    * `M` bounds the totals. */
  method SettleTotals(ev: seq<Event>, cols: seq<int>, total: array<int>, ghost M: int)
    requires total.Length == |ev| && |cols| == |ev| && Bounded(total[..], M)
    modifies total
    ensures Layout(cols, total[..]) == Settle(ev, Layout(cols, old(total[..])), M)
  {
    ghost var start := Layout(cols, total[..]);
    while !SharedTotals(ev, total[..])
      invariant Bounded(total[..], M)
      invariant Settle(ev, Layout(cols, total[..]), M) == Settle(ev, start, M)
      decreases Gap(total[..], M)
    {
      ghost var l := Layout(cols, total[..]);
      ShareTotals(ev, cols, total);
      SettleStep(ev, l, M);
      NotSharedRaises(ev, l);
      Pass2Grows(ev, l, 0, |ev|);
      GapShrinks(l.tots, total[..], M);
    }
  }

  /** `getEventColumns` as written: the interventions in start order with the column
    * and the total of each. */
  method GetEventColumnsAsWritten(interventions: seq<Intervention>) returns (events: seq<Event>, layout: Layout)
    requires TimesRead(interventions)
    ensures events == SortedEvents(ToEvents(interventions))
    ensures layout == LayoutAsWritten(events)
  {
    events := SortedEvents(ToEvents(interventions));
    if |interventions| == 0 {
      return events, Layout([], []);
    }
    var column := new int[|events|](_ => 0);
    var total := new int[|events|](_ => 1);
    assert column[..] == Initial(|events|).cols && total[..] == Initial(|events|).tots;
    AssignColumns(events, column, total);
    ShareTotals(events, column[..], total);
    layout := Layout(column[..], total[..]);
  }

  /** `getEventColumns` with the final loop repeated until every two overlapping events
    * agree on their total. */
  method GetEventColumns(interventions: seq<Intervention>) returns (events: seq<Event>, layout: Layout)
    requires TimesRead(interventions)
    ensures events == SortedEvents(ToEvents(interventions))
    ensures layout == LayoutCorrected(events)
  {
    events := SortedEvents(ToEvents(interventions));
    if |interventions| == 0 {
      return events, Layout([], []);
    }
    var column := new int[|events|](_ => 0);
    var total := new int[|events|](_ => 1);
    assert column[..] == Initial(|events|).cols && total[..] == Initial(|events|).tots;
    AssignColumns(events, column, total);
    CorrectedUnfold(events);
    SettleTotals(events, column[..], total, MaxWith(1, total[..]));
    layout := Layout(column[..], total[..]);
  }
}
