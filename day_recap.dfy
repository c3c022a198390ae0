/** The day recap panel: the interventions of one day grouped by technician, an optional
  * single-technician selection, and the placement of each intervention on a printable
  * hour grid. */
module DayRecap {
  import opened Wrappers
  import opened Seqs
  import opened Text
  import opened Tables
  import opened Types
  import Time
  import Technicians
  import Interventions
  import TechnicianWeekView

  /** The grid starts at 06:00 and draws 40 pixels per hour; no block is drawn shorter
    * than 16 pixels. */
  const GridStartHour: int := 6
  const HourHeight: int := 40
  const MinBlockHeight: int := 16

  /** `allInterventions`: nothing while no date is set (null or the empty string),
    * otherwise the interventions of that date in time order. */
  function DayInterventions(t: Table<Intervention>, date: Option<string>): (r: seq<Intervention>)
    requires t.Valid()
    ensures forall x :: x in r <==> date.Some? && date.value != [] && x in t.Values() && x.date == date.value
    ensures date.None? || date.value == [] ==> r == []
    ensures date.Some? && date.value != [] ==> r == Interventions.ByDate(t, date.value)
    ensures SortedBy(r, Interventions.InterventionLe)
  {
    if date.None? || date.value == [] then [] else Interventions.ByDate(t, date.value)
  }

  /** `set.add(id)` on a set that remembers insertion order. */
  function Added(acc: seq<Id>, id: Id): seq<Id> {
    if id in acc then acc else acc + [id]
  }

  /** The ids of `ids` added one after the other. */
  function AddedAll(acc: seq<Id>, ids: seq<Id>): seq<Id>
    decreases |ids|
  {
    if ids == [] then acc else Added(AddedAll(acc, ids[..|ids| - 1]), ids[|ids| - 1])
  }

  /** The technician ids of the day's interventions, each once, in order of first
    * appearance: the contents of the `techIds` set. */
  function DayIds(day: seq<Intervention>): seq<Id>
    decreases |day|
  {
    if day == [] then [] else AddedAll(DayIds(day[..|day| - 1]), day[|day| - 1].technicianIds)
  }

  /** Adding ids keeps the ids already there, in place, adds each new one once, and adds
    * nothing else. */
  lemma {:induction false} AddedAllLaws(acc: seq<Id>, ids: seq<Id>)
    requires NoDuplicates(acc)
    ensures NoDuplicates(AddedAll(acc, ids))
    ensures acc <= AddedAll(acc, ids)
    ensures forall y :: y in AddedAll(acc, ids) <==> y in acc || y in ids
    decreases |ids|
  {
    if ids != [] {
      var init := ids[..|ids| - 1];
      AddedAllLaws(acc, init);
      assert ids == init + [ids[|ids| - 1]];
    }
  }

  /** Every technician of every intervention of the day is listed, once, and no one else. */
  lemma {:induction false} DayIdsLaws(day: seq<Intervention>)
    ensures NoDuplicates(DayIds(day))
    ensures forall y :: y in DayIds(day) <==> exists k :: 0 <= k < |day| && y in day[k].technicianIds
    decreases |day|
  {
    if day != [] {
      var init := day[..|day| - 1];
      DayIdsLaws(init);
      AddedAllLaws(DayIds(init), day[|day| - 1].technicianIds);
      forall y ensures y in DayIds(day) <==> exists k :: 0 <= k < |day| && y in day[k].technicianIds {
        if y in DayIds(init) {
          var k :| 0 <= k < |init| && y in init[k].technicianIds;
          assert day[k] == init[k];
        }
        if exists k :: 0 <= k < |day| && y in day[k].technicianIds {
          var k :| 0 <= k < |day| && y in day[k].technicianIds;
          if k < |day| - 1 {
            assert init[k] == day[k];
          }
        }
      }
    }
  }

  /** The nested `forEach` that fills the `techIds` set. */
  method CollectTechnicianIds(day: seq<Intervention>) returns (ids: seq<Id>)
    ensures ids == DayIds(day)
    ensures NoDuplicates(ids)
    ensures forall y :: y in ids <==> exists k :: 0 <= k < |day| && y in day[k].technicianIds
  {
    ids := [];
    for k := 0 to |day|
      invariant ids == DayIds(day[..k])
    {
      var team := day[k].technicianIds;
      ghost var start := ids;
      for j := 0 to |team|
        invariant ids == AddedAll(start, team[..j])
      {
        assert team[..j + 1][..j] == team[..j];
        if team[j] !in ids {
          ids := ids + [team[j]];
        }
      }
      assert team[..|team|] == team;
      assert day[..k + 1][..k] == day[..k];
    }
    assert day[..|day|] == day;
    DayIdsLaws(day);
  }

  /** `getTechnicianById` of each id, the unknown ones dropped. */
  function Known(techs: Table<Technician>, ids: seq<Id>): seq<Technician> {
    if ids == [] then []
    else (if ids[0] in techs.entries then [techs.entries[ids[0]]] else []) + Known(techs, ids[1..])
  }

  /** The technicians found are exactly those stored under one of the ids; from distinct
    * ids of a table whose entries carry their own key, no technician is found twice. */
  lemma {:induction false} KnownLaws(techs: Table<Technician>, ids: seq<Id>)
    ensures forall x :: x in Known(techs, ids) <==> exists id :: id in ids && id in techs.entries && techs.entries[id] == x
    ensures Technicians.WellKeyed(techs) && NoDuplicates(ids) ==> NoDuplicates(Known(techs, ids))
  {
    if ids != [] {
      KnownLaws(techs, ids[1..]);
      var rest := Known(techs, ids[1..]);
      var head := if ids[0] in techs.entries then [techs.entries[ids[0]]] else [];
      assert Known(techs, ids) == head + rest;
      forall x ensures x in Known(techs, ids) <==> exists id :: id in ids && id in techs.entries && techs.entries[id] == x {
        if exists id :: id in ids && id in techs.entries && techs.entries[id] == x {
          var id :| id in ids && id in techs.entries && techs.entries[id] == x;
          if id != ids[0] {
            assert id in ids[1..];
          }
        }
      }
      if Technicians.WellKeyed(techs) && NoDuplicates(ids) && head != [] {
        assert NoDuplicates(ids[1..]) by {
          forall i, j | 0 <= i < j < |ids[1..]| ensures ids[1..][i] != ids[1..][j] {
            assert ids[1..][i] == ids[i + 1] && ids[1..][j] == ids[j + 1];
          }
        }
        assert head[0] !in rest by {
          forall y | y in rest ensures y != head[0] {
            var id :| id in ids[1..] && id in techs.entries && techs.entries[id] == y;
            var k :| 0 <= k < |ids[1..]| && ids[1..][k] == id;
            assert ids[k + 1] == id;
          }
        }
        var r := head + rest;
        forall i, j | 0 <= i < j < |r| ensures r[i] != r[j] {
          if i == 0 {
            assert r[j] == rest[j - 1];
          } else {
            assert r[i] == rest[i - 1] && r[j] == rest[j - 1];
          }
        }
      }
    }
  }

  /** `(a, b) => a.name.localeCompare(b.name)`, as "a may come before b". */
  predicate NameLe(a: Technician, b: Technician) {
    LexLe(a.name, b.name)
  }

  lemma NameLeTotal()
    ensures TotalPreorder(NameLe)
  {
    LexLeTotalOrder();
  }

  /** `techniciansInDay`: the known technicians of the day's interventions, by name. */
  function TechniciansInDay(techs: Table<Technician>, day: seq<Intervention>): (r: seq<Technician>)
    ensures multiset(r) == multiset(Known(techs, DayIds(day)))
    ensures SortedBy(r, NameLe)
  {
    NameLeTotal();
    SortBySorted(Known(techs, DayIds(day)), NameLe);
    SortBy(Known(techs, DayIds(day)), NameLe)
  }

  /** In a table whose entries carry their own key, the technicians of the day are the
    * stored technicians named by some intervention of the day, each listed once. */
  lemma TechniciansInDayLaws(techs: Table<Technician>, day: seq<Intervention>)
    requires Technicians.WellKeyed(techs)
    ensures forall x :: x in TechniciansInDay(techs, day) <==>
      x in techs.Values() && exists k :: 0 <= k < |day| && x.id in day[k].technicianIds
    ensures NoDuplicates(TechniciansInDay(techs, day))
  {
    var ids := DayIds(day);
    var r := TechniciansInDay(techs, day);
    DayIdsLaws(day);
    KnownLaws(techs, ids);
    forall x ensures x in r <==> x in techs.Values() && exists k :: 0 <= k < |day| && x.id in day[k].technicianIds {
      assert x in r <==> x in multiset(Known(techs, ids));
      if x in techs.Values() {
        var i :| 0 <= i < |techs.order| && techs.Values()[i] == x;
        assert techs.order[i] in techs.order;
      }
      if x in Known(techs, ids) {
        var id :| id in ids && id in techs.entries && techs.entries[id] == x;
        var i :| 0 <= i < |techs.order| && techs.order[i] == id;
        assert techs.Values()[i] == x;
      }
    }
    DistinctPermutation(Known(techs, ids), r);
  }

  /** A permutation of a sequence without repeats has none either. */
  lemma DistinctPermutation<T>(s: seq<T>, r: seq<T>)
    requires NoDuplicates(s) && multiset(r) == multiset(s)
    ensures NoDuplicates(r)
  {
    forall i, j | 0 <= i < j < |r| ensures r[i] != r[j] {
      if r[i] == r[j] {
        var x := r[i];
        assert multiset(r[..j]) + multiset(r[j..]) == multiset(r) by {
          assert r == r[..j] + r[j..];
        }
        assert x in r[..j] && x in r[j..];
        assert multiset(r)[x] >= 2;
        DistinctCount(s, x);
        assert false;
      }
    }
  }

  /** In a sequence without repeats every element occurs at most once. */
  lemma {:induction false} DistinctCount<T>(s: seq<T>, x: T)
    requires NoDuplicates(s)
    ensures multiset(s)[x] <= 1
  {
    if s != [] {
      assert s == [s[0]] + s[1..];
      assert NoDuplicates(s[1..]) by {
        forall i, j | 0 <= i < j < |s[1..]| ensures s[1..][i] != s[1..][j] {
          assert s[1..][i] == s[i + 1] && s[1..][j] == s[j + 1];
        }
      }
      DistinctCount(s[1..], x);
      if s[0] == x {
        assert x !in s[1..];
      }
    }
  }

  /** A technician's row of the recap. */
  datatype Group = Group(technician: Technician, interventions: seq<Intervention>)

  /** `(a, b) => a.startTime.localeCompare(b.startTime)`, as "a may come before b". */
  predicate StartLe(a: Intervention, b: Intervention) {
    LexLe(a.startTime, b.startTime)
  }

  /** `techsToShow`: every technician of the day, or only the selected ones. */
  function Shown(inDay: seq<Technician>, selected: seq<Id>): (r: seq<Technician>)
    ensures selected == [] ==> r == inDay
    ensures selected != [] ==> r == Filter(inDay, TechnicianWeekView.Among(selected))
    ensures forall x :: x in r <==> x in inDay && (selected == [] || x.id in selected)
    ensures multiset(r) <= multiset(inDay)
    ensures |r| <= |inDay|
  {
    FilterShrinks(inDay, TechnicianWeekView.Among(selected));
    if |selected| > 0 then Filter(inDay, TechnicianWeekView.Among(selected)) else inDay
  }

  /** The row of technician `x`: the day's interventions listing `x`, by start time. */
  function GroupOf(day: seq<Intervention>, x: Technician): (g: Group)
    ensures g.technician == x
    ensures forall y :: y in g.interventions <==> y in day && x.id in y.technicianIds
    ensures multiset(g.interventions) == multiset(Filter(day, TechnicianWeekView.Listing(x.id)))
    ensures SortedBy(g.interventions, StartLe)
  {
    var mine := Filter(day, TechnicianWeekView.Listing(x.id));
    LexLeTotalOrder();
    SortBySorted(mine, StartLe);
    assert forall y :: y in SortBy(mine, StartLe) <==> y in multiset(mine);
    Group(x, SortBy(mine, StartLe))
  }

  /** `groupedByTechnician`: one row per shown technician, in the order of `inDay`. */
  function Grouped(inDay: seq<Technician>, day: seq<Intervention>, selected: seq<Id>): (r: seq<Group>)
    ensures |r| == |Shown(inDay, selected)|
    ensures forall i :: 0 <= i < |r| ==> r[i] == GroupOf(day, Shown(inDay, selected)[i])
  {
    var shown := Shown(inDay, selected);
    seq(|shown|, i requires 0 <= i < |shown| => GroupOf(day, shown[i]))
  }

  /** The day's order already puts earlier starts first, so the re-sort by start time
    * changes nothing: each row of the recap is the technician's cell of the technician
    * week view for that day. */
  lemma GroupIsCell(t: Table<Intervention>, date: string, x: Technician)
    requires t.Valid() && date != []
    ensures GroupOf(DayInterventions(t, Some(date)), x).interventions == TechnicianWeekView.Cell(t, date, x.id)
  {
    var day := Interventions.ByDate(t, date);
    assert SortedBy(day, StartLe) by {
      forall i, j | 0 <= i < j < |day| ensures StartLe(day[i], day[j]) {
        assert Interventions.InterventionLe(day[i], day[j]);
        if day[i].startTime != day[j].startTime {
          assert LexLess(day[i].startTime, day[j].startTime);
        }
      }
    }
    FilterSorted(day, TechnicianWeekView.Listing(x.id), StartLe);
    SortByOfSorted(Filter(day, TechnicianWeekView.Listing(x.id)), StartLe);
  }

  /** The selection after a click on technician `techId` (`selectTechnician`): a click
    * on the technician shown alone goes back to everyone, any other click shows that
    * technician alone. */
  function AfterClick(selected: seq<Id>, techId: Id): (r: seq<Id>)
    ensures r == [] <==> selected == [techId]
    ensures r != [] ==> r == [techId]
  {
    if |selected| == 1 && selected[0] == techId then [] else [techId]
  }

  /** After a click the recap shows either everyone or the clicked technician alone, and
    * a second click on the same technician undoes a first one made from everyone. */
  lemma SelectionShows(inDay: seq<Technician>, selected: seq<Id>, techId: Id)
    ensures var r := AfterClick(selected, techId);
      if selected == [techId] then Shown(inDay, r) == inDay
      else forall x :: x in Shown(inDay, r) <==> x in inDay && x.id == techId
    ensures AfterClick(AfterClick([], techId), techId) == []
  {
  }

  /** The recap's own selection state, `selectedTechIds`. */
  class RecapFilter {
    var selectedTechIds: seq<Id>

    /** No technician selected: everyone is shown. */
    constructor ()
      ensures selectedTechIds == []
    {
      selectedTechIds := [];
    }

    method SelectTechnician(techId: Id)
      modifies this
      ensures selectedTechIds == AfterClick(old(selectedTechIds), techId)
      ensures |selectedTechIds| <= 1
    {
      selectedTechIds := AfterClick(selectedTechIds, techId);
    }

    /** `clearSelection()`: every technician of the day is shown again. */
    method ClearSelection()
      modifies this
      ensures selectedTechIds == []
      ensures forall inDay: seq<Technician> :: Shown(inDay, selectedTechIds) == inDay
    {
      selectedTechIds := [];
    }
  }

  /** An intervention's block on the grid; None is the NaN of an unreadable time. */
  datatype Block = Block(top: Option<real>, height: Option<real>)

  /** Minutes as pixels at `HourHeight` per hour. */
  function Pixels(minutes: int): real {
    minutes as real / 60.0 * HourHeight as real
  }

  /** `getBlockPosition(startTime, endTime)`: the offset of the start below 06:00 and
    * the duration, in pixels, the offset at least 0 and the height at least 16. */
  function BlockPosition(startTime: string, endTime: string): (b: Block)
    ensures b.top.Some? <==> Time.TimeToMinutes(startTime).Some?
    ensures b.height.Some? <==> Time.TimeToMinutes(startTime).Some? && Time.TimeToMinutes(endTime).Some?
    ensures b.top.Some? ==> b.top.value >= 0.0
    ensures b.height.Some? ==> b.height.value >= MinBlockHeight as real
  {
    var s, e := Time.TimeToMinutes(startTime), Time.TimeToMinutes(endTime);
    var top := if s.None? then None else Some(RealMax(0.0, Pixels(s.value - GridStartHour * 60)));
    var height := if s.None? || e.None? then None else Some(RealMax(Pixels(e.value - s.value), MinBlockHeight as real));
    Block(top, height)
  }

  function RealMax(a: real, b: real): real {
    if a >= b then a else b
  }

  /** On the grid an intervention of at least 24 minutes starting no earlier than 06:00
    * spans from the line of its start to the line of its end; a shorter one is drawn
    * 16 pixels tall; one starting before 06:00 is pinned to the top. */
  lemma BlockGeometry(startTime: string, endTime: string, s: int, e: int)
    requires Time.TimeToMinutes(startTime) == Some(s) && Time.TimeToMinutes(endTime) == Some(e)
    ensures var b := BlockPosition(startTime, endTime);
      && (s >= GridStartHour * 60 ==> b.top.value == Pixels(s - GridStartHour * 60))
      && (s < GridStartHour * 60 ==> b.top.value == 0.0)
      && (e - s >= 24 ==> b.height.value == Pixels(e - s))
      && (e - s < 24 ==> b.height.value == MinBlockHeight as real)
      && (s >= GridStartHour * 60 && e - s >= 24 ==>
            b.top.value + b.height.value == Pixels(e - GridStartHour * 60))
  {
  }
}
