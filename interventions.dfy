/** The intervention actions of the store, as functions of the intervention table. */
module Interventions {
  import opened Wrappers
  import opened Seqs
  import opened Text
  import opened Tables
  import opened Types

  /** Every entry is stored under its own id. */
  ghost predicate WellKeyed(t: Table<Intervention>) {
    t.Valid() && forall id :: id in t.entries ==> t.entries[id].id == id
  }

  /** `{ ...data, id, createdAt: now, updatedAt: now }`. */
  function Stamped(d: InterventionData, id: Id, now: Timestamp): Intervention {
    Intervention(id, d.date, d.startTime, d.endTime, d.technicianIds, d.taskText, d.equipment,
                 d.notes, d.address, d.tenantName, d.phone, d.pdfUrl, d.pdfName, now, now)
  }

  /** An intervention without its id and timestamps. */
  function DataOf(x: Intervention): InterventionData {
    InterventionData(x.date, x.startTime, x.endTime, x.technicianIds, x.taskText, x.equipment,
                     x.notes, x.address, x.tenantName, x.phone, x.pdfUrl, x.pdfName)
  }

  /** A created intervention carries exactly the data it was given, the new id, and one
    * timestamp for both its creation and its last update. */
  lemma StampedRoundTrip(d: InterventionData, id: Id, now: Timestamp)
    ensures DataOf(Stamped(d, id, now)) == d
    ensures Stamped(d, id, now).id == id
    ensures Stamped(d, id, now).createdAt == now && Stamped(d, id, now).updatedAt == now
  {
  }

  /** The intervention table after `createIntervention(data)`: refused beyond four
    * technicians, otherwise the stamped intervention is added under the fresh id. */
  function CreateIntervention(t: Table<Intervention>, d: InterventionData, freshId: Id, now: Timestamp)
    : (r: Table<Intervention>)
    requires WellKeyed(t) && freshId !in t.entries
    ensures WellKeyed(r)
    ensures |d.technicianIds| > MaxTechnicians ==> r == t
    ensures |d.technicianIds| <= MaxTechnicians ==>
      && r.order == t.order + [freshId]
      && r.entries == t.entries[freshId := Stamped(d, freshId, now)]
  {
    if |d.technicianIds| > MaxTechnicians then t
    else
      PutValid(t, freshId, Stamped(d, freshId, now));
      t.Put(freshId, Stamped(d, freshId, now))
  }

  /** The patch that carries no key. */
  function EmptyPatch(): InterventionPatch {
    InterventionPatch(None, None, None, None, None, None, None, None, None, None, None, None)
  }

  /** `{ ...existing, ...data, updatedAt: now }`: each key the patch carries wins. */
  function ApplyPatch(x: Intervention, p: InterventionPatch, now: Timestamp): Intervention {
    Intervention(
      x.id,
      p.date.GetOr(x.date),
      p.startTime.GetOr(x.startTime),
      p.endTime.GetOr(x.endTime),
      p.technicianIds.GetOr(x.technicianIds),
      p.taskText.GetOr(x.taskText),
      p.equipment.GetOr(x.equipment),
      p.notes.GetOr(x.notes),
      p.address.GetOr(x.address),
      p.tenantName.GetOr(x.tenantName),
      p.phone.GetOr(x.phone),
      p.pdfUrl.GetOr(x.pdfUrl),
      p.pdfName.GetOr(x.pdfName),
      x.createdAt,
      now)
  }

  /** A patch keeps the id and the creation time, changes only the keys it carries
    * (the empty patch only touches the update time), and applying it twice is the
    * same as applying it once. */
  lemma PatchLaws(x: Intervention, p: InterventionPatch, now: Timestamp, later: Timestamp)
    ensures ApplyPatch(x, p, now).id == x.id && ApplyPatch(x, p, now).createdAt == x.createdAt
    ensures ApplyPatch(x, p, now).updatedAt == now
    ensures ApplyPatch(x, EmptyPatch(), now) == x.(updatedAt := now)
    ensures ApplyPatch(ApplyPatch(x, p, now), p, later) == ApplyPatch(x, p, later)
    ensures p.startTime.Some? ==> ApplyPatch(x, p, now).startTime == p.startTime.value
    ensures p.technicianIds.Some? ==> ApplyPatch(x, p, now).technicianIds == p.technicianIds.value
    ensures p.equipment == Some(None) ==> ApplyPatch(x, p, now).equipment == None
  {
  }

  /** The intervention table after `updateIntervention(id, data)`. */
  function UpdateIntervention(t: Table<Intervention>, id: Id, p: InterventionPatch, now: Timestamp)
    : (r: Table<Intervention>)
    requires WellKeyed(t)
    ensures WellKeyed(r) && r.order == t.order
    ensures (p.technicianIds.Some? && |p.technicianIds.value| > MaxTechnicians) || id !in t.entries ==> r == t
    ensures !(p.technicianIds.Some? && |p.technicianIds.value| > MaxTechnicians) && id in t.entries ==>
      r.entries == t.entries[id := ApplyPatch(t.entries[id], p, now)]
  {
    if p.technicianIds.Some? && |p.technicianIds.value| > MaxTechnicians then t
    else if id !in t.entries then t
    else
      PutValid(t, id, ApplyPatch(t.entries[id], p, now));
      t.Put(id, ApplyPatch(t.entries[id], p, now))
  }

  /** The intervention table after `deleteIntervention(id)`. */
  function DeleteIntervention(t: Table<Intervention>, id: Id): (r: Table<Intervention>)
    requires WellKeyed(t)
    ensures WellKeyed(r)
    ensures id !in r.entries
    ensures forall k :: k != id ==> r.Get(k) == t.Get(k)
  {
    RemoveValid(t, id);
    t.Remove(id)
  }

  /** Deleting the intervention just created gives back the table as it was. */
  lemma DeleteUndoesCreate(t: Table<Intervention>, d: InterventionData, freshId: Id, now: Timestamp)
    requires WellKeyed(t) && freshId !in t.entries
    ensures DeleteIntervention(CreateIntervention(t, d, freshId, now), freshId) == t
  {
    if |d.technicianIds| <= MaxTechnicians {
      RemoveAfterPut(t, freshId, Stamped(d, freshId, now));
    } else {
      RemoveAbsent(t, freshId);
    }
  }

  /** The comparator of `getInterventionsByDate` as "a may come before b": start time,
    * then end time, then task text, each compared as strings. */
  predicate InterventionLe(a: Intervention, b: Intervention) {
    if a.startTime != b.startTime then LexLess(a.startTime, b.startTime)
    else if a.endTime != b.endTime then LexLess(a.endTime, b.endTime)
    else LexLe(a.taskText, b.taskText)
  }

  lemma InterventionLeTotal()
    ensures TotalPreorder(InterventionLe)
  {
    LexLeTotalOrder();
    forall a: Intervention, b: Intervention ensures InterventionLe(a, b) || InterventionLe(b, a) {
      LexLessTrichotomy(a.startTime, b.startTime);
      LexLessTrichotomy(a.endTime, b.endTime);
    }
    forall a: Intervention, b: Intervention, c: Intervention | InterventionLe(a, b) && InterventionLe(b, c)
      ensures InterventionLe(a, c)
    {
      assert LexLe(a.startTime, b.startTime) && LexLe(b.startTime, c.startTime);
      if a.startTime == c.startTime {
        assert a.startTime == b.startTime;
        assert LexLe(a.endTime, b.endTime) && LexLe(b.endTime, c.endTime);
        if a.endTime == c.endTime {
          assert a.endTime == b.endTime;
        }
      }
    }
  }

  predicate OnDate(x: Intervention, date: string) {
    x.date == date
  }

  /** The test "falls on `date`" as a value, so that every statement about the day's
    * listing filters with the same predicate. */
  function OnDay(date: string): Intervention -> bool {
    x => OnDate(x, date)
  }

  /** `getInterventionsByDate(date)`: the interventions of that day, in time order. */
  function ByDate(t: Table<Intervention>, date: string): (r: seq<Intervention>)
    requires t.Valid()
    ensures forall x :: x in r <==> x in t.Values() && x.date == date
    ensures multiset(r) == multiset(Filter(t.Values(), OnDay(date)))
    ensures SortedBy(r, InterventionLe)
  {
    var day := Filter(t.Values(), OnDay(date));
    InterventionLeTotal();
    SortBySorted(day, InterventionLe);
    assert forall x :: x in SortBy(day, InterventionLe) <==> x in multiset(day);
    SortBy(day, InterventionLe)
  }

  /** Interventions with the same start, end and task text are listed in the order
    * they were created: the sort of the day listing is stable. */
  lemma ByDateStable(t: Table<Intervention>, date: string)
    requires WellKeyed(t)
    ensures TiesRanked(ByDate(t, date), InterventionLe, (x: Intervention) => Position(t.order, x.id))
  {
    var rank := (x: Intervention) => Position(t.order, x.id);
    var vs := t.Values();
    var less := (a: Intervention, b: Intervention) => rank(a) < rank(b);
    forall i, j | 0 <= i < j < |vs| ensures less(vs[i], vs[j]) {
      assert t.order[i] in t.order && t.order[j] in t.order;
      PositionOf(t.order, i);
      PositionOf(t.order, j);
    }
    var day := Filter(vs, OnDay(date));
    FilterSorted(vs, OnDay(date), less);
    SortByStable(day, InterventionLe, rank);
  }

  /** Some technician of the intervention is among the selected ones. */
  predicate HasSelectedTechnician(x: Intervention, filters: seq<Id>) {
    exists i :: 0 <= i < |x.technicianIds| && x.technicianIds[i] in filters
  }

  /** The selection test as a value. */
  function WithSelected(filters: seq<Id>): Intervention -> bool {
    x => HasSelectedTechnician(x, filters)
  }

  /** Both tests of the filtered day listing at once. */
  function SelectedOnDay(date: string, filters: seq<Id>): Intervention -> bool {
    x => OnDate(x, date) && HasSelectedTechnician(x, filters)
  }

  /** `getFilteredInterventionsByDate(date)`: no selection shows every intervention of
    * the day; otherwise those with a selected technician, still in time order. */
  function FilteredByDate(t: Table<Intervention>, date: string, filters: seq<Id>): (r: seq<Intervention>)
    requires t.Valid()
    ensures filters == [] ==> r == ByDate(t, date)
    ensures filters != [] ==> forall x :: x in r <==> x in t.Values() && x.date == date && HasSelectedTechnician(x, filters)
    ensures filters != [] ==> multiset(r) == multiset(Filter(t.Values(), SelectedOnDay(date, filters)))
    ensures SortedBy(r, InterventionLe)
  {
    if filters == [] then ByDate(t, date)
    else
      FilterSorted(ByDate(t, date), WithSelected(filters), InterventionLe);
      FilterOfFiltered(ByDate(t, date), t.Values(), OnDay(date), WithSelected(filters), SelectedOnDay(date, filters));
      Filter(ByDate(t, date), WithSelected(filters))
  }
}
