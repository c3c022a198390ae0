/** The technician week view: one row per shown technician, one cell per weekday, and the
  * rule that reassigns an intervention dropped onto a technician's cell. */
module TechnicianWeekView {
  import opened Wrappers
  import opened Seqs
  import opened Tables
  import opened Types
  import Technicians
  import Interventions

  /** The technicians of an intervention after it is dropped on technician `t`'s row: `t`
    * becomes the lead. A member of the team is moved to the front, and the rest of the
    * team keeps its order. A technician outside the team replaces the former lead. */
  function Reassigned(original: seq<Id>, t: Id): (r: seq<Id>)
    ensures |r| > 0 && r[0] == t
    ensures t in original ==> forall y :: y in r <==> y in original
    ensures original != [] && original[0] == t ==> r == original
    ensures original != [] && original[0] != t && t in original ==> r == [t] + RemoveAll(original, t)
    ensures t !in original && original != [] ==> |r| == |original| && r[1..] == original[1..]
    ensures original == [] ==> r == [t]
  {
    if original != [] && t == original[0] then original
    else if t in original then [t] + RemoveAll(original, t)
    else if original == [] then [t]
    else [t] + original[1..]
  }

  /** Dropping on the team's lead changes nothing, and dropping twice on the same row is
    * the same as dropping once. */
  lemma ReassignedIdempotent(original: seq<Id>, t: Id)
    ensures original != [] && original[0] == t ==> Reassigned(original, t) == original
    ensures Reassigned(Reassigned(original, t), t) == Reassigned(original, t)
  {
  }

  /** A team without repeated technicians keeps that property and its size (one for an
    * empty team). Only a technician from outside the team pushes out the former lead. */
  lemma {:induction false} ReassignedLaws(original: seq<Id>, t: Id)
    requires NoDuplicates(original)
    ensures NoDuplicates(Reassigned(original, t))
    ensures |Reassigned(original, t)| == if original == [] then 1 else |original|
    ensures original != [] && original[0] != t ==>
      (original[0] in Reassigned(original, t) <==> t in original)
    ensures t in original ==> Reassigned(original, t)[1..] == RemoveAll(original, t)
  {
    var r := Reassigned(original, t);
    if original != [] && t == original[0] {
      assert original == [original[0]] + original[1..];
      FilterAppend([original[0]], original[1..], y => y != t);
      assert t !in original[1..] by {
        forall k | 0 <= k < |original[1..]| ensures original[1..][k] != t {
          assert original[1..][k] == original[k + 1];
        }
      }
      RemoveAllAbsent(original[1..], t);
    } else if t in original {
      RemoveAllKeepsDistinct(original, t);
      RemoveAllDistinctLength(original, t);
    } else if original != [] {
      assert original == [original[0]] + original[1..];
      forall i, j | 0 <= i < j < |r| ensures r[i] != r[j] {
        if i == 0 {
          assert r[j] == original[j];
        } else {
          assert r[i] == original[i] && r[j] == original[j];
        }
      }
      assert original[0] !in original[1..] by {
        forall k | 0 <= k < |original[1..]| ensures original[1..][k] != original[0] {
          assert original[1..][k] == original[k + 1];
        }
      }
    }
  }

  /** Removing an element that occurs once from a sequence without repeats shortens it
    * by exactly one. */
  lemma {:induction false} RemoveAllDistinctLength(s: seq<Id>, x: Id)
    requires NoDuplicates(s) && x in s
    ensures |RemoveAll(s, x)| == |s| - 1
  {
    assert s == [s[0]] + s[1..];
    FilterAppend([s[0]], s[1..], y => y != x);
    if s[0] == x {
      assert x !in s[1..];
      RemoveAllAbsent(s[1..], x);
    } else {
      RemoveAllDistinctLength(s[1..], x);
    }
  }

  /** The team never grows beyond the technicians it had, or one when it had none. */
  lemma {:induction false} ReassignedSize(original: seq<Id>, t: Id)
    ensures |Reassigned(original, t)| <= if original == [] then 1 else |original|
  {
    if original != [] && t == original[0] {
    } else if t in original {
      RemoveAllShorter(original, t);
    }
  }

  /** Removing an element that is present shortens a sequence. */
  lemma {:induction false} RemoveAllShorter(s: seq<Id>, x: Id)
    requires x in s
    ensures |RemoveAll(s, x)| < |s|
  {
    assert s == [s[0]] + s[1..];
    FilterAppend([s[0]], s[1..], y => y != x);
    if s[0] != x {
      RemoveAllShorter(s[1..], x);
    }
  }

  /** The patch `onDrop` sends for the dragged id: nothing for an empty or unknown id,
    * otherwise the target day and the reassigned team. */
  function DropPatch(t: Table<Intervention>, id: Id, techId: Id, dateStr: string): (p: Option<InterventionPatch>)
    ensures p.None? <==> id == [] || id !in t.entries
    ensures p.Some? ==> p.value == Interventions.EmptyPatch().(
      date := Some(dateStr),
      technicianIds := Some(Reassigned(t.entries[id].technicianIds, techId)))
  {
    if id == [] then None
    else if id !in t.entries then None
    else Some(Interventions.EmptyPatch().(
      date := Some(dateStr),
      technicianIds := Some(Reassigned(t.entries[id].technicianIds, techId))))
  }

  /** The intervention table after a drop on technician `techId`'s cell of day `dateStr`. */
  function Drop(t: Table<Intervention>, id: Id, techId: Id, dateStr: string, now: Timestamp): (r: Table<Intervention>)
    requires Interventions.WellKeyed(t)
    ensures Interventions.WellKeyed(r) && r.order == t.order
    ensures id == [] || id !in t.entries ==> r == t
  {
    match DropPatch(t, id, techId, dateStr)
    case None => t
    case Some(p) => Interventions.UpdateIntervention(t, id, p, now)
  }

  /** `getActiveTechnicians()` narrowed to the selected technicians, when any are
    * selected: the rows of the view. */
  function Rows(techs: Table<Technician>, filters: seq<Id>): (r: seq<Technician>)
    requires techs.Valid()
    ensures filters == [] ==> r == Technicians.ActiveTechnicians(techs)
    ensures filters != [] ==> forall x :: x in r <==> x in techs.Values() && x.isActive && x.id in filters
    ensures filters != [] ==> multiset(r) == multiset(Filter(techs.Values(), ActiveAmong(filters)))
    ensures SortedBy(r, Technicians.UsageLe)
  {
    var all := Technicians.ActiveTechnicians(techs);
    if |filters| > 0 then
      FilterSorted(all, Among(filters), Technicians.UsageLe);
      FilterOfFiltered(all, techs.Values(), Technicians.IsActive, Among(filters), ActiveAmong(filters));
      Filter(all, Among(filters))
    else all
  }

  /** `(tech) => technicianFilters.includes(tech.id)`. */
  function Among(filters: seq<Id>): Technician -> bool {
    (x: Technician) => x.id in filters
  }

  /** An active technician among the selected ones. */
  function ActiveAmong(filters: seq<Id>): Technician -> bool {
    (x: Technician) => x.isActive && x.id in filters
  }

  /** Selecting technicians only hides rows: the rows shown under a selection are the
    * rows of the unselected view that are selected, kept in the same most-used-first
    * order, each no more often than there. */
  lemma RowsNarrow(techs: Table<Technician>, filters: seq<Id>)
    requires techs.Valid()
    ensures filters != [] ==> Rows(techs, filters) == Filter(Rows(techs, []), Among(filters))
    ensures forall x :: x in Rows(techs, filters) ==> x in Rows(techs, [])
    ensures multiset(Rows(techs, filters)) <= multiset(Rows(techs, []))
    ensures |Rows(techs, filters)| <= |Rows(techs, [])|
  {
    FilterShrinks(Rows(techs, []), Among(filters));
  }

  /** `(inv) => inv.technicianIds.includes(techId)`. */
  function Listing(techId: Id): Intervention -> bool {
    (x: Intervention) => techId in x.technicianIds
  }

  /** An intervention of day `dateStr` listing technician `techId`. */
  function ListedOnDay(dateStr: string, techId: Id): Intervention -> bool {
    (x: Intervention) => x.date == dateStr && techId in x.technicianIds
  }

  /** The interventions of technician `techId`'s cell on day `dateStr`: that day's
    * interventions listing the technician, in time order. The selection of technician
    * filters plays no part. */
  function Cell(t: Table<Intervention>, dateStr: string, techId: Id): (r: seq<Intervention>)
    requires t.Valid()
    ensures forall x :: x in r <==> x in t.Values() && x.date == dateStr && techId in x.technicianIds
    ensures multiset(r) == multiset(Filter(t.Values(), ListedOnDay(dateStr, techId)))
    ensures SortedBy(r, Interventions.InterventionLe)
  {
    FilterSorted(Interventions.ByDate(t, dateStr), Listing(techId), Interventions.InterventionLe);
    FilterOfFiltered(Interventions.ByDate(t, dateStr), t.Values(), Interventions.OnDay(dateStr),
      Listing(techId), ListedOnDay(dateStr, techId));
    Filter(Interventions.ByDate(t, dateStr), Listing(techId))
  }

  /** A drop of a known intervention whose team is within the limit moves it into the
    * target cell, with the target technician first. The times, the task and the rest of
    * its record stay as they were, and every other intervention stays where it was. */
  lemma DropLandsInCell(t: Table<Intervention>, id: Id, techId: Id, dateStr: string, now: Timestamp)
    requires Interventions.WellKeyed(t) && id != [] && id in t.entries
    requires |t.entries[id].technicianIds| <= MaxTechnicians
    ensures var x, y := t.entries[id], Drop(t, id, techId, dateStr, now).entries[id];
      && y in Cell(Drop(t, id, techId, dateStr, now), dateStr, techId)
      && y.technicianIds == Reassigned(x.technicianIds, techId)
      && y.technicianIds[0] == techId
      && y == x.(date := dateStr, technicianIds := y.technicianIds, updatedAt := now)
    ensures forall k :: k in t.entries && k != id ==> Drop(t, id, techId, dateStr, now).entries[k] == t.entries[k]
  {
    var x := t.entries[id];
    ReassignedSize(x.technicianIds, techId);
    var r := Drop(t, id, techId, dateStr, now);
    assert id in r.order;
    var i :| 0 <= i < |r.order| && r.order[i] == id;
    assert r.Values()[i] == r.entries[id];
  }
}
