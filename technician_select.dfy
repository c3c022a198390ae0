/** The technician picker of the intervention form: a capped list of selected technician
  * ids, a text input whose suggestions leave out the selected technicians, a highlighted
  * suggestion moved with the arrow keys, and creation of a technician from the typed
  * name. */
module TechnicianSelect {
  import opened Wrappers
  import opened Seqs
  import opened Text
  import opened Tables
  import opened Types
  import Technicians

  /** `MAX_TECHNICIANS`, the default of `maxSelection`, and the size of the blank-input
    * suggestion list. */
  const DefaultMaxSelection: nat := 4
  const TopSuggestions: nat := 5

  /** The state the picker's handlers change: the selected ids (held by the parent and
    * changed through `onChange`), the input text, whether the list is open, the
    * highlighted suggestion and the cap warning. */
  datatype View = View(
    selectedIds: seq<Id>,
    inputValue: string,
    isOpen: bool,
    highlightedIndex: int,
    showMaxWarning: bool)

  /** The selection respects the cap and the highlight is a suggestion or none (-1). */
  predicate WithinCap(v: View, maxSelection: nat) {
    |v.selectedIds| <= maxSelection && v.highlightedIndex >= -1
  }

  /** `(t) => !selectedIds.includes(t.id)`. */
  function Unselected(selectedIds: seq<Id>): Technician -> bool {
    (x: Technician) => x.id !in selectedIds
  }

  /** An active, not yet selected technician whose lower-cased name contains `q`. */
  function Suggestable(q: string, selectedIds: seq<Id>): Technician -> bool {
    (x: Technician) => x.isActive && Contains(ToLower(x.name), q) && x.id !in selectedIds
  }

  /** `filteredSuggestions`: the top five for a blank input, the search results
    * otherwise, without the technicians already selected. */
  function FilteredSuggestions(techs: Table<Technician>, inputValue: string, selectedIds: seq<Id>): (r: seq<Technician>)
    requires techs.Valid()
    ensures forall x :: x in r ==> x.id !in selectedIds && x.isActive
    ensures Trim(inputValue) == [] ==>
      && |r| <= TopSuggestions
      && (forall x :: x in r <==> x in Technicians.TopTechnicians(techs, TopSuggestions) && x.id !in selectedIds)
      && r == Filter(Technicians.TopTechnicians(techs, TopSuggestions), Unselected(selectedIds))
    ensures Trim(inputValue) != [] ==> forall x :: x in r <==>
      && x in techs.Values() && x.isActive && x.id !in selectedIds
      && Contains(ToLower(x.name), Trim(ToLower(inputValue)))
    ensures Trim(inputValue) != [] ==>
      multiset(r) == multiset(Filter(techs.Values(), Suggestable(Trim(ToLower(inputValue)), selectedIds)))
    ensures SortedBy(r, Technicians.UsageLe)
  {
    LowerTrimCommute(inputValue);
    var suggestions :=
      if Trim(inputValue) != [] then Technicians.SearchTechnicians(techs, inputValue)
      else Technicians.TopTechnicians(techs, TopSuggestions);
    assert SortedBy(suggestions, Technicians.UsageLe) by {
      if Trim(inputValue) == [] {
        var all := Technicians.ActiveTechnicians(techs);
        forall i, j | 0 <= i < j < |suggestions| ensures Technicians.UsageLe(suggestions[i], suggestions[j]) {
          assert suggestions[i] == all[i] && suggestions[j] == all[j];
        }
      }
    }
    FilterSorted(suggestions, Unselected(selectedIds), Technicians.UsageLe);
    if Trim(inputValue) != [] then
      var q := Trim(ToLower(inputValue));
      FilterOfFiltered(suggestions, techs.Values(), Technicians.NameMatches(q), Unselected(selectedIds), Suggestable(q, selectedIds));
      Filter(suggestions, Unselected(selectedIds))
    else Filter(suggestions, Unselected(selectedIds))
  }

  /** `handleSelectTechnician(tech)`. */
  function Selected(v: View, tech: Technician, maxSelection: nat): View {
    if |v.selectedIds| >= maxSelection then v.(showMaxWarning := true)
    else v.(selectedIds := v.selectedIds + [tech.id], inputValue := [], highlightedIndex := -1)
  }

  /** A full selection is refused with the warning and nothing else changes; otherwise
    * the id goes last and the input is cleared. The cap is never passed, and an id not
    * yet selected adds no repeat. */
  lemma SelectedLaws(v: View, tech: Technician, maxSelection: nat)
    ensures var r := Selected(v, tech, maxSelection);
      && (|v.selectedIds| >= maxSelection ==> r == v.(showMaxWarning := true))
      && (|v.selectedIds| < maxSelection ==>
            r.selectedIds == v.selectedIds + [tech.id] && r.inputValue == [] && r.highlightedIndex == -1)
      && (WithinCap(v, maxSelection) ==> WithinCap(r, maxSelection))
      && (NoDuplicates(v.selectedIds) && tech.id !in v.selectedIds ==> NoDuplicates(r.selectedIds))
  {
  }

  /** `handleRemoveTechnician(id)`: every occurrence of the id removed, the warning hidden. */
  function Removed(v: View, id: Id): View {
    v.(selectedIds := RemoveAll(v.selectedIds, id), showMaxWarning := false)
  }

  /** Removal keeps the others in order, never passes the cap, adds no repeat, and undoes
    * the selection of a technician that was not selected before. */
  lemma {:induction false} RemovedLaws(v: View, id: Id, tech: Technician, maxSelection: nat)
    ensures forall y :: y in Removed(v, id).selectedIds <==> y in v.selectedIds && y != id
    ensures WithinCap(v, maxSelection) ==> WithinCap(Removed(v, id), maxSelection)
    ensures NoDuplicates(v.selectedIds) ==> NoDuplicates(Removed(v, id).selectedIds)
    ensures |v.selectedIds| < maxSelection && tech.id !in v.selectedIds ==>
      Removed(Selected(v, tech, maxSelection), tech.id).selectedIds == v.selectedIds
  {
    if NoDuplicates(v.selectedIds) {
      RemoveAllKeepsDistinct(v.selectedIds, id);
    }
    if tech.id !in v.selectedIds {
      RemoveAllAppended(v.selectedIds, tech.id);
    }
  }

  /** The view and the technician table after creating from the typed name. */
  datatype Outcome = Outcome(view: View, techs: Table<Technician>)

  /** `handleCreateAndSelect()` as written: a blank name does nothing; a full selection
    * shows the warning; otherwise `getOrCreateTechnician` of the trimmed name, whose id
    * is appended even when it is already selected. */
  function CreatedAsWritten(v: View, techs: Table<Technician>, maxSelection: nat, freshId: Id, now: Timestamp): (o: Outcome)
    requires Technicians.WellKeyed(techs) && freshId !in techs.entries
  {
    var name := Trim(v.inputValue);
    if name == [] then Outcome(v, techs)
    else if |v.selectedIds| >= maxSelection then Outcome(v.(showMaxWarning := true), techs)
    else
      var added := Technicians.GetOrCreateTechnician(techs, name, freshId, now);
      Outcome(v.(selectedIds := v.selectedIds + [added.technician.id], inputValue := [], highlightedIndex := -1), added.table)
  }

  /** Typing the name of a technician who is already selected selects them a second
    * time. */
  lemma CreatedAsWrittenRepeats(v: View, techs: Table<Technician>, maxSelection: nat, freshId: Id, now: Timestamp, x: Technician)
    requires Technicians.WellKeyed(techs) && freshId !in techs.entries
    requires Trim(v.inputValue) != [] && |v.selectedIds| < maxSelection
    requires Technicians.FindTechnician(techs, Trim(v.inputValue)) == Some(x) && x.id in v.selectedIds
    ensures !NoDuplicates(CreatedAsWritten(v, techs, maxSelection, freshId, now).view.selectedIds)
  {
    var added := Technicians.GetOrCreateTechnician(techs, Trim(v.inputValue), freshId, now);
    assert added.technician == x;
    AppendPresentRepeats(v.selectedIds, x.id);
  }

  /** Appending an id that is already present makes a repeat. */
  lemma AppendPresentRepeats(ids: seq<Id>, id: Id)
    requires id in ids
    ensures !NoDuplicates(ids + [id])
  {
    var i :| 0 <= i < |ids| && ids[i] == id;
    assert (ids + [id])[i] == (ids + [id])[|ids|];
  }

  /** The technician table of the example below: one technician, Marc, stored under "m". */
  const Marc: Technician := Technician("m", "Marc", "#3B82F6", true, 0, 0, 0)
  const MarcOnly: Table<Technician> := Table(["m"], map["m" := Marc])

  /** Marc is found by his name. */
  lemma MarcFound()
    ensures Technicians.WellKeyed(MarcOnly)
    ensures Technicians.FindTechnician(MarcOnly, "Marc") == Some(Marc)
  {
    MarcOnlyValues();
    MarcMatches();
    FindAfterMisses([], Marc, Technicians.NameMatcher("Marc"));
  }

  lemma MarcOnlyValues()
    ensures Technicians.WellKeyed(MarcOnly) && MarcOnly.Values() == [] + [Marc]
  {
  }

  lemma MarcMatches()
    ensures Technicians.NameMatcher("Marc")(Marc)
  {
    assert !IsWhitespace('M') && !IsWhitespace('c');
    TrimOfTrimmed("Marc");
  }

  /** A concrete instance: with Marc selected, typing "Marc" and pressing Enter gives the
    * selection ["m", "m"]. */
  lemma CreatedAsWrittenExample()
    ensures Technicians.WellKeyed(MarcOnly) && "fresh" !in MarcOnly.entries
    ensures CreatedAsWritten(View(["m"], "Marc", true, -1, false), MarcOnly, DefaultMaxSelection, "fresh", 0).view.selectedIds
         == ["m", "m"]
  {
    MarcFound();
    assert !IsWhitespace('M') && !IsWhitespace('c');
    TrimOfTrimmed("Marc");
  }

  /** `handleCreateAndSelect()` with the repeat left out: a technician already selected
    * is not appended again; the input is still cleared. */
  function Created(v: View, techs: Table<Technician>, maxSelection: nat, freshId: Id, now: Timestamp): (o: Outcome)
    requires Technicians.WellKeyed(techs) && freshId !in techs.entries
  {
    var name := Trim(v.inputValue);
    if name == [] then Outcome(v, techs)
    else if |v.selectedIds| >= maxSelection then Outcome(v.(showMaxWarning := true), techs)
    else
      var added := Technicians.GetOrCreateTechnician(techs, name, freshId, now);
      Outcome(v.(selectedIds := Including(v.selectedIds, added.technician.id), inputValue := [], highlightedIndex := -1),
              added.table)
  }

  /** The ids with `id` appended unless it is already there. */
  function Including(ids: seq<Id>, id: Id): seq<Id> {
    if id in ids then ids else ids + [id]
  }

  /** Including an id keeps the ids in place, adds at most one, and adds no repeat. */
  lemma IncludingLaws(ids: seq<Id>, id: Id)
    ensures ids <= Including(ids, id) && id in Including(ids, id)
    ensures |Including(ids, id)| <= |ids| + 1
    ensures NoDuplicates(ids) ==> NoDuplicates(Including(ids, id))
  {
  }

  /** A blank name changes nothing and a full selection only shows the warning; either way
    * the table is untouched. Otherwise the selection keeps its ids, in place, and the
    * input is cleared. The cap holds and no repeat appears. */
  lemma CreatedLaws(v: View, techs: Table<Technician>, maxSelection: nat, freshId: Id, now: Timestamp)
    requires Technicians.WellKeyed(techs) && freshId !in techs.entries
    ensures var o := Created(v, techs, maxSelection, freshId, now);
      && (Trim(v.inputValue) == [] ==> o == Outcome(v, techs))
      && (Trim(v.inputValue) != [] && |v.selectedIds| >= maxSelection ==> o == Outcome(v.(showMaxWarning := true), techs))
      && (Trim(v.inputValue) != [] && |v.selectedIds| < maxSelection ==>
            v.selectedIds <= o.view.selectedIds && o.view.inputValue == [] && o.view.highlightedIndex == -1)
      && (WithinCap(v, maxSelection) ==> WithinCap(o.view, maxSelection))
      && (NoDuplicates(v.selectedIds) ==> NoDuplicates(o.view.selectedIds))
  {
    var name := Trim(v.inputValue);
    if name != [] && |v.selectedIds| < maxSelection {
      var added := Technicians.GetOrCreateTechnician(techs, name, freshId, now);
      IncludingLaws(v.selectedIds, added.technician.id);
    }
  }

  /** Once the checks pass, the technician found or created from the trimmed name is
    * stored in the new table and is among the selected. */
  lemma CreatedSelectsNamed(v: View, techs: Table<Technician>, maxSelection: nat, freshId: Id, now: Timestamp)
    requires Technicians.WellKeyed(techs) && freshId !in techs.entries
    requires Trim(v.inputValue) != [] && |v.selectedIds| < maxSelection
    ensures var o := Created(v, techs, maxSelection, freshId, now);
      && Technicians.WellKeyed(o.techs)
      && exists x :: x in o.techs.Values() && x.id in o.view.selectedIds
                  && ToLower(x.name) == ToLower(Trim(v.inputValue))
  {
    var name := Trim(v.inputValue);
    var added := Technicians.GetOrCreateTechnician(techs, name, freshId, now);
    var x := added.technician;
    var o := Created(v, techs, maxSelection, freshId, now);
    assert o.techs == added.table;
    assert x.id in o.view.selectedIds by {
      IncludingLaws(v.selectedIds, x.id);
    }
    assert x in o.techs.Values() by {
      var k :| 0 <= k < |added.table.order| && added.table.order[k] == x.id;
      assert added.table.Values()[k] == x;
    }
    assert ToLower(x.name) == ToLower(Trim(v.inputValue)) by {
      TrimIdempotent(v.inputValue);
    }
  }

  /** The correction differs from the code only when the typed name finds a technician
    * who is already selected. */
  lemma CreatedAgrees(v: View, techs: Table<Technician>, maxSelection: nat, freshId: Id, now: Timestamp)
    requires Technicians.WellKeyed(techs) && freshId !in techs.entries && freshId !in v.selectedIds
    requires Technicians.FindTechnician(techs, Trim(v.inputValue)).Some? ==>
      Technicians.FindTechnician(techs, Trim(v.inputValue)).value.id !in v.selectedIds
    ensures Created(v, techs, maxSelection, freshId, now) == CreatedAsWritten(v, techs, maxSelection, freshId, now)
  {
  }

  /** The keys `handleKeyDown` reacts to. */
  datatype Key = ArrowDown | ArrowUp | Enter | Escape | Backspace | OtherKey

  function Min(a: int, b: int): int { if a <= b then a else b }
  function Max(a: int, b: int): int { if a >= b then a else b }

  /** `handleKeyDown(e)`: the arrows move the highlight, Enter selects the highlighted
    * suggestion or creates from the typed name, Escape closes the list, and Backspace
    * in an empty input removes the last selected id. Creating goes through the corrected
    * `Created`, which does not repeat an id that is already selected. */
  function KeyDown(v: View, key: Key, techs: Table<Technician>, maxSelection: nat, freshId: Id, now: Timestamp): (o: Outcome)
    requires Technicians.WellKeyed(techs) && freshId !in techs.entries
  {
    KeyDownAmong(v, key, FilteredSuggestions(techs, v.inputValue, v.selectedIds), techs, maxSelection, freshId, now)
  }

  /** The handler once the suggestions it shows are known. */
  function KeyDownAmong(v: View, key: Key, suggestions: seq<Technician>, techs: Table<Technician>, maxSelection: nat,
                        freshId: Id, now: Timestamp): (o: Outcome)
    requires Technicians.WellKeyed(techs) && freshId !in techs.entries
  {
    match key
    case ArrowDown => Outcome(v.(highlightedIndex := Min(v.highlightedIndex + 1, |suggestions| - 1)), techs)
    case ArrowUp => Outcome(v.(highlightedIndex := Max(v.highlightedIndex - 1, -1)), techs)
    case Enter =>
      if 0 <= v.highlightedIndex < |suggestions| then
        Outcome(Selected(v, suggestions[v.highlightedIndex], maxSelection), techs)
      else if Trim(v.inputValue) != [] then Created(v, techs, maxSelection, freshId, now)
      else Outcome(v, techs)
    case Escape => Outcome(v.(isOpen := false), techs)
    case Backspace =>
      if v.inputValue == [] && |v.selectedIds| > 0 then
        Outcome(Removed(v, v.selectedIds[|v.selectedIds| - 1]), techs)
      else Outcome(v, techs)
    case OtherKey => Outcome(v, techs)
  }

  /** No key passes the cap or repeats an id; a highlight within the suggestions stays
    * within them (or none), and Backspace in an empty input removes the last id. */
  lemma KeyDownLaws(v: View, key: Key, techs: Table<Technician>, maxSelection: nat, freshId: Id, now: Timestamp)
    requires Technicians.WellKeyed(techs) && freshId !in techs.entries
    ensures var o := KeyDown(v, key, techs, maxSelection, freshId, now);
      && (WithinCap(v, maxSelection) ==> WithinCap(o.view, maxSelection))
      && (NoDuplicates(v.selectedIds) ==> NoDuplicates(o.view.selectedIds))
      && (key.ArrowDown? || key.ArrowUp? ==>
            var n := |FilteredSuggestions(techs, v.inputValue, v.selectedIds)|;
            -1 <= v.highlightedIndex < n ==> -1 <= o.view.highlightedIndex < n)
      && (key.Backspace? && v.inputValue == [] && v.selectedIds != [] ==>
            o.view.selectedIds == RemoveAll(v.selectedIds, v.selectedIds[|v.selectedIds| - 1]))
  {
    var suggestions := FilteredSuggestions(techs, v.inputValue, v.selectedIds);
    KeyDownAmongLaws(v, key, suggestions, techs, maxSelection, freshId, now);
  }

  lemma KeyDownAmongLaws(v: View, key: Key, suggestions: seq<Technician>, techs: Table<Technician>, maxSelection: nat,
                         freshId: Id, now: Timestamp)
    requires Technicians.WellKeyed(techs) && freshId !in techs.entries
    requires forall x :: x in suggestions ==> x.id !in v.selectedIds
    ensures var o := KeyDownAmong(v, key, suggestions, techs, maxSelection, freshId, now);
      && (WithinCap(v, maxSelection) ==> WithinCap(o.view, maxSelection))
      && (NoDuplicates(v.selectedIds) ==> NoDuplicates(o.view.selectedIds))
      && (key.ArrowDown? || key.ArrowUp? ==>
            -1 <= v.highlightedIndex < |suggestions| ==> -1 <= o.view.highlightedIndex < |suggestions|)
      && (key.Backspace? && v.inputValue == [] && v.selectedIds != [] ==>
            o.view.selectedIds == RemoveAll(v.selectedIds, v.selectedIds[|v.selectedIds| - 1]))
  {
    match key
    case Enter =>
      if 0 <= v.highlightedIndex < |suggestions| {
        assert suggestions[v.highlightedIndex] in suggestions;
        SelectedLaws(v, suggestions[v.highlightedIndex], maxSelection);
      } else {
        CreatedLaws(v, techs, maxSelection, freshId, now);
      }
    case Backspace =>
      if v.inputValue == [] && |v.selectedIds| > 0 {
        RemovedLaws(v, v.selectedIds[|v.selectedIds| - 1], Technician([], [], [], false, 0, 0, 0), maxSelection);
      }
    case _ =>
  }

  /** The input's `onChange`: the new text, no highlight, the list open. */
  function Typed(v: View, text: string): View {
    v.(inputValue := text, highlightedIndex := -1, isOpen := true)
  }

  /** Typing never changes the selection, and afterwards no suggestion is highlighted, so
    * Enter creates from the typed name unless an arrow key moves the highlight first. */
  lemma TypedLaws(v: View, text: string, techs: Table<Technician>, maxSelection: nat, freshId: Id, now: Timestamp)
    requires Technicians.WellKeyed(techs) && freshId !in techs.entries
    ensures Typed(v, text).selectedIds == v.selectedIds
    ensures WithinCap(v, maxSelection) ==> WithinCap(Typed(v, text), maxSelection)
    ensures KeyDown(Typed(v, text), Enter, techs, maxSelection, freshId, now)
         == Created(Typed(v, text), techs, maxSelection, freshId, now)
  {
  }

  /** The picker as a component: its state and the handlers that change it. */
  class TechnicianPicker {
    var view: View
    const maxSelection: nat

    /** A picker over the given selection, with an empty input and no highlight. */
    constructor (selectedIds: seq<Id>, maxSelection: nat)
      ensures view == View(selectedIds, [], false, -1, false)
      ensures this.maxSelection == maxSelection
    {
      view := View(selectedIds, [], false, -1, false);
      this.maxSelection := maxSelection;
    }

    method SelectTechnician(tech: Technician)
      modifies this
      ensures view == Selected(old(view), tech, maxSelection)
      ensures old(WithinCap(view, maxSelection)) ==> WithinCap(view, maxSelection)
    {
      SelectedLaws(view, tech, maxSelection);
      view := Selected(view, tech, maxSelection);
    }

    method RemoveTechnician(id: Id)
      modifies this
      ensures view == Removed(old(view), id)
      ensures id !in view.selectedIds
    {
      view := Removed(view, id);
    }

    method CreateAndSelect(techs: Table<Technician>, freshId: Id, now: Timestamp) returns (after: Table<Technician>)
      requires Technicians.WellKeyed(techs) && freshId !in techs.entries
      modifies this
      ensures Outcome(view, after) == Created(old(view), techs, maxSelection, freshId, now)
      ensures old(NoDuplicates(view.selectedIds)) ==> NoDuplicates(view.selectedIds)
    {
      CreatedLaws(view, techs, maxSelection, freshId, now);
      var o := Created(view, techs, maxSelection, freshId, now);
      view, after := o.view, o.techs;
    }

    method HandleKeyDown(key: Key, techs: Table<Technician>, freshId: Id, now: Timestamp) returns (after: Table<Technician>)
      requires Technicians.WellKeyed(techs) && freshId !in techs.entries
      modifies this
      ensures Outcome(view, after) == KeyDown(old(view), key, techs, maxSelection, freshId, now)
      ensures old(WithinCap(view, maxSelection)) ==> WithinCap(view, maxSelection)
      ensures old(NoDuplicates(view.selectedIds)) ==> NoDuplicates(view.selectedIds)
    {
      KeyDownLaws(view, key, techs, maxSelection, freshId, now);
      var o := KeyDown(view, key, techs, maxSelection, freshId, now);
      view, after := o.view, o.techs;
    }

    method InputChanged(text: string)
      modifies this
      ensures view == Typed(old(view), text)
    {
      view := Typed(view, text);
    }
  }
}
