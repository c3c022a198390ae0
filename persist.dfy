/** The `merge` step of the persisted store: how a saved state, possibly written by an
  * older version of the app, is combined with the initial state on load. */
module Persist {
  import opened Wrappers
  import opened Seqs
  import opened Tables
  import opened Types
  import opened Colors
  import Keywords
  import Technicians
  import Store

  /** A technician as an older version may have saved it: colour, activity and
    * timestamps may be missing. */
  datatype SavedTechnician = SavedTechnician(
    id: Id,
    name: string,
    color: Option<string>,
    isActive: Option<bool>,
    usageCount: nat,
    createdAt: Option<Timestamp>,
    updatedAt: Option<Timestamp>)

  /** The saved part of the state (`partialize`); each key may be absent. */
  datatype Saved = Saved(
    interventions: Option<Table<Intervention>>,
    technicians: Option<Table<SavedTechnician>>,
    taskKeywords: Option<Table<Keyword>>,
    equipmentKeywords: Option<Table<Keyword>>,
    selectedTechnicianFilters: Option<seq<Id>>)

  /** The data part of the store's state. */
  datatype State = State(
    interventions: Table<Intervention>,
    technicians: Table<Technician>,
    taskKeywords: Table<Keyword>,
    equipmentKeywords: Table<Keyword>,
    selectedTechnicianFilters: seq<Id>)

  /** One step of the migration loop, for the technician at position `index`: a missing,
    * empty or non-palette colour becomes `getAutoColor(index)`, a missing activity flag
    * becomes true and a missing timestamp becomes `now`. */
  function Migrated(x: SavedTechnician, index: nat, now: Timestamp): Technician {
    Technician(
      x.id,
      x.name,
      if x.color.Some? && x.color.value != [] && IsValidPaletteColor(x.color.value)
      then x.color.value else GetAutoColor(index),
      x.isActive.GetOr(true),
      x.usageCount,
      x.createdAt.GetOr(now),
      x.updatedAt.GetOr(now))
  }

  /** The migrated technician table: same keys in the same order, each record migrated
    * with its position. */
  function Migration(saved: Table<SavedTechnician>, now: Timestamp): (t: Table<Technician>)
    requires saved.Valid()
    ensures t.order == saved.order && t.entries.Keys == saved.entries.Keys
  {
    Table(saved.order, map k | k in saved.entries :: Migrated(saved.entries[k], Position(saved.order, k), now))
  }

  /** The loop `for (const id in technicians) { ...; index++ }`. */
  method MigrateTechnicians(saved: Table<SavedTechnician>, now: Timestamp) returns (t: Table<Technician>)
    requires saved.Valid()
    ensures t == Migration(saved, now)
  {
    var entries: map<Id, Technician> := map[];
    var index := 0;
    while index < |saved.order|
      invariant 0 <= index <= |saved.order|
      invariant forall i :: 0 <= i < index ==> saved.order[i] in entries
      invariant forall k :: k in entries ==>
        && k in saved.entries && Position(saved.order, k) < index
        && entries[k] == Migrated(saved.entries[k], Position(saved.order, k), now)
    {
      var id := saved.order[index];
      PositionOf(saved.order, index);
      entries := entries[id := Migrated(saved.entries[id], index, now)];
      index := index + 1;
    }
    var m := Migration(saved, now);
    assert entries.Keys == m.entries.Keys by {
      forall k | k in m.entries ensures k in entries {
        var i := Position(saved.order, k);
        assert saved.order[i] == k;
      }
    }
    t := Table(saved.order, entries);
  }

  /** After migration every technician is well formed: a palette colour (kept when it
    * already was one, `getAutoColor` of its position otherwise), an activity flag that
    * defaults to active, and the rest of the saved record. */
  lemma MigrationLaws(saved: Table<SavedTechnician>, now: Timestamp)
    requires saved.Valid()
    ensures Migration(saved, now).Valid()
    ensures Technicians.PaletteColors(Migration(saved, now))
    ensures (forall k :: k in saved.entries ==> saved.entries[k].id == k) ==> Technicians.WellKeyed(Migration(saved, now))
  {
  }

  /** The technician at position `i` after migration: its colour is kept when it already
    * was a palette colour and is `getAutoColor(i)` otherwise, its activity flag defaults
    * to active, and its id, name and usage count are the saved ones. */
  lemma MigrationAt(saved: Table<SavedTechnician>, now: Timestamp, i: nat)
    requires saved.Valid() && i < |saved.order|
    ensures var x, y := saved.entries[saved.order[i]], Migration(saved, now).entries[saved.order[i]];
      && y.color == (if x.color.Some? && IsValidPaletteColor(x.color.value) then x.color.value else GetAutoColor(i))
      && y.isActive == x.isActive.GetOr(true)
      && y.id == x.id && y.name == x.name && y.usageCount == x.usageCount
      && y.createdAt == x.createdAt.GetOr(now) && y.updatedAt == x.updatedAt.GetOr(now)
  {
    assert saved.order[i] in saved.order;
    PositionOf(saved.order, i);
    if saved.entries[saved.order[i]].color == Some([]) {
      forall k | 0 <= k < |Palette| ensures Palette[k].hex != [] {
        PaletteNonEmpty(k);
      }
    }
  }

  /** `{ ...defaultKeywordsMap, ...(saved || {}) }`: the default keywords keyed by id,
    * overlaid with the saved table when there is one. */
  function Overlay(defaults: seq<Keyword>, saved: Option<Table<Keyword>>): (r: Table<Keyword>)
    requires saved.Some? ==> saved.value.Valid()
    ensures r.Valid()
    ensures forall i :: 0 <= i < |defaults| ==> defaults[i].id in r.entries
    ensures saved.Some? ==> forall k :: k in saved.value.entries ==>
      k in r.entries && r.entries[k] == saved.value.entries[k]
    ensures forall k :: k in r.entries && (saved.None? || k !in saved.value.entries) ==>
      r.entries[k] in defaults && r.entries[k].id == k
  {
    var base := Keywords.Dictionary(defaults);
    Keywords.DictionaryLaws(defaults);
    Spread(base, saved.GetOr(Empty()))
  }

  /** `merge(persisted, current)`: saved keys win over the current state, the technicians
    * are the migrated saved ones (none when nothing was saved), and each keyword table is
    * the defaults overlaid with the saved keywords. */
  method Merge(saved: Saved, current: State, now: Timestamp) returns (r: State)
    requires saved.technicians.Some? ==> saved.technicians.value.Valid()
    requires saved.taskKeywords.Some? ==> saved.taskKeywords.value.Valid()
    requires saved.equipmentKeywords.Some? ==> saved.equipmentKeywords.value.Valid()
    ensures r.interventions == saved.interventions.GetOr(current.interventions)
    ensures r.selectedTechnicianFilters == saved.selectedTechnicianFilters.GetOr(current.selectedTechnicianFilters)
    ensures r.technicians == Migration(saved.technicians.GetOr(Empty()), now)
    ensures r.taskKeywords == Overlay(Store.DefaultTaskKeywords, saved.taskKeywords)
    ensures r.equipmentKeywords == Overlay(Store.DefaultEquipmentKeywords, saved.equipmentKeywords)
    ensures r.technicians.Valid() && Technicians.PaletteColors(r.technicians)
  {
    var technicians := MigrateTechnicians(saved.technicians.GetOr(Empty()), now);
    MigrationLaws(saved.technicians.GetOr(Empty()), now);
    r := State(
      saved.interventions.GetOr(current.interventions),
      technicians,
      Overlay(Store.DefaultTaskKeywords, saved.taskKeywords),
      Overlay(Store.DefaultEquipmentKeywords, saved.equipmentKeywords),
      saved.selectedTechnicianFilters.GetOr(current.selectedTechnicianFilters));
  }
}
