/** The store: four id-keyed tables and the technician filter, with the actions that
  * change them. Each action replaces the tables it touches by the function of the old
  * tables that the modules `Interventions`, `Technicians` and `Keywords` define. */
module Store {
  import opened Wrappers
  import opened Seqs
  import opened Tables
  import opened Types
  import Keywords
  import Technicians
  import Interventions

  /** The task keywords a new store starts with. */
  const DefaultTaskKeywords: seq<Keyword> := [
    Keyword("default-1", "Installation chauffe-eau", Some("ICE"), 0, Some(true)),
    Keyword("default-2", "Réparation fuite", Some("RF"), 0, Some(true)),
    Keyword("default-3", "Entretien chaudière", Some("EC"), 0, Some(true)),
    Keyword("default-4", "Débouchage canalisation", Some("DC"), 0, Some(true)),
    Keyword("default-5", "Installation radiateur", Some("IR"), 0, Some(true)),
    Keyword("default-6", "Remplacement robinetterie", Some("RR"), 0, Some(true)),
    Keyword("default-7", "Diagnostic panne", Some("DP"), 0, Some(true)),
    Keyword("default-8", "Mise en service", Some("MES"), 0, Some(true))
  ]

  /** The equipment keywords a new store starts with. */
  const DefaultEquipmentKeywords: seq<Keyword> := [
    Keyword("equip-1", "Chauffe-eau", Some("CE"), 0, Some(true)),
    Keyword("equip-2", "Radiateur", Some("RAD"), 0, Some(true)),
    Keyword("equip-3", "Robinet", Some("ROB"), 0, Some(true)),
    Keyword("equip-4", "Tuyauterie", Some("TUY"), 0, Some(true)),
    Keyword("equip-5", "Joints", Some("JT"), 0, Some(true)),
    Keyword("equip-6", "Pompe", Some("PMP"), 0, Some(true)),
    Keyword("equip-7", "Outillage standard", Some("OUT"), 0, Some(true)),
    Keyword("equip-8", "Déboucheur", Some("DEB"), 0, Some(true))
  ]

  /** `toggleTechnicianFilter(id)`: drops every occurrence of a selected id, appends
    * one that is not selected. */
  function Toggled(filters: seq<Id>, id: Id): (r: seq<Id>)
    ensures id in r <==> id !in filters
    ensures forall k :: k != id ==> (k in r <==> k in filters)
  {
    if id in filters then RemoveAll(filters, id) else filters + [id]
  }

  /** Toggling never introduces a duplicate id. */
  lemma ToggledDistinct(filters: seq<Id>, id: Id)
    requires NoDuplicates(filters)
    ensures NoDuplicates(Toggled(filters, id))
  {
    if id in filters {
      RemoveAllKeepsDistinct(filters, id);
    }
  }

  /** Toggling an unselected id twice gives back the selection as it was. */
  lemma ToggleTwice(filters: seq<Id>, id: Id)
    requires id !in filters
    ensures Toggled(Toggled(filters, id), id) == filters
  {
    RemoveAllAppended(filters, id);
  }

  /** The empty tables are well formed, and an empty technician table has only palette
    * colours. */
  lemma EmptyTablesValid()
    ensures Interventions.WellKeyed(Empty())
    ensures Technicians.WellKeyed(Empty()) && Technicians.PaletteColors(Empty())
  {
  }

  /** One keyword table, with the actions of `addTaskKeyword` ... `incrementTaskKeywordUsage`
    * (and their equipment twins). */
  class KeywordDictionary {
    var table: Table<Keyword>

    ghost predicate Valid()
      reads this
    {
      Keywords.WellKeyed(table)
    }

    constructor (initial: Table<Keyword>)
      requires Keywords.WellKeyed(initial)
      ensures Valid() && table == initial
    {
      table := initial;
    }

    /** `addTaskKeyword(text, shortcut)`. */
    method Add(text: string, shortcut: Option<string>, freshId: Id) returns (k: Keyword)
      requires Valid() && freshId !in table.entries
      modifies this
      ensures Valid() && Keywords.UsageKept(old(table), table)
      ensures table == Keywords.AddKeyword(old(table), text, shortcut, freshId).table
      ensures k == Keywords.AddKeyword(old(table), text, shortcut, freshId).keyword
    {
      var added := Keywords.AddKeyword(table, text, shortcut, freshId);
      table, k := added.table, added.keyword;
    }

    /** `getOrCreateTaskKeyword(text, shortcut)`. */
    method GetOrCreate(text: string, shortcut: Option<string>, freshId: Id) returns (k: Keyword)
      requires Valid() && freshId !in table.entries
      modifies this
      ensures Valid() && Keywords.UsageKept(old(table), table)
      ensures table == Keywords.GetOrCreateKeyword(old(table), text, shortcut, freshId).table
      ensures k == Keywords.GetOrCreateKeyword(old(table), text, shortcut, freshId).keyword
      ensures k.id in table.entries
    {
      var added := Keywords.GetOrCreateKeyword(table, text, shortcut, freshId);
      table, k := added.table, added.keyword;
    }

    /** `updateTaskKeyword(id, { text, shortcut })`. */
    method Update(id: Id, text: Option<string>, shortcut: Option<string>)
      requires Valid()
      modifies this
      ensures Valid() && Keywords.UsageKept(old(table), table)
      ensures table == Keywords.UpdateKeyword(old(table), id, text, shortcut)
    {
      table := Keywords.UpdateKeyword(table, id, text, shortcut);
    }

    /** `deleteTaskKeyword(id)`. */
    method Delete(id: Id)
      requires Valid()
      modifies this
      ensures Valid() && Keywords.UsageKept(old(table), table)
      ensures table == Keywords.DeleteKeyword(old(table), id)
    {
      table := Keywords.DeleteKeyword(table, id);
    }

    /** `incrementTaskKeywordUsage(getOrCreateTaskKeyword(text).id)`, as
      * `createIntervention` does it. */
    method RecordUse(text: string, freshId: Id)
      requires Valid() && freshId !in table.entries
      modifies this
      ensures Valid() && Keywords.UsageKept(old(table), table)
      ensures table == Keywords.RecordUse(old(table), text, freshId)
    {
      var keyword := GetOrCreate(text, None, freshId);
      IncrementUsage(keyword.id);
    }

    /** `incrementTaskKeywordUsage(id)`. */
    method IncrementUsage(id: Id)
      requires Valid()
      modifies this
      ensures Valid() && Keywords.UsageKept(old(table), table)
      ensures table == Keywords.IncrementKeyword(old(table), id)
    {
      table := Keywords.IncrementKeyword(table, id);
    }
  }

  class Store {
    var interventions: Table<Intervention>
    var technicians: Table<Technician>
    const taskKeywords: KeywordDictionary
    const equipmentKeywords: KeywordDictionary
    var selectedTechnicianFilters: seq<Id>

    /** The invariants the actions keep: tables keyed by their records' ids, palette-only
      * technician colours, and two distinct keyword dictionaries. */
    ghost predicate Valid()
      reads this, taskKeywords, equipmentKeywords
    {
      && taskKeywords != equipmentKeywords
      && taskKeywords.Valid() && equipmentKeywords.Valid()
      && Interventions.WellKeyed(interventions)
      && Technicians.WellKeyed(technicians)
      && Technicians.PaletteColors(technicians)
    }

    /** The initial state: no interventions, no technicians, the default keywords and no
      * filter. */
    constructor ()
      ensures Valid()
      ensures interventions == Empty() && technicians == Empty() && selectedTechnicianFilters == []
      ensures taskKeywords.table == Keywords.Dictionary(DefaultTaskKeywords)
      ensures equipmentKeywords.table == Keywords.Dictionary(DefaultEquipmentKeywords)
      ensures fresh(taskKeywords) && fresh(equipmentKeywords)
    {
      var task := Keywords.Dictionary(DefaultTaskKeywords);
      var equipment := Keywords.Dictionary(DefaultEquipmentKeywords);
      taskKeywords := new KeywordDictionary(task);
      equipmentKeywords := new KeywordDictionary(equipment);
      interventions := Empty();
      technicians := Empty();
      selectedTechnicianFilters := [];
      EmptyTablesValid();
    }

    /** `setTechnicianFilters(ids)`. */
    method SetTechnicianFilters(ids: seq<Id>)
      requires Valid()
      modifies this
      ensures Valid() && selectedTechnicianFilters == ids
      ensures interventions == old(interventions) && technicians == old(technicians)
    {
      selectedTechnicianFilters := ids;
    }

    /** `toggleTechnicianFilter(id)`. */
    method ToggleTechnicianFilter(id: Id)
      requires Valid()
      modifies this
      ensures Valid() && selectedTechnicianFilters == Toggled(old(selectedTechnicianFilters), id)
      ensures interventions == old(interventions) && technicians == old(technicians)
    {
      selectedTechnicianFilters := Toggled(selectedTechnicianFilters, id);
    }

    /** `clearTechnicianFilters()`. */
    method ClearTechnicianFilters()
      requires Valid()
      modifies this
      ensures Valid() && selectedTechnicianFilters == []
      ensures interventions == old(interventions) && technicians == old(technicians)
    {
      selectedTechnicianFilters := [];
    }

    /** `createIntervention(data)`. Beyond four technicians nothing changes. Otherwise the
      * intervention is stored under `freshId`, each listed technician's usage count goes up
      * once per listing (unknown ids are skipped), and a non-empty task text and a
      * non-empty equipment each count one use of their keyword, created when missing
      * under `taskKeywordId` or `equipmentKeywordId`. */
    method CreateIntervention(d: InterventionData, freshId: Id, now: Timestamp,
                              taskKeywordId: Id, equipmentKeywordId: Id)
      requires Valid()
      requires freshId !in interventions.entries
      requires taskKeywordId !in taskKeywords.table.entries
      requires equipmentKeywordId !in equipmentKeywords.table.entries
      modifies this, taskKeywords, equipmentKeywords
      ensures Valid()
      ensures interventions == if |d.technicianIds| > MaxTechnicians then old(interventions)
                               else Interventions.CreateIntervention(old(interventions), d, freshId, now)
      ensures technicians == if |d.technicianIds| > MaxTechnicians then old(technicians)
                             else Technicians.CountUses(old(technicians), d.technicianIds)
      ensures taskKeywords.table == if |d.technicianIds| <= MaxTechnicians && d.taskText != []
                                    then Keywords.RecordUse(old(taskKeywords.table), d.taskText, taskKeywordId)
                                    else old(taskKeywords.table)
      ensures equipmentKeywords.table == if |d.technicianIds| <= MaxTechnicians && d.equipment.Some? && d.equipment.value != []
                                         then Keywords.RecordUse(old(equipmentKeywords.table), d.equipment.value, equipmentKeywordId)
                                         else old(equipmentKeywords.table)
      ensures selectedTechnicianFilters == old(selectedTechnicianFilters)
    {
      if |d.technicianIds| > MaxTechnicians {
        return;
      }
      interventions := Interventions.CreateIntervention(interventions, d, freshId, now);
      CountTechnicianUses(d.technicianIds);
      if d.taskText != [] {
        taskKeywords.RecordUse(d.taskText, taskKeywordId);
      }
      if d.equipment.Some? && d.equipment.value != [] {
        equipmentKeywords.RecordUse(d.equipment.value, equipmentKeywordId);
      }
    }

    /** `data.technicianIds.forEach((techId) => incrementTechnicianUsage(techId))`. */
    method CountTechnicianUses(ids: seq<Id>)
      requires Valid()
      modifies this
      ensures Valid()
      ensures technicians == Technicians.CountUses(old(technicians), ids)
      ensures forall k :: k in old(technicians.entries) ==>
        technicians.entries[k] == old(technicians.entries[k]).(usageCount :=
          old(technicians.entries[k]).usageCount + multiset(ids)[k])
      ensures Technicians.UsageKept(old(technicians), technicians)
      ensures interventions == old(interventions)
      ensures selectedTechnicianFilters == old(selectedTechnicianFilters)
    {
      var i := 0;
      while i < |ids|
        invariant 0 <= i <= |ids|
        invariant Valid()
        invariant technicians == Technicians.CountUses(old(technicians), ids[..i])
        invariant interventions == old(interventions)
        invariant selectedTechnicianFilters == old(selectedTechnicianFilters)
      {
        assert ids[..i + 1][..i] == ids[..i];
        IncrementTechnicianUsage(ids[i]);
        i := i + 1;
      }
      assert ids[..i] == ids;
      Technicians.CountUsesCounts(old(technicians), ids);
    }

    /** `updateIntervention(id, data)`: only the intervention table can change. */
    method UpdateIntervention(id: Id, p: InterventionPatch, now: Timestamp)
      requires Valid()
      modifies this
      ensures Valid()
      ensures interventions == Interventions.UpdateIntervention(old(interventions), id, p, now)
      ensures technicians == old(technicians) && selectedTechnicianFilters == old(selectedTechnicianFilters)
    {
      interventions := Interventions.UpdateIntervention(interventions, id, p, now);
    }

    /** `deleteIntervention(id)`: usage counts stay as they are. */
    method DeleteIntervention(id: Id)
      requires Valid()
      modifies this
      ensures Valid()
      ensures interventions == Interventions.DeleteIntervention(old(interventions), id)
      ensures technicians == old(technicians) && selectedTechnicianFilters == old(selectedTechnicianFilters)
    {
      interventions := Interventions.DeleteIntervention(interventions, id);
    }

    /** `addTechnician(name, color)`. */
    method AddTechnician(name: string, color: string, freshId: Id, now: Timestamp) returns (x: Technician)
      requires Valid() && freshId !in technicians.entries
      modifies this
      ensures Valid() && Technicians.UsageKept(old(technicians), technicians)
      ensures technicians == Technicians.AddTechnician(old(technicians), name, color, freshId, now).table
      ensures x == Technicians.AddTechnician(old(technicians), name, color, freshId, now).technician
      ensures interventions == old(interventions) && selectedTechnicianFilters == old(selectedTechnicianFilters)
    {
      var added := Technicians.AddTechnician(technicians, name, color, freshId, now);
      Technicians.AddTechnicianPalette(technicians, name, color, freshId, now);
      technicians, x := added.table, added.technician;
    }

    /** `getOrCreateTechnician(name)`. */
    method GetOrCreateTechnician(name: string, freshId: Id, now: Timestamp) returns (x: Technician)
      requires Valid() && freshId !in technicians.entries
      modifies this
      ensures Valid() && Technicians.UsageKept(old(technicians), technicians)
      ensures technicians == Technicians.GetOrCreateTechnician(old(technicians), name, freshId, now).table
      ensures x == Technicians.GetOrCreateTechnician(old(technicians), name, freshId, now).technician
      ensures x.id in technicians.entries
      ensures interventions == old(interventions) && selectedTechnicianFilters == old(selectedTechnicianFilters)
    {
      var added := Technicians.GetOrCreateTechnician(technicians, name, freshId, now);
      Technicians.AddTechnicianPalette(technicians, name, Technicians.NextAutoColor(technicians), freshId, now);
      technicians, x := added.table, added.technician;
    }

    /** `updateTechnician(id, { name, color })`, with the colour guard refusing every
      * colour outside the palette. */
    method UpdateTechnician(id: Id, name: Option<string>, color: Option<string>, now: Timestamp)
      requires Valid()
      modifies this
      ensures Valid() && Technicians.UsageKept(old(technicians), technicians)
      ensures technicians == Technicians.UpdateTechnician(old(technicians), id, name, color, now)
      ensures interventions == old(interventions) && selectedTechnicianFilters == old(selectedTechnicianFilters)
    {
      technicians := Technicians.UpdateTechnician(technicians, id, name, color, now);
    }

    /** `deactivateTechnician(id)`: a known technician is marked inactive and leaves the
      * filter; an unknown id changes nothing. */
    method DeactivateTechnician(id: Id, now: Timestamp)
      requires Valid()
      modifies this
      ensures Valid() && Technicians.UsageKept(old(technicians), technicians)
      ensures technicians == Technicians.SetActive(old(technicians), id, false, now)
      ensures selectedTechnicianFilters ==
        if id in old(technicians.entries) then RemoveAll(old(selectedTechnicianFilters), id)
        else old(selectedTechnicianFilters)
      ensures interventions == old(interventions)
    {
      if id in technicians.entries {
        selectedTechnicianFilters := RemoveAll(selectedTechnicianFilters, id);
      }
      technicians := Technicians.SetActive(technicians, id, false, now);
    }

    /** `reactivateTechnician(id)`: the filter is left as it is. */
    method ReactivateTechnician(id: Id, now: Timestamp)
      requires Valid()
      modifies this
      ensures Valid() && Technicians.UsageKept(old(technicians), technicians)
      ensures technicians == Technicians.SetActive(old(technicians), id, true, now)
      ensures interventions == old(interventions) && selectedTechnicianFilters == old(selectedTechnicianFilters)
    {
      technicians := Technicians.SetActive(technicians, id, true, now);
    }

    /** `incrementTechnicianUsage(id)`. */
    method IncrementTechnicianUsage(id: Id)
      requires Valid()
      modifies this
      ensures Valid() && Technicians.UsageKept(old(technicians), technicians)
      ensures technicians == Technicians.IncrementTechnician(old(technicians), id)
      ensures interventions == old(interventions) && selectedTechnicianFilters == old(selectedTechnicianFilters)
    {
      technicians := Technicians.IncrementTechnician(technicians, id);
    }
  }
}
