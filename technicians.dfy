/** The technician actions of the store, as functions of the technician table. */
module Technicians {
  import opened Wrappers
  import opened Seqs
  import opened Text
  import opened Tables
  import opened Types
  import opened Colors

  /** Every entry is stored under its own id. */
  ghost predicate WellKeyed(t: Table<Technician>) {
    t.Valid() && forall id :: id in t.entries ==> t.entries[id].id == id
  }

  /** Every technician wears a palette colour. */
  ghost predicate PaletteColors(t: Table<Technician>) {
    forall id :: id in t.entries ==> IsValidPaletteColor(t.entries[id].color)
  }

  /** No technician's usage count went down, among those still present. */
  ghost predicate UsageKept(before: Table<Technician>, after: Table<Technician>) {
    forall id :: id in before.entries && id in after.entries ==>
      after.entries[id].usageCount >= before.entries[id].usageCount
  }

  function NameMatcher(name: string): Technician -> bool {
    (x: Technician) => ToLower(x.name) == ToLower(Trim(name))
  }

  /** The lookup of `addTechnician` and `getOrCreateTechnician`: the first technician,
    * in insertion order, whose lower-cased name is the trimmed, lower-cased input. */
  function FindTechnician(t: Table<Technician>, name: string): (r: Option<Technician>)
    requires t.Valid()
    ensures r.None? <==> forall x :: x in t.Values() ==> ToLower(x.name) != ToLower(Trim(name))
    ensures r.Some? ==> r.value in t.Values() && ToLower(r.value.name) == ToLower(Trim(name))
  {
    Find(t.Values(), NameMatcher(name))
  }

  lemma ValueStored(t: Table<Technician>, x: Technician)
    requires WellKeyed(t) && x in t.Values()
    ensures x.id in t.entries && t.entries[x.id] == x
  {
    var i :| 0 <= i < |t.Values()| && t.Values()[i] == x;
    assert t.order[i] in t.order;
  }

  /** The colours in table order: `Object.values(technicians).map((t) => t.color)`. */
  function ColorsOf(t: Table<Technician>): seq<string>
    requires t.Valid()
  {
    seq(|t.order|, i requires 0 <= i < |t.order| => t.Values()[i].color)
  }

  /** How many technicians wear `hex`. */
  function UsedCount(t: Table<Technician>, hex: string): nat
    requires t.Valid()
  {
    multiset(ColorsOf(t))[hex]
  }

  datatype ColorCount = ColorCount(color: string, count: nat)

  /** `usedColorCounts` before sorting: one entry per palette colour, in palette order. */
  function ColorCounts(t: Table<Technician>): (cs: seq<ColorCount>)
    requires t.Valid()
    ensures |cs| == |Palette|
    ensures forall k :: 0 <= k < |Palette| ==> cs[k] == ColorCount(Palette[k].hex, UsedCount(t, Palette[k].hex))
  {
    seq(|Palette|, k requires 0 <= k < |Palette| => ColorCount(Palette[k].hex, UsedCount(t, Palette[k].hex)))
  }

  /** `(a, b) => a.count - b.count`, as "a may come before b". */
  predicate CountLe(a: ColorCount, b: ColorCount) {
    a.count <= b.count
  }

  /** `getNextAutoColor()`: the first entry of the counts after a stable sort. */
  function NextAutoColor(t: Table<Technician>): (c: string)
    requires t.Valid()
    ensures IsValidPaletteColor(c)
  {
    var sorted := SortBy(ColorCounts(t), CountLe);
    HeadIsPaletteColor(t);
    if |sorted| > 0 && sorted[0].color != [] then sorted[0].color else GetAutoColor(0)
  }

  /** The palette position of a palette colour. */
  function PaletteIndex(hex: string): int {
    if exists k :: 0 <= k < |Palette| && Palette[k].hex == hex then
      var k :| 0 <= k < |Palette| && Palette[k].hex == hex; k
    else -1
  }

  lemma PaletteIndexOf(k: nat)
    requires k < |Palette|
    ensures PaletteIndex(Palette[k].hex) == k
  {
    PaletteDistinct();
  }

  /** The head of the sorted counts is the entry of some palette colour. */
  lemma SortedHead(t: Table<Technician>) returns (k: nat)
    requires t.Valid()
    ensures k < |Palette| && SortBy(ColorCounts(t), CountLe)[0] == ColorCounts(t)[k]
  {
    var cs := ColorCounts(t);
    assert SortBy(cs, CountLe)[0] in multiset(cs);
    k :| 0 <= k < |cs| && cs[k] == SortBy(cs, CountLe)[0];
  }

  lemma HeadIsPaletteColor(t: Table<Technician>)
    requires t.Valid()
    ensures IsValidPaletteColor(SortBy(ColorCounts(t), CountLe)[0].color)
  {
    var k := SortedHead(t);
    assert Palette[k].hex == SortBy(ColorCounts(t), CountLe)[0].color;
  }

  lemma NextAutoColorIndex(t: Table<Technician>) returns (k: nat)
    requires t.Valid()
    ensures k < |Palette| && SortBy(ColorCounts(t), CountLe)[0] == ColorCounts(t)[k]
    ensures NextAutoColor(t) == Palette[k].hex && PaletteIndex(NextAutoColor(t)) == k
  {
    k := SortedHead(t);
    PaletteIndexOf(k);
    PaletteNonEmpty(k);
  }

  /** Every entry of the counts sits somewhere in the sorted counts. */
  lemma SortedPosition(t: Table<Technician>, j: nat) returns (p: nat)
    requires t.Valid() && j < |Palette|
    ensures p < |Palette| && SortBy(ColorCounts(t), CountLe)[p] == ColorCounts(t)[j]
  {
    var cs := ColorCounts(t);
    assert cs[j] in multiset(SortBy(cs, CountLe));
    p :| 0 <= p < |cs| && SortBy(cs, CountLe)[p] == cs[j];
  }

  /** The automatic colour is a least-used palette colour. */
  lemma NextAutoColorLeast(t: Table<Technician>)
    requires t.Valid()
    ensures 0 <= PaletteIndex(NextAutoColor(t)) < |Palette|
    ensures Palette[PaletteIndex(NextAutoColor(t))].hex == NextAutoColor(t)
    ensures forall j :: 0 <= j < |Palette| ==> UsedCount(t, Palette[j].hex) >= UsedCount(t, NextAutoColor(t))
  {
    var cs := ColorCounts(t);
    var sorted := SortBy(cs, CountLe);
    SortBySorted(cs, CountLe);
    var k := NextAutoColorIndex(t);
    forall j | 0 <= j < |Palette| ensures UsedCount(t, Palette[j].hex) >= cs[k].count {
      var p := SortedPosition(t, j);
      if p > 0 {
        assert CountLe(sorted[0], sorted[p]);
      }
    }
  }

  /** Ties go to palette order: every palette colour listed before the automatic colour
    * is strictly more used. */
  lemma NextAutoColorFirstOfLeast(t: Table<Technician>)
    requires t.Valid()
    ensures forall j :: 0 <= j < PaletteIndex(NextAutoColor(t)) ==>
      UsedCount(t, Palette[j].hex) > UsedCount(t, NextAutoColor(t))
  {
    var cs := ColorCounts(t);
    var sorted := SortBy(cs, CountLe);
    var rank := (c: ColorCount) => PaletteIndex(c.color);
    SortBySorted(cs, CountLe);
    forall i, j | 0 <= i < j < |cs| ensures rank(cs[i]) < rank(cs[j]) {
      PaletteIndexOf(i);
      PaletteIndexOf(j);
    }
    SortByStable(cs, CountLe, rank);
    var k := NextAutoColorIndex(t);
    forall j | 0 <= j < k ensures UsedCount(t, Palette[j].hex) > cs[k].count {
      PaletteIndexOf(j);
      var p := SortedPosition(t, j);
      assert p != 0;
      assert CountLe(sorted[0], sorted[p]);
      assert rank(sorted[p]) == j && rank(sorted[0]) == k;
      assert !CountLe(sorted[p], sorted[0]);
    }
  }

  datatype AddedTechnician = AddedTechnician(table: Table<Technician>, technician: Technician)

  /** `addTechnician(name, color)`, with `freshId` for the uuid and `now` for the clock. */
  function AddTechnician(t: Table<Technician>, name: string, color: string, freshId: Id, now: Timestamp)
    : (r: AddedTechnician)
    requires WellKeyed(t) && freshId !in t.entries
    ensures WellKeyed(r.table)
    ensures forall id :: id in t.entries ==> id in r.table.entries && r.table.entries[id] == t.entries[id]
    ensures r.technician.id in r.table.entries && r.table.entries[r.technician.id] == r.technician
    ensures FindTechnician(t, name).Some? ==> r.table == t && Some(r.technician) == FindTechnician(t, name)
    ensures FindTechnician(t, name).None? ==>
      var x := r.technician;
      && r.table.order == t.order + [freshId] && x.id == freshId
      && x.name == Trim(name) && x.isActive && x.usageCount == 0
      && x.createdAt == now && x.updatedAt == now
      && IsValidPaletteColor(x.color)
      && x.color == (if IsValidPaletteColor(color) then color else NextAutoColor(t))
  {
    match FindTechnician(t, name)
    case Some(existing) =>
      ValueStored(t, existing);
      AddedTechnician(t, existing)
    case None =>
      var c := if IsValidPaletteColor(color) then color else NextAutoColor(t);
      var x := Technician(freshId, Trim(name), c, true, 0, now, now);
      PutValid(t, freshId, x);
      AddedTechnician(t.Put(freshId, x), x)
  }

  /** Adding keeps every colour in the palette. */
  lemma AddTechnicianPalette(t: Table<Technician>, name: string, color: string, freshId: Id, now: Timestamp)
    requires WellKeyed(t) && freshId !in t.entries && PaletteColors(t)
    ensures PaletteColors(AddTechnician(t, name, color, freshId, now).table)
  {
  }

  /** `getOrCreateTechnician(name)`: an existing technician with that name, or a new one
    * wearing the automatic colour. */
  function GetOrCreateTechnician(t: Table<Technician>, name: string, freshId: Id, now: Timestamp)
    : (r: AddedTechnician)
    requires WellKeyed(t) && freshId !in t.entries
    ensures r == AddTechnician(t, name, NextAutoColor(t), freshId, now)
    ensures FindTechnician(t, name).None? ==> r.technician.color == NextAutoColor(t)
  {
    match FindTechnician(t, name)
    case Some(existing) => AddedTechnician(t, existing)
    case None => AddTechnician(t, name, NextAutoColor(t), freshId, now)
  }

  /** The record `updateTechnician` writes once its guards pass. */
  function Edited(x: Technician, name: Option<string>, color: Option<string>, now: Timestamp): Technician {
    x.(name := name.GetOr(x.name), color := color.GetOr(x.color), updatedAt := now)
  }

  /** `updateTechnician(id, { name, color })` as written: the colour guard is
    * `data.color && !isValidPaletteColor(data.color)`, so an empty colour passes it. */
  function UpdateTechnicianAsWritten(t: Table<Technician>, id: Id, name: Option<string>,
                                     color: Option<string>, now: Timestamp): (r: Table<Technician>)
    requires WellKeyed(t)
    ensures WellKeyed(r) && r.order == t.order
    ensures id !in t.entries ==> r == t
    ensures color.Some? && color.value != [] && !IsValidPaletteColor(color.value) ==> r == t
    ensures forall k :: k in t.entries && k != id ==> r.entries[k] == t.entries[k]
    ensures id in t.entries && !(color.Some? && color.value != [] && !IsValidPaletteColor(color.value)) ==>
      && r.entries[id].name == name.GetOr(t.entries[id].name)
      && r.entries[id].color == color.GetOr(t.entries[id].color)
      && r.entries[id].updatedAt == now
      && r.entries[id].usageCount == t.entries[id].usageCount
      && r.entries[id].isActive == t.entries[id].isActive
      && r.entries[id].createdAt == t.entries[id].createdAt
  {
    if id !in t.entries then t
    else if color.Some? && color.value != [] && !IsValidPaletteColor(color.value) then t
    else
      PutValid(t, id, Edited(t.entries[id], name, color, now));
      t.Put(id, Edited(t.entries[id], name, color, now))
  }

  /** The guard as written lets `color: ""` through, leaving a technician with no
    * palette colour. */
  lemma UpdateTechnicianEmptyColor()
    ensures var x := Technician("t1", "Paul", "#E53935", true, 0, 0, 0);
            var t := Table(["t1"], map["t1" := x]);
            && WellKeyed(t) && PaletteColors(t)
            && !PaletteColors(UpdateTechnicianAsWritten(t, "t1", None, Some(""), 1))
  {
    var x := Technician("t1", "Paul", "#E53935", true, 0, 0, 0);
    var t := Table(["t1"], map["t1" := x]);
    PaletteCaseSensitive();
    var r := UpdateTechnicianAsWritten(t, "t1", None, Some(""), 1);
    assert r.entries["t1"].color == "";
    forall k | 0 <= k < |Palette| ensures Palette[k].hex != "" {
    }
  }

  /** `updateTechnician(id, { name, color })` with the guard the palette rule calls for:
    * any colour given that is not in the palette is refused. */
  function UpdateTechnician(t: Table<Technician>, id: Id, name: Option<string>,
                            color: Option<string>, now: Timestamp): (r: Table<Technician>)
    requires WellKeyed(t)
    ensures WellKeyed(r) && r.order == t.order
    ensures id !in t.entries ==> r == t
    ensures color.Some? && !IsValidPaletteColor(color.value) ==> r == t
    ensures forall j :: j in t.entries && j != id ==> r.entries[j] == t.entries[j]
    ensures id in t.entries && (color.None? || IsValidPaletteColor(color.value)) ==>
      && r.entries[id].name == name.GetOr(t.entries[id].name)
      && r.entries[id].color == color.GetOr(t.entries[id].color)
      && r.entries[id].updatedAt == now
      && r.entries[id].usageCount == t.entries[id].usageCount
      && r.entries[id].isActive == t.entries[id].isActive
      && r.entries[id].createdAt == t.entries[id].createdAt
    ensures PaletteColors(t) ==> PaletteColors(r)
  {
    if id !in t.entries then t
    else if color.Some? && !IsValidPaletteColor(color.value) then t
    else
      PutValid(t, id, Edited(t.entries[id], name, color, now));
      t.Put(id, Edited(t.entries[id], name, color, now))
  }

  /** `deactivateTechnician(id)` and `reactivateTechnician(id)` on the table. */
  function SetActive(t: Table<Technician>, id: Id, active: bool, now: Timestamp): (r: Table<Technician>)
    requires WellKeyed(t)
    ensures WellKeyed(r) && r.order == t.order
    ensures id !in t.entries ==> r == t
    ensures forall j :: j in t.entries && j != id ==> r.entries[j] == t.entries[j]
    ensures id in t.entries ==> r.entries[id] == t.entries[id].(isActive := active, updatedAt := now)
    ensures PaletteColors(t) ==> PaletteColors(r)
  {
    if id in t.entries then
      PutValid(t, id, t.entries[id].(isActive := active, updatedAt := now));
      t.Put(id, t.entries[id].(isActive := active, updatedAt := now))
    else t
  }

  /** `incrementTechnicianUsage(id)`. */
  function IncrementTechnician(t: Table<Technician>, id: Id): (r: Table<Technician>)
    requires WellKeyed(t)
    ensures WellKeyed(r) && r.order == t.order && r.entries.Keys == t.entries.Keys
    ensures id !in t.entries ==> r == t
    ensures forall j :: j in t.entries && j != id ==> r.entries[j] == t.entries[j]
    ensures id in t.entries ==> r.entries[id] == t.entries[id].(usageCount := t.entries[id].usageCount + 1)
    ensures PaletteColors(t) ==> PaletteColors(r)
  {
    if id in t.entries then
      PutValid(t, id, t.entries[id].(usageCount := t.entries[id].usageCount + 1));
      t.Put(id, t.entries[id].(usageCount := t.entries[id].usageCount + 1))
    else t
  }

  /** The technician table after counting one use for each id of `ids`, in order. */
  function CountUses(t: Table<Technician>, ids: seq<Id>): (r: Table<Technician>)
    requires WellKeyed(t)
    ensures WellKeyed(r) && r.order == t.order && r.entries.Keys == t.entries.Keys
    ensures PaletteColors(t) ==> PaletteColors(r)
    decreases |ids|
  {
    if ids == [] then t else IncrementTechnician(CountUses(t, ids[..|ids| - 1]), ids[|ids| - 1])
  }

  /** Each known technician gains one use per occurrence of its id; unknown ids change
    * nothing, and no other field moves. */
  lemma CountUsesCounts(t: Table<Technician>, ids: seq<Id>)
    requires WellKeyed(t)
    ensures forall k :: k in t.entries ==>
      CountUses(t, ids).entries[k] == t.entries[k].(usageCount := t.entries[k].usageCount + multiset(ids)[k])
  {
    forall k | k in t.entries
      ensures CountUses(t, ids).entries[k] == t.entries[k].(usageCount := t.entries[k].usageCount + multiset(ids)[k])
    {
      CountUsesAt(t, ids, k);
    }
  }

  lemma {:induction false} CountUsesAt(t: Table<Technician>, ids: seq<Id>, k: Id)
    requires WellKeyed(t) && k in t.entries
    ensures CountUses(t, ids).entries[k] == t.entries[k].(usageCount := t.entries[k].usageCount + multiset(ids)[k])
    decreases |ids|
  {
    if ids != [] {
      var front, last := ids[..|ids| - 1], ids[|ids| - 1];
      CountUsesAt(t, front, k);
      CountLast(ids, k);
    }
  }

  /** `(a, b) => b.usageCount - a.usageCount`, as "a may come before b". */
  predicate UsageLe(a: Technician, b: Technician) {
    a.usageCount >= b.usageCount
  }

  /** Sorting by usage keeps the technicians and orders them most used first. */
  lemma SortedByUsage(s: seq<Technician>)
    ensures forall x :: x in SortBy(s, UsageLe) <==> x in s
    ensures SortedBy(SortBy(s, UsageLe), UsageLe)
  {
    SortBySorted(s, UsageLe);
    assert forall x :: x in SortBy(s, UsageLe) <==> x in multiset(s);
  }

  predicate IsActive(x: Technician) {
    x.isActive
  }

  /** `getActiveTechnicians()`: the active technicians, most used first. */
  function ActiveTechnicians(t: Table<Technician>): (r: seq<Technician>)
    requires t.Valid()
    ensures forall x :: x in r <==> x in t.Values() && x.isActive
    ensures multiset(r) == multiset(Filter(t.Values(), IsActive))
    ensures SortedBy(r, UsageLe)
  {
    var active := Filter(t.Values(), IsActive);
    SortedByUsage(active);
    SortBy(active, UsageLe)
  }

  const TopLimit: nat := 5

  /** `getTopTechnicians(limit)`. */
  function TopTechnicians(t: Table<Technician>, limit: nat): (r: seq<Technician>)
    requires t.Valid()
    ensures r <= ActiveTechnicians(t)
    ensures |r| == if limit < |ActiveTechnicians(t)| then limit else |ActiveTechnicians(t)|
    ensures forall x :: x in r ==> x.isActive
  {
    Take(ActiveTechnicians(t), limit)
  }

  /** The search test for a normalised query `q`, as a value. */
  function NameMatches(q: string): Technician -> bool {
    (x: Technician) => x.isActive && Contains(ToLower(x.name), q)
  }

  /** `searchTechnicians(query)`: blank queries show the top five; otherwise the active
    * technicians whose lower-cased name contains the query, most used first. */
  function SearchTechnicians(t: Table<Technician>, query: string): (r: seq<Technician>)
    requires t.Valid()
    ensures Trim(ToLower(query)) == [] ==> r == TopTechnicians(t, TopLimit)
    ensures Trim(ToLower(query)) != [] ==>
      && (forall x :: x in r <==> x in t.Values() && x.isActive && Contains(ToLower(x.name), Trim(ToLower(query))))
      && multiset(r) == multiset(Filter(t.Values(), NameMatches(Trim(ToLower(query)))))
      && SortedBy(r, UsageLe)
  {
    var q := Trim(ToLower(query));
    if q == [] then TopTechnicians(t, TopLimit)
    else
      var hits := Filter(t.Values(), NameMatches(q));
      SortedByUsage(hits);
      SortBy(hits, UsageLe)
  }
}
