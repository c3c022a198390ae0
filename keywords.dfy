/** The keyword dictionary behind both the task and the equipment keywords: the two
  * families of store actions differ only in the table they work on. */
module Keywords {
  import opened Wrappers
  import opened Seqs
  import opened Text
  import opened Tables
  import opened Types

  /** Every entry is stored under its own id. */
  ghost predicate WellKeyed(t: Table<Keyword>) {
    t.Valid() && forall id :: id in t.entries ==> t.entries[id].id == id
  }

  /** No keyword's usage count went down, among those still present. */
  ghost predicate UsageKept(before: Table<Keyword>, after: Table<Keyword>) {
    forall id :: id in before.entries && id in after.entries ==>
      after.entries[id].usageCount >= before.entries[id].usageCount
  }

  /** `list.reduce((acc, kw) => { acc[kw.id] = kw; return acc; }, {})`: the keywords
    * of a list keyed by id, a later one replacing an earlier one with the same id. */
  function Dictionary(list: seq<Keyword>): (t: Table<Keyword>)
    ensures WellKeyed(t)
    decreases |list|
  {
    if list == [] then Empty()
    else
      var last := list[|list| - 1];
      var t := Dictionary(list[..|list| - 1]);
      PutValid(t, last.id, last);
      t.Put(last.id, last)
  }

  /** Every listed keyword's id is a key of the dictionary, and each entry is one of the
    * listed keywords. */
  lemma {:induction false} DictionaryLaws(list: seq<Keyword>)
    ensures forall i :: 0 <= i < |list| ==> list[i].id in Dictionary(list).entries
    ensures forall id :: id in Dictionary(list).entries ==> Dictionary(list).entries[id] in list
    decreases |list|
  {
    if list != [] {
      var front, last := list[..|list| - 1], list[|list| - 1];
      DictionaryLaws(front);
      assert list == front + [last];
      DictionarySnoc(front, last, Dictionary(front));
    }
  }

  /** One more keyword of the list stored under its id. */
  lemma DictionarySnoc(front: seq<Keyword>, last: Keyword, t: Table<Keyword>)
    requires WellKeyed(t)
    requires forall i :: 0 <= i < |front| ==> front[i].id in t.entries
    requires forall id :: id in t.entries ==> t.entries[id] in front
    ensures WellKeyed(t.Put(last.id, last))
    ensures forall i :: 0 <= i < |front + [last]| ==> (front + [last])[i].id in t.Put(last.id, last).entries
    ensures forall id :: id in t.Put(last.id, last).entries ==> t.Put(last.id, last).entries[id] in front + [last]
  {
    PutValid(t, last.id, last);
    var list := front + [last];
    forall i | 0 <= i < |list| ensures list[i].id in t.Put(last.id, last).entries {
      if i < |front| {
        assert list[i] == front[i];
      }
    }
  }

  /** `text.trim().toLowerCase()`: the form names are compared in. */
  function Normalize(text: string): string {
    ToLower(Trim(text))
  }

  predicate TextMatches(k: Keyword, normalized: string) {
    ToLower(k.text) == normalized
  }

  /** The lookup that opens `addTaskKeyword` and `getOrCreateTaskKeyword`: the first
    * keyword, in insertion order, whose lower-cased text is the normalised input. */
  function FindKeyword(t: Table<Keyword>, text: string): (r: Option<Keyword>)
    requires t.Valid()
    ensures r.None? <==> forall k :: k in t.Values() ==> !TextMatches(k, Normalize(text))
    ensures r.Some? ==> r.value in t.Values() && TextMatches(r.value, Normalize(text))
  {
    Find(t.Values(), Matcher(text))
  }

  function Matcher(text: string): Keyword -> bool {
    k => TextMatches(k, Normalize(text))
  }

  /** `shortcut?.trim().toUpperCase()`. */
  function NormalizeShortcut(shortcut: Option<string>): (r: Option<string>)
    ensures r.Some? <==> shortcut.Some?
    ensures r.Some? ==> Trim(r.value) == r.value && ToUpper(r.value) == r.value
  {
    match shortcut
    case None => None
    case Some(s) =>
      UpperOfTrimmed(s);
      CaseMappingsSettle(Trim(s));
      Some(ToUpper(Trim(s)))
  }

  datatype Added = Added(table: Table<Keyword>, keyword: Keyword)

  lemma ValueStored(t: Table<Keyword>, k: Keyword)
    requires WellKeyed(t) && k in t.Values()
    ensures k.id in t.entries && t.entries[k.id] == k
  {
    var i :| 0 <= i < |t.Values()| && t.Values()[i] == k;
    assert t.order[i] in t.order;
  }

  /** `addTaskKeyword(text, shortcut)`, with `freshId` standing for the uuid. */
  function AddKeyword(t: Table<Keyword>, text: string, shortcut: Option<string>, freshId: Id): (r: Added)
    requires WellKeyed(t) && freshId !in t.entries
    ensures WellKeyed(r.table)
    ensures forall id :: id in t.entries ==> id in r.table.entries && r.table.entries[id] == t.entries[id]
    ensures r.keyword.id in r.table.entries && r.table.entries[r.keyword.id] == r.keyword
    ensures FindKeyword(t, text).Some? ==> r.table == t && Some(r.keyword) == FindKeyword(t, text)
    ensures FindKeyword(t, text).None? ==>
      && r.table.order == t.order + [freshId]
      && r.keyword.usageCount == 0 && r.keyword.isDefault == Some(false)
      && r.keyword.text == Trim(text) && r.keyword.shortcut == NormalizeShortcut(shortcut)
    ensures FindKeyword(r.table, text) == Some(r.keyword)
  {
    match FindKeyword(t, text)
    case Some(existing) =>
      ValueStored(t, existing);
      Added(t, existing)
    case None =>
      var k := Keyword(freshId, Trim(text), NormalizeShortcut(shortcut), 0, Some(false));
      AddedNew(t, text, k);
      Added(t.Put(freshId, k), k)
  }

  /** A keyword under a fresh id, when none matched: it is the one the lookup now finds. */
  lemma AddedNew(t: Table<Keyword>, text: string, k: Keyword)
    requires WellKeyed(t) && k.id !in t.entries && FindKeyword(t, text).None?
    requires TextMatches(k, Normalize(text))
    ensures WellKeyed(t.Put(k.id, k)) && t.Put(k.id, k).order == t.order + [k.id]
    ensures FindKeyword(t.Put(k.id, k), text) == Some(k)
  {
    PutValid(t, k.id, k);
    PutValues(t, k.id, k);
    FindAfterMisses(t.Values(), k, Matcher(text));
  }

  /** `getOrCreateTaskKeyword(text, shortcut)`. The lookup it makes first is the one
    * `addTaskKeyword` repeats, so the outcome is that of `AddKeyword`. */
  function GetOrCreateKeyword(t: Table<Keyword>, text: string, shortcut: Option<string>, freshId: Id): (r: Added)
    requires WellKeyed(t) && freshId !in t.entries
    ensures r == AddKeyword(t, text, shortcut, freshId)
    ensures forall id :: id in t.entries ==>
      id in r.table.entries && r.table.entries[id].usageCount == t.entries[id].usageCount
  {
    match FindKeyword(t, text)
    case Some(existing) => Added(t, existing)
    case None => AddKeyword(t, text, shortcut, freshId)
  }

  /** Asking twice for the same text creates at most one keyword. */
  lemma GetOrCreateIdempotent(t: Table<Keyword>, text: string, text2: string, s1: Option<string>,
                              s2: Option<string>, id1: Id, id2: Id)
    requires WellKeyed(t) && id1 !in t.entries
    requires Normalize(text2) == Normalize(text)
    requires id2 !in GetOrCreateKeyword(t, text, s1, id1).table.entries
    ensures var first := GetOrCreateKeyword(t, text, s1, id1);
            GetOrCreateKeyword(first.table, text2, s2, id2) == first
  {
    var first := GetOrCreateKeyword(t, text, s1, id1);
    assert FindKeyword(first.table, text2) == FindKeyword(first.table, text);
  }

  /** The shortcut `updateTaskKeyword` stores: the normalised new one, unless that is
    * empty or absent, in which case the old one stays. */
  function UpdatedShortcut(current: Option<string>, given: Option<string>): (r: Option<string>)
    ensures given.Some? && ToUpper(Trim(given.value)) != [] ==> r == Some(ToUpper(Trim(given.value)))
    ensures given.None? || ToUpper(Trim(given.value)) == [] ==> r == current
  {
    match NormalizeShortcut(given)
    case Some(s) => if s != [] then Some(s) else current
    case None => current
  }

  /** `updateTaskKeyword(id, { text, shortcut })`. */
  function UpdateKeyword(t: Table<Keyword>, id: Id, text: Option<string>, shortcut: Option<string>): (r: Table<Keyword>)
    requires WellKeyed(t)
    ensures WellKeyed(r) && r.order == t.order && r.entries.Keys == t.entries.Keys
    ensures id !in t.entries ==> r == t
    ensures forall j :: j in t.entries && j != id ==> r.entries[j] == t.entries[j]
    ensures id in t.entries ==>
      var before, after := t.entries[id], r.entries[id];
      && after.text == text.GetOr(before.text)
      && after.shortcut == UpdatedShortcut(before.shortcut, shortcut)
      && after.usageCount == before.usageCount
      && after.isDefault == before.isDefault
  {
    if id in t.entries then
      var k := t.entries[id];
      var k' := k.(text := text.GetOr(k.text), shortcut := UpdatedShortcut(k.shortcut, shortcut));
      PutValid(t, id, k');
      t.Put(id, k')
    else
      t
  }

  /** `deleteTaskKeyword(id)`. */
  function DeleteKeyword(t: Table<Keyword>, id: Id): (r: Table<Keyword>)
    requires WellKeyed(t)
    ensures WellKeyed(r) && id !in r.entries
    ensures forall j :: j != id ==> r.Get(j) == t.Get(j)
  {
    RemoveValid(t, id);
    t.Remove(id)
  }

  /** `incrementTaskKeywordUsage(id)`. */
  function IncrementKeyword(t: Table<Keyword>, id: Id): (r: Table<Keyword>)
    requires WellKeyed(t)
    ensures WellKeyed(r) && r.order == t.order && r.entries.Keys == t.entries.Keys
    ensures id !in t.entries ==> r == t
    ensures forall j :: j in t.entries && j != id ==> r.entries[j] == t.entries[j]
    ensures id in t.entries ==>
      r.entries[id] == t.entries[id].(usageCount := t.entries[id].usageCount + 1)
  {
    if id in t.entries then
      var k := t.entries[id];
      PutValid(t, id, k.(usageCount := k.usageCount + 1));
      t.Put(id, k.(usageCount := k.usageCount + 1))
    else
      t
  }

  /** What `createIntervention` does with a non-empty text: get or create its keyword,
    * then count one use of it. */
  function RecordUse(t: Table<Keyword>, text: string, freshId: Id): (r: Table<Keyword>)
    requires WellKeyed(t) && freshId !in t.entries
    ensures WellKeyed(r)
  {
    var added := GetOrCreateKeyword(t, text, None, freshId);
    IncrementKeyword(added.table, added.keyword.id)
  }

  /** Recording a use raises the matching keyword's count by one (a new keyword starts
    * at 1) and touches no other count. */
  lemma RecordUseCounts(t: Table<Keyword>, text: string, freshId: Id)
    requires WellKeyed(t) && freshId !in t.entries
    ensures var r := RecordUse(t, text, freshId);
            var k := FindKeyword(r, text);
            && k.Some?
            && (FindKeyword(t, text).Some? ==>
                  k.value.id == FindKeyword(t, text).value.id
                  && k.value.usageCount == FindKeyword(t, text).value.usageCount + 1
                  && r.order == t.order)
            && (FindKeyword(t, text).None? ==> k.value.usageCount == 1 && r.order == t.order + [freshId])
            && forall j :: j in t.entries && j != k.value.id ==> r.entries[j] == t.entries[j]
  {
    var added := GetOrCreateKeyword(t, text, None, freshId);
    IncrementFound(added.table, text, added.keyword);
  }

  /** Counting a use of the keyword a lookup finds: the lookup then finds it counted. */
  lemma IncrementFound(t: Table<Keyword>, text: string, k: Keyword)
    requires WellKeyed(t) && FindKeyword(t, text) == Some(k)
    ensures FindKeyword(IncrementKeyword(t, k.id), text) == Some(k.(usageCount := k.usageCount + 1))
  {
    var i := FoundAt(t, text, k);
    IncrementedValues(t, k, i);
    FindPointUpdate(t.Values(), Matcher(text), i, k.(usageCount := k.usageCount + 1));
    FindKeywordUnfold(IncrementKeyword(t, k.id), text);
  }

  lemma IncrementedValues(t: Table<Keyword>, k: Keyword, i: nat)
    requires WellKeyed(t) && i < |t.order| && t.order[i] == k.id && t.entries[k.id] == k
    ensures IncrementKeyword(t, k.id).Values() == t.Values()[i := k.(usageCount := k.usageCount + 1)]
  {
    assert IncrementKeyword(t, k.id) == t.Put(t.order[i], k.(usageCount := k.usageCount + 1));
    PutValuesAt(t, i, k.(usageCount := k.usageCount + 1));
  }

  lemma FindKeywordUnfold(t: Table<Keyword>, text: string)
    requires t.Valid()
    ensures FindKeyword(t, text) == Find(t.Values(), Matcher(text))
  {
  }

  /** The position in the table of the keyword a lookup finds. */
  lemma FoundAt(t: Table<Keyword>, text: string, k: Keyword) returns (i: nat)
    requires WellKeyed(t) && FindKeyword(t, text) == Some(k)
    ensures i < |t.order| && t.order[i] == k.id && t.entries[k.id] == k
    ensures FindIndex(t.Values(), Matcher(text)) == Some(i)
  {
    i := FindIndex(t.Values(), Matcher(text)).value;
    ValueStored(t, t.Values()[i]);
  }

  /** `(a, b) => b.usageCount - a.usageCount`, as "a may come before b". */
  predicate UsageLe(a: Keyword, b: Keyword) {
    a.usageCount >= b.usageCount
  }

  /** `getAllTaskKeywords()`: every keyword, most used first. */
  function ByUsage(t: Table<Keyword>): (r: seq<Keyword>)
    requires t.Valid()
    ensures multiset(r) == multiset(t.Values())
    ensures SortedBy(r, UsageLe)
  {
    SortBySorted(t.Values(), UsageLe);
    SortBy(t.Values(), UsageLe)
  }

  /** `getTopTaskKeywords(limit)`: the first `limit` of them. */
  function Top(t: Table<Keyword>, limit: nat): (r: seq<Keyword>)
    requires t.Valid()
    ensures |r| == if limit < |t.Values()| then limit else |t.Values()|
    ensures r <= ByUsage(t)
  {
    Take(ByUsage(t), limit)
  }

  /** No keyword left out of the top list is used more than one in it. */
  lemma TopIsTop(t: Table<Keyword>, limit: nat)
    requires t.Valid()
    ensures forall i, j :: 0 <= i < |Top(t, limit)| <= j < |ByUsage(t)| ==>
      Top(t, limit)[i].usageCount >= ByUsage(t)[j].usageCount
  {
    var all := ByUsage(t);
    forall i, j | 0 <= i < |Top(t, limit)| <= j < |all|
      ensures Top(t, limit)[i].usageCount >= all[j].usageCount
    {
      assert Top(t, limit)[i] == all[i];
    }
  }

  const SearchLimit: nat := 10

  /** A shortcut that starts with the (lower-case) query, compared in lower case. */
  predicate ShortcutPrefix(k: Keyword, q: string) {
    k.shortcut.Some? && StartsWith(ToLower(k.shortcut.value), q)
  }

  /** The filter of `searchTaskKeywords`: the text contains the query, or the shortcut
    * is non-empty and starts with it. */
  predicate SearchMatch(k: Keyword, q: string) {
    Contains(ToLower(k.text), q) || (k.shortcut.Some? && k.shortcut.value != [] && ShortcutPrefix(k, q))
  }

  /** The comparator of `searchTaskKeywords`, as "a may come before b": shortcut-prefix
    * matches first, then higher usage. */
  function SearchLe(q: string): (Keyword, Keyword) -> bool {
    (a: Keyword, b: Keyword) =>
      if ShortcutPrefix(a, q) != ShortcutPrefix(b, q) then ShortcutPrefix(a, q)
      else a.usageCount >= b.usageCount
  }

  lemma SearchLeTotal(q: string)
    ensures TotalPreorder(SearchLe(q))
  {
  }

  /** `searchTaskKeywords(query)`. */
  function Search(t: Table<Keyword>, query: string): (r: seq<Keyword>)
    requires t.Valid()
    ensures Trim(ToLower(query)) == [] ==> r == Top(t, SearchLimit)
    ensures Trim(ToLower(query)) != [] ==>
      && (forall k :: k in r <==> k in t.Values() && SearchMatch(k, Trim(ToLower(query))))
      && SortedBy(r, SearchLe(Trim(ToLower(query))))
  {
    var q := Trim(ToLower(query));
    if q == [] then Top(t, SearchLimit)
    else
      var matches := Filter(t.Values(), k => SearchMatch(k, q));
      SearchLeTotal(q);
      SortBySorted(matches, SearchLe(q));
      assert forall k :: k in SortBy(matches, SearchLe(q)) <==> k in multiset(matches);
      SortBy(matches, SearchLe(q))
  }

  /** Search results: shortcut-prefix matches come first, and within each group the
    * more used keyword comes first. They also hold each match once per table entry. */
  lemma SearchRanking(t: Table<Keyword>, query: string)
    requires t.Valid()
    requires Trim(ToLower(query)) != []
    ensures var r, q := Search(t, query), Trim(ToLower(query));
            forall i, j :: 0 <= i < j < |r| ==>
              (ShortcutPrefix(r[j], q) ==> ShortcutPrefix(r[i], q))
              && (ShortcutPrefix(r[i], q) == ShortcutPrefix(r[j], q) ==> r[i].usageCount >= r[j].usageCount)
    ensures var q := Trim(ToLower(query));
            multiset(Search(t, query)) == multiset(Filter(t.Values(), k => SearchMatch(k, q)))
  {
    var r, q := Search(t, query), Trim(ToLower(query));
    forall i, j | 0 <= i < j < |r|
      ensures (ShortcutPrefix(r[j], q) ==> ShortcutPrefix(r[i], q))
              && (ShortcutPrefix(r[i], q) == ShortcutPrefix(r[j], q) ==> r[i].usageCount >= r[j].usageCount)
    {
      assert SearchLe(q)(r[i], r[j]);
    }
  }
}
