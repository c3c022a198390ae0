# Plumbing dispatch planner — a verified model of its scheduling core

The planner dispatches plumbing technicians to interventions (jobs with a date, a time
range, a team of at most four technicians and a task text). It shows them on month,
week and per-technician calendars. This project models three things in Dafny:

- the data layer the calendars read;
- the rule that lays overlapping interventions out side by side;
- the small rules the calendar components carry inside their event handlers.

The primary sources are the app's store and utilities. The model covers:

- **The store** (`src/store/useStore.ts`). It keeps:
  - four id-keyed tables: interventions, technicians, task keywords and equipment
    keywords;
  - the list of technician filters.

  Its actions are:
  - create, update and delete interventions, refusing teams of more than four;
  - the day listing, and the day listing under the technician filter;
  - the filter toggles;
  - add, get-or-create, update, deactivate and reactivate technicians, each wearing a
    palette colour (the least used one when none is given);
  - usage counters that only go up;
  - the keyword dictionaries, with case-insensitive lookup, shortcut normalisation,
    top lists and a ranked search;
  - the `merge` that migrates saved technicians when the app loads.

  The two keyword dictionaries behave alike. They are one module, `Keywords`, and the
  store holds two instances of the class `Store.KeywordDictionary`.
- **The overlap layout of the week view** (`getEventColumns` in
  `src/components/Calendar/WeekView.tsx`). `WeekView` specifies its two passes as
  functions of the events. `WeekLayout` runs the same passes in place on two arrays,
  `column` and `totalColumns`. `WeekView` also derives each box's width and left edge from
  the columns.
- **The time utilities** (`src/utils/time.ts`):
  - the half-hour grid from 06:00 to 20:00;
  - conversions between "HH:MM" strings and minutes;
  - rounding with clamping;
  - range validity, slot indices and event heights.
- **The palette helpers** (`src/utils/colors.ts`):
  - the ten-colour palette;
  - the automatic colour;
  - palette membership;
  - `hexToRgb`;
  - the readability branches of `getLighterColor`.
- **Rules embedded in components**:
  - the technician week view: dropping an intervention on a technician's row makes that
    technician the lead, and the module also defines the row filter and the cell contents;
  - the day recap panel: the technicians of the day, one group per technician, the
    one-click selection and the block geometry;
  - the technician picker: select, remove, create from the typed name, the keyboard and
    the suggestions;
  - the time field: typing, blur normalisation, picking a slot, and the slots after a
    minimum.

Store actions that change state are methods of the class `Store.Store`. Each one is tied to
a function of the old state, and the properties are proved about that function. The same
holds for the component state:

- `DayRecap.RecapFilter`;
- `TechnicianSelect.TechnicianPicker`;
- `TimeSelect.TimeField`.

A JavaScript object used as a dictionary is a `Tables.Table`: a map plus the insertion
order of its keys. This makes `Object.values`, `find` (first match) and the tie order of
JavaScript's stable sort exact.

The following stand in for things the model cannot compute:

- `uuidv4()` is a fresh-id parameter, and `Date.now()` is a `now` parameter.
- A React `onChange` callback is a returned value (`sent`). Where the parent feeds the
  value back as a prop (the picker's `selectedIds`), it is the new state.
- `localeCompare` and `<` on strings are the order of characters, compared one by one
  (`Text.LexLess` / `Text.LexLe`).
- `Number(...)` reads only whitespace around decimal digits. It returns `None` for every
  other string (see `Text.Number` under "## Left out").

On the three events 09:00-10:00, 09:30-10:30 and 10:00-11:00 the code gives columns 0, 1, 0
and a total of 2 columns for each of them. The third event overlaps the second, so the first
pass raises its total to 2 (`WeekView.ChainOfThreeLayout`). The final pass of the code is a
single sweep. It does not always give two overlapping events the same total, as the Findings
table below shows.

## Model

| member | source | states |
|---|---|---|
| Colors.PaletteDistinct | src/utils/colors.ts:2-13 | The palette has exactly ten entries, with pairwise different hex strings. |
| Colors.PaletteReadable | src/utils/colors.ts:2-13 | Every palette colour is accepted by `hexToRgb`. |
| Colors.IsValidPaletteColor | src/utils/colors.ts:54-56 | Exact, case-sensitive membership in the palette. Its properties are stated by `Colors.ValidIsAutoColor` (a colour is valid exactly when it is the automatic colour of some index below 10) and `Colors.PaletteCaseSensitive` ("#e53935" is refused). |
| Colors.GetAutoColor | src/utils/colors.ts:49-51 | The automatic colour of any index is a palette colour. |
| Colors.AutoColorCycles | src/utils/colors.ts:49-51 | The colour cycles with period 10: index i < 10 gives palette entry i, and the first ten indices give ten different colours. |
| Colors.ValidIsAutoColor | src/utils/colors.ts:54-56 | A colour is in the palette if and only if it is the automatic colour of some index below 10. |
| Colors.PaletteCaseSensitive | src/utils/colors.ts:54-56 | Membership is exact: "#E53935" is accepted and "#e53935" is not. |
| Colors.HexToRgb | src/utils/colors.ts:31-40 | The result is defined exactly when the input is an optional '#' followed by six hex digits; each component is then a byte. |
| Colors.HexCaseInsensitive | src/utils/colors.ts:32 | Under the `i` flag, lower-casing the input never changes the result. |
| Colors.HexByte | src/utils/colors.ts:69 | `n.toString(16).padStart(2, '0')` is the two hex digits of every byte n. |
| Colors.FormatRoundTrip | src/utils/colors.ts:69 | Reading back the "#rrggbb" written for a colour whose components are bytes gives that colour. |
| Colors.GetLighterColor | src/utils/colors.ts:59-70 | An input `hexToRgb` rejects is returned unchanged; otherwise the result reads back as the blended colour whenever the blend yields bytes. |
| Text.TrimIdempotent | src/store/useStore.ts:347 | Trimming twice is trimming once. |
| Text.CaseMappingsSettle | src/store/useStore.ts:499 | An upper-cased string has no lower-case letter, and lower-casing twice is lower-casing once. |
| Text.UpperOfTrimmed | src/store/useStore.ts:499 | Upper-casing a trimmed string leaves it trimmed, so a normalised shortcut is trimmed and upper case. |
| Text.LowerTrimCommute | src/store/useStore.ts:462 | `query.toLowerCase().trim()` equals `query.trim().toLowerCase()`. |
| Text.NumberOfDigits | src/utils/time.ts:17 | A string of decimal digits reads as its decimal value. |
| Text.TwoDigits | src/utils/time.ts:25 | `n.toString().padStart(2, '0')` is the two-digit form of every n < 100. |
| Text.PaddedNumber | src/utils/time.ts:25 | Zero padding does not change the value read back. |
| Text.LexLeTotalOrder | src/store/useStore.ts:313 | The string order used for `localeCompare` is total and transitive. |
| Seqs.SortBy | src/store/useStore.ts:451 | `sort` returns a permutation of its input, of the same length. |
| Seqs.SortBySorted | src/store/useStore.ts:451 | Under a total preorder the sort is ordered by the comparator; its own contract keeps it a permutation of its input. |
| Seqs.SortByStable | src/store/useStore.ts:451 | The sort is stable: elements the comparator cannot tell apart keep their input order. |
| Seqs.SortByOfSorted | src/store/useStore.ts:451 | Sorting an ordered sequence changes nothing. |
| Seqs.FilterSorted | src/store/useStore.ts:328-330 | Filtering keeps an order by a comparator. |
| Seqs.FilterCount | src/store/useStore.ts:328-330 | Filtering keeps every accepted element as often as it occurred and drops every rejected one. |
| Tables.PutValues | src/store/useStore.ts:256-261 | After `{ ...t, [k]: v }`, `Object.values` has v in place of the old value of k, or v appended for a new key. |
| Tables.RemoveAfterPut | src/store/useStore.ts:303-306 | Deleting a key just added gives back the table. |
| Tables.Spread | src/store/useStore.ts:732-739 | `{ ...a, ...b }` has exactly the keys of either table, the value of b winning where both have one. The keys of a keep their places, and b's new keys follow in b's order. |
| Time.TimeToMinutes | src/utils/time.ts:16-19 | `hours * 60 + minutes` of the two parts around the colon, or `None` (NaN) when a part does not read as a number. `Time.MinutesRoundTrip`, `Time.TimeRoundTrip` and `Time.ReadPaddedTime` state what it reads. |
| Time.MinutesToTime | src/utils/time.ts:22-26 | Zero-padded hours and minutes of a minute count. `Time.MinutesRoundTrip` proves that `TimeToMinutes` reads back every count m >= 0, and `Time.TimeRoundTrip` that it rebuilds every "HH:MM" with MM < 60. |
| Time.RoundToHalfHour | src/utils/time.ts:29-35 | Rounds to the nearest half hour and clamps into 06:00-20:00. `Time.RoundLandsOnSlot` proves the result is a `TIME_SLOTS` member, `Time.RoundIdempotent` that rounding twice is rounding once, and `Time.RoundExamples` that 08:07 gives 08:00 and 08:23 gives 08:30. |
| Time.IsValidTimeRange | src/utils/time.ts:38-40 | Holds when the end reads as strictly more minutes than the start. `Time.EventHeightSign` proves that it holds exactly when the event height is positive. |
| Time.SlotIndex | src/utils/time.ts:48-52 | The minutes since 06:00 divided by 30. `Time.SlotIndexOfGrid` proves that the i-th slot has index i, and `Time.SlotIndexStep` that 30 more minutes add one. |
| Time.EventHeight | src/utils/time.ts:55-57 | The end's slot index minus the start's. `Time.EventHeightSign` proves it positive exactly when `Time.IsValidTimeRange` holds. |
| Time.JsRem | src/utils/time.ts:24 | JavaScript's `%` agrees with the Euclidean remainder on non-negative numbers and stays strictly between -b and b for a divisor b. |
| Time.RoundMinutes | src/utils/time.ts:29-35 | The rounded minute count is a multiple of 30 within [360, 1200]. Inside the window it is within 15 minutes of the input, half-way cases going up. Outside the window it clamps to the nearer end. |
| Time.TimeSlots | src/utils/time.ts:13 | TIME_SLOTS has 29 entries. |
| Time.GenerateTimeSlots | src/utils/time.ts:2-11 | The loop that pushes "HH:00" and, before 20, "HH:30" builds exactly TIME_SLOTS. |
| Time.HourSlots | src/utils/time.ts:4-8 | TIME_SLOTS holds "HH:00" at position 2·(HH − 6) and "HH:30" right after it. |
| Time.TimeSlotsGrid | src/utils/time.ts:2-11 | The grid is 29 strictly increasing zero-padded labels from "06:00" to "20:00". |
| Time.MinutesRoundTrip | src/utils/time.ts:16-26 | `timeToMinutes(minutesToTime(m)) == m` for every m ≥ 0. |
| Time.TimeRoundTrip | src/utils/time.ts:16-26 | For zero-padded "HH:MM" with MM < 60, both directions hold: `timeToMinutes` reads its value, and `minutesToTime` writes the string back. |
| Time.ReadPaddedTime | src/utils/time.ts:16-19 | A zero-padded "HH:MM" reads as 60·HH + MM. |
| Time.DigitForm | src/utils/time.ts:22-26 | Below 100 hours, `minutesToTime` writes exactly two digits, ':', two digits. |
| Time.LabelsOrdered | src/utils/time.ts:22-26 | Below 100 hours a later minute count gets a strictly greater label in string order. |
| Time.OnGrid | src/utils/time.ts:22-26 | Each grid minute count has its label in TIME_SLOTS at position (m − 360) / 30. |
| Time.RoundLandsOnSlot | src/utils/time.ts:29-35 | `roundToHalfHour` of a readable time is a TIME_SLOTS member reading as the rounded minute count; an unreadable time gives "NaN:NaN". |
| Time.RoundFixed | src/utils/time.ts:31-33 | A grid minute count rounds to itself. |
| Time.RoundIdempotent | src/utils/time.ts:29-35 | Rounding a rounded time changes nothing. |
| Time.RoundExamples | src/utils/time.ts:31 | 08:07 gives 08:00, 08:23 gives 08:30, and the quarter hour 08:15 goes up to 08:30. |
| Time.NaNLabelUnreadable | src/utils/time.ts:29-35 | The "NaN:NaN" a NaN time prints does not read back as a number. |
| Time.SlotIndexOfGrid | src/utils/time.ts:48-52 | `getSlotIndex(TIME_SLOTS[k]) == k`, so "06:00" is slot 0. |
| Time.SlotIndexStep | src/utils/time.ts:48-52 | Thirty more minutes is exactly one more slot. |
| Time.EventHeightSign | src/utils/time.ts:38-57 | `getEventHeight(s, e)` is the minute difference over 30, positive exactly when `isValidTimeRange(s, e)`. |
| Keywords.Dictionary | src/store/useStore.ts:31-39 | The defaults keyed by id form a well-formed table in which each keyword is stored under its own id. |
| Keywords.DictionaryLaws | src/store/useStore.ts:31-39 | Every listed keyword's id is a key of the dictionary, and each entry is one of the listed keywords. |
| Keywords.FindKeyword | src/store/useStore.ts:488-492 | The lookup finds nothing exactly when no keyword's lower-cased text equals the trimmed, lower-cased input; otherwise it finds such a keyword of the table. |
| Keywords.NormalizeShortcut | src/store/useStore.ts:499 | A given shortcut stays given and becomes trimmed and upper case. |
| Keywords.AddKeyword | src/store/useStore.ts:486-512 | A name already present returns that keyword and leaves the table alone. Otherwise a new keyword is stored under the fresh id, with the trimmed text, the normalised shortcut, usage 0 and not default. Existing entries stay, and the table stays keyed by id. |
| Keywords.GetOrCreateKeyword | src/store/useStore.ts:535-545 | Its outcome is that of `addTaskKeyword`, and no existing keyword changes, its usage count included. |
| Keywords.GetOrCreateIdempotent | src/store/useStore.ts:535-545 | Asking twice for the same normalised text creates at most one keyword: the second call finds the first one's keyword. |
| Keywords.UpdatedShortcut | src/store/useStore.ts:524 | A new shortcut that normalises to non-empty text replaces the old one; an empty or absent one keeps the old one. |
| Keywords.UpdateKeyword | src/store/useStore.ts:514-528 | An unknown id changes nothing. Otherwise only that keyword changes, in the given text and the updated shortcut, and its usage count is kept. |
| Keywords.DeleteKeyword | src/store/useStore.ts:530-533 | The id is gone and every other lookup gives what it gave before. |
| Keywords.IncrementKeyword | src/store/useStore.ts:575-588 | An unknown id changes nothing; otherwise exactly that keyword's usage count goes up by one. |
| Keywords.RecordUse | src/store/useStore.ts:268-271 | Get-or-create then increment keeps the table keyed by id. |
| Keywords.RecordUseCounts | src/store/useStore.ts:268-271 | Recording a use raises the matching keyword's count by one (a new keyword starts at 1) and changes no other count. |
| Keywords.IncrementFound | src/store/useStore.ts:575-588 | After counting a use of the keyword a lookup found, the lookup finds it counted. |
| Keywords.ByUsage | src/store/useStore.ts:547-550 | Every keyword once, most used first. |
| Keywords.Top | src/store/useStore.ts:552-556 | The first `limit` keywords of the most-used-first list. |
| Keywords.TopIsTop | src/store/useStore.ts:552-556 | No keyword left out of the top list is used more than one in it. |
| Keywords.SearchLeTotal | src/store/useStore.ts:567-572 | The search comparator is a total preorder. |
| Keywords.Search | src/store/useStore.ts:558-573 | A blank query gives the top 10. Otherwise the results are exactly the keywords whose text contains the query or whose shortcut starts with it, in the comparator's order. |
| Keywords.SearchRanking | src/store/useStore.ts:563-572 | Shortcut-prefix matches come before all other results, and within each group the more used keyword comes first. |
| Technicians.FindTechnician | src/store/useStore.ts:347-351 | The lookup finds nothing exactly when no technician's lower-cased name equals the trimmed, lower-cased input; otherwise it finds such a technician of the table. |
| Technicians.ColorCounts | src/store/useStore.ts:336-340 | One entry per palette colour, in palette order, counting the technicians wearing it. |
| Technicians.NextAutoColor | src/store/useStore.ts:334-343 | The automatic colour is a palette colour. |
| Technicians.NextAutoColorIndex | src/store/useStore.ts:341-342 | The head of the sorted counts is the count of the automatic colour's palette entry. |
| Technicians.NextAutoColorLeast | src/store/useStore.ts:334-343 | No palette colour is worn by fewer technicians than the automatic colour. |
| Technicians.NextAutoColorFirstOfLeast | src/store/useStore.ts:341 | Ties go to palette order: every palette colour before the automatic colour is worn by strictly more technicians. |
| Technicians.AddTechnician | src/store/useStore.ts:345-378 | A name already present returns that technician and leaves the table alone. Otherwise the fresh id holds the new technician: the trimmed name, the colour if it is a palette colour or else the automatic colour, active, usage 0, one timestamp for creation and update. Other entries stay. |
| Technicians.AddTechnicianPalette | src/store/useStore.ts:354-356 | Adding a technician keeps every colour in the palette. |
| Technicians.GetOrCreateTechnician | src/store/useStore.ts:433-444 | Its outcome is that of `addTechnician` with the automatic colour, so a new technician wears the automatic colour. |
| Technicians.UpdateTechnicianAsWritten | src/store/useStore.ts:380-398 | As written: an unknown id, or a colour that is non-empty and not in the palette, changes nothing. Otherwise the entry gets the given name and colour (an empty colour included), updatedAt becomes `now`, usage count, activity and createdAt are kept, and every other entry is unchanged. |
| Technicians.UpdateTechnicianEmptyColor | src/store/useStore.ts:384 | A concrete table whose only technician wears red no longer has palette colours after `updateTechnician(id, { color: "" })` as written. |
| Technicians.UpdateTechnician | src/store/useStore.ts:380-398 | An unknown id or a non-palette colour changes nothing. Otherwise only that technician changes: the given name and colour, the new update time, usage, activity and createdAt kept. Palette colours are kept throughout. |
| Technicians.SetActive | src/store/useStore.ts:400-431 | An unknown id changes nothing; otherwise only that technician changes, in its activity flag and update time. |
| Technicians.IncrementTechnician | src/store/useStore.ts:470-483 | An unknown id changes nothing; otherwise exactly that technician's usage count goes up by one. |
| Technicians.CountUses | src/store/useStore.ts:264-266 | Counting uses keeps the keys, the order and the palette colours. |
| Technicians.CountUsesCounts | src/store/useStore.ts:264-266 | Each known technician gains one use per occurrence of its id. Unknown ids change nothing, and no other field changes. |
| Technicians.ActiveTechnicians | src/store/useStore.ts:448-452 | Exactly the active technicians, each once per entry, most used first. |
| Technicians.TopTechnicians | src/store/useStore.ts:454-459 | The first `limit` of the active technicians, most used first. |
| Technicians.SearchTechnicians | src/store/useStore.ts:461-468 | A blank query gives the top five. Otherwise the results are exactly the active technicians whose lower-cased name contains the query, each as often as in the table (equal multisets), most used first. |
| Interventions.StampedRoundTrip | src/store/useStore.ts:247-254 | A created intervention carries exactly the data given, the new id, and one timestamp for creation and update. |
| Interventions.CreateIntervention | src/store/useStore.ts:240-261 | More than four technicians changes nothing. Otherwise the stamped intervention is stored under the fresh id and every other entry stays. |
| Interventions.ApplyPatch | src/store/useStore.ts:289-296 | The shallow merge `{ ...x, ...p, updatedAt: now }`. `Interventions.PatchLaws` proves that the given fields replace the old ones, the id and createdAt are kept, updatedAt becomes `now`, and patching twice with the same fields is patching once. |
| Interventions.PatchLaws | src/store/useStore.ts:293-297 | A patch keeps the id and creation time and sets the update time. Each key it carries wins, the empty patch touches only the update time, and applying it twice equals applying it once. |
| Interventions.UpdateIntervention | src/store/useStore.ts:279-301 | An unknown id, or a patch with more than four technicians, changes nothing. Otherwise only that entry changes, to the patched record. |
| Interventions.DeleteIntervention | src/store/useStore.ts:303-306 | The id is gone and every other lookup gives what it gave before. |
| Interventions.DeleteUndoesCreate | src/store/useStore.ts:240-306 | Deleting the intervention just created gives back the table as it was. |
| Interventions.InterventionLeTotal | src/store/useStore.ts:312-318 | Start time, then end time, then task text is a total preorder. |
| Interventions.ByDate | src/store/useStore.ts:308-319 | Exactly the interventions with that date, ordered by start, then end, then task text. |
| Interventions.ByDateStable | src/store/useStore.ts:310-318 | Interventions the comparator cannot tell apart appear in insertion order. |
| Interventions.FilteredByDate | src/store/useStore.ts:321-331 | No filter gives the day listing. Otherwise the result is exactly the day's interventions sharing a technician with the filter, each as often as in the table (equal multisets), still in time order. |
| Store.Toggled | src/store/useStore.ts:229-235 | The toggled id is in the result exactly when it was not selected, and every other id keeps its membership. |
| Store.ToggledDistinct | src/store/useStore.ts:229-235 | Toggling introduces no duplicate. |
| Store.ToggleTwice | src/store/useStore.ts:229-235 | Toggling an unselected id twice gives back the selection. |
| Store.KeywordDictionary.constructor | src/store/useStore.ts:132-133 | A dictionary starts from the given table. |
| Store.KeywordDictionary.Add | src/store/useStore.ts:486-512 | The new table and the returned keyword are those of `Keywords.AddKeyword`; no usage count goes down. |
| Store.KeywordDictionary.GetOrCreate | src/store/useStore.ts:535-545 | The new table and the returned keyword are those of `Keywords.GetOrCreateKeyword`, and the keyword is stored. |
| Store.KeywordDictionary.Update | src/store/useStore.ts:514-528 | The new table is `Keywords.UpdateKeyword` of the old one. |
| Store.KeywordDictionary.Delete | src/store/useStore.ts:530-533 | The new table is `Keywords.DeleteKeyword` of the old one. |
| Store.KeywordDictionary.RecordUse | src/store/useStore.ts:268-271 | The new table is `Keywords.RecordUse` of the old one. |
| Store.KeywordDictionary.IncrementUsage | src/store/useStore.ts:575-588 | The new table is `Keywords.IncrementKeyword` of the old one. |
| Store.Store.constructor | src/store/useStore.ts:129-148 | No interventions, no technicians and no filter; each keyword dictionary holds its defaults keyed by id. |
| Store.Store.SetTechnicianFilters | src/store/useStore.ts:227 | The filter becomes the given list; nothing else changes. |
| Store.Store.ToggleTechnicianFilter | src/store/useStore.ts:229-235 | The filter becomes `Store.Toggled` of the old one; nothing else changes. |
| Store.Store.ClearTechnicianFilters | src/store/useStore.ts:237 | The filter becomes empty; nothing else changes. |
| Store.Store.CreateIntervention | src/store/useStore.ts:240-277 | Beyond four technicians nothing changes. Otherwise the intervention is created, each listed technician's usage is counted, and a non-empty task text and equipment each record a keyword use. The filter is untouched. |
| Store.Store.CountTechnicianUses | src/store/useStore.ts:264-266 | The forEach loop over the ids yields `Technicians.CountUses` of the old table, and no usage count goes down. |
| Store.Store.UpdateIntervention | src/store/useStore.ts:279-301 | Only the intervention table changes, to `Interventions.UpdateIntervention` of the old one; no usage count is touched. |
| Store.Store.DeleteIntervention | src/store/useStore.ts:303-306 | Only the intervention table changes, to `Interventions.DeleteIntervention` of the old one. |
| Store.Store.AddTechnician | src/store/useStore.ts:345-378 | The new table and the returned technician are those of `Technicians.AddTechnician`. |
| Store.Store.GetOrCreateTechnician | src/store/useStore.ts:433-444 | The new table and the returned technician are those of `Technicians.GetOrCreateTechnician`, and the technician is stored. |
| Store.Store.UpdateTechnician | src/store/useStore.ts:380-398 | The technician table becomes `Technicians.UpdateTechnician` of the old one (with the palette guard corrected). |
| Store.Store.DeactivateTechnician | src/store/useStore.ts:400-415 | The technician is marked inactive, and its id leaves the filter when it is known; an unknown id changes nothing. |
| Store.Store.ReactivateTechnician | src/store/useStore.ts:417-431 | The technician is marked active; the filter stays as it is. |
| Store.Store.IncrementTechnicianUsage | src/store/useStore.ts:470-483 | The technician table becomes `Technicians.IncrementTechnician` of the old one. |
| Persist.Migrated | src/store/useStore.ts:711-723 | One round of the migration loop. `Persist.MigrationAt` proves that the technician at position i keeps a palette colour and otherwise wears `getAutoColor(i)`, defaults to active, keeps its id, name and usage count, and keeps its `createdAt` and `updatedAt` or takes `now` for a missing one. |
| Persist.Migration | src/store/useStore.ts:708-725 | The migrated table has the saved keys in the saved order. |
| Persist.MigrateTechnicians | src/store/useStore.ts:708-725 | The `for…in` loop with its `index` counter yields exactly `Persist.Migration`. |
| Persist.MigrationLaws | src/store/useStore.ts:708-725 | After migration the table is well formed, every technician wears a palette colour, and the table is keyed by id when the saved one was. |
| Persist.MigrationAt | src/store/useStore.ts:710-724 | The technician at position i keeps its colour when that was a palette colour and otherwise gets `getAutoColor(i)`; a missing activity flag defaults to active; id, name and usage count are the saved ones; a saved `createdAt` or `updatedAt` is kept and a missing one becomes `now`. |
| Persist.Merge | src/store/useStore.ts:704-741 | Saved fields win over the current state; the technicians are the migrated saved ones, a well-formed table in palette colours; each keyword table is the defaults overlaid with the saved one. |
| Persist.Overlay | src/store/useStore.ts:732-739 | The overlaid keyword table is well formed, holds every default id, gives every saved key its saved entry, and keeps a default keyword under its own id for each key the saved table lacks. |
| WeekView.OverlapSymmetric | src/components/Calendar/WeekView.tsx:58 | The strict overlap test is symmetric. |
| WeekView.TouchingDoNotOverlap | src/components/Calendar/WeekView.tsx:58 | One event ending exactly when the other starts is not an overlap, either way round. |
| WeekView.SortedEvents | src/components/Calendar/WeekView.tsx:51-52 | The same events, ordered by start minutes. |
| WeekView.SortedEventsStable | src/components/Calendar/WeekView.tsx:51-52 | Events with the same start keep their input order. |
| WeekView.Pass1 | src/components/Calendar/WeekView.tsx:55-76 | The forward pass over the first k events. `WeekView.ColumnChoice` and `WeekView.ColumnAtMostOverlaps` prove that each column is the least one free among earlier overlapping events. `WeekView.FirstPassColumns` proves that overlapping events get different columns, `WeekView.Pass1InRange` that each column is below its total, and `WeekView.Pass1Keeps` that later rounds keep earlier columns. |
| WeekView.Pass2 | src/components/Calendar/WeekView.tsx:78-95 | The final sweep over the first k events. `WeekView.Pass2StepLaws` proves that each round spreads the largest total around the current event, `WeekView.Pass2Grows` that no total is lowered, and `WeekView.Pass2Bounded` that every bound the totals respected before still holds. |
| WeekView.LayoutAsWritten | src/components/Calendar/WeekView.tsx:40-98 | Sort by start, then the forward pass, then one final sweep. `WeekView.LayoutAsWrittenLaws` proves that 0 <= column < total for every event, that overlapping events get different columns, and that the sweep lowers no total of the forward pass. `WeekView.AsWrittenDrawsOverlap` shows that two overlapping events can still get different totals. |
| WeekView.LayoutCorrected | src/components/Calendar/WeekView.tsx:78-95 | The final sweep repeated until overlapping events share their totals. `WeekView.LayoutCorrectedLaws` proves that overlapping events get different columns and equal totals, and `WeekView.CorrectedBoxesApart` that their boxes never meet. |
| WeekView.UsedColumnsHas | src/components/Calendar/WeekView.tsx:57-62 | The column of every earlier event overlapping the current one is among the used columns. |
| WeekView.FirstFree | src/components/Calendar/WeekView.tsx:61-66 | The column the while loop finds is the least one not used, and at most the number of used columns. |
| WeekView.Pass1Keeps | src/components/Calendar/WeekView.tsx:55-67 | Once an event has its column, later rounds never move it. |
| WeekView.Pass1InRange | src/components/Calendar/WeekView.tsx:67-75 | Throughout the first pass every column is non-negative and below its total. |
| WeekView.ColumnChoice | src/components/Calendar/WeekView.tsx:57-67 | Each event's final column is the least one not used by an earlier overlapping event. |
| WeekView.ColumnAtMostOverlaps | src/components/Calendar/WeekView.tsx:61-67 | An event's column is at most the number of earlier events overlapping it, so at most its position. |
| WeekView.FirstPassColumns | src/components/Calendar/WeekView.tsx:55-76 | After the first pass, an event never shares a column with an earlier event it overlaps, every smaller column is taken by one of them, and every column is below its total. |
| WeekView.Pass2StepLaws | src/components/Calendar/WeekView.tsx:80-94 | One round of the final pass lowers no total and gives the event and every event overlapping it the largest total around the event. |
| WeekView.Pass2Grows | src/components/Calendar/WeekView.tsx:79-95 | Totals only grow from one round of the final pass to the next. |
| WeekView.Pass2Bounded | src/components/Calendar/WeekView.tsx:87-94 | The final pass never raises a total above a bound on all totals. |
| WeekView.MaxTotalAroundAbove | src/components/Calendar/WeekView.tsx:87-90 | The largest total around an event is at least the total of every event overlapping it. |
| WeekView.MaxTotalAroundLeast | src/components/Calendar/WeekView.tsx:87-90 | The largest total around an event is at most any bound on its own total and on those of the events overlapping it. |
| WeekView.DisagreementRaises | src/components/Calendar/WeekView.tsx:79-95 | When two overlapping events disagree on their total, the final pass raises one of them. |
| WeekView.SharedIsFixpoint | src/components/Calendar/WeekView.tsx:79-95 | When overlapping events already share their totals, the final pass changes nothing. |
| WeekView.LayoutAsWrittenLaws | src/components/Calendar/WeekView.tsx:40-98 | As written: the columns are those of the first pass, overlapping events never share a column, every column is below its total (so every total is at least 1), and the final pass never lowers a total. |
| WeekView.Settle | src/components/Calendar/WeekView.tsx:79-95 | Repeating the final pass ends with every two overlapping events sharing one total, the columns kept and no total lowered. |
| WeekView.CorrectedAbove | src/components/Calendar/WeekView.tsx:78-95 | The corrected totals are at least those as written. |
| WeekView.LayoutCorrectedLaws | src/components/Calendar/WeekView.tsx:40-98 | Corrected: the same columns as written, overlapping events in different columns and sharing one total, every column below its total, no event drawn narrower than as written. |
| WeekView.CorrectionKeepsSharedLayouts | src/components/Calendar/WeekView.tsx:78-95 | Where the code as written already gives overlapping events one total, the correction changes nothing. |
| WeekView.BoxInside | src/components/Calendar/WeekView.tsx:182-183 | `width = 100 / totalColumns; left = column * width` lies within [0, 100] when the column is below its total. |
| WeekView.BoxesApart | src/components/Calendar/WeekView.tsx:182-183 | Two different columns of the same total do not share width on screen. |
| WeekView.CorrectedBoxesApart | src/components/Calendar/WeekView.tsx:182-183 | With the corrected layout, any two overlapping interventions are drawn side by side, each inside the day column. |
| WeekView.ChainOfThreeLayout | src/components/Calendar/WeekView.tsx:55-95 | 09:00-10:00, 09:30-10:30 and 10:00-11:00 get columns 0, 1, 0 and totals 2, 2, 2, both as written and corrected. |
| WeekView.StaggeredFirstPass | src/components/Calendar/WeekView.tsx:55-76 | The first pass over six staggered morning events gives columns 0, 1, 0, 1, 0, 2 and totals 2, 2, 2, 3, 3, 3. |
| WeekView.StaggeredFinalPass | src/components/Calendar/WeekView.tsx:79-95 | The final pass as written over those events gives totals 2, 3, 3, 3, 3, 3. |
| WeekView.AsWrittenDrawsOverlap | src/components/Calendar/WeekView.tsx:78-95 | As written, the overlapping 09:00-09:30 and 09:00-10:00 get different totals and are drawn over each other. |
| WeekView.StaggeredSecondSweep | src/components/Calendar/WeekView.tsx:79-95 | A second sweep of the final pass gives every event of the staggered morning a total of 3. |
| WeekView.CorrectedStaggeredMorning | src/components/Calendar/WeekView.tsx:79-95 | The corrected layout gives the whole staggered morning thirds of the column. |
| WeekLayout.ToEvents | src/components/Calendar/WeekView.tsx:43-49 | One event per intervention, carrying its start and end in minutes. |
| WeekLayout.AssignColumn | src/components/Calendar/WeekView.tsx:56-75 | One round of the first loop on the arrays is one step of `WeekView.Pass1`. |
| WeekLayout.AssignColumns | src/components/Calendar/WeekView.tsx:55-76 | The first loop on the arrays leaves exactly the layout of `WeekView.Pass1`. |
| WeekLayout.ShareTotal | src/components/Calendar/WeekView.tsx:80-94 | One round of the final loop gives the event and those overlapping it the largest of their totals. |
| WeekLayout.ShareTotals | src/components/Calendar/WeekView.tsx:79-95 | The final loop on the array leaves exactly the totals of `WeekView.Pass2`. |
| WeekLayout.SettleTotals | src/components/Calendar/WeekView.tsx:79-95 | The final loop repeated while two overlapping events disagree leaves exactly `WeekView.Settle`. |
| WeekLayout.GetEventColumnsAsWritten | src/components/Calendar/WeekView.tsx:40-98 | As written, the result is the events in start order with `WeekView.LayoutAsWritten`. |
| WeekLayout.GetEventColumns | src/components/Calendar/WeekView.tsx:40-98 | Corrected, the result is the events in start order with `WeekView.LayoutCorrected`. |
| TechnicianWeekView.Reassigned | src/components/Calendar/TechnicianWeekView.tsx:296-304 | The dropped-on technician T leads. When T already leads, the team is unchanged. When T is a later member, the team becomes T followed by the other members in their original order. Otherwise the former lead is replaced and the rest kept at the same length. An empty team gives [T]. |
| TechnicianWeekView.ReassignedIdempotent | src/components/Calendar/TechnicianWeekView.tsx:298-299 | Dropping on the lead changes nothing, and dropping twice equals dropping once. |
| TechnicianWeekView.ReassignedLaws | src/components/Calendar/TechnicianWeekView.tsx:296-304 | A team without repeats keeps that property and its size (1 for an empty team). The former lead stays exactly when T was in the team. When T was in the team, the members after T are all the others in their original order. |
| TechnicianWeekView.ReassignedSize | src/components/Calendar/TechnicianWeekView.tsx:296-304 | The team never grows beyond its size (or 1), so a team within the cap stays within it. |
| TechnicianWeekView.DropPatch | src/components/Calendar/TechnicianWeekView.tsx:291-306 | No patch for a missing or unknown id; otherwise the patch carries the cell's date and the reassigned team, and nothing else. |
| TechnicianWeekView.Drop | src/components/Calendar/TechnicianWeekView.tsx:291-306 | A missing or unknown id changes nothing; the table stays keyed by id and in order. |
| TechnicianWeekView.DropLandsInCell | src/components/Calendar/TechnicianWeekView.tsx:291-306 | A drop of a known intervention puts it in the target cell, led by the target technician, with all other fields kept. Every other intervention stays as it was. |
| TechnicianWeekView.Rows | src/components/Calendar/TechnicianWeekView.tsx:148-152 | No filter gives the active technicians. A filter gives exactly the active technicians it lists, each as often as in the table (equal multisets). Either way most used first. |
| TechnicianWeekView.RowsNarrow | src/components/Calendar/TechnicianWeekView.tsx:148-152 | The rows under a filter are the rows without it that the filter lists, in the same order (a `Filter` of them), so none is added or repeated. |
| TechnicianWeekView.Cell | src/components/Calendar/TechnicianWeekView.tsx:263-266 | Exactly that day's interventions listing the row's technician, each as often as in the table (equal multisets), in the day's time order. |
| DayRecap.DayInterventions | src/components/DayRecapPanel/DayRecapPanel.tsx:28-31 | Nothing without a date (null or empty); otherwise the store's day listing `Interventions.ByDate` for that date, so exactly that date's interventions in time order. |
| DayRecap.AddedAllLaws | src/components/DayRecapPanel/DayRecapPanel.tsx:35-38 | Adding ids to the set keeps those present, in place, adds each new id once and nothing else. |
| DayRecap.DayIdsLaws | src/components/DayRecapPanel/DayRecapPanel.tsx:35-38 | The set holds every technician id of every intervention of the day, once each, and no other id. |
| DayRecap.CollectTechnicianIds | src/components/DayRecapPanel/DayRecapPanel.tsx:35-38 | The nested forEach builds exactly that set, without repeats. |
| DayRecap.KnownLaws | src/components/DayRecapPanel/DayRecapPanel.tsx:39-41 | The technicians found are exactly those stored under one of the ids; distinct ids find no technician twice. |
| DayRecap.NameLeTotal | src/components/DayRecapPanel/DayRecapPanel.tsx:42 | The name order is a total preorder. |
| DayRecap.TechniciansInDay | src/components/DayRecapPanel/DayRecapPanel.tsx:34-43 | The known technicians of the day, in name order. |
| DayRecap.TechniciansInDayLaws | src/components/DayRecapPanel/DayRecapPanel.tsx:34-43 | Exactly the stored technicians named by some intervention of the day, each once; unknown ids are dropped. |
| DayRecap.Shown | src/components/DayRecapPanel/DayRecapPanel.tsx:47-49 | No selection shows everyone; a selection shows the day's technicians it lists, in the day's order (a `Filter` of them), none more often than in the day. |
| DayRecap.GroupOf | src/components/DayRecapPanel/DayRecapPanel.tsx:51-55 | A group holds exactly the day's interventions listing its technician, each as often as in the day (equal multisets), by start time. |
| DayRecap.Grouped | src/components/DayRecapPanel/DayRecapPanel.tsx:46-57 | The i-th group is `GroupOf` the i-th technician of `DayRecap.Shown`, whose ensures make it a filter of the day's technicians in their order. So the groups follow the day's order of technicians. |
| DayRecap.GroupIsCell | src/components/DayRecapPanel/DayRecapPanel.tsx:51-55 | Each group is the technician's cell of the technician week view for that day. |
| DayRecap.AfterClick | src/components/DayRecapPanel/DayRecapPanel.tsx:67-75 | The selection is emptied exactly when it was the clicked technician alone; otherwise it becomes that technician alone. |
| DayRecap.SelectionShows | src/components/DayRecapPanel/DayRecapPanel.tsx:67-75 | After a click the recap shows everyone or the clicked technician alone, and a second click undoes a first one made from everyone. |
| DayRecap.RecapFilter.constructor | src/components/DayRecapPanel/DayRecapPanel.tsx:25 | Nothing is selected at first. |
| DayRecap.RecapFilter.SelectTechnician | src/components/DayRecapPanel/DayRecapPanel.tsx:67-75 | The selection becomes `DayRecap.AfterClick` of the old one, never more than one technician. |
| DayRecap.RecapFilter.ClearSelection | src/components/DayRecapPanel/DayRecapPanel.tsx:77-79 | The selection empties, so every technician of the day is shown. |
| DayRecap.BlockPosition | src/components/DayRecapPanel/DayRecapPanel.tsx:81-90 | The top is at least 0 and the height at least 16 whenever the times read as numbers. |
| DayRecap.BlockGeometry | src/components/DayRecapPanel/DayRecapPanel.tsx:81-90 | The top is the start's offset below 06:00 (0 before it); the height is the duration (16 below 24 minutes). On the grid the block ends on its end line. |
| TechnicianSelect.FilteredSuggestions | src/components/InterventionPanel/TechnicianSelect.tsx:35-43 | Never a selected technician. For blank input, the top five technicians without the selected ones, in their order. Otherwise exactly the active, unselected technicians matching the search, each as often as in the table (equal multisets), most used first. |
| TechnicianSelect.Selected | src/components/InterventionPanel/TechnicianSelect.tsx:68-77 | `handleSelectTechnician`. `TechnicianSelect.SelectedLaws` proves that at the cap the selection is unchanged and the warning is set, and otherwise the id is appended at the end. |
| TechnicianSelect.Removed | src/components/InterventionPanel/TechnicianSelect.tsx:79-82 | `handleRemoveTechnician`. `TechnicianSelect.RemovedLaws` proves that every occurrence of the id is dropped and every other id kept, that the cap and the absence of repeats are kept, and that removing undoes selecting. |
| TechnicianSelect.CreatedAsWritten | src/components/InterventionPanel/TechnicianSelect.tsx:84-97 | `handleCreateAndSelect` as written. `TechnicianSelect.CreatedAsWrittenRepeats` proves that it appends an already-selected id again, and `TechnicianSelect.CreatedAsWrittenExample` gives the concrete case. |
| TechnicianSelect.Created | src/components/InterventionPanel/TechnicianSelect.tsx:84-97 | `handleCreateAndSelect` without the repeat. `TechnicianSelect.CreatedLaws` proves that a blank name does nothing, the cap is kept and no id is repeated. `TechnicianSelect.CreatedAgrees` proves that it matches the code whenever the named technician is not already selected. |
| TechnicianSelect.KeyDown | src/components/InterventionPanel/TechnicianSelect.tsx:99-120 | `handleKeyDown` (corrected: Enter on a typed name goes through `TechnicianSelect.Created`). `TechnicianSelect.KeyDownLaws` proves that the arrows keep the highlight within [-1, n-1], the cap and the absence of repeats are kept, and Backspace on an empty input removes the last id. |
| TechnicianSelect.Typed | src/components/InterventionPanel/TechnicianSelect.tsx:211-215 | Typing into the input sets the text, clears the highlight and opens the list. `TechnicianSelect.TypedLaws` proves that the selection and the cap are kept, and that Enter right after typing creates from the typed name. |
| TechnicianSelect.SelectedLaws | src/components/InterventionPanel/TechnicianSelect.tsx:68-77 | A full selection only raises the warning. Otherwise the id is appended last and the input is cleared. The cap is kept, and an unselected id adds no repeat. |
| TechnicianSelect.RemovedLaws | src/components/InterventionPanel/TechnicianSelect.tsx:79-82 | Every occurrence of the id goes, the rest keep their order. The cap and the absence of repeats are kept, and removal undoes a selection. |
| TechnicianSelect.CreatedAsWrittenRepeats | src/components/InterventionPanel/TechnicianSelect.tsx:84-97 | As written, typing the name of a technician already selected selects them a second time. |
| TechnicianSelect.MarcFound | src/components/InterventionPanel/TechnicianSelect.tsx:93 | In a one-technician table, "Marc" finds Marc. |
| TechnicianSelect.CreatedAsWrittenExample | src/components/InterventionPanel/TechnicianSelect.tsx:84-97 | As written, with Marc selected, Enter on "Marc" gives the selection ["m", "m"]. |
| TechnicianSelect.IncludingLaws | src/components/InterventionPanel/TechnicianSelect.tsx:94 | Including an id keeps the ids in place, adds at most one and adds no repeat. |
| TechnicianSelect.CreatedLaws | src/components/InterventionPanel/TechnicianSelect.tsx:84-97 | A blank name changes nothing; a full selection only shows the warning. Otherwise the ids stay in place, the input clears and no suggestion stays highlighted. The cap is never passed and no repeat is added. |
| TechnicianSelect.CreatedSelectsNamed | src/components/InterventionPanel/TechnicianSelect.tsx:93-94 | The technician found or created from the trimmed name is stored and selected. |
| TechnicianSelect.CreatedAgrees | src/components/InterventionPanel/TechnicianSelect.tsx:84-97 | The correction agrees with the code unless the typed name finds a technician already selected. |
| TechnicianSelect.KeyDownLaws | src/components/InterventionPanel/TechnicianSelect.tsx:99-120 | No key passes the cap or adds a repeat. The arrows keep the highlight within [-1, suggestions − 1]. Backspace in an empty input removes the last id. |
| TechnicianSelect.TypedLaws | src/components/InterventionPanel/TechnicianSelect.tsx:211-215 | Typing keeps the selection and clears the highlight, so a following Enter creates from the typed name. |
| TechnicianSelect.TechnicianPicker.constructor | src/components/InterventionPanel/TechnicianSelect.tsx:15-23 | Empty input, list closed, no highlight, no warning. |
| TechnicianSelect.TechnicianPicker.SelectTechnician | src/components/InterventionPanel/TechnicianSelect.tsx:68-77 | The state becomes `Selected` of the old one, and the cap is kept. |
| TechnicianSelect.TechnicianPicker.RemoveTechnician | src/components/InterventionPanel/TechnicianSelect.tsx:79-82 | The state becomes `Removed` of the old one, so the id is no longer selected. |
| TechnicianSelect.TechnicianPicker.CreateAndSelect | src/components/InterventionPanel/TechnicianSelect.tsx:84-97 | The state and table become those of `Created`, and no repeat is added. |
| TechnicianSelect.TechnicianPicker.HandleKeyDown | src/components/InterventionPanel/TechnicianSelect.tsx:99-120 | The state and table become those of `KeyDown`, keeping the cap and the absence of repeats. |
| TechnicianSelect.TechnicianPicker.InputChanged | src/components/InterventionPanel/TechnicianSelect.tsx:211-215 | The state becomes `Typed` of the old one. |
| TimeSelect.SplitHoursMinutes | src/components/InterventionPanel/TimeSelect.tsx:61-62 | Accepted text with a ':' splits into exactly its hours and its minutes. |
| TimeSelect.Formatted | src/components/InterventionPanel/TimeSelect.tsx:58-64 | The padding on blur ("8" becomes "08:00", "8:3" becomes "08:30"). `TimeSelect.FormattedReads` proves that the padded text reads as a time, and `TimeSelect.CompleteTimeAgrees` that a complete time is left as it is. |
| TimeSelect.BlurredTime | src/components/InterventionPanel/TimeSelect.tsx:57-67 | Padding, then rounding. `TimeSelect.BlurLandsOnSlot` proves that the result is a `TIME_SLOTS` member, and `TimeSelect.BlurIdempotent` that a second blur changes nothing. |
| TimeSelect.FormattedReads | src/components/InterventionPanel/TimeSelect.tsx:57-64 | Whatever the blur pattern accepts, the formatted string reads as minutes. |
| TimeSelect.BlurLandsOnSlot | src/components/InterventionPanel/TimeSelect.tsx:57-67 | A blur on accepted text lands on a TIME_SLOTS member, the rounded value of the formatted text. |
| TimeSelect.CompleteTimeAgrees | src/components/InterventionPanel/TimeSelect.tsx:44-67 | A complete time is accepted on blur unchanged by formatting, so typing it and leaving the field send the same slot. |
| TimeSelect.BlurIdempotent | src/components/InterventionPanel/TimeSelect.tsx:55-71 | A blurred value is accepted again and stays as it is. |
| TimeSelect.SlotIsComplete | src/components/InterventionPanel/TimeSelect.tsx:49 | Every slot of the grid matches the typing pattern. |
| TimeSelect.BlurExamples | src/components/InterventionPanel/TimeSelect.tsx:57-67 | "8" and "8:" become "08:00", and "8:3" becomes "08:30". |
| TimeSelect.FilteredSlots | src/components/InterventionPanel/TimeSelect.tsx:79-81 | No minimum gives every slot. A minimum gives exactly the slots greater than it in string order, in grid order. |
| TimeSelect.FilteredSlotsAfterSlot | src/components/InterventionPanel/TimeSelect.tsx:79-81 | After a slot of the grid the list is exactly the slots that follow it. |
| TimeSelect.TimeField.constructor | src/components/InterventionPanel/TimeSelect.tsx:13-14 | The field shows the value, the list closed. |
| TimeSelect.TimeField.ValueChanged | src/components/InterventionPanel/TimeSelect.tsx:18-20 | A new value is copied into the field. |
| TimeSelect.TimeField.InputChanged | src/components/InterventionPanel/TimeSelect.tsx:44-53 | The typed text is shown; a value is sent exactly for a complete H:MM or HH:MM, and it is the rounded slot. |
| TimeSelect.TimeField.Blur | src/components/InterventionPanel/TimeSelect.tsx:55-71 | Accepted text is formatted, rounded, shown and sent as a slot; anything else restores the current value and sends nothing. |
| TimeSelect.TimeField.SelectTime | src/components/InterventionPanel/TimeSelect.tsx:73-77 | The slot is sent and shown, and the list closes. |

## Left out

- Rendering: JSX, CSS, print styles, drag-and-drop events, focus, the click-outside listeners, the picker's chips, scrolling the slot list and `window.print`. None of it is logic the data depends on.
- The warning timer of the technician picker (`setTimeout` after 3 s): it is a clock. The warning flag is set and cleared by the handlers that do so.
- `Date` arithmetic and `date-fns` (week navigation, week start, date formatting): the model takes the day's date as a string parameter.
- `getLuminance`, `getContrastTextColor` and the colour blend of `getLighterColor`: floating point. The blend is a parameter of `Colors.GetLighterColor`.
- The zustand `persist` middleware, local storage and the hosted file store: I/O. Only `merge` and `partialize`'s choice of fields are modelled.
- uuid generation and `Date.now()`: they are parameters. `Persist.Migration` uses one `now` for every missing timestamp, where the source calls `Date.now()` once per record.
- `for…in` over the saved technicians visits the keys in insertion order in the model. JavaScript visits integer-like keys first; uuid keys are never integer-like.
- Case mapping (`toLowerCase`, `toUpperCase`) is modelled on ASCII letters only, so accented capitals are not folded. `localeCompare` is modelled as the order of Dafny characters (Unicode scalar values), compared one by one. This is not a French collation, and it differs from JavaScript's UTF-16 code-unit order for characters above U+FFFF.
- Text.Number: only optional whitespace around decimal digits is read. Signs, decimal points, exponents, `0x` hex and `Infinity` read as NaN (`None`), where JavaScript's `Number` reads them. So `timeToMinutes("-1:30")` is -30 in JavaScript and `None` in the model. The time field passes on only text made of digits and a colon.
- Store.Store.UpdateTechnician: runs the corrected colour guard (`Technicians.UpdateTechnician`), so `color: ""` is refused. The code as written stores it; that behaviour is `Technicians.UpdateTechnicianAsWritten` (see Findings).
- TechnicianSelect.TechnicianPicker.CreateAndSelect: runs the corrected `TechnicianSelect.Created`, which does not append a technician who is already selected. The code as written appends a repeat; that behaviour is `TechnicianSelect.CreatedAsWritten` (see Findings).
- TechnicianSelect.TechnicianPicker.HandleKeyDown: Enter on a typed name goes through the corrected `TechnicianSelect.Created`, so it never appends a repeat. The code as written does (see Findings).
- TechnicianSelect.KeyDown: Enter with no highlighted suggestion and a non-blank input goes through the corrected `TechnicianSelect.Created`, so it never appends a technician who is already selected. The code as written calls `handleCreateAndSelect`, which does append the repeat; that behaviour is `TechnicianSelect.CreatedAsWritten` (see Findings).
- WeekLayout.GetEventColumns: requires every start and end time to read as a number, and so do `WeekLayout.ToEvents` and `WeekLayout.GetEventColumnsAsWritten`. With a NaN time the source's comparisons are all false; that path is not modelled.
- WeekLayout: the events' `column` and `totalColumns` fields are two arrays indexed like the sorted events, not fields of event objects.
- DayRecap.BlockPosition: pixels are exact rationals. The source's floating-point rounding is not modelled.
- `getSlotIndex` and `getEventHeight` return an exact rational (`real`) where the source returns a float.
- Navigation, panels and the day-recap open/close actions only set UI flags. The component files that repeat store checks (the settings panel, the task input, the month view, the event chip, the technician filter, the intervention form) are not part of this model.

## Findings

| source | as written | input that shows it | evidently intended | confidence | as-written member | corrected member |
|---|---|---|---|---|---|---|
| src/store/useStore.ts:384 | The colour guard is `data.color && !isValidPaletteColor(data.color)`, so an empty string skips it and is stored. | `updateTechnician("t1", { color: "" })` on a technician wearing "#E53935" | Any colour given that is not in the palette is refused, as `addTechnician` and `merge` ensure. | medium, not executed | Technicians.UpdateTechnicianAsWritten, Technicians.UpdateTechnicianEmptyColor | Technicians.UpdateTechnician |
| src/components/Calendar/WeekView.tsx:78-95 | The final pass sweeps once. A total raised late in the sweep does not reach events settled earlier, so two overlapping events can keep different totals and be drawn over each other. | 09:00-09:30, 09:00-10:00, 09:30-10:30, 10:00-11:00, 10:30-11:00, 10:30-11:30 give totals 2, 3, 3, 3, 3, 3; the first two overlap and are drawn over each other | Every two overlapping events share one total, as the pass's own comment says ("all overlapping events have the same totalColumns"). | high, not executed | WeekView.LayoutAsWritten, WeekLayout.GetEventColumnsAsWritten, WeekView.AsWrittenDrawsOverlap | WeekView.LayoutCorrected, WeekLayout.GetEventColumns, WeekView.LayoutCorrectedLaws, WeekView.CorrectedBoxesApart |
| src/components/InterventionPanel/TechnicianSelect.tsx:84-97 | `handleCreateAndSelect` appends the id that `getOrCreateTechnician` returns even when that technician is already selected. | Marc ("m") selected, the input "Marc", Enter: the selection becomes ["m", "m"] | A technician already selected is not appended again. The suggestions already hide selected technicians. | high, not executed | TechnicianSelect.CreatedAsWritten, TechnicianSelect.CreatedAsWrittenRepeats, TechnicianSelect.CreatedAsWrittenExample | TechnicianSelect.Created, TechnicianSelect.CreatedLaws, TechnicianSelect.KeyDownLaws |
