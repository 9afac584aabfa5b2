# Bank memory: a verified model of the plugin core

Bank memory is a RuneLite plugin that remembers what a player keeps in the
bank. Each bank is remembered as a "current" save for an account and world
type, or as a named snapshot. The plugin shows a saved bank, its value and
the difference between two saves. This project models the host-independent
core of the plugin in Dafny and proves what that core promises.

The core comes in two generations.

- **The current generation** (package `com.bankmemory.data`):
  - `BankSave`: the bank-save value, with fresh ids and factories that drop placeholders, empty slots and bank fillers.
  - `ItemDataParser`: the `"id,qty,id,qty,"` text used to store an item list.
  - `PluginDataStore`: the store holding the current-bank list, the snapshot list and a case-insensitive login-to-display-name map. Its configuration writes and its listener notifications are recorded as an ordered event log.
  - The small helpers `SaferUsernameFunction` (name masking), `DisplayNameMapper`, `AccountIdentifier` and `BankWorldType.forWorld`.
- **The first generation** (package `com.bankmemory`):
  - Its own `BankSave` with `fromBank`.
  - The line-based `BankSaveParser`.
  - `BankSavesDataStore`, which exists twice: once in `com.bankmemory` and once in `com.bankmemory.data`. The two copies are identical and share one model. The `data` copy is a stale duplicate: inside `com.bankmemory.data` the name `BankSave` means the current generation's class, which has no `getUserName`, so its calls match only the first generation's `BankSaveParser` and `BankSave`. It is therefore modelled with those types.
- **Shared by both**:
  - `ItemListDiffGenerator`: the item-by-item difference between two item lists.
  - `FilterableItemListModel`: the list model behind the item lists, a raw list with a filtered view of it.
  - `ValueFormatter`: grouped digits, an optional sign, and K/M/B abbreviation.

## How the model is laid out

- Java's `int`, `long`, `String.split`, `Integer.parseInt` (over ASCII digits) and `Integer.toString` are written out in `java_ints.dfy`, `java_strings.dfy` and `int_tokens.dfy`.
- A `TreeMap` ordered by `String.CASE_INSENSITIVE_ORDER` is a sorted sequence of entries (`case_insensitive_map.dfy`).
- A `LinkedHashMap` is a sequence of named entries in insertion order.
- Code that changes state step by step is modelled as classes and methods with loops, each proved against a specification function:
  - the stores, the list model and the formatter are classes;
  - `findDifferencesBetween`, `toSaveString`, `parseSaveString`, `fromCurrentBank`, `fromBank` and the reclaim loops are methods with loops.
- Pure code becomes functions and lemmas.
- Host values become parameters:
  - `ItemManager.canonicalize` is a function parameter;
  - the clock's date string and `ID_BASE` (the start-up time) are inputs;
  - the config item of the first-generation store is a string field.

## Model

| member | source | states |
|---|---|---|
| JavaInts.Sub32 | src/main/java/com/bankmemory/ItemListDiffGenerator.java:21 | Java `int` subtraction: the exact difference when it fits in 32 bits, otherwise the difference moved by exactly 2^32 |
| JavaInts.ParseIntOfIntToString | src/main/java/com/bankmemory/data/ItemDataParser.java:28-47 | `Integer.parseInt` reads back every int that `Integer.toString` wrote |
| JavaInts.IntToStringInjective | src/main/java/com/bankmemory/data/AccountIdentifier.java:16 | different integers have different decimal renderings |
| JavaInts.IntToStringSign | src/main/java/com/bankmemory/data/AccountIdentifier.java:16 | a rendering starts with '-' exactly for a negative value |
| JavaInts.IntToStringIsCanonical | src/main/java/com/bankmemory/data/ItemDataParser.java:28 | every rendered int is a canonical token: it parses, and renders back to itself |
| JavaInts.DigitsValueOfNatToString | src/main/java/com/bankmemory/data/ItemDataParser.java:28 | the decimal digits of n are all digits and are worth n |
| JavaStrings.ToLowerCaseIdempotent | src/main/java/com/bankmemory/FilterableItemListModel.java:72-79 | lower-casing twice is lower-casing once |
| JavaStrings.MissingCharNotContained | src/main/java/com/bankmemory/FilterableItemListModel.java:79 | a string does not contain a substring that has a character the string lacks |
| JavaStrings.SplitTerminatedJoin | src/main/java/com/bankmemory/data/ItemDataParser.java:45 | `split` of non-empty, delimiter-free tokens, each followed by the delimiter, gives the tokens back: the trailing empty piece is dropped |
| JavaStrings.SplitThree | src/main/java/com/bankmemory/BankSaveParser.java:51 | a line of three delimiter-free fields, the last one non-empty, splits on ';' into exactly those three, with or without a final ';' |
| JavaStrings.RawSplitJoin | src/main/java/com/bankmemory/BankSaveParser.java:47 | the raw pieces of any string, joined with the delimiter, give the string back |
| JavaStrings.LexLessTransitive | src/main/java/com/bankmemory/data/PluginDataStore.java:23 | the code-unit order under `CASE_INSENSITIVE_ORDER` is transitive |
| JavaStrings.LexLessTotal | src/main/java/com/bankmemory/data/PluginDataStore.java:23 | two different strings are ordered one way or the other |
| JavaLists.IndexOfFirst | src/main/java/com/bankmemory/data/PluginDataStore.java:214-216 | `filter(p).findFirst()`: a position passing p with no passing position before it, or none when no element passes |
| JavaLists.RemoveFirstAt | src/main/java/com/bankmemory/data/PluginDataStore.java:218 | `List.remove(Object)` drops the first occurrence and keeps every other element in order |
| JavaLists.RemoveFirstOfFound | src/main/java/com/bankmemory/data/PluginDataStore.java:214-218 | removing by equality the element that `findFirst` found removes exactly its position |
| JavaLists.RemoveFirstAbsent | src/main/java/com/bankmemory/FilterableItemListModel.java:58-61 | removing an element that is not present changes nothing |
| BankItems.ItemNumbers | src/main/java/com/bankmemory/data/ItemDataParser.java:27-29 | the flat id, qty, ... list has two numbers per item |
| BankItems.Pairs | src/main/java/com/bankmemory/data/ItemDataParser.java:56-59 | pairing an even number list gives half as many items |
| BankItems.PairsOfItemNumbers | src/main/java/com/bankmemory/data/ItemDataParser.java:56-59 | pairing the flat number list of an item list gives the item list back |
| BankItems.ItemNumbersOfPairs | src/main/java/com/bankmemory/data/ItemDataParser.java:56-59 | flattening the pairs of an even number list gives the numbers back |
| IntTokens.Render | src/main/java/com/bankmemory/data/ItemDataParser.java:28 | one decimal token per number |
| IntTokens.ParseTokensMeaning | src/main/java/com/bankmemory/data/ItemDataParser.java:44-51 | parsing the tokens succeeds exactly when every token is an int32, and then gives each token's value in order; otherwise it fails on the first bad token |
| IntTokens.ParseRender | src/main/java/com/bankmemory/data/ItemDataParser.java:28-47 | rendered numbers parse back to the numbers |
| IntTokens.RenderTokensPlain | src/main/java/com/bankmemory/BankSaveParser.java:18 | a rendered number is non-empty and holds no ',', ';' or line break |
| IntTokens.SplitRendered | src/main/java/com/bankmemory/data/ItemDataParser.java:45 | the comma-terminated text of a non-empty number list splits back into its tokens |
| IntTokens.RenderParsedCanonical | src/test/java/com/bankmemory/data/ItemDataParserTest.java:73 | canonical tokens parse, and render back unchanged |
| ItemDataParser.ToSaveString | src/main/java/com/bankmemory/data/ItemDataParser.java:25-31 | the StringBuilder loop writes the save string of the items: "id,qty," per item, in order |
| ItemDataParser.ParseSaveString | src/main/java/com/bankmemory/data/ItemDataParser.java:39-61 | the method returns the decoded list or the parse error: empty for null or "", otherwise each split token parsed and paired |
| ItemDataParser.ParseTokensToItems | src/main/java/com/bankmemory/data/ItemDataParser.java:44-60 | the two loops over the tokens: `NotAnInteger` for the first bad token, `OddNumberCount` for an odd count, else the pairs in order |
| ItemDataParser.EncodeIsTerminatedJoin | src/main/java/com/bankmemory/data/ItemDataParser.java:25-31 | the save string is every number's token followed by a comma; the empty list gives "" |
| ItemDataParser.DecodeEncode | src/test/java/com/bankmemory/data/ItemDataParserTest.java:68-75 | for every list of int32 items, parsing the save string gives the list back |
| ItemDataParser.EmptyCases | src/main/java/com/bankmemory/data/ItemDataParser.java:40-42 | the empty list is written as "", and both null and "" parse to the empty list |
| ItemDataParser.EncodeDecodeCanonical | src/test/java/com/bankmemory/data/ItemDataParserTest.java:60-73 | a canonical save string such as `"301,1,302,10,303,5,304,3,"` parses, and writing the result gives the string back |
| ItemDataParser.CanonicalTokens | src/main/java/com/bankmemory/data/ItemDataParser.java:45 | a non-empty canonical string is the comma-terminated join of its split tokens, an even number of canonical ints |
| ItemDataParser.NonIntegerTokenFails | src/main/java/com/bankmemory/data/ItemDataParser.java:45-51 | any token that is not an int32 makes the parse fail with `NotAnInteger` |
| ItemDataParser.OddTokenCountFails | src/main/java/com/bankmemory/data/ItemDataParser.java:53-55 | an odd number of numeric tokens makes the parse fail with `OddNumberCount` |
| ItemDataParser.DecodedItemsPairTokens | src/main/java/com/bankmemory/data/ItemDataParser.java:56-59 | on success there are half as many items as tokens, item k pairing tokens 2k and 2k+1 |
| ItemDataParser.TrailingCommaIgnored | src/main/java/com/bankmemory/data/ItemDataParser.java:45 | `"301,1,"` parses to the single item (301, 1) |
| ItemDataParser.EmptyTokenFails | src/main/java/com/bankmemory/data/ItemDataParser.java:45-51 | split never ends on an empty token, and any empty token it keeps makes the parse fail with `NotAnInteger` |
| ItemDataParser.OnlyCommasDecodeEmpty | src/main/java/com/bankmemory/data/ItemDataParser.java:45 | a text of commas only, such as ",", has no tokens and parses to the empty list |
| ItemDataParser.LeadingEmptyTokenFails | src/main/java/com/bankmemory/data/ItemDataParser.java:45-50 | `",a,b"` with comma-free `a` and `b`, `b` non-empty, fails: the leading empty token is kept |
| ItemDataParser.InteriorEmptyTokenFails | src/main/java/com/bankmemory/data/ItemDataParser.java:45-50 | `"a,,b,"` with comma-free `a` and `b`, `b` non-empty, fails: the interior empty token is kept |
| ItemListDiff.FindDifferencesBetween | src/main/java/com/bankmemory/ItemListDiffGenerator.java:14-32 | the loops over the two HashMaps build exactly `Diff(before, after)`: the nonzero changes of `before`'s items in `before`'s order, then the after-only items in `after`'s order |
| ItemListDiff.QuantitiesByIdKeys | src/main/java/com/bankmemory/ItemListDiffGenerator.java:17 | the quantity map holds exactly the ids of the list |
| ItemListDiff.QuantitiesByIdConcat | src/main/java/com/bankmemory/ItemListDiffGenerator.java:17 | putting one list after another, the later list's quantities win, so a repeated id keeps its last quantity |
| ItemListDiff.QuantityOfMember | src/main/java/com/bankmemory/ItemListDiffGenerator.java:20-21 | in a list without repeated ids, each item's quantity is the one recorded for its id |
| ItemListDiff.QuantityOfAbsent | src/main/java/com/bankmemory/ItemListDiffGenerator.java:21 | an id the list does not hold has quantity 0, the `getOrDefault` default |
| ItemListDiff.BeforeDeltasMembers | src/main/java/com/bankmemory/ItemListDiffGenerator.java:19-25 | an entry of the first part is exactly an item of `before` with its nonzero change (after quantity, default 0, minus its own) |
| ItemListDiff.AfterOnlyMembers | src/main/java/com/bankmemory/ItemListDiffGenerator.java:26-30 | an entry of the second part is exactly an item of `after`, unchanged, whose id is nowhere in `before` |
| ItemListDiff.BeforeDeltasNonzero | src/main/java/com/bankmemory/ItemListDiffGenerator.java:22-23 | every change in the first part is nonzero and for an id of `before` |
| ItemListDiff.BeforeDeltasQuantities | src/main/java/com/bankmemory/ItemListDiffGenerator.java:21-24 | for `before` without repeats, each id gets its change, or nothing when the change is 0 |
| ItemListDiff.DeltaQuantity | src/main/java/com/bankmemory/ItemListDiffGenerator.java:21-23 | one item's entry records its change, and is dropped only when the change is 0 |
| ItemListDiff.DeltaOtherId | src/main/java/com/bankmemory/ItemListDiffGenerator.java:23 | one item's entry records nothing for any other id |
| ItemListDiff.AfterOnlyQuantities | src/main/java/com/bankmemory/ItemListDiffGenerator.java:26-30 | the second part keeps `after`'s quantity for every id outside `before` and has none for the others |
| ItemListDiff.BeforeDeltasDistinct | src/main/java/com/bankmemory/ItemListDiffGenerator.java:19-25 | `before` without repeated ids gives a first part without repeated ids |
| ItemListDiff.AfterOnlyDistinct | src/main/java/com/bankmemory/ItemListDiffGenerator.java:26-30 | `after` without repeated ids gives a second part without repeated ids |
| ItemListDiff.DiffMembers | src/main/java/com/bankmemory/ItemListDiffGenerator.java:10-13 | the diff holds exactly the nonzero changes of `before`'s items and the items only `after` has |
| ItemListDiff.DiffApplied | src/main/java/com/bankmemory/ItemListDiffGenerator.java:10-13 | for lists without repeated ids and with non-negative quantities, before's quantity plus the diff's gives after's quantity, for every id |
| ItemListDiff.DiffLength | src/main/java/com/bankmemory/ItemListDiffGenerator.java:18-30 | the diff has at most `|before| + |after|` entries |
| ItemListDiff.SameQuantitiesNoDiff | src/test/java/com/bankmemory/ItemListDiffGeneratorTest.java:38-39 | two lists recording the same quantity for every id, such as the same bank in another order, have an empty diff |
| ItemListDiff.DiffWithItselfEmpty | src/test/java/com/bankmemory/ItemListDiffGeneratorTest.java:38 | a list without repeated ids has no difference with itself |
| BankWorldTypes.ForWorld | src/main/java/com/bankmemory/data/BankWorldType.java:20-31 | the decision table, an if-and-only-if per outcome: SEASONAL with DEADMAN gives DEADMAN_TOURNAMENT, and SEASONAL alone LEAGUE; otherwise TOURNAMENT_WORLD gives TOURNAMENT, then DEADMAN gives DEADMAN, else DEFAULT |
| BankWorldTypes.ForWorldOnlyDecidingFlags | src/main/java/com/bankmemory/data/BankWorldType.java:21-30 | only the SEASONAL, DEADMAN and TOURNAMENT_WORLD flags affect the result |
| BankWorldTypes.DisplayStringsDistinct | src/main/java/com/bankmemory/data/BankWorldType.java:12-18 | every world type has its own display string, and only DEFAULT's is empty |
| BankSaves.BankSave.GetWorldType | src/main/java/com/bankmemory/data/BankSave.java:48-51 | DEFAULT for a missing world type, the stored one otherwise |
| BankSaves.IdSource.constructor | src/main/java/com/bankmemory/data/BankSave.java:21-22 | the id source starts at ID_BASE with a zero counter and no ids issued |
| BankSaves.IdSource.NextId | src/main/java/com/bankmemory/data/BankSave.java:40 | `ID_BASE + incrementAndGet()`: the counter goes up by one, and the id is above every id issued before |
| BankSaves.NewBankSave | src/main/java/com/bankmemory/data/BankSave.java:33-46 | the constructor keeps the given fields and takes an id above every earlier one |
| BankSaves.FromCurrentBank | src/main/java/com/bankmemory/data/BankSave.java:53-76 | the loop keeps the kept slots of the container, in order; the save gets the world type, the account, no name and a fresh id |
| BankSaves.SnapshotFromExistingBank | src/main/java/com/bankmemory/data/BankSave.java:82-90 | a null name throws before any id is taken; otherwise a copy of every field under the new name, with a fresh id above every earlier one that is recorded as issued |
| BankSaves.CleanItemData | src/main/java/com/bankmemory/data/BankSave.java:92-105 | a copy without empty slots and bank fillers, the other fields kept, with a fresh id |
| BankSaves.WithNewAccountId | src/main/java/com/bankmemory/data/PluginDataStore.java:82 | a copy moved to the new account id, the other fields kept, with a fresh id |
| BankSaves.KeptSlotsMeaning | src/main/java/com/bankmemory/data/BankSave.java:62-73 | `fromCurrentBank` keeps exactly the slots whose id is its own canonical id and is neither -1 nor BANK_FILLER, each unchanged, and never more slots than the container has |
| BankSaves.KeptSlotsAppend | src/main/java/com/bankmemory/data/BankSave.java:62-73 | the slot filter keeps the container's order: it distributes over concatenation |
| BankSaves.CleanItemsMeaning | src/main/java/com/bankmemory/data/BankSave.java:95-97 | `cleanItemData` removes exactly the items with id -1 or BANK_FILLER |
| BankSaves.CleanItemsAppend | src/main/java/com/bankmemory/data/BankSave.java:95-97 | the clean filter keeps the list's order |
| BankSaves.CleanItemsNothingToClean | src/main/java/com/bankmemory/data/BankSave.java:95-97 | a list with nothing to clean is left as it is |
| BankSaves.CleanItemsIdempotent | src/main/java/com/bankmemory/data/BankSave.java:92-105 | cleaning twice gives the same items as cleaning once |
| BankSaves.CleanItemsOfKeptSlots | src/main/java/com/bankmemory/data/BankSave.java:68-70 | the items that `fromCurrentBank` keeps survive the load-time cleaning unchanged |
| SaferUsername.VisibleCount | src/main/java/com/bankmemory/data/SaferUsernameFunction.java:12 | at most three characters stay visible, and never more than the name has |
| SaferUsername.From | src/main/java/com/bankmemory/data/SaferUsernameFunction.java:11-14 | the masked name has the input's length, keeps the first `min(3, length / 3)` characters and has '-' everywhere else |
| SaferUsername.FromIdempotent | src/main/java/com/bankmemory/data/SaferUsernameFunction.java:12-13 | masking a masked name changes nothing |
| SaferUsername.FromVisibility | src/main/java/com/bankmemory/data/SaferUsernameFunction.java:5-13 | every shown character is among the first three and is the original one; names shorter than three are fully masked |
| AccountIdentifiers.FromAccountHash | src/main/java/com/bankmemory/data/AccountIdentifier.java:12-17 | null exactly for the hash -1; otherwise the prefix `"accId#hash1#"` followed by the decimal hash |
| AccountIdentifiers.FromAccountHashInjective | src/main/java/com/bankmemory/data/AccountIdentifier.java:16 | two hashes other than -1 never share an identifier |
| CaseInsensitiveMaps.GetMeaning | src/main/java/com/bankmemory/data/DisplayNameMapper.java:16 | `get` finds a value exactly when some key equals the key ignoring case, and in an ordered map it is that key's value |
| CaseInsensitiveMaps.GetPut | src/main/java/com/bankmemory/data/PluginDataStore.java:47 | after `put`, the key (ignoring case) reads the new value and every other key reads what it read before |
| CaseInsensitiveMaps.PutSorted | src/main/java/com/bankmemory/data/PluginDataStore.java:23 | `put` keeps the map ordered by the case-insensitive order, one key per case-folded name |
| CaseInsensitiveMaps.PutUnchanged | src/main/java/com/bankmemory/data/PluginDataStore.java:47-48 | putting the value already stored under a key changes nothing |
| CaseInsensitiveMaps.PutKeepsKeys | src/main/java/com/bankmemory/data/PluginDataStore.java:47 | `put` on a key already present keeps the map's length and every key's original spelling |
| CaseInsensitiveMaps.PutGreatest | src/main/java/com/bankmemory/data/PluginDataStore.java:47 | a key above every key of the map is added at the end |
| CaseInsensitiveMaps.PutAllOfSorted | src/main/java/com/bankmemory/data/DisplayNameMapper.java:11-13 | copying an ordered map entry by entry gives the same map |
| CaseInsensitiveMaps.PutAllSorted | src/main/java/com/bankmemory/data/PluginDataStore.java:35 | `putAll` into an ordered map gives an ordered map |
| CaseInsensitiveMaps.GetPutAll | src/main/java/com/bankmemory/data/DisplayNameMapper.java:12 | after `putAll`, a key reads the last value put under it (ignoring case), or what the map held before |
| CaseInsensitiveMaps.FoldLessTotal | src/main/java/com/bankmemory/data/PluginDataStore.java:23 | two names that differ ignoring case are ordered one way or the other by `CASE_INSENSITIVE_ORDER` |
| CaseInsensitiveMaps.FoldLessTransitive | src/main/java/com/bankmemory/data/PluginDataStore.java:23 | `CASE_INSENSITIVE_ORDER` is transitive |
| DisplayNameMappers.NewDisplayNameMapper | src/main/java/com/bankmemory/data/DisplayNameMapper.java:11-13 | the constructor's copy is an ordered case-insensitive map |
| DisplayNameMappers.Map | src/main/java/com/bankmemory/data/DisplayNameMapper.java:15-21 | the result for an unregistered login has the login's length |
| DisplayNameMappers.MapOfSource | src/main/java/com/bankmemory/data/DisplayNameMapper.java:15-20 | a login registered under any capitalisation maps to the last display name registered for it; any other login maps to its masked form |
| DisplayNameMappers.MapOfSortedMap | src/main/java/com/bankmemory/data/PluginDataStore.java:107-111 | a mapper built from the store's name map returns the display name of the key equal to the login ignoring case |
| PluginDataStores.CurrentSaveFor | src/main/java/com/bankmemory/data/PluginDataStore.java:125-133 | `getDataForCurrentBank`: nothing exactly for a null or empty id or when no save matches; a result is a current save with that world type and an account equal ignoring case |
| PluginDataStores.SaveWithId | src/main/java/com/bankmemory/data/PluginDataStore.java:148-154 | `getBankSaveWithId`: the first save with the id in the current list; when that list has none, the first in the snapshot list; nothing exactly when neither list has the id |
| PluginDataStores.ReclaimSaves | src/main/java/com/bankmemory/data/PluginDataStore.java:79-94 | one reclaim loop: each save of the old id (compared case-sensitively) is replaced in place by a copy for the new id, the others stay; the copies take strictly increasing ids, each above every id issued before, and the issued set grows by exactly those ids; the flag tells whether any save was reclaimed |
| PluginDataStores.PluginDataStore.constructor | src/main/java/com/bankmemory/data/PluginDataStore.java:31-36 | the lists as read, the name map `putAll` into an empty case-insensitive map, no listeners and no events |
| PluginDataStores.PluginDataStore.RegisterDisplayNameForAccountId | src/main/java/com/bankmemory/data/PluginDataStore.java:38-72 | the map is put; an unchanged mapping causes no write, no call and no change to any save; a changed one writes the map, then reclaims the saves of the first old-style login mapped to the same name (searched after the put), writes the changed lists, notifies `displayNameMapUpdated`, and both list notifications when a save moved; every reclaimed snapshot copy's id is above every reclaimed current copy's id, the issued set grows by exactly the reclaimed ids, and it is unchanged when no reclaim happens |
| PluginDataStores.PluginDataStore.ClaimExistingSavesForNewAccountId | src/main/java/com/bankmemory/data/PluginDataStore.java:74-105 | both lists reclaimed in place, each written only if it changed; the result says whether either did; the current list is reclaimed first, so every snapshot copy's id is above every current copy's id, and the issued set grows by exactly the reclaimed ids |
| PluginDataStores.PluginDataStore.GetDisplayNameMapper | src/main/java/com/bankmemory/data/PluginDataStore.java:107-111 | the mapper holds a copy of the current name map |
| PluginDataStores.PluginDataStore.AddListener | src/main/java/com/bankmemory/data/PluginDataStore.java:113-117 | the listener is appended; nothing else changes |
| PluginDataStores.PluginDataStore.RemoveListener | src/main/java/com/bankmemory/data/PluginDataStore.java:119-123 | the first registration of the listener is removed; nothing else changes |
| PluginDataStores.PluginDataStore.GetCurrentBanksList | src/main/java/com/bankmemory/data/PluginDataStore.java:136-140 | a copy equal to the current-bank list |
| PluginDataStores.PluginDataStore.GetSnapshotBanksList | src/main/java/com/bankmemory/data/PluginDataStore.java:142-146 | a copy equal to the snapshot list |
| PluginDataStores.PluginDataStore.SaveAsCurrentBank | src/main/java/com/bankmemory/data/PluginDataStore.java:156-163 | the new save replaces the first save in its slot and goes first; one `writeCurrentBanks`, then `currentBanksListChanged` to every listener; the snapshots and the name map are unchanged |
| PluginDataStores.PluginDataStore.SaveAsCurrentBankImpl | src/main/java/com/bankmemory/data/PluginDataStore.java:165-176 | the first save with the new save's account (ignoring case) and world type is removed, the new save is put first and the list is written |
| PluginDataStores.PluginDataStore.SaveAsSnapshotBank | src/main/java/com/bankmemory/data/PluginDataStore.java:178-186 | a null name throws with nothing changed; otherwise the snapshot copy goes first, the list is written and `snapshotBanksListChanged` sent; the current list is untouched and the copy's id is recorded as issued |
| PluginDataStores.PluginDataStore.DeleteBankSaveWithId | src/main/java/com/bankmemory/data/PluginDataStore.java:188-211 | the first save with the id leaves each list; only changed lists are written; `currentBanksListChanged` if the current list changed, else `snapshotBanksListChanged` if the snapshot list did, else no call |
| PluginDataStores.RemoveBankSaveWithIdFromList | src/main/java/com/bankmemory/data/PluginDataStore.java:213-222 | the list without its first save with the id, and whether there was one |
| PluginDataStores.ReplacedCurrentUnique | src/main/java/com/bankmemory/data/PluginDataStore.java:167-174 | saving a current bank keeps at most one save per (case-folded account, world type); the new save is first and alone in its slot |
| PluginDataStores.CurrentSaveAfterSave | src/main/java/com/bankmemory/data/PluginDataStore.java:125-176 | after saving a current bank, the current bank found for its account and world type is that save |
| PluginDataStores.WithoutIdMeaning | src/main/java/com/bankmemory/data/PluginDataStore.java:213-222 | a list holding the id loses exactly one save, a list without it is unchanged, and unique slots stay unique |
| PluginDataStores.ReclaimedLeavesNone | src/main/java/com/bankmemory/data/PluginDataStore.java:79-94 | after reclaiming for a different id, no save of the old login is left, and exactly the saves of either id belong to the new one |
| PluginDataStores.ReclaimedIdsUpToMeaning | src/main/java/com/bankmemory/data/PluginDataStore.java:79-94 | an id is among those the loop has issued after n steps exactly when one of the first n saves belonged to the old login and its copy carries that id |
| PluginDataStores.ReclaimedIdsMeaning | src/main/java/com/bankmemory/data/PluginDataStore.java:79-94 | the ids a full reclaim adds to the issued set are exactly the ids of the reclaimed copies |
| PluginDataStores.ClaimedIdsDistinct | src/main/java/com/bankmemory/data/PluginDataStore.java:74-105 | reclaiming the current list and then the snapshot list from one id source never gives two copies the same id, within one list or across the two |
| PluginDataStores.OldStyleIdForMeaning | src/main/java/com/bankmemory/data/PluginDataStore.java:55-59 | the login found is a key of the name map, mapped to the display name, and not a new-style id |
| PluginDataStores.OldStyleIdIsNotNewStyle | src/main/java/com/bankmemory/data/PluginDataStore.java:56 | the search never picks a new-style account id, so the saves claimed belong to another key |
| FilterableItemListModels.Range | src/main/java/com/bankmemory/FilterableItemListModel.java:26-32 | n positions, position i holding i |
| FilterableItemListModels.UnfilteredIndexList | src/main/java/com/bankmemory/FilterableItemListModel.java:26-32 | the loop builds 0, 1, ..., n - 1 |
| FilterableItemListModels.FilterableItemListModel.constructor | src/main/java/com/bankmemory/FilterableItemListModel.java:15-18 | empty raw list, empty filter, empty view, no listeners |
| FilterableItemListModels.FilterableItemListModel.SetListContents | src/main/java/com/bankmemory/FilterableItemListModel.java:20-24 | the new raw list under the same filter, and every listener told once |
| FilterableItemListModels.ViewChanged | src/main/java/com/bankmemory/FilterableItemListModel.java:35 | the event `new ListDataEvent(this, CONTENTS_CHANGED, 0, getSize() - 1)`: its indexes are 0 and size - 1, the smaller reported first, so an empty view reports (-1, 0) |
| FilterableItemListModels.FilterableItemListModel.FireListeners | src/main/java/com/bankmemory/FilterableItemListModel.java:34-37 | one `contentsChanged` for the whole view per listener, in order; nothing else changes |
| FilterableItemListModels.FilterableItemListModel.ClearList | src/main/java/com/bankmemory/FilterableItemListModel.java:39-41 | raw list and view both empty, the filter kept, every listener told once |
| FilterableItemListModels.FilterableItemListModel.GetSize | src/main/java/com/bankmemory/FilterableItemListModel.java:43-46 | the view is never longer than the raw list, and as long as it without a filter |
| FilterableItemListModels.FilterableItemListModel.GetElementAt | src/main/java/com/bankmemory/FilterableItemListModel.java:48-51 | an element exactly for a position in view, and then a raw entry passing the filter |
| FilterableItemListModels.FilterableItemListModel.AddListDataListener | src/main/java/com/bankmemory/FilterableItemListModel.java:53-56 | the listener is appended; nothing else changes |
| FilterableItemListModels.FilterableItemListModel.RemoveListDataListener | src/main/java/com/bankmemory/FilterableItemListModel.java:58-61 | the first registration is removed; nothing else changes |
| FilterableItemListModels.FilterableItemListModel.ApplyFilter | src/main/java/com/bankmemory/FilterableItemListModel.java:63-69 | the view for the new filter; listeners are told only when the index list differs from the old one |
| FilterableItemListModels.FilterableItemListModel.ApplyFilterSilently | src/main/java/com/bankmemory/FilterableItemListModel.java:71-84 | the filter lower-cased and kept, the view rebuilt, no listener told |
| FilterableItemListModels.FilterableItemListModel.ClearFilter | src/main/java/com/bankmemory/FilterableItemListModel.java:86-88 | every entry back in view, listeners told only if the view changed |
| FilterableItemListModels.FilterableItemListModel.GetAdjustedIndex | src/main/java/com/bankmemory/FilterableItemListModel.java:93-96 | fails exactly outside the raw list; a position other than -1 is where `getElementAt` finds the raw entry |
| FilterableItemListModels.PassingMeaning | src/main/java/com/bankmemory/FilterableItemListModel.java:77-83 | the passing positions are in range, strictly increasing, and exactly those of the entries passing the filter |
| FilterableItemListModels.MatchingIndexesMeaning | src/main/java/com/bankmemory/FilterableItemListModel.java:71-84 | the view invariant: strictly increasing positions below the raw size; every position for an empty filter, else exactly those whose lower-cased name contains the lower-cased filter |
| FilterableItemListModels.MatchingIndexesOfLowerCase | src/main/java/com/bankmemory/FilterableItemListModel.java:72-79 | filtering by the lower-cased filter is filtering by the filter itself |
| FilterableItemListModels.AdjustedIndexMeaning | src/main/java/com/bankmemory/FilterableItemListModel.java:90-96 | an error exactly outside the raw list; -1 exactly for a filtered-out entry; otherwise the entry's position in the view |
| FilterableItemListModels.TestEntriesPassing | src/test/java/com/bankmemory/FilterableItemListModelTest.java:22-25 | "Rune axe", "Rune dagger" and "Air rune" pass the filter "rune" |
| FilterableItemListModels.TestEntriesFilteredOut | src/test/java/com/bankmemory/FilterableItemListModelTest.java:21-24 | "Dragon Scimitar" and "Magic staff" do not pass it |
| FilterableItemListModels.FilterVector | src/test/java/com/bankmemory/FilterableItemListModelTest.java:54-63 | the filter "RuNe" keeps positions 1, 2 and 4 |
| FilterableItemListModels.AdjustedIndexVector | src/test/java/com/bankmemory/FilterableItemListModelTest.java:113-119 | with that view the raw positions 0..4 map to -1, 0, 1, -1, 2 |
| FilterableItemListModels.NegativeIndexVector | src/test/java/com/bankmemory/FilterableItemListModelTest.java:133-143 | position -1 fails with "index (-1) must not be negative" |
| FilterableItemListModels.TooLargeIndexVector | src/test/java/com/bankmemory/FilterableItemListModelTest.java:146-156 | position 100000 of a five-entry list fails with "index (100000) must be less than size (5)" |
| ValueFormatters.Pad3 | src/main/java/com/bankmemory/bankview/ValueFormatter.java:16 | a group after a separator: three digits worth n |
| ValueFormatters.Truncated2 | src/main/java/com/bankmemory/bankview/ValueFormatter.java:11-12 | the first two fraction digits of rem / d rounded DOWN: f / 100 <= rem / d < (f + 1) / 100 |
| ValueFormatters.FractionText | src/main/java/com/bankmemory/bankview/ValueFormatter.java:11 | "" exactly for no fraction; otherwise '.' and one or two digits worth the fraction, never ending in '0' |
| ValueFormatters.Abs64 | src/main/java/com/bankmemory/bankview/ValueFormatter.java:20 | `Math.abs` on a long: the magnitude, except that Long.MIN_VALUE stays itself |
| ValueFormatters.ScaleFor | src/main/java/com/bankmemory/bankview/ValueFormatter.java:23-35 | the divisor chosen is at least 1 |
| ValueFormatters.ValueFormatter.constructor | src/main/java/com/bankmemory/bankview/ValueFormatter.java:9-13 | a new formatter shows no positive sign |
| ValueFormatters.ValueFormatter.SetShowPositiveSign | src/main/java/com/bankmemory/bankview/ValueFormatter.java:42-44 | the positive prefix becomes "+" or "" |
| ValueFormatters.GroupedValue | src/main/java/com/bankmemory/bankview/ValueFormatter.java:15-17 | the grouped digits, separators taken out, are decimal digits worth the value |
| ValueFormatters.GroupedShape | src/main/java/com/bankmemory/bankview/ValueFormatter.java:15-17 | one to three digits, then groups of "," and three digits; a leading '0' only for 0 |
| ValueFormatters.FormatNegation | src/test/java/com/bankmemory/bankview/ValueFormatterTest.java:40 | for v > 0, `format(-v)` is "-" followed by `format(v)` |
| ValueFormatters.FormatAbbreviatedNegation | src/test/java/com/bankmemory/bankview/ValueFormatterTest.java:53 | for v > 0, `formatAbbreviated(-v)` is "-" followed by `formatAbbreviated(v)` |
| ValueFormatters.ShowPositiveSign | src/main/java/com/bankmemory/bankview/ValueFormatter.java:42-44 | with the sign shown, non-negative values gain a '+' in both formats and negative ones are unchanged |
| ValueFormatters.SmallValuesUnabbreviated | src/main/java/com/bankmemory/bankview/ValueFormatter.java:23-25 | below 10,000 in magnitude the abbreviation is the `format` string |
| ValueFormatters.AbbreviatedSuffix | src/main/java/com/bankmemory/bankview/ValueFormatter.java:26-39 | from 10,000 the suffix is K, from 1,000,000 M and from 1,000,000,000 B, after the quotient truncated to two fraction digits |
| ValueFormatters.GroupedVector | src/test/java/com/bankmemory/bankview/ValueFormatterTest.java:30 | 808019000000 is grouped as "808,019,000,000" |
| ValueFormatters.FormatVector | src/test/java/com/bankmemory/bankview/ValueFormatterTest.java:38 | `format(808019000000)` is "808,019,000,000" |
| ValueFormatters.AbbreviatedDropsZeroFraction | src/test/java/com/bankmemory/bankview/ValueFormatterTest.java:23 | 10001 abbreviates to "10K" |
| ValueFormatters.AbbreviatedOneFractionDigit | src/test/java/com/bankmemory/bankview/ValueFormatterTest.java:24 | 10101 abbreviates to "10.1K" |
| ValueFormatters.AbbreviatedTruncatesDown | src/test/java/com/bankmemory/bankview/ValueFormatterTest.java:26 | 999999 abbreviates to "999.99K", truncated rather than rounded |
| ValueFormatters.AbbreviatedBillions | src/test/java/com/bankmemory/bankview/ValueFormatterTest.java:30 | 808019000000 abbreviates to "808.01B" |
| LegacyBankSaves.FromBank | src/main/java/com/bankmemory/BankSave.java:26-43 | the loop keeps the container's real items, in order, under the client's user name and the given time string |
| LegacyBankSaves.RealItemsMeaning | src/main/java/com/bankmemory/BankSave.java:31-40 | exactly the entries whose id is its own canonical id are kept, carrying their own id and quantity, never more than the container has |
| LegacyBankSaves.RealItemsAppend | src/main/java/com/bankmemory/BankSave.java:31-39 | the filter keeps container order |
| LegacyBankSaves.RealItemsWithoutPlaceholders | src/main/java/com/bankmemory/BankSave.java:34-39 | a bank without placeholders is saved whole |
| LegacyBankSaveParsers.Lines | src/main/java/com/bankmemory/BankSaveParser.java:14-20 | one line per save |
| LegacyBankSaveParsers.ToSaveString | src/main/java/com/bankmemory/BankSaveParser.java:11-22 | the loop writes `user;time;` and "id,qty," per item, then a line break, for each save in order |
| LegacyBankSaveParsers.ParseSaveString | src/main/java/com/bankmemory/BankSaveParser.java:24-33 | the parse never throws: it returns what `doParse` returns, or the empty list where `doParse` throws |
| LegacyBankSaveParsers.ParseOneLine | src/main/java/com/bankmemory/BankSaveParser.java:51-67 | one line: exactly three ';' parts, the third parsed as an item list, else a failure |
| LegacyBankSaveParsers.ParseLinesStep | src/main/java/com/bankmemory/BankSaveParser.java:49-68 | parsing one more line appends its save |
| LegacyBankSaveParsers.ParseLinesFailure | src/main/java/com/bankmemory/BankSaveParser.java:49-58 | once a line fails, the whole parse fails whatever follows |
| LegacyBankSaveParsers.ParseLinesSuccess | src/main/java/com/bankmemory/BankSaveParser.java:47-69 | on success there is one save per line, in line order, each the parse of its line |
| LegacyBankSaveParsers.ParseLinesAllParse | src/main/java/com/bankmemory/BankSaveParser.java:47-69 | when every line parses, the whole parse succeeds |
| LegacyBankSaveParsers.ParseLinesMeaning | src/main/java/com/bankmemory/BankSaveParser.java:45-70 | all or nothing: the lines parse exactly when each one does, into one save per line in order |
| LegacyBankSaveParsers.MalformedLineEmptiesAll | src/main/java/com/bankmemory/BankSaveParser.java:26-32 | any malformed line empties the whole result |
| LegacyBankSaveParsers.NullOrEmptyGivesNothing | src/main/java/com/bankmemory/BankSaveParser.java:41-44 | null and "" give no saves |
| LegacyBankSaveParsers.WrongPartCountRejected | src/main/java/com/bankmemory/BankSaveParser.java:51-53 | a line without exactly three ';' parts is rejected |
| LegacyBankSaveParsers.BadItemSectionRejected | src/main/java/com/bankmemory/BankSaveParser.java:55-61 | a non-integer item token or an odd number of them rejects the line |
| LegacyBankSaveParsers.ItemTextPlain | src/main/java/com/bankmemory/BankSaveParser.java:18 | the item text of a non-empty item list is non-empty, has no ';' or line break, and splits back into the items |
| LegacyBankSaveParsers.LineRoundTrip | src/main/java/com/bankmemory/BankSaveParser.java:16-19 | the line of a save with plain fields and at least one item parses back to the save and has no line break |
| LegacyBankSaveParsers.RoundTrip | src/test/java/com/bankmemory/BankSaveParserTest.java:59-67 | `parseSaveString(toSaveString(saves)) == saves` when no name or time holds ';' or a line break and every bank has an item |
| LegacyBankSaveParsers.EmptyBankNotReadBack | src/main/java/com/bankmemory/BankSaveParser.java:47-53 | a save with no items is written as `user;time;`, which has only two parts, so reading it back gives nothing |
| LegacyBankSaveParsers.TooFewFieldsRejected | src/test/java/com/bankmemory/BankSaveParserTest.java:73-79 | every text of the form "name;date", with plain fields, gives no saves |
| LegacyBankSaveParsers.TooManyFieldsRejected | src/test/java/com/bankmemory/BankSaveParserTest.java:74-80 | every text of four plain ';' fields, such as "name;date;10,10,5,5;extra", gives no saves |
| LegacyBankSaveParsers.NonNumericItemRejected | src/test/java/com/bankmemory/BankSaveParserTest.java:75-81 | every three-field text whose item section has a token that is not an int, such as "name;date;10,10,spade,5", gives no saves |
| LegacyBankSavesDataStores.StartIndex | src/main/java/com/bankmemory/BankSavesDataStore.java:63 | `Math.max(0, size - 20)` is a position within the list |
| LegacyBankSavesDataStores.LatestSaves | src/main/java/com/bankmemory/BankSavesDataStore.java:62-63 | the latest 20 saves: the last `min(size, 20)` values, in order |
| LegacyBankSavesDataStores.BankSavesDataStore.constructor | src/main/java/com/bankmemory/BankSavesDataStore.java:25-44 | the store reads the given config item value: NO_VALUE_STORED until something is saved |
| LegacyBankSavesDataStores.BankSavesDataStore.LoadSavedBanks | src/main/java/com/bankmemory/BankSavesDataStore.java:47-57 | a fresh empty map for the sentinel; otherwise every parsed save put under its user name |
| LegacyBankSavesDataStores.BankSavesDataStore.SaveBanks | src/main/java/com/bankmemory/BankSavesDataStore.java:59-72 | as written: the stored text is `toSaveString` of what the never-incremented counter selects |
| LegacyBankSavesDataStores.BankSavesDataStore.SaveLatestBanks | src/main/java/com/bankmemory/data/BankSavesDataStore.java:63-72 | corrected: the stored text is `toSaveString` of the latest 20 saves |
| LegacyBankSavesDataStores.LinkedPutMeaning | src/main/java/com/bankmemory/BankSavesDataStore.java:55 | `LinkedHashMap.put`: an existing key keeps its position and takes the new value, a new key is appended, and keys stay unique |
| LegacyBankSavesDataStores.PutAllByNameUnique | src/main/java/com/bankmemory/BankSavesDataStore.java:48-55 | the loaded map has one entry per user name |
| LegacyBankSavesDataStores.PutAllByNameCovers | src/main/java/com/bankmemory/data/BankSavesDataStore.java:56 | every parsed user name has an entry |
| LegacyBankSavesDataStores.PutAllByNameLastValue | src/main/java/com/bankmemory/data/BankSavesDataStore.java:56 | each entry holds the last save under its name |
| LegacyBankSavesDataStores.PutAllDistinctNames | src/main/java/com/bankmemory/BankSavesDataStore.java:55 | saves with distinct user names load as one entry each, in order |
| LegacyBankSavesDataStores.SaveTextIsNotSentinel | src/main/java/com/bankmemory/data/BankSavesDataStore.java:15 | no save text is the sentinel, so a stored value is never taken for "nothing stored" |
| LegacyBankSavesDataStores.NothingStoredLoadsEmpty | src/main/java/com/bankmemory/data/BankSavesDataStore.java:51-54 | loading before anything is stored gives an empty map |
| LegacyBankSavesDataStores.LoadAfterSave | src/main/java/com/bankmemory/data/BankSavesDataStore.java:48-58 | storing readable saves with distinct user names and loading gives each save under its own name, in order |
| LegacyBankSavesDataStores.AsWrittenAllOrNothing | src/main/java/com/bankmemory/data/BankSavesDataStore.java:64-70 | as written, every save is kept when there are at most 20 and none when there are more |
| LegacyBankSavesDataStores.AsWrittenDropsTwentyOne | src/main/java/com/bankmemory/BankSavesDataStore.java:64-69 | with 21 saves, the store as written stores "" where the latest 20 are meant |
| LegacyBankSavesDataStores.LatestSavesIdempotent | src/main/java/com/bankmemory/data/BankSavesDataStore.java:63-64 | keeping the latest 20 twice is keeping them once |

## Left out

- Concurrency: the `synchronized (dataLock)` blocks and the copy of the listener list made under the lock. The store is single-threaded.
- `ConfigReaderWriter`: Gson, the writer queue and its thread. Its writes are recorded as events. Its read-time upgrade maps `cleanItemData` over each save, and the `cleanItemData` lemmas cover it.
- Logging: the error logged when `deleteBankSaveWithId` finds nothing.
- The wall clock and `DateTimeFormatter`: date strings are inputs. `ID_BASE` is the id source's start value.
- `ItemManager.canonicalize` is a function parameter. `ItemID.BANK_FILLER` is the constant 20594.
- The id counter is an unbounded integer: the wrap-around of `AtomicInteger` and `long` overflow in `ID_BASE + counter` are not modelled.
- Characters are Dafny `char`, not UTF-16 code units. Case folding (`toLowerCase`, `equalsIgnoreCase`, `CASE_INSENSITIVE_ORDER`) covers ASCII letters only.
- JavaInts.ParseInt: accepts ASCII digits only, where `Integer.parseInt` reads any Unicode decimal digit through `Character.digit`. Stored text with other decimal digits, such as Arabic-Indic digits, fails to parse in the model where Java reads it.
- `HashMap` and `LinkedHashMap` iteration order is the order of the sequence given. `findAny` in `getDataForCurrentBank` and `saveAsCurrentBankImpl` is taken to be the first match.
- Null strings are modelled only where the code tests for them: the parsers' null input, a null save name, a null world type, the null result of `fromAccountHash` and the null result of `TreeMap.get`. `Objects.requireNonNull` on the bank container is not modelled.
- `DecimalFormat` computes `value / divisor` as a `double`. The model uses exact integer division truncated DOWN to two fraction digits. The grouping separator is fixed to ',' whatever the locale.
- The first generation's `BankSave.Item` is the same (id, quantity) pair as `BankItem`, and is modelled by it.
- `BankSave.withNewAccountId` is not part of this model's source files. It is defined from its call and its test: the other fields are kept, the account id is replaced and the id is fresh.
- The Swing and RuneLite wiring is not modelled: panels, renderers, controllers, the overlay, the plugin class, clipboard export and the `ListDataEvent` source object.
- ItemListDiff.FindDifferencesBetween: the ItemListDiffGeneratorTest vectors with four or more changes (lines 40-43) are not proved as concrete vectors. The membership, quantity and order lemmas state the same behaviour for all inputs.
- LegacyBankSaveParsers.RoundTrip: `toSaveString(parseSaveString(s)) == s` (BankSaveParserTest line 66) is not proved; only the direction starting from the saves is.
- FilterableItemListModels.FilterableItemListModel.GetElementAt: an out-of-range position returns None instead of throwing `IndexOutOfBoundsException`.
- ValueFormatters.ScaleFor: its own contract says only that the divisor is at least 1. The thresholds are stated by ValueFormatters.AbbreviatedSuffix and ValueFormatters.SmallValuesUnabbreviated.
- DisplayNameMappers.Map: its own contract covers only the masked case. MapOfSource states both cases.

## Findings

| source | as written | input that shows it | evidently intended | confidence | as-written member | corrected member |
|---|---|---|---|---|---|---|
| src/main/java/com/bankmemory/BankSavesDataStore.java:62-69 | the counter `i` is never incremented, so `i >= start` holds for every save or for none | a map of 21 saves: `start` is 1, nothing is stored, and all saves are lost on the next load | store the latest 20 saves, as the comment on line 62 says | high; not executed | LegacyBankSavesDataStores.AsWrittenDropsTwentyOne | LegacyBankSavesDataStores.BankSavesDataStore.SaveLatestBanks |
| src/main/java/com/bankmemory/data/BankSavesDataStore.java:63-70 | the same loop in the `data` copy: the counter `i` is never incremented | a map of 21 saves stores "" | store the latest 20 saves, as the comment on line 63 says | high; not executed | LegacyBankSavesDataStores.AsWrittenAllOrNothing | LegacyBankSavesDataStores.LatestSaves |
