# Group roster synchroniser and small companions, in Dafny

This project models the core of the `takotakot/misc` repository:

- **group-from-sheet**: a Google Apps Script that reconciles Google Groups
  memberships with a roster sheet. One run does the following, in order:
  - loads the configuration (the excluded users from a script property, and
    the settings and data sheets);
  - waits until a human-operated maintenance flag in the settings sheet is
    clear;
  - takes the document lock with exponential back-off; the wait and the
    lock share one three-minute budget;
  - loads the roster rows and groups them by group address;
  - synchronises every group against one current time through the Cloud
    Identity Groups API;
  - writes the membership names of added members back to the sheet and
    clears those of removed members;
  - records the time of the run when anything changed;
  - releases the lock on every way out once it is held.
- **typescript**: the xoshiro128+ generator seeded by a splitmix32a mixer.
- **put_from_sheet**: the use case that uploads every item listed on a sheet
  and counts successes and failures, and the repository that turns the
  sheet's rows into items.
- **typescript_gas_downgrade**: the INCREMENT/RESET counter state machine.

Modules, one per source file or host service:

| module | models |
|---|---|
| `Wrappers` | `null` and thrown errors as `Option`, `Result` and `Outcome` values |
| `Cells` | cell values with JavaScript truthiness, `String(value)` and `Date` time values |
| `Types` | the data shapes and constants of `types.ts` |
| `Seqs` | JavaScript arrays as sequences. A `Set` is its elements in insertion order (`Dedup`) |
| `JsString` | `trim`, `toUpperCase`, `split` and `join` |
| `Gas` | the Apps Script host services: the settings sheet, the data sheet, the spreadsheet and the document lock |
| `Configuration` | `config.ts` |
| `LockManager` | `lockManager.ts` |
| `CloudIdentity` | the Cloud Identity Groups service: replies as functions of the arguments, calls in a log |
| `GroupsApi` | `groupsApiClient.ts` |
| `SyncLogic` | `syncLogic.ts` |
| `SheetService` | `sheetService.ts` |
| `Orchestrator` | `main.ts` |
| `Xoshiro` | `Xoshiro128p.ts` |
| `SheetRepository` | `sheet-repository.ts` |
| `SyncItems` | `sync-items.ts` |
| `Counter` | `counter.ts` |

The host is represented as follows:
- **Time is a value.** A method is given `now` and returns the time it ends
  at (`later`). Time passes only in `Utilities.sleep` and in a refused
  `tryLock`, which waits out its timeout.
- **The maintenance flag** is a function of the cell address and the time
  the cell is read, overridden by the script's own writes.
- **`tryLock`** is answered per attempt by `grants`.
- **The Cloud Identity service** replies with fixed functions of the call's
  arguments and records every call. Contracts therefore say exactly which
  add and remove calls a run makes.

Three behaviours of the code that a reader may not expect:
- The flag wait gives up on the first read of a set flag at or after three
  minutes (`>=`). The doc comment of `waitForSheetLock`
  (group-from-sheet/src/lockManager.ts:67) says it throws once the
  three-minute maximum is exceeded. The wait can also end up to one back-off
  (30 s) past the budget, because the flag is read only between sleeps. `LockManager.WaitOutcomeMeaning` states both
  bounds.
- `listMembers` does not always return the group's members. When any page
  fails it returns an empty list, which throws away the pages it already
  has. `syncGroup` then sees an empty group: it removes nobody and tries to
  add every wanted member (`GroupsApi.ListAllOrNothing`).
- A roster row is kept when its raw group and member cells are truthy, and
  only then are they trimmed. A cell holding only spaces is kept as an empty
  address (`SheetService.RowOfMeaning` promises trimmed addresses, not
  non-empty ones).

## Model

| member | source | states |
|---|---|---|
| Types.ConstantsAgree | group-from-sheet/src/types.ts:149-202 | The budget is 180000 ms and 1000 <= 30000 < 180000. The columns are the distinct indices 0 to 4, and the name column is the last of the five read. The two sheet names differ. |
| Cells.ToJsString | group-from-sheet/src/sheetService.ts:107-113 | `String(value)` is empty exactly for the empty string (given that the host renders numbers and dates as non-empty text). A string is unchanged. |
| Cells.TimeClip | group-from-sheet/src/sheetService.ts:45-47 | `new Date(number)` is valid exactly within ±8.64e15 ms. It is then the number truncated toward zero. |
| Seqs.Filter | group-from-sheet/src/syncLogic.ts:55-56 | `filter` keeps exactly the elements that satisfy the predicate, in order. It adds no duplicates and is no longer than its input. |
| Seqs.FilterKeepsOccurrences | group-from-sheet/src/syncLogic.ts:55-56 | `filter` keeps every occurrence of an element that satisfies the predicate, and no occurrence of any other. |
| Seqs.Dedup | group-from-sheet/src/syncLogic.ts:41 | `new Set(array)` iterates the array's elements, each once and in order. |
| Seqs.DedupOfNoDup | group-from-sheet/src/syncLogic.ts:41 | A Set built from an array without repeats iterates that array. |
| Seqs.DedupFirstAppearance | group-from-sheet/src/main.ts:72-77 | A Set or Map lists its keys by first insertion: each key occurs in the input before any key listed after it. |
| Seqs.Map | group-from-sheet/src/syncLogic.ts:39 | `map` applies the function to each element, keeping the length. |
| JsString.Trim | group-from-sheet/src/config.ts:49 | `trim()` returns the infix that starts after the leading whitespace. It neither starts nor ends with whitespace. |
| JsString.TrimRemovesWhitespace | group-from-sheet/src/config.ts:49 | Everything `trim()` removes is whitespace. |
| JsString.TrimOfTrimmed | group-from-sheet/src/config.ts:49 | Trimming a trimmed string changes nothing. |
| JsString.ToUpperCase | group-from-sheet/src/lockManager.ts:51 | `toUpperCase()` keeps the length and maps each character by itself. |
| JsString.Split | group-from-sheet/src/config.ts:47-48 | `split(',')` yields at least one piece, and no piece contains a comma. |
| JsString.JoinSplit | group-from-sheet/src/config.ts:47-48 | Joining the pieces of a split with the separator gives back the string. |
| JsString.SplitJoin | group-from-sheet/src/config.ts:47-48 | Splitting a join of separator-free pieces gives back the pieces. |
| JsString.SplitWithoutSeparator | group-from-sheet/src/config.ts:47-48 | A string without the separator splits into itself alone. |
| Configuration.Entries | group-from-sheet/src/config.ts:47-50 | Every entry kept is non-empty, trimmed, and the trimmed text of one of the pieces. |
| Configuration.ExcludedUsers | group-from-sheet/src/config.ts:33-54 | An unset or empty property gives the empty set. Otherwise every user is non-empty, trimmed, free of commas, and the trimmed text of one comma-separated piece of the property. |
| Configuration.EntriesComplete | group-from-sheet/src/config.ts:47-50 | Every piece that is not blank once trimmed contributes its trimmed text. |
| Configuration.ExcludedUsersComplete | group-from-sheet/src/config.ts:47-53 | Every comma-separated piece of the property that is not blank once trimmed is an excluded user. |
| Configuration.SingleExcludedUser | group-from-sheet/src/config.ts:47-53 | A value without a comma names exactly one user, its trimmed text. |
| Configuration.ExcludedUsersOfJoin | group-from-sheet/src/config.ts:47-53 | Writing clean addresses as a comma-separated property and reading it back gives the same set of users. |
| Configuration.MissingSheetNames | group-from-sheet/src/config.ts:81-84 | Each required sheet is named exactly when it is missing, and at most once. |
| Configuration.GetConfig | group-from-sheet/src/config.ts:72-98 | Fails without an active spreadsheet. Fails exactly when a required sheet is missing, naming exactly the missing ones. On success: the found sheets, lock cell B1, last-operation cell B2, data from row 2, and the parsed excluded users. |
| Gas.SettingsSheet.ValueAt | group-from-sheet/src/lockManager.ts:47-48 | A read returns the script's own write to that cell if there is one, otherwise what the sheet shows at that time. |
| Gas.SettingsSheet.SetValue | group-from-sheet/src/sheetService.ts:204 | `setValue` overwrites that one cell. |
| Gas.DataSheet.Values | group-from-sheet/src/sheetService.ts:77 | `getValues()` of a block has one line per row and one value per column, each the value of its cell. |
| Gas.DataSheet.SetValue | group-from-sheet/src/sheetService.ts:149-151 | `setValue` overwrites that one cell. |
| Gas.DocumentLock.TryLock | group-from-sheet/src/lockManager.ts:122 | `tryLock(timeout)` succeeds as the attempt oracle says and records its timeout. A granted attempt holds the lock at once; a refused one waits out its timeout. |
| Gas.DocumentLock.HasLock | group-from-sheet/src/lockManager.ts:172 | `hasLock()` tells whether the lock is held. |
| Gas.DocumentLock.ReleaseLock | group-from-sheet/src/lockManager.ts:173 | `releaseLock()` frees the lock and counts one release. |
| LockManager.LockValueIgnoresCaseAndSpace | group-from-sheet/src/lockManager.ts:50-53 | For a string, the flag ignores letter case and surrounding whitespace. |
| LockManager.LockValueOfNonStrings | group-from-sheet/src/lockManager.ts:50-55 | Any other value is locked exactly when it is truthy. `true` and non-zero numbers lock; `false`, 0, `""`, `null` and `undefined` do not. |
| LockManager.UpperTrimCommute | group-from-sheet/src/lockManager.ts:51 | Upper-casing and trimming commute, so their order in `toUpperCase().trim()` does not matter. |
| LockManager.IsSheetLocked | group-from-sheet/src/lockManager.ts:44-56 | Reads the lock cell at the current time and returns its classification. |
| LockManager.LockFlag | group-from-sheet/src/lockManager.ts:47-55 | The flag over time is what `isSheetLocked` reads from the lock cell at each moment. |
| LockManager.Backoff | group-from-sheet/src/lockManager.ts:82-98 | Every back-off lies between 1000 and 30000 ms. |
| LockManager.BackoffClosedForm | group-from-sheet/src/lockManager.ts:113-133 | Back-off k is min(1000·2^k, 30000). It never decreases and is 30000 from the sixth round on. |
| LockManager.WaitOutcome | group-from-sheet/src/lockManager.ts:81-100 | The wait never ends before it starts, and counts at least the sleeps already made. |
| LockManager.WaitOutcomeMeaning | group-from-sheet/src/lockManager.ts:84-99 | The wait fails only on a set flag read at least 180000 ms after the start. It returns only on a clear read. A clear first read returns at once without sleeping. It ends less than one maximal back-off after the budget. |
| LockManager.WaitForSheetLock | group-from-sheet/src/lockManager.ts:81-100 | The outcome and end time are those of `WaitOutcome` for the flag read over time. |
| LockManager.TryWait | group-from-sheet/src/lockManager.ts:115-120 | The `tryLock` timeout is at most the back-off and at most what is left of the budget, and positive while budget is left. |
| LockManager.TryOutcome | group-from-sheet/src/lockManager.ts:109-136 | The attempts never end before they start. |
| LockManager.TryOutcomeMeaning | group-from-sheet/src/lockManager.ts:115-135 | The attempts stop at the first granted one and succeed exactly then; all earlier ones were refused. Every timeout is positive, at most 30000 and within the budget left. Failure comes only once the budget is spent. A first grant within the budget takes one attempt and no time. The end is at most one maximal back-off after the budget. |
| LockManager.TryLockWithExponentialBackoff | group-from-sheet/src/lockManager.ts:109-136 | The success, the timeouts passed to `tryLock` and the end time are those of `TryOutcome`. The lock is held afterwards exactly when an attempt succeeded (or it was held before). Nothing is released. |
| LockManager.LockHandle.constructor | group-from-sheet/src/lockManager.ts:169-177 | The handle refers to the acquired lock. |
| LockManager.LockHandle.Release | group-from-sheet/src/lockManager.ts:171-176 | `release` leaves the lock free. It calls `releaseLock` only when the lock is held, and makes no attempt. |
| LockManager.ReleaseTwice | group-from-sheet/src/lockManager.ts:171-176 | Calling `release` twice releases at most once. |
| LockManager.AcquireLockWithRetry | group-from-sheet/src/lockManager.ts:151-178 | Fails with `LockUnavailable` at once without a document lock. Otherwise it succeeds exactly when an attempt was granted, returning a handle to a held lock, and fails with `LockTimeout` otherwise. Attempts and end time are those of `TryOutcome`. |
| CloudIdentity.Service.LookupGroup | group-from-sheet/src/groupsApiClient.ts:37-39 | `Groups.lookup` replies as the oracle says and is logged. |
| CloudIdentity.Service.ListPage | group-from-sheet/src/groupsApiClient.ts:84-87 | `Memberships.list` returns the requested page and is logged. |
| CloudIdentity.Service.Create | group-from-sheet/src/groupsApiClient.ts:136-139 | `Memberships.create` replies as the oracle says and is logged. |
| CloudIdentity.Service.LookupMembership | group-from-sheet/src/groupsApiClient.ts:207-209 | `Memberships.lookup` replies as the oracle says and is logged. |
| CloudIdentity.Service.Remove | group-from-sheet/src/groupsApiClient.ts:182 | `Memberships.remove` replies as the oracle says and is logged. |
| GroupsApi.NameOf | group-from-sheet/src/groupsApiClient.ts:41-46 | A name is present exactly when the call returned a non-empty name, and it is that name. |
| GroupsApi.LookupGroup | group-from-sheet/src/groupsApiClient.ts:35-54 | `lookupGroup` returns the group's name when the lookup returns one, and null when it returns none or throws. It makes one lookup call. |
| GroupsApi.Keyed | group-from-sheet/src/groupsApiClient.ts:89-99 | A page contributes no more entries than it has memberships. |
| GroupsApi.KeyedExactly | group-from-sheet/src/groupsApiClient.ts:89-99 | A page contributes exactly its memberships that have a member key, as name and e-mail. |
| GroupsApi.Collected | group-from-sheet/src/groupsApiClient.ts:74-102 | The pages collect to nothing exactly when some page throws. |
| GroupsApi.Fetched | group-from-sheet/src/groupsApiClient.ts:74-110 | The pages are requested up to and including the first that throws, otherwise all of them. |
| GroupsApi.ListMembers | group-from-sheet/src/groupsApiClient.ts:68-111 | `listMembers` returns the keyed memberships of every page in order, or `[]` when a page throws. It requests pages 0, 1, … up to the first failure. |
| GroupsApi.ListAllOrNothing | group-from-sheet/src/groupsApiClient.ts:68-111 | Any failing page gives `[]`. Otherwise a membership is listed exactly when some page lists it with a member key. At least one page is requested. |
| GroupsApi.CollectedMembers | group-from-sheet/src/groupsApiClient.ts:89-102 | Pages that all return yield exactly the keyed memberships of all pages. |
| GroupsApi.AddOutcome | group-from-sheet/src/groupsApiClient.ts:142-157 | `addMember` returns a membership exactly when `create` returns a response, with its name and the requested e-mail. Otherwise, or on an exception, it returns null. |
| GroupsApi.AddMember | group-from-sheet/src/groupsApiClient.ts:126-158 | Returns `AddOutcome` of the single `create` call it makes. |
| GroupsApi.GetMembershipName | group-from-sheet/src/groupsApiClient.ts:202-216 | The membership's name, or null when the lookup finds none or throws. It makes one lookup call. |
| GroupsApi.RemoveMember | group-from-sheet/src/groupsApiClient.ts:167-192 | `removeMember` looks the membership up and removes it only when found. The result and calls are `RemoveOutcome` and `RemoveCalls`. |
| GroupsApi.RemoveMeaning | group-from-sheet/src/groupsApiClient.ts:171-191 | `removeMember` fails exactly when the membership was found and its removal threw. It removes only the membership the lookup named, and nothing when none was found. |
| SyncLogic.ActiveEmails | group-from-sheet/src/syncLogic.ts:36-39 | There are no more active e-mails than rows. |
| SyncLogic.ActiveEmailsExactly | group-from-sheet/src/syncLogic.ts:36-39 | An e-mail is listed exactly when some row names it, is not excluded, and has start <= now <= end. |
| SyncLogic.DesiredState | group-from-sheet/src/syncLogic.ts:31-42 | The wanted members are exactly the members of active rows, without repeats and never excluded. |
| SyncLogic.CurrentEmails | group-from-sheet/src/syncLogic.ts:85-89 | The current members considered are exactly the listed e-mails that are not excluded, without repeats. |
| SyncLogic.CalculateDiff | group-from-sheet/src/syncLogic.ts:51-59 | `toAdd` is exactly desired minus actual and `toRemove` exactly actual minus desired. Each keeps its source's order and has no repeats when its source has none. |
| SyncLogic.DiffReconciles | group-from-sheet/src/syncLogic.ts:51-59 | `toAdd` and `toRemove` are disjoint, and (actual ∪ toAdd) \ toRemove is exactly desired. |
| SyncLogic.DiffOfSameMembers | group-from-sheet/src/syncLogic.ts:55-56 | When the group already has exactly the wanted members, both lists are empty. |
| SyncLogic.Added | group-from-sheet/src/syncLogic.ts:99-101 | There are no more new memberships than addresses to add. |
| SyncLogic.AddedExactly | group-from-sheet/src/syncLogic.ts:99-106 | `added` is the subsequence of `toAdd` whose `addMember` succeeded. The name map has exactly those keys, each mapped to the name `create` returned. |
| SyncLogic.Removed | group-from-sheet/src/syncLogic.ts:109-111 | `removed` is the subsequence of `toRemove` whose `removeMember` returned true. |
| SyncLogic.AddAll | group-from-sheet/src/syncLogic.ts:99-101 | Calls `addMember` once per address, in order, and keeps the non-null results. |
| SyncLogic.RemoveAll | group-from-sheet/src/syncLogic.ts:109-111 | Calls `removeMember` once per address, in order, and keeps those that report success. |
| SyncLogic.SyncGroup | group-from-sheet/src/syncLogic.ts:70-123 | The result and the calls are `SyncOutcome` and `SyncCalls`: lookup; then list, add and remove in that order. |
| SyncLogic.SyncFailsOnlyOnLookup | group-from-sheet/src/syncLogic.ts:79-82 | `syncGroup` throws exactly when the lookup finds no group. It then throws `GroupNotFound` for that address after the lookup call alone: no list, add or remove call. |
| SyncLogic.RemovalCallsTargets | group-from-sheet/src/syncLogic.ts:109-111 | The removal calls look up only addresses of the list, in this group. They remove only memberships those lookups named, and never create. |
| SyncLogic.SyncCallsTargets | group-from-sheet/src/syncLogic.ts:95-111 | Every `create` is for an address of `toAdd`, and every membership lookup for an address of `toRemove`, in the looked-up group. |
| SyncLogic.ExcludedUsersUntouched | group-from-sheet/src/syncLogic.ts:85-111 | Only wanted members the group lacks are added, and only current members no longer wanted are removed. An excluded user is never added or looked up for removal. |
| SyncLogic.SyncResultMeaning | group-from-sheet/src/syncLogic.ts:99-122 | The result names its group. `added` is the part of `toAdd` whose `create` returned a response, with exactly their names. `removed` is the part of `toRemove` whose removal succeeded. No address is both added and removed. |
| SyncLogic.InSyncGroupUnchanged | group-from-sheet/src/syncLogic.ts:85-111 | A group that already has exactly the wanted members gets no add or remove call, and an empty result. |
| SheetService.ParseDateTime | group-from-sheet/src/sheetService.ts:37-51 | A `Date` gives its time value, or null if invalid. A number gives `TimeClip` of it. A string gives the host's parse. Anything else gives null. |
| SheetService.NonDatesDoNotParse | group-from-sheet/src/sheetService.ts:37-51 | Booleans, `null`, `undefined`, NaN and infinities never parse. |
| SheetService.TrimmedText | group-from-sheet/src/sheetService.ts:107-113 | `String(v).trim()` is trimmed, and for a string it is the trimmed string. |
| SheetService.FixedTextTrimmed | group-from-sheet/src/sheetService.ts:107-113 | The fixed texts of non-string values (`null`, `true`, `NaN`, …) are already trimmed. |
| SheetService.TrimmedTextAgrees | group-from-sheet/src/sheetService.ts:107-113 | `TrimmedText` is `String(v).trim()` for every value. |
| SheetService.RowOfMeaning | group-from-sheet/src/sheetService.ts:81-114 | A line gives a row exactly when its group and member cells are truthy and both times parse. The row keeps its sheet row, has trimmed addresses and the parsed times, and has a trimmed name exactly when the name cell is truthy. |
| SheetService.RowAtIsRowOf | group-from-sheet/src/sheetService.ts:81-114 | The conversion the loop applies is `RowOf` on every line of the width read. |
| SheetService.LineRows | group-from-sheet/src/sheetService.ts:81-82 | Line i is converted with row index start + i. |
| SheetService.PresentSound | group-from-sheet/src/sheetService.ts:79-115 | Each kept row is the entry at its own row index, and the row indexes strictly increase. |
| SheetService.PresentComplete | group-from-sheet/src/sheetService.ts:105-114 | Every converted line is kept. |
| SheetService.BuiltRowsSound | group-from-sheet/src/sheetService.ts:79-115 | Each kept row is the conversion of the line at its row index, within the block read, in sheet order. |
| SheetService.BuiltRowsComplete | group-from-sheet/src/sheetService.ts:79-115 | Every line that converts to a row contributes it. |
| SheetService.LoadRows | group-from-sheet/src/sheetService.ts:79-115 | There are no more rows than lines read. |
| SheetService.LoadedRows | group-from-sheet/src/sheetService.ts:64-119 | No rows when the last row is above the data start. Otherwise at most lastRow − dataStartRow + 1 rows. |
| SheetService.LoadSheetData | group-from-sheet/src/sheetService.ts:64-119 | `loadSheetData` returns `LoadedRows` of the data sheet. |
| SheetService.KeepRows | group-from-sheet/src/sheetService.ts:79-115 | The `forEach` pushes the row of every line that converts, in order. |
| SheetService.FindRow | group-from-sheet/src/sheetService.ts:142-144 | `rows.find` gives the first row of the group for the member, or none when no row matches. |
| SheetService.MemberWrites | group-from-sheet/src/sheetService.ts:140-156 | One group's loop makes at most one write per member. |
| SheetService.MemberWritesTargets | group-from-sheet/src/sheetService.ts:140-156 | Every write goes to column E of a loaded row of that group, and is "" when there are no names. |
| SheetService.MemberWriteFor | group-from-sheet/src/sheetService.ts:140-156 | A member with a matching row gets the write of its name (or "") into column E of the first such row. |
| SheetService.NoRowNoWrite | group-from-sheet/src/sheetService.ts:146 | Members without a matching row cause no write. |
| SheetService.WriteBackTargets | group-from-sheet/src/sheetService.ts:137-192 | Write-back touches only column E of loaded rows, and clearing writes only "". Results with no additions (or no removals) cause no name writes (or no clears). |
| SheetService.NameWrittenForAdded | group-from-sheet/src/sheetService.ts:137-157 | Every added member with a row gets its membership name, or "", in column E of its first row. |
| SheetService.NameClearedForRemoved | group-from-sheet/src/sheetService.ts:175-192 | Every removed member with a row gets column E of its first row cleared. |
| SheetService.ApplyElsewhere | group-from-sheet/src/sheetService.ts:149-151 | A cell that no write targets keeps its value. |
| SheetService.ApplyLastWins | group-from-sheet/src/sheetService.ts:149-151 | The last write to a cell decides its value. |
| SheetService.ApplyConcat | group-from-sheet/src/main.ts:99-101 | Two batches of writes applied one after the other are their concatenation. |
| SheetService.WriteMembershipNames | group-from-sheet/src/sheetService.ts:130-158 | The data sheet becomes the old cells with `NameWrites` applied in order. |
| SheetService.WriteAddedNames | group-from-sheet/src/sheetService.ts:140-156 | The inner loop applies one result's name writes in order. |
| SheetService.ClearRemovedMembershipNames | group-from-sheet/src/sheetService.ts:168-193 | The data sheet becomes the old cells with `ClearWrites` applied in order. |
| SheetService.ClearNames | group-from-sheet/src/sheetService.ts:178-191 | The inner loop applies one result's clears in order. |
| SheetService.WriteLastOperationTime | group-from-sheet/src/sheetService.ts:202-208 | The last-operation cell holds the run's time as a `Date`; nothing else changes. |
| Orchestrator.GroupColumn | group-from-sheet/src/main.ts:74 | The group address of each row, in order. |
| Orchestrator.GroupingPartitions | group-from-sheet/src/main.ts:72-77 | Each group is listed once, in order of first appearance. A row belongs to its own group and no other, and each group keeps its rows in sheet order. |
| Orchestrator.GroupRows | group-from-sheet/src/main.ts:72-77 | The `forEach` builds exactly that grouping: its keys in insertion order and the rows of each. |
| Orchestrator.SyncAllMeaning | group-from-sheet/src/main.ts:87-95 | When every group succeeds, the results are theirs in group order, after the calls of every group. Otherwise the error is that of the first failing group, after the calls of the groups up to it. |
| Orchestrator.FailureStops | group-from-sheet/src/main.ts:87-95 | Once a group has failed, the later groups change neither the outcome nor the calls. |
| Orchestrator.SyncOne | group-from-sheet/src/main.ts:88-94 | One `syncGroup` call for a group and its own rows. |
| Orchestrator.SyncAll | group-from-sheet/src/main.ts:84-95 | `syncGroup` runs once per group, in order, with the same excluded set and time, stopping at the first exception. |
| Orchestrator.GroupSyncMatches | group-from-sheet/src/main.ts:87-93 | Each group is synchronised with exactly its rows. |
| Orchestrator.ReconciledMeaning | group-from-sheet/src/main.ts:63-116 | With no rows nothing happens. When a group's lookup fails, no sheet cell is written and that group's calls stop after its lookup. Otherwise every group has its result, the names are written back, and the time is recorded exactly when some group changed. |
| Orchestrator.PlannedMeaning | group-from-sheet/src/main.ts:49-60 | Without a configuration the run fails at once and does nothing else. |
| Orchestrator.WaitedMeaning | group-from-sheet/src/main.ts:49-134 | The lock is released exactly when it was taken, after the last attempt. A run that does not take it fails and touches neither the directory nor the sheets. Timeouts are positive and at most 30 s, and the run ends within the budget plus one back-off. Once the lock is held, the run is the work under the lock. |
| Orchestrator.AttemptedMeaning | group-from-sheet/src/main.ts:59-134 | The part of `WaitedMeaning` after a wait that returned, within the budget counted from the start. |
| Orchestrator.SharedBudget | group-from-sheet/src/main.ts:46-60 | The flag wait and the lock attempts share one budget counted from the start of the run. A failed wait makes no attempt. After a wait, every timeout fits in what is left. A refused lock fails with `LockTimeout` only once the budget is spent. |
| Orchestrator.Stamped | group-from-sheet/src/main.ts:108-109 | The last-operation cell gets the time exactly when there is one; no other settings cell changes. |
| Orchestrator.Reconcile | group-from-sheet/src/main.ts:63-116 | Load, then synchronise and write back as `Reconciled` of the loaded rows says. |
| Orchestrator.SyncRows | group-from-sheet/src/main.ts:63-69 | No rows end the work at once. Otherwise as `Reconciled`. |
| Orchestrator.SyncGroups | group-from-sheet/src/main.ts:72-116 | Grouping, per-group synchronisation and write-back, as `Reconciled` says. |
| Orchestrator.WriteBack | group-from-sheet/src/main.ts:99-116 | Name writes, then clears, then the time exactly when something changed. |
| Orchestrator.SyncGroupsFromSheet | group-from-sheet/src/main.ts:45-135 | Outcome, end time, directory calls, sheet writes, lock attempts and releases are all those of `Planned`. The lock is released exactly when the run took it. |
| Orchestrator.RunConfigured | group-from-sheet/src/main.ts:53-134 | The flag wait, then the lock and the work, as `Configured`. |
| Orchestrator.RunLocked | group-from-sheet/src/main.ts:59-134 | The lock, then the work, as `Locked`. |
| Orchestrator.ReconcileHeld | group-from-sheet/src/main.ts:120-134 | The work's outcome, error included, is passed on unchanged, and the lock is free afterwards. |
| Xoshiro.Seeded | typescript/src/Xoshiro128p.ts:12-25 | The four words are four successive outputs of the splitmix32a mixer, starting from the seed's low 32 bits. |
| Xoshiro.Int32 | typescript/src/Xoshiro128p.ts:31 | The signed value of a word lies in [−2^31, 2^31) and equals its bit pattern modulo 2^32. |
| Xoshiro.ToUint32 | typescript/src/Xoshiro128p.ts:38 | `>>> 0` yields a value in [0, 2^32). |
| Xoshiro.OutputIsUnsignedSum | typescript/src/Xoshiro128p.ts:31-38 | `uint32` returns (s0 + s3) mod 2^32 of the unsigned words, whatever their signs, in [0, 2^32). |
| Xoshiro.Outputs | typescript/src/Xoshiro128p.ts:28-39 | n draws give n outputs, each in [0, 2^32). |
| Xoshiro.OutputsSplit | typescript/src/Xoshiro128p.ts:28-39 | m + n draws are the m first draws followed by the n draws from the state they leave. |
| Xoshiro.ZeroIsFixed | typescript/src/Xoshiro128p.ts:29-38 | The all-zero state steps to itself and outputs 0. |
| Xoshiro.MixOfZero | typescript/src/Xoshiro128p.ts:17-21 | The mixer maps 0 to 0. |
| Xoshiro.ZeroSeedYieldsZeros | typescript/src/Xoshiro128p.ts:12-25 | A seed of 0 mod 2^32 gives the all-zero state, which only ever outputs 0. |
| Xoshiro.Xoshiro128p.constructor | typescript/src/Xoshiro128p.ts:12-26 | The state is `Seeded` of the given seed, or of 0x9e3779b9 when none is given. |
| Xoshiro.Xoshiro128p.UpdateZ | typescript/src/Xoshiro128p.ts:17-21 | The three reassignments of `z` compute the mixer. |
| Xoshiro.Xoshiro128p.Uint32 | typescript/src/Xoshiro128p.ts:28-39 | Returns the output of the state before the update, in [0, 2^32), and performs the xoshiro128+ step. |
| Xoshiro.SameSeedSameDraws | typescript/test/Xoshiro128p.test.ts:34-42 | Two generators with the same seed, drawn alternately, yield the same outputs: those of the seeded state, each in [0, 2^32). |
| SheetRepository.GetFilteredItems | put_from_sheet/src/storage/sheet-repository.ts:17-34 | Fails, naming the sheet, exactly when the sheet is missing. |
| SheetRepository.FilteredItemsMeaning | put_from_sheet/src/storage/sheet-repository.ts:23-33 | Every item is listed, has a non-empty JAN and is the item of a line below the header. Every such line with a non-empty JAN gives its item. Each such line gives its own copy, so equal lines give repeated items. Order is kept, and there are at most rows − 1 items. |
| SheetRepository.HeaderIgnored | put_from_sheet/src/storage/sheet-repository.ts:26-27 | The header line never contributes: sheets differing only in it give the same items. |
| SyncItems.ApiClient.PutItem | put_from_sheet/src/usecase/sync-items.ts:28 | `putItem` replies as the oracle says and is logged. |
| SyncItems.Execute | put_from_sheet/src/usecase/sync-items.ts:14-46 | A missing sheet propagates the error with nothing uploaded. Otherwise every listed item is uploaded once, in order, and the summary is that of their replies. |
| SyncItems.UploadAll | put_from_sheet/src/usecase/sync-items.ts:25-38 | The loop uploads each item once, in order, and returns `Summarized` of the items and their replies. |
| SyncItems.TalliedLines | put_from_sheet/src/usecase/sync-items.ts:27-38 | Each item is counted once and gets its log line, in order. |
| SyncItems.TalliedSuccesses | put_from_sheet/src/usecase/sync-items.ts:29-31 | The success count is the number of replies that report success. |
| SyncItems.SummaryCounts | put_from_sheet/src/usecase/sync-items.ts:20-45 | `total` is the number of items, `success` the number of successful replies, and success + failed = total. |
| SyncItems.SummaryLogs | put_from_sheet/src/usecase/sync-items.ts:25-36 | There are 1 + items log lines: the "Found N items" heading, then each item's line in order. |
| SyncItems.LineMarkers | put_from_sheet/src/usecase/sync-items.ts:31-36 | Success lines start with `[SUCCESS]` and failure lines with `[FAILED]`. |
| SyncItems.Decimal | put_from_sheet/src/usecase/sync-items.ts:25 | A count prints as decimal digits, one digit exactly below 10. |
| SyncItems.DecimalValue | put_from_sheet/src/usecase/sync-items.ts:25 | The digits printed denote the count, without leading zeros. |
| SyncItems.AllSameReply | put_from_sheet/test/usecase/sync-items.test.ts:21-49 | All replies successful give success = total and failed = 0; all failed give the reverse. |
| Counter.Step | typescript_gas_downgrade/src/counter.ts:20-25 | INCREMENT raises the count by one; RESET sets it to 0. |
| Counter.SinceLastReset | typescript_gas_downgrade/src/counter.ts:20-25 | The events after the last RESET: all INCREMENTs, a suffix of the events, and either all of them or preceded by a RESET. |
| Counter.ReplayCountsIncrements | typescript_gas_downgrade/src/counter.ts:16-25 | The count is never negative and equals the number of INCREMENTs since the last RESET. |
| Counter.ResetForgets | typescript_gas_downgrade/src/counter.ts:23-25 | A RESET forgets every earlier event. |
| Counter.CounterActor.constructor | typescript_gas_downgrade/src/counter.ts:15-16 | A started actor is in state `active` with count 0. |
| Counter.CounterActor.Send | typescript_gas_downgrade/src/counter.ts:17-27 | Every event keeps the single state `active` and assigns the stepped count. |
| Counter.SendAll | typescript_gas_downgrade/src/counter.ts:15-27 | An actor to which any events are sent in order stays `active` and counts the INCREMENTs since the last RESET. |

## Left out

- Logging. The `Logger.log` calls and their texts are not modelled. Errors are values of an `Error` datatype, not messages; the `MissingSheets` error keeps the list of missing sheet names.
- `SpreadsheetApp.flush()` in `isSheetLocked`. The model treats the script's own writes as visible at once, so the flush has no effect.
- The mutual exclusion the document lock provides between concurrent runs. That is concurrency; only the retry and timeout logic around `tryLock` is modelled.
- Gas.DocumentLock.TryLock: a granted attempt takes no time and a refused one takes its whole timeout. Reads and API calls take no time. Only sleeps and refused attempts advance the clock.
- `Date.now()`, `new Date()` and `Utilities.sleep`. Time is a parameter, and each sleep adds exactly its duration.
- How JavaScript parses a date string, and how it renders a number or a `Date` as text. Both are host functions passed as parameters (`parse`, `Renderer`).
- JsString.ToUpperCase: upper-cases ASCII letters only. Full Unicode case mapping is not modelled.
- GroupsApi.ListMembers: the page tokens are a finite list of pages, so a token chain that never ends is not modelled.
- Xoshiro.Xoshiro128p.constructor: the seed is an integer. JavaScript's ToInt32 of a fractional, infinite or NaN seed is not modelled.
- `Xoshiro128p.uniform01` and `NumberGenerator.ts`. They are floating point.
- group-from-sheet/src/index.ts, put_from_sheet/src/index.ts and typescript_gas_downgrade/src/index.ts. They are menu and trigger wiring only.
- group-from-sheet/gas/index.js. It is the compiled bundle of the modelled TypeScript sources.
- put_from_sheet/src/infrastructure/api-client.ts. It is an HTTP client; its replies are the `reply` function of `SyncItems.ApiClient`.
- put_from_sheet/src/presentation/ui.ts. It renders an HTML dialog.
- put_from_sheet/src/config/config.ts and put_from_sheet/src/domain/item.ts are not part of this model. The filtered sheet's name is a parameter, and `Item` is declared in `SheetRepository`.
- SheetRepository.GetFilteredItems: `getSheetByName` and `getDataRange().getValues()` are inputs; the values the sheet holds are passed in directly.
- The xstate runtime. Only the two `assign` transitions of the counter machine, and an actor holding its context, are modelled.
