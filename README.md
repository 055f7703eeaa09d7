# Progress-report tracker: a Dafny model

The tracker records, for each organisational unit, the projects the unit works on in a fiscal year. Each project gets periodic progress reports. Unit users file reports through an entry form. An administrator sees dashboards and report histories. The administrator also manages units, projects and project groups, sends projects to a 30-day trash, and exports or imports a full snapshot of the data.

This project models the bookkeeping core of that application and proves what it promises:

- **The collection store** (`services/storageService.ts`, module `Storage`, class `Storage.Store`). It holds four collections as sequence fields: units, projects, groups and reports. It models:
  - upsert by `id`;
  - deletes with their cascades;
  - soft delete and restore;
  - propagation of a project rename to its reports;
  - un-linking a group from its projects;
  - the 30-day trash sweep;
  - the import of an already-parsed backup.

  The available-years list is in module `Years`.
- **The view models** of the dashboard (`Dashboard`), the report history (`ReportHistory`), the entry form (`EntryForm`) and the project administration screen (`ProjectManager`). They are filter chains and a latest-report lookup (module `ViewModel`, shared), status counters and a rounded average, the grouped/ungrouped project picker, form defaults and validation, and the trash countdown.
- **The login decision** (`Login`): the administrator password, a per-unit password that defaults to `"123"`, and the errors.

Modules `Seqs`, `Text` and `Types` hold the shared helpers:

- the `filter` pipeline and its laws;
- JavaScript's `trim`, `toLowerCase`, `includes` and string order;
- the records of `types.ts`, and the defaults every screen applies.

JavaScript truthiness is written out:

- A `deletedAt` of `0` counts as "not in the trash".
- A `groupId` of `""` counts as ungrouped.
- A `fiscalYear` or `password` of `""` counts as missing.

Where the source mutates state, the model does too:

- The store, the entry form, the project screen and the login screen are classes whose methods update fields.
- The loops that fill the latest-report map, the counters and the picker dictionary are `for`/`while` loops with invariants.
- The report history's sort is an in-place insertion sort on an `array`.

Clock values (`Date.now()`) and fresh ids (`uuidv4()`) are parameters.

Import (services/storageService.ts:287-290) replaces the reports, projects and units collections wholesale, and replaces the groups only when the backup has them. `Storage.Store.ImportBackup` models that replacement.

## Model

| member | source | states |
|---|---|---|
| Types.PasswordOf | services/storageService.ts:68 | a unit's expected password is never empty: it is the stored one when there is one, `"123"` otherwise |
| Types.FindUnit | components/Dashboard.tsx:60 | `find` by id: none iff no unit has the id; otherwise the unit at the first index holding the id |
| Types.FindProject | components/ReportHistory.tsx:32 | `find` by id: none iff no project has the id; otherwise the project at the first index holding the id |
| Text.Lower | components/Dashboard.tsx:57 | lowercasing keeps the length and maps every character by itself (ASCII letters only) |
| Text.TrimEmptyIffBlank | components/ProjectManager.tsx:44 | the trimmed name is empty exactly when every character of the name is white space |
| Text.Trim | components/ProjectManager.tsx:55 | the trimmed text is a slice of the input whose cut-off ends are all white space and whose own ends are not |
| Storage.IndexOf | services/storageService.ts:87 | `findIndex`: the first index whose key is the id, or -1 when none has it |
| Storage.Upsert | services/storageService.ts:85-94 | the record ends up in the list, the length grows by at most one, and nothing but the record is added |
| Storage.UpsertSpec | services/storageService.ts:120-128 | an existing id: the first record with it is replaced in place and every other record is unchanged; a new id: the record is appended |
| Storage.UpsertKeepsKeysUnique | services/storageService.ts:204-213 | a collection whose ids are unique keeps them unique under upsert |
| Storage.UpsertIdempotent | services/storageService.ts:232-241 | saving the same record twice is the same as saving it once |
| Storage.SyncReports | services/storageService.ts:137-143 | every report of the project gets its new name and unit and no other field changes; every other report is untouched |
| Storage.SetDeletedAtSpec | services/storageService.ts:149-165 | soft delete and restore change only `deletedAt` of the first project with the id, and nothing for an unknown id |
| Storage.RestoreAfterSoftDelete | services/storageService.ts:149-165 | restore after soft delete gives the list with the project's `deletedAt` removed, which is the original list for a project that was active |
| Storage.DeleteProjectSpec | services/storageService.ts:167-178 | no project with the id and no report of it remain; every other project and report keeps its count and the survivors keep their order |
| Storage.SweepSpec | services/storageService.ts:184-202 | the sweep removes exactly the projects trashed before `now` minus 30 days and the reports pointing at them; `deletedAt` absent or 0 always survives; the survivors keep their order |
| Storage.SweepIdempotent | services/storageService.ts:189-191 | a second sweep at the same instant changes nothing |
| Storage.Ungroup | services/storageService.ts:221-228 | the deleted group's projects end with no group, only `groupId` changes, no project is removed, and projects of other groups are untouched |
| Storage.DeleteUnitSpec | services/storageService.ts:243-257 | removes the unit, its projects and the reports carrying its `unitId`, every other record keeps its count, and the survivors keep their order |
| Storage.Expired | services/storageService.ts:186-189 | a `deletedAt` absent or 0 never expires; a project in the trash expires exactly when more than 30 days have passed since it was trashed |
| Storage.Sweep | services/storageService.ts:184-202 | the kept projects are exactly those not expired, and the kept reports exactly those pointing at no expired project |
| Storage.DeliveredUnits | services/storageService.ts:64-73 | subscribers receive every unit with a non-empty password, every other field as stored, and the same expected password |
| Storage.Store.constructor | services/storageService.ts:25-33 | an empty store: every collection loads as empty |
| Storage.Store.SaveReport | services/storageService.ts:85-94 | the reports become the upsert of the report; the other collections stay |
| Storage.Store.DeleteReport | services/storageService.ts:96-100 | the reports with the id are removed; the other collections stay |
| Storage.Store.SaveProject | services/storageService.ts:120-147 | the projects become the upsert; the reports are rewritten by the cascade exactly when the previous version is given and its name or unit differs |
| Storage.Store.SoftDeleteProject | services/storageService.ts:149-156 | `deletedAt` of the first project with the id becomes `now`; nothing else changes |
| Storage.Store.RestoreProject | services/storageService.ts:158-165 | `deletedAt` of the first project with the id is removed; nothing else changes |
| Storage.Store.DeleteProject | services/storageService.ts:167-178 | the project and its reports are removed; units and groups stay |
| Storage.Store.CleanupTrash | services/storageService.ts:184-202 | projects and reports become the result of the sweep at `now` |
| Storage.Store.SaveProjectGroup | services/storageService.ts:204-213 | the groups become the upsert of the group |
| Storage.Store.DeleteProjectGroup | services/storageService.ts:215-230 | the group is removed and its projects are ungrouped; units and reports stay |
| Storage.Store.SaveUnit | services/storageService.ts:232-241 | the units become the upsert of the unit |
| Storage.Store.DeleteUnit | services/storageService.ts:243-257 | unit, its projects and its reports removed; groups stay |
| Storage.Store.ExportBackup | services/storageService.ts:270-280 | the backup holds the four collections, the time and the version `"2.0 (Local)"` |
| Storage.Store.ImportBackup | services/storageService.ts:282-297 | succeeds iff reports, projects and units are present; then replaces them, and groups only when present; on failure nothing changes |
| Storage.ExportImportRoundTrip | services/storageService.ts:270-297 | importing the export of one store into another makes the second a copy of the first |
| Years.InsertDesc | services/storageService.ts:265 | inserting a year into a strictly descending list keeps it strictly descending and adds exactly that year |
| Years.DistinctDesc | services/storageService.ts:265 | `new Set` then a descending sort: strictly descending (so no duplicates) with exactly the input's values |
| Years.ActiveYears | services/storageService.ts:264-265 | the years of the projects not in the trash are never empty strings, and there are none exactly when every project is in the trash |
| Years.AvailableYears | services/storageService.ts:263-268 | never empty and strictly descending; exactly the years of the projects not in the trash (a missing year counted as `"2569"`), or just `"2569"` when there are none |
| ViewModel.Latest | components/Dashboard.tsx:67-70 | none iff there are no reports; otherwise one of them, with a timestamp no other report exceeds |
| ViewModel.LatestIsFirstOfMax | components/Dashboard.tsx:69-70 | among reports sharing the greatest timestamp, the one chosen occurs no later than any of them, as a stable sort leaves the earliest first |
| ViewModel.PartitionByGroup | components/Dashboard.tsx:150-159 | the ungrouped list and each group's list are the order-preserving filters of the input by group, and the keys are exactly the groups in use |
| ViewModel.PartitionExactlyOnce | components/Dashboard.tsx:152-158 | every project is listed as often as it occurs, under its own group or among the ungrouped, and under no other group |
| Dashboard.FilterReports | components/Dashboard.tsx:32-45 | a report survives the chain exactly when it is among the reports and passes the unit, project and both date filters that are active |
| Dashboard.FilterReportsIsConjunction | components/Dashboard.tsx:32-45 | the chain of report filters is one order-preserving filter by the AND of the active filters, keeping each passing report as often as it occurs |
| Dashboard.TargetProjects | components/Dashboard.tsx:47-63 | a project is a target exactly when it is among the projects and passes the year filter (default `"2569"`) and the active unit, project and search filters |
| Dashboard.TargetProjectsIsConjunction | components/Dashboard.tsx:47-63 | the target projects are the order-preserving filter by year (default `"2569"`) AND the active unit, project and search filters |
| Dashboard.BuildProjectMap | components/Dashboard.tsx:65-74 | one key per target project; its entry is none iff no filtered report belongs to the project, otherwise a filtered report of the project with maximal timestamp |
| Dashboard.Classify | components/Dashboard.tsx:93-103 | not started iff no report or progress 0; completed iff progress 100; otherwise in progress |
| Dashboard.StatusCountsPartition | components/Dashboard.tsx:91-104 | the three counters add up to the number of target projects |
| Dashboard.ComputeStats | components/Dashboard.tsx:84-116 | the counters of the loop are the status counts, they add up to the total, the average is the rounded one, and the reported count is as specified |
| Dashboard.RoundDiv | components/Dashboard.tsx:113 | `Math.round(a / b)`: the integer q with q - 1/2 <= a / b < q + 1/2 |
| Dashboard.AverageProgress | components/Dashboard.tsx:106-113 | 0 when no project has progress; otherwise the progress sum over the number of target projects, rounded to the nearest integer |
| Dashboard.AverageInRange | components/Dashboard.tsx:106-113 | with every progress in 0..100 the average progress lies in 0..100 |
| Dashboard.RoundDivBounds | components/Dashboard.tsx:113 | rounding a quotient of at most 100 stays in 0..100 |
| Dashboard.ThreeProjectsExample | components/Dashboard.tsx:91-113 | no report, progress 50 and progress 100 give one project per status and an average of 50 |
| Dashboard.ReportedCount | components/Dashboard.tsx:114 | the count of filtered reports belonging to a target project never exceeds the filtered reports |
| Dashboard.PickerCandidates | components/Dashboard.tsx:146-149 | exactly the projects of the selected year, and of the selected unit unless it is `'all'` |
| Dashboard.AvailableProjectsForFilter | components/Dashboard.tsx:145-161 | the picker is the group partition of those candidates |
| ReportHistory.VisibleReports | components/ReportHistory.tsx:27-29 | with a current unit exactly that unit's reports; otherwise all reports |
| ReportHistory.ReportYear | components/ReportHistory.tsx:32-33 | the year of the first project with the report's project id (default `"2569"`), and `"2569"` when the project is gone; never empty |
| ReportHistory.Keep | components/ReportHistory.tsx:31-53 | with no filter set every report is kept; a kept report has the filtered year, the filtered project, and a start date within both inclusive bounds |
| ReportHistory.MatchingReports | components/ReportHistory.tsx:27-53 | exactly the reports of the current unit (all reports without one) that the filter keeps |
| ReportHistory.InsertIntoSorted | components/ReportHistory.tsx:54 | one step of the sort: the next report moves down into the sorted prefix, which stays sorted newest first; the reports after it are untouched and the array keeps the same reports |
| ReportHistory.SortByTimestampDesc | components/ReportHistory.tsx:54 | the array ends sorted newest first and holds the same reports as before |
| ReportHistory.FilteredReports | components/ReportHistory.tsx:31-54 | newest first, and exactly the visible reports passing year, project, both inclusive bounds on the start date and the search, each as often as it occurs |
| ReportHistory.VisibleReportsDeletable | components/ReportHistory.tsx:292 | a unit user may delete every report it sees and no report of another unit |
| ReportHistory.HistoryCandidates | components/ReportHistory.tsx:57-60 | exactly the projects of the selected year, and of the current unit when there is one |
| ReportHistory.AvailableProjects | components/ReportHistory.tsx:56-74 | the picker is the group partition of those candidates |
| EntryForm.UnitProjects | components/EntryForm.tsx:22-24 | exactly the unit's projects whose year (default `"2569"`) is the selected year |
| EntryForm.FallbackSelection | components/EntryForm.tsx:28-37 | a selection still among the candidates is kept; otherwise the first candidate is chosen; with no candidates the selection is empty |
| EntryForm.ProgressColor | components/EntryForm.tsx:99-103 | red iff below 30, green iff 70 or more, yellow in between |
| EntryForm.ProgressColorMonotone | components/EntryForm.tsx:99-103 | more progress never gives a worse colour |
| EntryForm.NewReport | components/EntryForm.tsx:71-87 | the report carries the unit, the selected project, the fresh id, the time, every field of the form (dates, texts, progress, link) as typed, and the project's name or `""` when it is not among the unit's projects |
| EntryForm.SubmittedIsLatest | components/EntryForm.tsx:50-64 | a report saved later than every stored one is afterwards the latest report of its project, so the prefill reads back what was submitted |
| EntryForm.EntryForm.constructor | components/EntryForm.tsx:19-47 | a fresh form: year `"2569"`, nothing selected, end date today, empty fields, progress 0 |
| EntryForm.EntryForm.SyncSelection | components/EntryForm.tsx:28-37 | the selection becomes the fallback for the current candidates; nothing else changes |
| EntryForm.EntryForm.SelectYear | components/EntryForm.tsx:19-37 | the year is set and the selection falls back for the new candidates |
| EntryForm.EntryForm.Prefill | components/EntryForm.tsx:50-64 | with a selection, the past performance and progress come from the latest report of the project, or become `""` and 0; without one nothing changes |
| EntryForm.EntryForm.Submit | components/EntryForm.tsx:66-97 | nothing without a selection; otherwise the new report is upserted, and the plan, obstacles, remarks and link are cleared while progress, past performance and dates stay |
| EntryForm.GroupedProjects | components/EntryForm.tsx:105-118 | the picker is the group partition of the unit's projects of the year |
| ProjectManager.TargetUnit | components/ProjectManager.tsx:49 | the chosen unit, else the first unit, else none |
| ProjectManager.OptionalId | components/ProjectManager.tsx:62 | an empty group choice stands for no group, any other for that group |
| ProjectManager.AddDecision | components/ProjectManager.tsx:42-63 | refused iff the trimmed name is empty, then iff there is no unit; otherwise a project with the typed name, that unit, the trimmed year or `"2569"`, the chosen group, not in the trash |
| ProjectManager.NextFilterYear | components/ProjectManager.tsx:69-71 | the filter stays `'all'`, and any other filter moves to the saved year |
| ProjectManager.AddedProjectIsListed | components/ProjectManager.tsx:65-71 | a project just added is listed among the active projects under the updated year filter |
| ProjectManager.GroupField | components/ProjectManager.tsx:78 | the edit form's group field stands for the project's group |
| ProjectManager.Merged | components/ProjectManager.tsx:85-91 | the edited project keeps id and trash state and takes the form's name, year, unit and group |
| ProjectManager.EditUntouchedKeepsProject | components/ProjectManager.tsx:74-91 | opening and saving an edit unchanged keeps name, unit, year, group and trash state, and starts no cascade |
| ProjectManager.ActiveProjects | components/ProjectManager.tsx:137-139 | exactly the projects not in the trash matching the year filter (any year for `'all'`) |
| ProjectManager.DeletedProjects | components/ProjectManager.tsx:141 | exactly the projects in the trash |
| ProjectManager.ActiveDeletedPartition | components/ProjectManager.tsx:137-141 | with the filter at `'all'` every project is listed exactly once, active or in the trash |
| ProjectManager.CeilDiv | components/ProjectManager.tsx:149 | `Math.ceil(a / b)`: the least q with a at most q times b |
| ProjectManager.DaysRemaining | components/ProjectManager.tsx:143-151 | `max(0, ceil((deletedAt + 30 days - now) / 1 day))`: a positive value q satisfies (q-1) days < time left <= q days, 0 means no time is left; 0 for a project not in the trash |
| ProjectManager.DaysRemainingSpec | components/ProjectManager.tsx:143-151 | at most 30 for a project trashed no later than now; 0 exactly when its 30 days are over; 0 for every project the sweep removes |
| ProjectManager.ProjectManager.constructor | components/ProjectManager.tsx:18-39 | a fresh screen: empty forms, year `"2569"`, filter `'all'`, nothing edited |
| ProjectManager.ProjectManager.SyncNewProjectUnit | components/ProjectManager.tsx:29-33 | with no unit chosen the first unit is preselected; nothing else changes |
| ProjectManager.ProjectManager.AddProject | components/ProjectManager.tsx:42-72 | a refused add changes nothing; an accepted one upserts the project with reports untouched, clears the name and moves a specific year filter to the saved year |
| ProjectManager.ProjectManager.EditProjectStart | components/ProjectManager.tsx:74-80 | the form takes the project's name, year (default `"2569"`), group and unit |
| ProjectManager.ProjectManager.EditProjectSave | components/ProjectManager.tsx:82-94 | a blank name saves nothing; otherwise the merged project is upserted, the cascade runs iff name or unit changed, and the form closes |
| ProjectManager.ProjectManager.AddGroup | components/ProjectManager.tsx:112-117 | a blank group name adds nothing; otherwise a group with the fresh id and the typed name is upserted and the field cleared; the project forms stay |
| ProjectManager.ProjectManager.EditGroupStart | components/ProjectManager.tsx:119-122 | the rename field opens on the group with its name; the project forms stay |
| ProjectManager.ProjectManager.EditGroupSave | components/ProjectManager.tsx:124-128 | a blank name saves nothing; otherwise the group with the new name and the same id is upserted and the field closes; the project forms stay |
| ProjectManager.ProjectManager.DeleteGroup | components/ProjectManager.tsx:130-134 | without confirmation nothing changes; with it the group is removed and its projects ungrouped |
| ProjectManager.ProjectManager.PermanentDeleteProject | components/ProjectManager.tsx:106-110 | without confirmation nothing changes; with it the project and its reports are removed |
| Login.Decide | components/Login.tsx:31-55 | nothing happens exactly without a target or for an empty unit id; "not found" exactly for a unit id no unit has; an administrator login only with `"admin"` |
| Login.LoginNeedsPassword | components/Login.tsx:31-55 | every login had the right password: `"admin"` for the administrator, the unit's password (default `"123"`) for a unit user, who gets that unit's username and id |
| Login.CorrectPasswordLogsIn | components/Login.tsx:33-53 | the right password always logs in; an unknown unit gives "not found"; an empty unit id does nothing |
| Login.DefaultPassword | components/Login.tsx:45 | a unit stored without a password accepts `"123"` and nothing else |
| Login.FindDeliveredUnit | services/storageService.ts:68 | looking a unit up among the delivered units finds the delivered copy of the same unit |
| Login.DecideOnDeliveredUnits | components/Login.tsx:43-46 | the login decides the same on the stored units and on the units as delivered with default passwords |
| Login.LoginScreen.constructor | components/Login.tsx:12-15 | dialog closed, no target, empty input, no error |
| Login.LoginScreen.UnitClick | components/Login.tsx:17-22 | the dialog opens for the unit with an empty input and no error |
| Login.LoginScreen.AdminClick | components/Login.tsx:24-29 | the dialog opens for the administrator with an empty input and no error |
| Login.LoginScreen.CloseModal | components/Login.tsx:57-60 | the dialog closes and forgets its target |
| Login.LoginScreen.Submit | components/Login.tsx:31-55 | logs in with the decided user, or sets the decided error, or does nothing; target, input and dialog stay |

## Left out

- Persistence: `localStorage`, JSON (de)serialisation and the error logging in `load`/`save` (services/storageService.ts:25-44) are not modelled. The store keeps its collections in memory, and import takes an already-parsed backup, so a JSON parse failure is not modelled.
- Listeners and notifications: `notify`, the `subscribeTo*` registrations and unsubscriptions, and the `changed` flags that only decide whether to save and notify are not modelled. The collection a subscriber receives is the field itself. Only the first delivery of the units at subscription (services/storageService.ts:66-69) is `Storage.DeliveredUnits`; later notifications from `save` (services/storageService.ts:35-40) pass the stored units as they are. The login decision applies `Types.PasswordOf` itself, so it decides the same on either (`Login.DecideOnDeliveredUnits`).
- `initializeProjects` (services/storageService.ts:106-118) seeds constant default data from `constants.ts`. The seed data is not part of this model.
- The getters `getReports`, `getProjects` and `getUnits` return a collection unchanged; they are the fields themselves.
- `Date.now()` and `uuidv4()` are the parameters `now`, `timestamp`, `newId` and `today`. `async`/`await` is sequential.
- Text.Lower: lowercases ASCII letters only, because full Unicode case mapping is not modelled.
- Years.AvailableYears: `localeCompare` on years is modelled as lexicographic order by character code. That agrees with locale collation only on years made of digits. A fiscal year is free text typed into the project forms and is not trimmed on edit, so for other text the order of the list can differ from the source's.
- Text.LexLess: JavaScript's `<` compares UTF-16 code units, while the model compares whole characters. The two orders differ only on characters outside the Basic Multilingual Plane.
- ReportHistory.SortByTimestampDesc: sortedness and permutation are proved, but stability is not. `Array.prototype.sort` is stable, so reports with equal timestamps keep their stored order in the table and in the export; the model does not promise that order. `ViewModel.LatestIsFirstOfMax` states the tie-breaking of the stable sort for the latest report.
- Dashboard.ReportedCount: its contract only bounds the count, because the count is defined as the length of a filter, and the filter itself is the statement.
- The filter setters of the screens (resetting the project filter when the year or unit changes, the reset button), the rendering (charts, tables, option labels truncated to 20 or 80 characters), `alert`, `confirm` and `print` are UI. The AI summary, the XLSX export and file download/upload are calls into external services and libraries.
- The soft-delete and restore handlers of the project screen (components/ProjectManager.tsx:96-104) call `Storage.Store.SoftDeleteProject` and `Storage.Store.RestoreProject` and then show an alert. They are those store methods, with `now` as a parameter.
- The answer to `window.confirm` is the parameter `confirmed`.
- Form bindings that only copy typed text into a field (`setPasswordInput`, `setEditName`, …) are plain field assignments and are not modelled separately.
- Failures of the store (connectivity, quota) are not modelled. The in-memory store cannot fail, so every operation completes.
