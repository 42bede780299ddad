# Task tracker data service, modelled in Dafny

This project models the rules engine of a task-tracking web application. The
application keeps topics (tasks) assigned to departments, followups on those
topics, users, departments and an audit log. The modelled core:

- **The data service** (`services/dataService.ts`). It becomes the class
  `DataService.Store`. Its fields are the module's collections and session:
  topics, followups, departments, users, the audit log, the current user and
  the Telegram token. Every exported operation the core uses is a method. Each
  method states the new value of every field it may change, in terms of pure
  rules in `ServiceRules`, which the lemmas there characterise. Those rules
  cover:
  - the audit log's 500-entry cap;
  - the status a followup gives its topic;
  - the closing-date coupling of status changes;
  - department find-or-create, with `max + 1` ids;
  - the delete cascade;
  - bulk import;
  - backup and restore;
  - the overdue query and the statistics.
- **The Excel import mapper** (`components/ImportData.tsx`). It models:
  - `mapStatus`;
  - `parseDate` for text cells;
  - the per-row defaults;
  - the row loop, which resolves each row's department through the store in
    sheet order and then imports the batch.
- **The topic register** (`components/TopicList.tsx`). It models:
  - the search-and-status filter;
  - the list's own overdue rule and the per-row late flag;
  - the `filter` URL parameter;
  - the CSV quoting of the details column. A round trip shows that a CSV reader
    following section 2, rule 7 of RFC 4180 recovers the text.
- **The performance report** (`components/PerformanceAnalysis.tsx`). It models:
  - the date-range filter;
  - the per-department counts and the completion rate;
  - the department table, filtered and sorted stably by total;
  - the status breakdown;
  - the overdue list, sorted stably by due date;
  - the selected department's four-way split.

Shared modules:
- `Types` holds the records of `types.ts`.
- `Strings` models the JavaScript string operations the code relies on:
  - `<` on strings;
  - `includes`;
  - `trim`, with the ECMAScript white-space set;
  - `toLowerCase`, for ASCII letters.
- `Seqs` holds `filter` and counting, and their lemmas.

The code has four overdue rules, and the model states them side by side:
- the data service's rule (`ServiceRules.IsOverdue`);
- the register's rule (`TopicList.IsOverdueForList`), which the report's
  selected-department view also uses;
- the report's department-table rule (`PerformanceAnalysis.IsOverdueForDept`);
- the report's overdue-list rule (`PerformanceAnalysis.InOverdueList`).

`TopicList.ListOverdueWidensServiceOverdue` and
`PerformanceAnalysis.OverdueRulesCompared` give their exact differences. The
register's per-row late flag (`TopicList.RowIsLate`) is also the report's
late-but-unmarked slice (`PerformanceAnalysis.IsLateUnmarked`).

Where the code and its documentation disagree, the model follows the code:
- The closing date is tied to the Closed status only by `updateTopicStatus`.
  `addTopic`, `updateTopic` and the import do not enforce it, and every
  imported topic gets a closing date (`ImportData.ImportedPendingTopicIsNotCoupled`).
- `resetSystem` clears the collections and the stored session key. It does not
  end the in-memory session, and it does not clear the Telegram token.

## Model

| member | source | states |
|---|---|---|
| Types.StatusOfText | types.ts:2-11 | The enum string of a status maps back to that status, and a string that is no status's text maps to none |
| Types.StatusTextRoundTrip | types.ts:2-11 | Every status is recovered from its enum string |
| Strings.ContainsAt | components/TopicList.tsx:33 | `includes` holds exactly when the search text occurs at some position of the field |
| Strings.TrimStripsWhitespace | services/dataService.ts:143 | `trim` leaves no white space at either end and removes only leading and trailing white space: the result is a contiguous slice of the input |
| Strings.TrimIdempotent | services/dataService.ts:143 | Trimming twice is trimming once |
| Strings.ToLowerAt | services/dataService.ts:145 | Lower-casing maps each character on its own and leaves no upper-case ASCII letter |
| Strings.ToLowerFixed | services/dataService.ts:145 | Text with no upper-case letter is unchanged by lower-casing |
| ServiceRules.SystemActorWithoutSession | services/dataService.ts:76-85 | With no session, a log entry records user id 0 and the name 'System' |
| ServiceRules.PrependLog | services/dataService.ts:86 | The new entry is element 0, the older entries follow in order, and the log never exceeds 500 entries |
| ServiceRules.PrependLogEvictsOldest | services/dataService.ts:86 | On a full log, the oldest entry is the one dropped |
| ServiceRules.StatusAfterFollowupByTable | services/dataService.ts:225-243 | The followup status rule is a lookup in the progress-level table: the good levels give Closed or Ongoing, the weak ones give Pending, 'ملغي' gives Cancelled, the two stop words give Stalled, anything else keeps the status; a completion word in the result text overrides the table with Closed |
| ServiceRules.ExcellentAndDoneCloses | services/dataService.ts:225-243 | An excellent followup whose result says 'تم' closes a pending topic |
| ServiceRules.NotDoneCountsAsDone | services/dataService.ts:225-229 | The completion test is a substring search, so 'لم يتم' ("not done") counts as done |
| ServiceRules.FindTopic | services/dataService.ts:178 | `find` by id: the result is the first stored topic with that id, and none is found only when no topic has the id |
| ServiceRules.ApplyPatch | services/dataService.ts:179 | A supplied status or closing date wins over the current one, and `lastUpdated` is always re-stamped |
| ServiceRules.UpdateTopics | services/dataService.ts:177-182 | `updateTopic` keeps the length, leaves every topic with another id untouched, and patches every topic with the id |
| ServiceRules.SetStatusCouplesClosingDate | services/dataService.ts:193-202 | After a status change the list keeps its length, every topic with another id is unchanged, and every topic with the id has the new status, today's stamp and a closing date equal to today exactly when the status is Closed |
| ServiceRules.FollowupUpdatesParent | services/dataService.ts:223-249 | A followup for a missing topic changes no topic; otherwise exactly the topics with its id take the status the followup rule gives, re-stamped with today |
| ServiceRules.FindUser | services/dataService.ts:101 | `find` by user id: the result is the first user with that id, and none is found only when no user has it |
| ServiceRules.UpdateDepartments | services/dataService.ts:134-138 | `updateDepartment` keeps the length, leaves every other department untouched, and patches every department with the id |
| ServiceRules.DeleteCascade | services/dataService.ts:184-191 | Deleting a topic removes exactly the topics with its id and the followups with that topic id; every other topic and followup keeps all its copies, in their relative order |
| ServiceRules.OverdueTopicsExactly | services/dataService.ts:327-333 | The overdue list holds exactly the stored-Overdue topics and the past-due topics not Closed, Cancelled, Phased or Stalled, each as often as stored, in store order |
| ServiceRules.ComputeStats | services/dataService.ts:335-341 | `total` is the topic count, `overdue` the overdue list's length, `completed` counts Closed, `pending` counts Ongoing or Pending, and completed + pending and completed + overdue never exceed total |
| ServiceRules.FirstNameMatch | services/dataService.ts:145 | The index of the first department whose trimmed, lower-cased name equals the trimmed, lower-cased input, or -1 when none does |
| ServiceRules.FindDepartmentByName | services/dataService.ts:145 | None is found exactly when no department name matches; otherwise the first matching department |
| ServiceRules.FindDepartmentByNameAppend | services/dataService.ts:145-154 | After a failed lookup, appending a department makes the lookup find it exactly when its name matches |
| ServiceRules.FindDepartmentByNameEquivalent | services/dataService.ts:143-145 | Names with the same trimmed, lower-cased form find the same department |
| ServiceRules.MaxDepartmentId | services/dataService.ts:148 | `Math.max(...ids, 0)`: at least 0, at least every id, and equal to some id unless it is 0 |
| ServiceRules.MaxDepartmentIdAppend | services/dataService.ts:148 | Appending a department raises the maximum exactly when its id is larger |
| ServiceRules.ResolveDepartmentFindsOrCreates | services/dataService.ts:140-158 | An empty name gives 1 and creates nothing; when a department's trimmed, lower-cased name matches, the first such department's id is returned and the list is unchanged; otherwise the old list is kept as a prefix and exactly one department is appended, with an id above every existing id and the trimmed name, and its id is returned |
| ServiceRules.ResolveDepartmentTwice | services/dataService.ts:140-158 | Resolving the same name again returns the same id and adds nothing |
| ServiceRules.ResolveDepartmentIgnoresPadding | services/dataService.ts:143 | Non-empty names that differ only in surrounding white space resolve alike |
| ServiceRules.ResolveFreshName | services/dataService.ts:146-157 | A non-empty name no department matches creates the next department and returns its id |
| ServiceRules.ResolveAllPair | services/dataService.ts:140-158 | Resolving two names is resolving the first, then the second against the list the first left |
| ServiceRules.StillFreshAfterNew | services/dataService.ts:148-154 | Creating a department for one name leaves a differently named fresh name still unmatched, and raises the maximum id by one |
| ServiceRules.ResolveTwoNewNames | services/dataService.ts:140-158 | Two different new names resolved one after the other get the consecutive ids max + 1 and max + 2 |
| ServiceRules.ImportTopics | services/dataService.ts:343-347 | The new topic list is the fresh incoming topics followed by the old list, unchanged |
| ServiceRules.ImportTopicsAddsFresh | services/dataService.ts:343-347 | The prepended topics are exactly the incoming ones whose id the store lacks, each as often as it comes in, in input order |
| ServiceRules.ImportKeepsBatchDuplicates | services/dataService.ts:344-345 | Ids are checked against the store only, so a batch repeating a new id imports both copies |
| ServiceRules.BlobOf | services/dataService.ts:284-302 | An exported backup, read back, carries every collection and the token unchanged and passes the restore's validation; that restoring it undoes a deletion is `DataService.RestoreUndoesDelete` |
| ServiceRules.SeedNextId | services/dataService.ts:6-11 | The seed departments' maximum id is 4, so the first department created gets id 5 |
| DataService.Store.constructor | services/dataService.ts:4-16 | A first run starts with no topics, followups or log entries, the four seed departments, the default administrator, no session and no token |
| DataService.Store.LogAction | services/dataService.ts:76-88 | The entry for the session user (or System) is prepended and the log cut to its cap |
| DataService.Store.Login | services/dataService.ts:100-109 | Login succeeds exactly when a user has the id; then that user is the session and the login is logged; otherwise nothing changes |
| DataService.Store.Logout | services/dataService.ts:111-117 | The session ends; the departure is logged only when there was a session user |
| DataService.Store.GetCurrentUser | services/dataService.ts:119-121 | The session user, else the first user; nothing only when there is neither |
| DataService.Store.SetTelegramToken | services/dataService.ts:126-129 | The token is stored and the change logged |
| DataService.Store.UpdateDepartment | services/dataService.ts:134-138 | The departments with the id are patched and the update logged |
| DataService.Store.ResolveDepartment | services/dataService.ts:140-158 | The returned id and the new department list are those of the find-or-create rule; a log entry is added only when a department is created |
| DataService.Store.AddTopic | services/dataService.ts:165-175 | The topic gets the random id and today's stamp, goes first in the list, and is logged |
| DataService.Store.UpdateTopic | services/dataService.ts:177-182 | The topics with the id are patched and re-stamped, the others kept, and the edit logged with the old title |
| DataService.Store.DeleteTopic | services/dataService.ts:184-191 | The topic and its followups are removed in cascade, and the deletion logged |
| DataService.Store.UpdateTopicStatus | services/dataService.ts:193-202 | The status is set, and the closing date is set to today for Closed or cleared otherwise; the change is logged |
| DataService.Store.GetFollowups | services/dataService.ts:205-208 | A missing or zero topic id gives every followup; otherwise exactly the followups of that topic, each as often as stored, in order |
| DataService.Store.AddFollowup | services/dataService.ts:214-250 | The followup gets the random id and goes first; its topic, if present, takes the status the followup rule gives; the followup is logged |
| DataService.Store.GetUsers | services/dataService.ts:253-259 | An empty user list is reset to the default administrator, so the result is never empty |
| DataService.Store.DeleteUser | services/dataService.ts:275-281 | User 1 is never deleted and that attempt changes nothing; any other id removes every user with it and logs the deletion |
| DataService.Store.ExportFullSystem | services/dataService.ts:284-296 | The export is logged first, so the snapshot holds every collection including its own log entry |
| DataService.Store.ImportFullSystem | services/dataService.ts:298-324 | All or nothing: a blob without topic and user arrays is refused and changes nothing; an accepted one replaces topics and users, takes followups and the log from the blob (empty when absent), keeps departments and the token when the blob has none, and logs the restore |
| DataService.Store.ImportData | services/dataService.ts:343-351 | The fresh incoming topics are prepended, the count added is logged, and the new total (not the count added) is returned |
| DataService.Store.ResetSystem | services/dataService.ts:353-373 | The collections return to their first-run values and the log is emptied, the session and token being kept |
| DataService.Store.GetOverdueTopics | services/dataService.ts:327-333 | Exactly the topics the overdue rule selects, in store order |
| DataService.Store.GetStats | services/dataService.ts:335-341 | The statistics of the current topics, with completed + pending and completed + overdue never above total |
| DataService.RestoreUndoesDelete | services/dataService.ts:184-324 | A backup taken before a topic deletion and restored after it brings back the topics, followups, departments and users, and leaves the session and token as they were |
| ImportData.MapStatusEmpty | components/ImportData.tsx:46 | An empty status cell gives Pending |
| ImportData.MapStatusIgnoresPadding | components/ImportData.tsx:47 | Surrounding white space does not change the mapped status |
| ImportData.MapStatusArabic | components/ImportData.tsx:47-48 | A cell whose trimmed text is a status's enum string maps to that status |
| ImportData.MapStatusEnglish | components/ImportData.tsx:50-58 | A cell whose trimmed, lower-cased text is one of the eight English names maps to that status |
| ImportData.MapStatusUnknown | components/ImportData.tsx:60 | Any other text maps to Pending |
| ImportData.ParseDate | components/ImportData.tsx:64-71 | A missing date cell becomes today, and a non-empty text date is kept unchanged |
| ImportData.DeptCellIsFirstPresentColumn | components/ImportData.tsx:73 | A row's department cell is missing exactly when the Responsible, المعني بالتنفيذ, القسم and الإدارة columns all are; otherwise it is the first of them, in that order, that is present |
| ImportData.MapRowDefaults | components/ImportData.tsx:76-90 | Every mapped row has type 'مستورد', priority Normal, sender 'استيراد', creator 1, today's stamp and the resolved department; the id is the English id cell, else the Arabic one, else the random fallback; the title is the English cell, else the Arabic one, else 'بدون عنوان'; the details default to ''; the status is `mapStatus` of the first present status cell; a missing assignment or due date becomes today |
| ImportData.ImportedTopicsHaveClosingDate | components/ImportData.tsx:89 | Every imported topic has a closing date, today's when the cell is missing, whatever its status |
| ImportData.ImportedPendingTopicIsNotCoupled | components/ImportData.tsx:84-89 | A row with no status and no closing date becomes a Pending topic that still has a closing date |
| ImportData.MapAllAt | components/ImportData.tsx:76 | The mapped list's i-th topic is row i mapped with the i-th resolved department id |
| ImportData.MapRows | components/ImportData.tsx:73-90 | Rows are resolved through the store one after the other, so the department list and the log end as resolving the department cells in sheet order leaves them, and each topic carries its row's resolved id |
| ImportData.ImportRows | components/ImportData.tsx:41-93 | An empty sheet is an error and changes nothing; otherwise the departments and log are those left by resolving the rows' department cells in order, the mapped rows are imported, the import count is logged last, and the new total is returned |
| ImportData.NewDepartmentsInSheetOrder | components/ImportData.tsx:73-74 | Two rows naming two different new departments get consecutive new ids, in sheet order |
| TopicList.FilteredTopicsExactly | components/TopicList.tsx:32-43 | The filtered list is an order-preserving selection that keeps every copy of a kept topic: with 'all' exactly the text matches, with 'overdue_calculated' the text matches the list's overdue rule selects, with a status string the text matches having exactly that status |
| TopicList.EmptyTextMatchesAll | components/TopicList.tsx:33 | An empty search text matches every topic |
| TopicList.ListOverdueWidensServiceOverdue | components/TopicList.tsx:37-40 | The list's overdue rule contains the data service's and adds exactly the past-due Phased and Stalled topics |
| TopicList.RowFlagAndListRule | components/TopicList.tsx:164 | The row's late flag holds exactly for the topics the list's rule selects that are not stored as Overdue |
| TopicList.OverdueLinkShowsServiceList | components/TopicList.tsx:20-24 | Opened with filter=overdue and no search text, the register shows the data service's overdue list unchanged |
| TopicList.CompletedLinkShowsClosed | components/TopicList.tsx:25-26 | Opened with filter=completed, the register shows exactly the Closed topics matching the search text |
| TopicList.PendingLinkShowsPending | components/TopicList.tsx:27-28 | Opened with filter=pending, the register keeps every topic under the Pending status filter and shows exactly the Pending topics matching the search text |
| TopicList.OtherLinkKeepsView | components/TopicList.tsx:17-30 | With no filter parameter or an unknown one, every topic is listed and the status filter is left as it was |
| TopicList.CsvCellRoundTrip | components/TopicList.tsx:70 | A reader following section 2, rule 7 of RFC 4180 recovers the details text from its cell exactly |
| PerformanceAnalysis.TopicsInPeriodExactly | components/PerformanceAnalysis.tsx:32-34 | The analysed topics are exactly those assigned between the start and end dates, compared as strings, each as often as stored, in store order |
| PerformanceAnalysis.RoundedRate | components/PerformanceAnalysis.tsx:59-60 | The rate is 100·closed/effective rounded half up, and 0 when there is no effective total |
| PerformanceAnalysis.RoundedRateIsPercentage | components/PerformanceAnalysis.tsx:59-71 | The rate lies in 0..100, is 100 when every effective topic is closed and 0 when none is |
| PerformanceAnalysis.DeptColumnsDisjoint | components/PerformanceAnalysis.tsx:38-57 | Closed, cancelled, stalled-or-postponed, overdue and active counts cover disjoint topics, so their sum is at most the total |
| PerformanceAnalysis.DeptMetricOf | components/PerformanceAnalysis.tsx:36-72 | A department's row counts its topics in the period: closed counts Closed, cancelled counts Cancelled, stalled counts Stalled or Postponed, overdue counts the table's overdue rule, active counts Pending, Ongoing or Phased not yet due; the rate is the rounded percentage of closed over total minus cancelled; the columns sum to at most the total and the rate lies in 0..100 |
| PerformanceAnalysis.SortByTotal | components/PerformanceAnalysis.tsx:73 | Sorting the table by total is a permutation |
| PerformanceAnalysis.SortByTotalSorted | components/PerformanceAnalysis.tsx:73 | The sorted table is in descending order of total |
| PerformanceAnalysis.SortByTotalStable | components/PerformanceAnalysis.tsx:73 | Departments with equal totals keep their order, as with JavaScript's stable sort |
| PerformanceAnalysis.DeptTableOrdered | components/PerformanceAnalysis.tsx:36-73 | The table holds exactly the departments with topics in the period, each once, by total descending, ties in department order |
| PerformanceAnalysis.StatusCountsPartition | components/PerformanceAnalysis.tsx:75-79 | The per-status counts add up to the number of topics |
| PerformanceAnalysis.StatusDataSum | components/PerformanceAnalysis.tsx:81-86 | The breakdown shows only non-empty slices, which add up to the topic count plus the past-due topics not stored as Overdue, Closed or Cancelled: those are counted twice |
| PerformanceAnalysis.LatePendingCountedTwice | components/PerformanceAnalysis.tsx:81-86 | A single past-due Pending topic shows as one running and one late topic |
| PerformanceAnalysis.SortByDue | components/PerformanceAnalysis.tsx:92 | Sorting the overdue list by due date is a permutation |
| PerformanceAnalysis.SortByDueSorted | components/PerformanceAnalysis.tsx:92 | The sorted list is in ascending order of due date |
| PerformanceAnalysis.SortByDueStable | components/PerformanceAnalysis.tsx:92 | Topics with the same due date keep their store order |
| PerformanceAnalysis.OverdueListOrdered | components/PerformanceAnalysis.tsx:88-92 | The overdue list is drawn from all topics: exactly those not Closed, Cancelled or Stalled and stored as Overdue or past due, each as often as stored, earliest due first, ties in store order |
| PerformanceAnalysis.OverdueRulesCompared | components/PerformanceAnalysis.tsx:44-53 | The table's overdue rule adds past-due Phased topics to the data service's rule and drops past-due Postponed ones; the overdue list adds past-due Postponed topics to the table's rule |
| PerformanceAnalysis.SelectedColumnsDisjoint | components/PerformanceAnalysis.tsx:103-106 | For the selected department, closed, overdue and active cover disjoint topics |
| PerformanceAnalysis.SelectedDeptStats | components/PerformanceAnalysis.tsx:97-107 | No selection gives nothing; otherwise, over the department's topics in the period, closed counts Closed, overdue counts the register's overdue rule, active counts Pending or Ongoing not yet due, the remainder is never negative, and the four parts sum to the total |
| PerformanceAnalysis.SelectedPieSumsToTotal | components/PerformanceAnalysis.tsx:109-114 | The selected department's pie shows only non-empty slices, and they add up to its topic count |

## Left out

- Persistence: `loadFromStorage`, `saveToStorage` and the module-load code are not modelled. The store's fields are the whole state.
- Clock: "today" and the log timestamp are the `Env` parameter. Dates are `YYYY-MM-DD` text, compared as strings.
- Random ids: they are method parameters carrying the source's ranges.
- Log entry ids: every log entry an operation writes takes its id from `Env`, whereas the source draws a fresh random id for each.
- `getLogs`, `clearLogs`, `isAuthenticated`, `getTelegramToken`, `getDepartments`, `getTopics`, `getTopicById`, `getFollowupsByDate`, `addUser`, `updateUser`: plain accessors or user administration outside the modelled core.
- Telegram delivery (`services/telegramService.ts`) is not part of this model: it is network I/O.
- ServiceRules.ApplyPatch: its contract names only the status, the closing date and the stamp. The other fields follow the same given-or-kept rule in its body.
- Strings.ToLower: lower-cases ASCII letters only, where JavaScript's `toLowerCase` folds all of Unicode.
- Strings.Less: compares whole characters, not UTF-16 code units. The two orders differ only outside the Basic Multilingual Plane.
- ImportData.ParseDate: covers text cells only. Excel serial-number dates are converted with floating-point `Date` arithmetic, which is not modelled.
- Import cells: text columns are strings and the id columns integers. An empty string or 0 stands for a missing cell, as JavaScript's `||` treats them.
- XLSX parsing, `FileReader`, the success message and navigation are not modelled: they are external libraries and browser I/O.
- PerformanceAnalysis.RoundedRate: uses exact rational rounding of 100·closed/effective. The source rounds a floating-point quotient, which can differ only where that quotient is not exactly representable at a half.
- PerformanceAnalysis.SortByDue: orders by due-date text. The source compares `new Date(...).getTime()`, which agrees for well-formed ISO dates. Malformed dates (NaN) are not modelled.
- PerformanceAnalysis.SelectedDeptStats: takes the selected id as an integer. A `selectedDeptId` that `Number` turns into NaN is not modelled.
- The report's `topicsWithNotes`: a display join with followups.
- Charts, PDF and CSV file download, React state and routing: UI only.
- Dashboard, DailyReport, Settings, Login, UserGuide, NewTopicModal and App are not part of this model: they re-display data-service queries.
