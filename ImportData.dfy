/**
 * The spreadsheet import (components/ImportData.tsx): each row of the first
 * sheet becomes a topic. Free-text statuses are mapped onto the enumeration,
 * missing dates become today, the department column is resolved through the
 * data service row by row, and the mapped topics go to `importData`.
 *
 * A row is given by its text cells, "" standing for a missing or empty cell
 * (the source's `||` chains treat both alike), and its id cells, 0 standing
 * for a missing one.
 */
module ImportData {
  import opened Types
  import opened Strings
  import opened ServiceRules
  import opened DataService

  datatype Result<T> = Ok(value: T) | Err(message: string)

  // ---------------------------------------------------------------------------
  // Status text

  /** The English name `mapStatus` accepts for each status, in lower case. */
  function EnglishName(s: TopicStatus): string
  {
    match s
    case Closed => "closed"
    case Pending => "pending"
    case Ongoing => "ongoing"
    case Overdue => "overdue"
    case Cancelled => "cancelled"
    case Stalled => "stalled"
    case Postponed => "postponed"
    case Phased => "phased"
  }

  /** The status whose English name is `lower`, if any. */
  function StatusOfEnglish(lower: string): Option<TopicStatus>
  {
    if lower == "closed" then Some(Closed)
    else if lower == "pending" then Some(Pending)
    else if lower == "ongoing" then Some(Ongoing)
    else if lower == "overdue" then Some(Overdue)
    else if lower == "cancelled" then Some(Cancelled)
    else if lower == "stalled" then Some(Stalled)
    else if lower == "postponed" then Some(Postponed)
    else if lower == "phased" then Some(Phased)
    else None
  }

  /** `mapStatus`: empty gives Pending; a trimmed enum string is taken as is;
      otherwise an English name in any case; anything else is Pending. */
  function MapStatus(val: string): TopicStatus
  {
    if val == "" then Pending
    else
      var v := Trim(val);
      var arabic := StatusOfText(v);
      if arabic.Some? then arabic.value
      else
        var english := StatusOfEnglish(ToLower(v));
        if english.Some? then english.value else Pending
  }

  lemma MapStatusEmpty()
    ensures MapStatus("") == Pending
  {
  }

  /** No Arabic status string lower-cases to an English name: they differ in
      their first character. */
  lemma ArabicIsNotEnglish(a: TopicStatus, e: TopicStatus)
    ensures ToLower(StatusText(a)) != EnglishName(e)
  {
    var t := StatusText(a);
    ToLowerAt(t);
    assert ToLower(t)[0] == t[0];
    assert ToLower(t)[0] != EnglishName(e)[0];
  }

  /** Surrounding white space does not matter to `mapStatus`. */
  lemma MapStatusIgnoresPadding(val: string)
    ensures MapStatus(val) == MapStatus(Trim(val))
  {
    TrimIdempotent(val);
    if Trim(val) == "" {
      assert StatusOfText("") == None;
      assert ToLower("") == "";
    }
  }

  /** Every enum string, with or without padding, maps to its status. */
  lemma MapStatusArabic(val: string, s: TopicStatus)
    requires Trim(val) == StatusText(s)
    ensures MapStatus(val) == s
  {
    StatusTextRoundTrip(s);
  }

  /** An English status name in any letter case, with or without padding,
      maps to its status. */
  lemma MapStatusEnglish(val: string, s: TopicStatus)
    requires ToLower(Trim(val)) == EnglishName(s)
    ensures MapStatus(val) == s
  {
    var v := Trim(val);
    var arabic := StatusOfText(v);
    if arabic.Some? {
      ArabicIsNotEnglish(arabic.value, s);
      assert false;
    }
  }

  /** A value that is neither an enum string nor an English name, after
      trimming, falls back to Pending: the mapping is total. */
  lemma MapStatusUnknown(val: string)
    requires forall s :: Trim(val) != StatusText(s) && ToLower(Trim(val)) != EnglishName(s)
    ensures MapStatus(val) == Pending
  {
  }

  // ---------------------------------------------------------------------------
  // Rows

  /** One sheet row: each field pairs the English and the Arabic column the
      source reads, in the order it tries them. */
  datatype Row = Row(
    topicId: int, topicIdAr: int,
    title: string, titleAr: string,
    responsible: string, executor: string, section: string, administration: string,
    assignmentDate: string, assignmentDateAr: string,
    dueDate: string, dueDateAr: string,
    status: string, statusAr: string,
    details: string, detailsAr: string,
    closingDate: string, closingDateAr: string)

  /** `a || b` on two text cells. */
  function FirstPresent(a: string, b: string): (r: string)
    ensures a != "" ==> r == a
    ensures a == "" ==> r == b
  {
    if a != "" then a else b
  }

  /** `parseDate` for a text cell: a missing cell becomes today, any other
      text is kept verbatim. */
  function ParseDate(cell: string, today: string): (r: string)
    ensures cell == "" ==> r == today
    ensures cell != "" ==> r == cell
  {
    if cell == "" then today else cell
  }

  /** The department name of a row: the first present of the Responsible,
      المعني بالتنفيذ, القسم and الإدارة columns. */
  function DeptCell(row: Row): string
  {
    FirstPresent(FirstPresent(FirstPresent(row.responsible, row.executor), row.section), row.administration)
  }

  /** The four department columns, in the order the source tries them. */
  function DeptColumns(row: Row): seq<string>
  {
    [row.responsible, row.executor, row.section, row.administration]
  }

  /** The department cell is missing exactly when all four columns are, and
      otherwise is the first column that is present. */
  lemma DeptCellIsFirstPresentColumn(row: Row)
    ensures var cols := DeptColumns(row);
            && |cols| == 4
            && (DeptCell(row) == "" <==> forall k :: 0 <= k < 4 ==> cols[k] == "")
            && (DeptCell(row) != "" ==>
                  exists k :: 0 <= k < 4 && cols[k] == DeptCell(row) && forall j :: 0 <= j < k ==> cols[j] == "")
  {
    var cols := DeptColumns(row);
    if row.responsible != "" {
      assert cols[0] == DeptCell(row);
    } else if row.executor != "" {
      assert cols[1] == DeptCell(row);
    } else if row.section != "" {
      assert cols[2] == DeptCell(row);
    } else if row.administration != "" {
      assert cols[3] == DeptCell(row);
    }
  }

  /** The department names of a sheet, row by row. */
  function DeptCells(rows: seq<Row>): (names: seq<string>)
    ensures |names| == |rows|
    ensures forall i :: 0 <= i < |rows| ==> names[i] == DeptCell(rows[i])
  {
    seq(|rows|, i requires 0 <= i < |rows| => DeptCell(rows[i]))
  }

  /** The topic a row becomes once its department is resolved to `deptId`;
      `fallbackId` is the random id used when both id cells are missing. */
  function MapRow(row: Row, deptId: int, fallbackId: int, today: string): Topic
  {
    var closing := ParseDate(FirstPresent(row.closingDate, row.closingDateAr), today);
    Topic(
      if row.topicId != 0 then row.topicId else if row.topicIdAr != 0 then row.topicIdAr else fallbackId,
      FirstPresent(FirstPresent(row.title, row.titleAr), "بدون عنوان"),
      "مستورد",
      ParseDate(FirstPresent(row.assignmentDate, row.assignmentDateAr), today),
      "استيراد",
      deptId,
      Normal,
      ParseDate(FirstPresent(row.dueDate, row.dueDateAr), today),
      FirstPresent(FirstPresent(row.details, row.detailsAr), ""),
      MapStatus(FirstPresent(row.status, row.statusAr)),
      today,
      1,
      if closing != "" then Some(closing) else None)
  }

  /** Every imported topic has the fixed type, priority, sender and creator,
      today's stamp, a non-empty title ('بدون عنوان' when both title cells
      are missing), the resolved department, an id from the first present
      id cell or else the random one, and dates that are the cell or today. */
  lemma MapRowDefaults(row: Row, deptId: int, fallbackId: int, today: string)
    requires today != ""
    ensures var t := MapRow(row, deptId, fallbackId, today);
            && t.kind == "مستورد" && t.priority == Normal && t.sender == "استيراد" && t.createdBy == 1
            && t.lastUpdated == today && t.deptId == deptId
            && t.title != ""
            && (row.title == "" && row.titleAr == "" ==> t.title == "بدون عنوان")
            && (row.details == "" && row.detailsAr == "" ==> t.details == "")
            && (row.topicId == 0 && row.topicIdAr == 0 ==> t.id == fallbackId)
            && (row.topicId != 0 ==> t.id == row.topicId)
            && (row.topicId == 0 && row.topicIdAr != 0 ==> t.id == row.topicIdAr)
            && (row.title != "" ==> t.title == row.title)
            && (row.title == "" && row.titleAr != "" ==> t.title == row.titleAr)
            && t.status == MapStatus(FirstPresent(row.status, row.statusAr))
            && (row.assignmentDate == "" && row.assignmentDateAr == "" ==> t.assignmentDate == today)
            && t.assignmentDate != "" && t.dueDate != ""
            && (row.dueDate == "" && row.dueDateAr == "" ==> t.dueDate == today)
  {
  }

  /** Because a missing closing date becomes today, every imported topic has a
      closing date, whatever its status. */
  lemma ImportedTopicsHaveClosingDate(row: Row, deptId: int, fallbackId: int, today: string)
    requires today != ""
    ensures var t := MapRow(row, deptId, fallbackId, today);
            && t.closingDate.Some?
            && (row.closingDate == "" && row.closingDateAr == "" ==> t.closingDate == Some(today))
  {
  }

  /** So an imported row with no status and no closing date is a Pending
      topic that nonetheless carries a closing date. */
  lemma ImportedPendingTopicIsNotCoupled(fallbackId: int, today: string)
    requires today != ""
    ensures var row := Row(0, 0, "", "", "", "", "", "", "", "", "", "", "", "", "", "", "", "");
            var t := MapRow(row, 1, fallbackId, today);
            t.status == Pending && !ClosingDateCoupled(t)
  {
  }

  // ---------------------------------------------------------------------------
  // Resolving the department column through the store

  /** The audit log after resolving `names` one after the other, starting
      from department list `ds`. */
  function LogAfterResolveAll(logs: seq<LogEntry>, current: Option<User>, ds: seq<Department>, names: seq<string>, env: Env): seq<LogEntry>
  {
    if names == [] then logs
    else
      var prefix := names[..|names| - 1];
      LogAfterResolve(LogAfterResolveAll(logs, current, ds, prefix, env), current,
                      ResolveAll(ds, prefix).1, names[|names| - 1], env)
  }

  /** `rows.map(...)` once the department ids are known: row `i` becomes
      `MapRow(rows[i], ids[i], fallbackIds[i], today)`. */
  function MapAll(rows: seq<Row>, ids: seq<int>, fallbackIds: seq<int>, today: string): (r: seq<Topic>)
    requires |ids| == |rows| == |fallbackIds|
    ensures |r| == |rows|
  {
    if rows == [] then []
    else
      var n := |rows| - 1;
      MapAll(rows[..n], ids[..n], fallbackIds[..n], today) + [MapRow(rows[n], ids[n], fallbackIds[n], today)]
  }

  /** Each row maps to the topic at its own position. */
  lemma {:induction false} MapAllAt(rows: seq<Row>, ids: seq<int>, fallbackIds: seq<int>, today: string, i: int)
    requires |ids| == |rows| == |fallbackIds| && 0 <= i < |rows|
    ensures MapAll(rows, ids, fallbackIds, today)[i] == MapRow(rows[i], ids[i], fallbackIds[i], today)
  {
    var n := |rows| - 1;
    if i < n {
      MapAllAt(rows[..n], ids[..n], fallbackIds[..n], today, i);
      MapAllPrefixAt(rows, ids, fallbackIds, today, i);
    }
  }

  lemma MapAllPrefixAt(rows: seq<Row>, ids: seq<int>, fallbackIds: seq<int>, today: string, i: int)
    requires |ids| == |rows| == |fallbackIds| && 0 <= i < |rows| - 1
    ensures var n := |rows| - 1;
            && MapAll(rows, ids, fallbackIds, today)[i] == MapAll(rows[..n], ids[..n], fallbackIds[..n], today)[i]
            && rows[..n][i] == rows[i] && ids[..n][i] == ids[i] && fallbackIds[..n][i] == fallbackIds[i]
  {
  }

  lemma MapAllStep(rows: seq<Row>, ids: seq<int>, fallbackIds: seq<int>, today: string, i: int, id: int)
    requires 0 <= i < |rows| == |fallbackIds| && |ids| == i
    ensures MapAll(rows[..i + 1], ids + [id], fallbackIds[..i + 1], today) ==
            MapAll(rows[..i], ids, fallbackIds[..i], today) + [MapRow(rows[i], id, fallbackIds[i], today)]
  {
    assert rows[..i + 1][..i] == rows[..i] && fallbackIds[..i + 1][..i] == fallbackIds[..i];
    assert (ids + [id])[..i] == ids;
  }

  /** Resolving one more name extends the ids by that name's id. */
  lemma ResolveAllStep(ds: seq<Department>, names: seq<string>, i: int)
    requires 0 <= i < |names|
    ensures var prev := ResolveAll(ds, names[..i]);
            var last := ServiceRules.ResolveDepartment(prev.1, names[i]);
            ResolveAll(ds, names[..i + 1]) == (prev.0 + [last.id], last.departments)
  {
    assert names[..i + 1][..i] == names[..i];
  }

  lemma LogAfterResolveAllStep(logs: seq<LogEntry>, current: Option<User>, ds: seq<Department>, names: seq<string>, i: int, env: Env)
    requires 0 <= i < |names|
    ensures LogAfterResolveAll(logs, current, ds, names[..i + 1], env) ==
            LogAfterResolve(LogAfterResolveAll(logs, current, ds, names[..i], env), current,
                            ResolveAll(ds, names[..i]).1, names[i], env)
  {
    assert names[..i + 1][..i] == names[..i];
  }

  /** The row mapper: each row's department is resolved through the store in
      sheet order (so a name created by one row is found by the next), then
      the row is mapped. `fallbackIds` are the random ids, one per row. */
  method MapRows(store: Store, rows: seq<Row>, fallbackIds: seq<int>, env: Env) returns (topics: seq<Topic>)
    requires store.Valid()
    requires |fallbackIds| == |rows|
    requires forall i :: 0 <= i < |fallbackIds| ==> 0 <= fallbackIds[i] < 100000
    modifies store`departments, store`auditLogs
    ensures store.Valid()
    ensures var res := ResolveAll(old(store.departments), DeptCells(rows));
            && store.departments == res.1
            && topics == MapAll(rows, res.0, fallbackIds, env.today)
    ensures store.auditLogs == LogAfterResolveAll(old(store.auditLogs), store.currentUser, old(store.departments), DeptCells(rows), env)
  {
    var names := DeptCells(rows);
    ghost var ds0 := store.departments;
    ghost var logs0 := store.auditLogs;
    ghost var ids: seq<int> := [];
    topics := [];
    var i := 0;
    while i < |rows|
      invariant 0 <= i <= |rows|
      invariant store.Valid()
      invariant ResolveAll(ds0, names[..i]) == (ids, store.departments)
      invariant store.auditLogs == LogAfterResolveAll(logs0, store.currentUser, ds0, names[..i], env)
      invariant |ids| == i
      invariant topics == MapAll(rows[..i], ids, fallbackIds[..i], env.today)
    {
      ResolveAllStep(ds0, names, i);
      LogAfterResolveAllStep(logs0, store.currentUser, ds0, names, i, env);
      var deptId := store.ResolveDepartment(names[i], env);
      MapAllStep(rows, ids, fallbackIds, env.today, i, deptId);
      ids := ids + [deptId];
      topics := topics + [MapRow(rows[i], deptId, fallbackIds[i], env.today)];
      i := i + 1;
    }
    assert names[..i] == names && rows[..i] == rows && fallbackIds[..i] == fallbackIds;
  }

  /** `processExcel` after the sheet is read: an empty sheet is an error and
      changes nothing; otherwise the rows are mapped (growing the department
      list) and imported, and the result is `importData`'s new total. */
  method ImportRows(store: Store, rows: seq<Row>, fallbackIds: seq<int>, env: Env) returns (r: Result<int>)
    requires store.Valid()
    requires |fallbackIds| == |rows|
    requires forall i :: 0 <= i < |fallbackIds| ==> 0 <= fallbackIds[i] < 100000
    modifies store`departments, store`auditLogs, store`topics
    ensures store.Valid()
    ensures rows == [] ==> r == Err("الملف فارغ") && store.departments == old(store.departments) &&
                           store.topics == old(store.topics) && store.auditLogs == old(store.auditLogs)
    ensures rows != [] ==>
              var res := ResolveAll(old(store.departments), DeptCells(rows));
              var mapped := MapAll(rows, res.0, fallbackIds, env.today);
              && store.departments == res.1
              && store.topics == ImportTopics(old(store.topics), mapped)
              && r == Ok(|store.topics|)
              && store.auditLogs ==
                   Logged(LogAfterResolveAll(old(store.auditLogs), store.currentUser, old(store.departments), DeptCells(rows), env),
                          store.currentUser, ImportNote(|FreshTopics(old(store.topics), mapped)|), env)
  {
    if rows == [] {
      return Err("الملف فارغ");
    }
    var topics := MapRows(store, rows, fallbackIds, env);
    var total := store.ImportData(topics, env);
    return Ok(total);
  }

  lemma DeptCellsPair(r1: Row, r2: Row)
    ensures DeptCells([r1, r2]) == [DeptCell(r1), DeptCell(r2)]
  {
    var names := DeptCells([r1, r2]);
    assert names[0] == DeptCell(r1) && names[1] == DeptCell(r2);
  }

  /** Two rows naming two new, different departments get consecutive new
      department ids, the first row the lower one. */
  lemma NewDepartmentsInSheetOrder(ds: seq<Department>, r1: Row, r2: Row)
    requires DeptCell(r1) != "" && DeptCell(r2) != ""
    requires FindDepartmentByName(ds, DeptCell(r1)).None? && FindDepartmentByName(ds, DeptCell(r2)).None?
    requires ToLower(Trim(DeptCell(r1))) != ToLower(Trim(DeptCell(r2)))
    ensures ResolveAll(ds, DeptCells([r1, r2])).0 == [MaxDepartmentId(ds) + 1, MaxDepartmentId(ds) + 2]
  {
    DeptCellsPair(r1, r2);
    ResolveTwoNewNames(ds, DeptCell(r1), DeptCell(r2));
  }
}
