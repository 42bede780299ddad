/**
 * The rules of the data service (services/dataService.ts) as functions on
 * values: the audit-log cap, the status a followup moves its topic to, the
 * Closed/closingDate coupling, department find-or-create, the delete cascade,
 * bulk import, the derived overdue query and the dashboard counts. The store
 * in DataService applies them to its fields.
 */
module ServiceRules {
  import opened Types
  import opened Strings
  import opened Seqs

  // ---------------------------------------------------------------------------
  // Audit log

  /** The audit log keeps only this many entries. */
  const LogCap: nat := 500

  /** The entry `logAction` writes: the session user, or user 0 named 'System'
      when no one is logged in. */
  function MakeEntry(current: Option<User>, action: string, details: string, env: Env): LogEntry
  {
    LogEntry(env.logId, action, details,
             if current.Some? then current.value.id else 0,
             if current.Some? then current.value.name else "System",
             env.timestamp)
  }

  lemma SystemActorWithoutSession(action: string, details: string, env: Env)
    ensures MakeEntry(None, action, details, env).userId == 0
    ensures MakeEntry(None, action, details, env).userName == "System"
  {
  }

  /** `[entry, ...logs].slice(0, 500)`: newest first, never more than the cap. */
  function PrependLog(logs: seq<LogEntry>, e: LogEntry): (r: seq<LogEntry>)
    ensures |r| <= LogCap
    ensures |r| == if |logs| < LogCap then |logs| + 1 else LogCap
    ensures r[0] == e
    ensures forall i :: 0 < i < |r| ==> r[i] == logs[i - 1]
  {
    var all := [e] + logs;
    if |all| <= LogCap then all else all[..LogCap]
  }

  /** On a full log, the oldest entry is the one that goes. */
  lemma PrependLogEvictsOldest(logs: seq<LogEntry>, e: LogEntry)
    requires |logs| == LogCap
    ensures PrependLog(logs, e) == [e] + logs[..LogCap - 1]
  {
    var r := PrependLog(logs, e);
    assert |r| == |[e] + logs[..LogCap - 1]|;
    forall i | 0 <= i < |r|
      ensures r[i] == ([e] + logs[..LogCap - 1])[i]
    {
    }
  }

  // ---------------------------------------------------------------------------
  // Followups: the status a new followup gives its topic

  /** A result text counts as "done" when it contains any of these words. */
  predicate IsCompleted(resultText: string)
  {
    Contains(resultText, "انجز") || Contains(resultText, "منجز") ||
    Contains(resultText, "مكتمل") || Contains(resultText, "تم")
  }

  const GoodLevels: seq<string> := ["ممتاز", "جيد جدا", "جيد", "مقبول"]
  const WeakLevels: seq<string> := ["ضعيف", "سيئ"]

  /** The status `addFollowup` gives the followup's topic, whose status is
      `current`: the progress level picks a candidate, and a completion word in
      the result text overrides it with Closed. */
  function StatusAfterFollowup(current: TopicStatus, progressLevel: string, resultText: string): TopicStatus
  {
    var done := IsCompleted(resultText);
    var candidate :=
      if progressLevel in GoodLevels then (if done then Closed else Ongoing)
      else if progressLevel in WeakLevels then Pending
      else if progressLevel == "ملغي" then Cancelled
      else if progressLevel == "متوقف" || progressLevel == "توقف" then Stalled
      else current;
    if done then Closed else candidate
  }

  /** The progress-level vocabulary as a lookup table. */
  const ProgressTable: map<string, TopicStatus> :=
    map["ممتاز" := Ongoing, "جيد جدا" := Ongoing, "جيد" := Ongoing, "مقبول" := Ongoing,
        "ضعيف" := Pending, "سيئ" := Pending,
        "ملغي" := Cancelled,
        "متوقف" := Stalled, "توقف" := Stalled]

  /** The chain of tests in `addFollowup` is the table lookup, under the
      completion override; levels outside the table leave the status alone. */
  lemma StatusAfterFollowupByTable(current: TopicStatus, progressLevel: string, resultText: string)
    ensures StatusAfterFollowup(current, progressLevel, resultText) ==
            if IsCompleted(resultText) then Closed
            else if progressLevel in ProgressTable then ProgressTable[progressLevel]
            else current
  {
  }

  /** An excellent followup whose result says "تم" closes a pending topic. */
  lemma ExcellentAndDoneCloses()
    ensures StatusAfterFollowup(Pending, "ممتاز", "تم") == Closed
    ensures StatusAfterFollowup(Pending, "ممتاز", "تم الانتهاء") == Closed
  {
    assert Contains("تم الانتهاء", "تم") by {
      assert "تم" <= "تم الانتهاء";
    }
  }

  /** The completion test is a plain substring search: "لم يتم" ("not done")
      counts as done, which the design accepts. */
  lemma NotDoneCountsAsDone()
    ensures IsCompleted("لم يتم")
  {
    var s := "لم يتم";
    assert "تم" <= s[4..];
    assert Contains(s[4..], "تم");
    assert s[4..] == s[1..][1..][1..][1..];
    assert Contains(s[3..], "تم");
    assert Contains(s[2..], "تم");
    assert Contains(s[1..], "تم");
  }

  // ---------------------------------------------------------------------------
  // Topics: lookup, partial update, status with closing date

  /** `topics.find(t => t.id === id)`. */
  function FindTopic(ts: seq<Topic>, id: int): (r: Option<Topic>)
    ensures r.Some? ==> r.value in ts && r.value.id == id
    ensures r.None? ==> forall i :: 0 <= i < |ts| ==> ts[i].id != id
    ensures r.Some? ==> exists i :: 0 <= i < |ts| && ts[i] == r.value && forall j :: 0 <= j < i ==> ts[j].id != id
  {
    if ts == [] then None
    else if ts[0].id == id then Some(ts[0])
    else FindTopic(ts[1..], id)
  }

  /** A `Partial<Topic>`: each field is either given or left alone. A
      `closingDate` of `Some(None)` is the explicit `undefined` that clears the
      date. `lastUpdated` is missing because `updateTopic` overwrites it. */
  datatype TopicPatch = TopicPatch(
    id: Option<int>,
    title: Option<string>,
    kind: Option<string>,
    assignmentDate: Option<string>,
    sender: Option<string>,
    deptId: Option<int>,
    priority: Option<PriorityLevel>,
    dueDate: Option<string>,
    details: Option<string>,
    status: Option<TopicStatus>,
    createdBy: Option<int>,
    closingDate: Option<Option<string>>)

  /** `given ?? fallback`: a supplied field wins over the current one. */
  function OrElse<T>(given: Option<T>, fallback: T): T
  {
    if given.Some? then given.value else fallback
  }

  /** `{ ...t, ...patch, lastUpdated: today }`. */
  function ApplyPatch(t: Topic, p: TopicPatch, today: string): (r: Topic)
    ensures r.lastUpdated == today
    ensures r.status == (if p.status.Some? then p.status.value else t.status)
    ensures r.closingDate == (if p.closingDate.Some? then p.closingDate.value else t.closingDate)
  {
    Topic(OrElse(p.id, t.id), OrElse(p.title, t.title), OrElse(p.kind, t.kind),
          OrElse(p.assignmentDate, t.assignmentDate), OrElse(p.sender, t.sender),
          OrElse(p.deptId, t.deptId), OrElse(p.priority, t.priority), OrElse(p.dueDate, t.dueDate),
          OrElse(p.details, t.details), OrElse(p.status, t.status), today,
          OrElse(p.createdBy, t.createdBy), OrElse(p.closingDate, t.closingDate))
  }

  /** `updateTopic`'s rebuild: every record with the id is patched and
      re-stamped, every other record is left exactly as it was. */
  function UpdateTopics(ts: seq<Topic>, id: int, p: TopicPatch, today: string): (r: seq<Topic>)
    ensures |r| == |ts|
    ensures forall i :: 0 <= i < |ts| && ts[i].id != id ==> r[i] == ts[i]
    ensures forall i :: 0 <= i < |ts| && ts[i].id == id ==> r[i] == ApplyPatch(ts[i], p, today)
  {
    seq(|ts|, i requires 0 <= i < |ts| => if ts[i].id == id then ApplyPatch(ts[i], p, today) else ts[i])
  }

  /** The patch `updateTopicStatus` sends: the status, and a closing date that
      is today for Closed and cleared for anything else. */
  function StatusPatch(s: TopicStatus, today: string): TopicPatch
  {
    TopicPatch(None, None, None, None, None, None, None, None, None, Some(s), None,
               Some(if s == Closed then Some(today) else None))
  }

  /** A topic has a closing date exactly when it is Closed. */
  predicate ClosingDateCoupled(t: Topic)
  {
    t.status == Closed <==> t.closingDate.Some?
  }

  /** After a status change every record with the id carries the new status,
      today's stamp and a closing date that is today iff the status is Closed;
      nothing else about it or about other records changes. */
  lemma SetStatusCouplesClosingDate(ts: seq<Topic>, id: int, s: TopicStatus, today: string)
    ensures var r := UpdateTopics(ts, id, StatusPatch(s, today), today);
            && |r| == |ts|
            && (forall i :: 0 <= i < |ts| && ts[i].id != id ==> r[i] == ts[i])
            && (forall i :: 0 <= i < |ts| && ts[i].id == id ==>
                  && r[i] == ts[i].(status := s, lastUpdated := today,
                                    closingDate := if s == Closed then Some(today) else None)
                  && ClosingDateCoupled(r[i]))
  {
  }

  /** The topic list after `addFollowup` for followup `f`: if a topic has the
      followup's topic id, the first such topic's status and the followup
      pick the new status, which `updateTopicStatus` then writes to every
      topic with that id; otherwise the list is untouched. */
  function TopicsAfterFollowup(ts: seq<Topic>, f: Followup, today: string): (r: seq<Topic>)
    ensures |r| == |ts|
  {
    var parent := FindTopic(ts, f.topicId);
    if parent.Some? then
      UpdateTopics(ts, parent.value.id,
                   StatusPatch(StatusAfterFollowup(parent.value.status, f.progressLevel, f.resultText), today),
                   today)
    else ts
  }

  /** A followup for a missing topic changes no topic; otherwise exactly the
      topics with its topic id move to the status the followup picks, with the
      closing date coupled to it, and every other topic stays as it was. */
  lemma FollowupUpdatesParent(ts: seq<Topic>, f: Followup, today: string)
    ensures var r := TopicsAfterFollowup(ts, f, today);
            var parent := FindTopic(ts, f.topicId);
            && (parent.None? ==> r == ts)
            && (forall i :: 0 <= i < |ts| && ts[i].id != f.topicId ==> r[i] == ts[i])
            && (parent.Some? ==>
                  forall i :: 0 <= i < |ts| && ts[i].id == f.topicId ==>
                    && r[i].status == StatusAfterFollowup(parent.value.status, f.progressLevel, f.resultText)
                    && r[i].lastUpdated == today
                    && ClosingDateCoupled(r[i]))
  {
    var parent := FindTopic(ts, f.topicId);
    if parent.Some? {
      SetStatusCouplesClosingDate(ts, parent.value.id,
        StatusAfterFollowup(parent.value.status, f.progressLevel, f.resultText), today);
    }
  }

  // ---------------------------------------------------------------------------
  // Users and departments: lookup and partial update

  /** `users.find(u => u.id === id)`. */
  function FindUser(us: seq<User>, id: int): (r: Option<User>)
    ensures r.Some? ==> r.value in us && r.value.id == id
    ensures r.None? ==> forall i :: 0 <= i < |us| ==> us[i].id != id
    ensures r.Some? ==> exists i :: 0 <= i < |us| && us[i] == r.value && forall j :: 0 <= j < i ==> us[j].id != id
  {
    if us == [] then None
    else if us[0].id == id then Some(us[0])
    else FindUser(us[1..], id)
  }

  /** `users.filter(u => u.id !== id)`. */
  function WithoutUser(us: seq<User>, id: int): seq<User>
  {
    Filter((u: User) => u.id != id, us)
  }

  /** A `Partial<Department>`; a `telegramChatId` of `Some(None)` clears it. */
  datatype DepartmentPatch = DepartmentPatch(
    id: Option<int>,
    name: Option<string>,
    email: Option<string>,
    telegramChatId: Option<Option<string>>)

  /** `{ ...d, ...patch }`. */
  function PatchDepartment(d: Department, p: DepartmentPatch): Department
  {
    Department(OrElse(p.id, d.id), OrElse(p.name, d.name), OrElse(p.email, d.email),
               OrElse(p.telegramChatId, d.telegramChatId))
  }

  /** `updateDepartment`'s rebuild: departments with the id are patched, the
      others are left as they were. */
  function UpdateDepartments(ds: seq<Department>, id: int, p: DepartmentPatch): (r: seq<Department>)
    ensures |r| == |ds|
    ensures forall i :: 0 <= i < |ds| && ds[i].id != id ==> r[i] == ds[i]
    ensures forall i :: 0 <= i < |ds| && ds[i].id == id ==> r[i] == PatchDepartment(ds[i], p)
  {
    seq(|ds|, i requires 0 <= i < |ds| => if ds[i].id == id then PatchDepartment(ds[i], p) else ds[i])
  }

  // ---------------------------------------------------------------------------
  // Delete cascade

  /** `topics.filter(t => t.id !== id)`. */
  function WithoutTopic(ts: seq<Topic>, id: int): seq<Topic>
  {
    Filter((t: Topic) => t.id != id, ts)
  }

  /** `followups.filter(f => f.topicId !== id)`. */
  function WithoutFollowupsOf(fs: seq<Followup>, id: int): seq<Followup>
  {
    Filter((f: Followup) => f.topicId != id, fs)
  }

  /** Deleting a topic removes every topic with its id and every followup that
      points at it, and keeps every other topic and followup in its order. */
  lemma DeleteCascade(ts: seq<Topic>, fs: seq<Followup>, id: int)
    ensures forall t :: t in WithoutTopic(ts, id) <==> t in ts && t.id != id
    ensures forall f :: f in WithoutFollowupsOf(fs, id) <==> f in fs && f.topicId != id
    ensures IsSubsequence(WithoutTopic(ts, id), ts)
    ensures IsSubsequence(WithoutFollowupsOf(fs, id), fs)
    ensures forall t :: multiset(WithoutTopic(ts, id))[t] == if t.id != id then multiset(ts)[t] else 0
    ensures forall f :: multiset(WithoutFollowupsOf(fs, id))[f] == if f.topicId != id then multiset(fs)[f] else 0
  {
    forall t {
      FilterMultiset((t: Topic) => t.id != id, ts, t);
    }
    forall f {
      FilterMultiset((f: Followup) => f.topicId != id, fs, f);
    }
    FilterIsSubsequence((t: Topic) => t.id != id, ts);
    FilterMembers((t: Topic) => t.id != id, ts);
    FilterIsSubsequence((f: Followup) => f.topicId != id, fs);
    FilterMembers((f: Followup) => f.topicId != id, fs);
  }

  // ---------------------------------------------------------------------------
  // Derived overdue state and the dashboard counts

  /** The service's overdue rule: stored as Overdue, or past due and not
      Closed, Cancelled, Phased or Stalled. Dates compare as strings. */
  predicate IsOverdue(t: Topic, today: string)
  {
    t.status == Overdue ||
    (Less(t.dueDate, today) && t.status != Closed && t.status != Cancelled &&
     t.status != Phased && t.status != Stalled)
  }

  /** `getOverdueTopics`. */
  function OverdueTopics(ts: seq<Topic>, today: string): seq<Topic>
  {
    Filter((t: Topic) => IsOverdue(t, today), ts)
  }

  /** The overdue list is exactly the overdue topics, in store order, and never
      a Closed, Cancelled, Phased or Stalled one, however late. */
  lemma OverdueTopicsExactly(ts: seq<Topic>, today: string)
    ensures forall t :: t in OverdueTopics(ts, today) <==> t in ts && IsOverdue(t, today)
    ensures forall t :: t in OverdueTopics(ts, today) ==> t.status !in {Closed, Cancelled, Phased, Stalled}
    ensures IsSubsequence(OverdueTopics(ts, today), ts)
    ensures forall t :: multiset(OverdueTopics(ts, today))[t] == if IsOverdue(t, today) then multiset(ts)[t] else 0
  {
    forall t {
      FilterMultiset((t: Topic) => IsOverdue(t, today), ts, t);
    }
    FilterIsSubsequence((t: Topic) => IsOverdue(t, today), ts);
    FilterMembers((t: Topic) => IsOverdue(t, today), ts);
  }

  predicate IsClosed(t: Topic)
  {
    t.status == Closed
  }

  /** What `getStats` calls pending: Ongoing or Pending. */
  predicate IsInProgress(t: Topic)
  {
    t.status == Ongoing || t.status == Pending
  }

  predicate IsClosedOrInProgress(t: Topic)
  {
    IsClosed(t) || IsInProgress(t)
  }

  datatype Stats = Stats(total: nat, completed: nat, pending: nat, overdue: nat)

  /** `getStats`: completed counts Closed, pending counts Ongoing or Pending,
      overdue is the length of the overdue list. Closed topics are neither
      pending nor overdue, so neither sum exceeds the total. */
  function ComputeStats(ts: seq<Topic>, today: string): (r: Stats)
    ensures r.total == |ts|
    ensures r.overdue == |OverdueTopics(ts, today)|
    ensures r.completed == Count(IsClosed, ts) && r.pending == Count(IsInProgress, ts)
    ensures r.completed + r.pending <= r.total
    ensures r.completed + r.overdue <= r.total
  {
    CountDisjointUnion(IsClosed, IsInProgress, IsClosedOrInProgress, ts);
    var late := (t: Topic) => IsOverdue(t, today);
    var closedOrLate := (t: Topic) => IsClosed(t) || IsOverdue(t, today);
    CountDisjointUnion(IsClosed, late, closedOrLate, ts);
    Stats(|ts|, Count(IsClosed, ts), Count(IsInProgress, ts), |OverdueTopics(ts, today)|)
  }

  // ---------------------------------------------------------------------------
  // Departments: find-or-create by name

  /** The match `resolveDepartment` uses: equal after trimming and lower-casing. */
  predicate SameDepartmentName(d: Department, name: string)
  {
    ToLower(Trim(d.name)) == ToLower(Trim(name))
  }

  /** Index `i` holds the first department whose name matches. */
  predicate FirstNameMatchAt(ds: seq<Department>, name: string, i: int)
  {
    0 <= i < |ds| && SameDepartmentName(ds[i], name) &&
    forall j :: 0 <= j < i ==> !SameDepartmentName(ds[j], name)
  }

  /** The index of the first department whose name matches, or -1. */
  function FirstNameMatch(ds: seq<Department>, name: string): (i: int)
    ensures -1 <= i < |ds|
    ensures i == -1 ==> forall j :: 0 <= j < |ds| ==> !SameDepartmentName(ds[j], name)
    ensures i != -1 ==> FirstNameMatchAt(ds, name, i)
  {
    if ds == [] then -1
    else if SameDepartmentName(ds[0], name) then 0
    else
      var j := FirstNameMatch(ds[1..], name);
      if j == -1 then -1 else j + 1
  }

  /** `departments.find(...)` by name: the first department whose name
      matches, if any. */
  function FindDepartmentByName(ds: seq<Department>, name: string): (r: Option<Department>)
    ensures r.None? <==> forall i :: 0 <= i < |ds| ==> !SameDepartmentName(ds[i], name)
    ensures r.Some? ==> exists i :: FirstNameMatchAt(ds, name, i) && ds[i] == r.value
  {
    var i := FirstNameMatch(ds, name);
    if i == -1 then None else Some(ds[i])
  }

  lemma {:induction false} FirstNameMatchAppend(ds: seq<Department>, d: Department, name: string)
    requires FirstNameMatch(ds, name) == -1
    ensures FirstNameMatch(ds + [d], name) == if SameDepartmentName(d, name) then |ds| else -1
  {
    if ds == [] {
      assert ds + [d] == [d];
    } else {
      assert (ds + [d])[1..] == ds[1..] + [d];
      FirstNameMatchAppend(ds[1..], d, name);
    }
  }

  /** After a lookup that found nothing, appending `d` makes the lookup find
      `d` exactly when its name matches. */
  lemma FindDepartmentByNameAppend(ds: seq<Department>, d: Department, name: string)
    requires FindDepartmentByName(ds, name).None?
    ensures FindDepartmentByName(ds + [d], name) ==
            if SameDepartmentName(d, name) then Some(d) else None
  {
    FirstNameMatchAppend(ds, d, name);
    assert (ds + [d])[|ds|] == d;
  }

  /** `Math.max(...departments.map(d => d.id), 0)`. */
  function MaxDepartmentId(ds: seq<Department>): (m: int)
    ensures m >= 0
    ensures forall i :: 0 <= i < |ds| ==> ds[i].id <= m
    ensures m == 0 || exists i :: 0 <= i < |ds| && ds[i].id == m
  {
    if ds == [] then 0
    else
      var rest := MaxDepartmentId(ds[1..]);
      if ds[0].id > rest then ds[0].id else rest
  }

  lemma {:induction false} MaxDepartmentIdAppend(ds: seq<Department>, d: Department)
    ensures MaxDepartmentId(ds + [d]) == if d.id > MaxDepartmentId(ds) then d.id else MaxDepartmentId(ds)
  {
    if ds != [] {
      assert (ds + [d])[1..] == ds[1..] + [d];
      MaxDepartmentIdAppend(ds[1..], d);
    } else {
      assert ds + [d] == [d];
    }
  }

  /** The id `resolveDepartment` returns and the department list after it. */
  datatype Resolution = Resolution(id: int, departments: seq<Department>)

  /** The department a fresh name creates: the next id and the trimmed name. */
  function NewDepartment(ds: seq<Department>, name: string): Department
  {
    Department(MaxDepartmentId(ds) + 1, Trim(name), "", None)
  }

  /** `resolveDepartment(name)`: 1 for an empty name; otherwise the first
      department whose name matches, or else a new department appended with
      the next id and the trimmed name. */
  function ResolveDepartment(ds: seq<Department>, name: string): Resolution
  {
    if name == "" then Resolution(1, ds)
    else
      var found := FindDepartmentByName(ds, name);
      if found.Some? then Resolution(found.value.id, ds)
      else
        var d := NewDepartment(ds, name);
        Resolution(d.id, ds + [d])
  }

  /** Resolution never fails and never duplicates: an empty name gives 1 and
      changes nothing; otherwise the id returned belongs to a department whose
      name matches, the old list is kept as a prefix, and at most one
      department is added, only when none matched, with an id above every
      existing id and the trimmed name. When some department matches, the
      first one's id is returned and the list is unchanged. */
  lemma ResolveDepartmentFindsOrCreates(ds: seq<Department>, name: string)
    ensures var r := ResolveDepartment(ds, name);
            && (name == "" ==> r == Resolution(1, ds))
            && ds <= r.departments && |r.departments| <= |ds| + 1
            && (name != "" ==>
                  exists i :: 0 <= i < |r.departments| && r.departments[i].id == r.id &&
                              SameDepartmentName(r.departments[i], name))
            && (|r.departments| == |ds| + 1 ==>
                  && (forall i :: 0 <= i < |ds| ==> ds[i].id < r.id)
                  && (forall i :: 0 <= i < |ds| ==> !SameDepartmentName(ds[i], name))
                  && r.departments[|ds|].name == Trim(name))
            && (name != "" ==> forall i :: FirstNameMatchAt(ds, name, i) ==> r == Resolution(ds[i].id, ds))
  {
    if name != "" && FindDepartmentByName(ds, name).None? {
      var d := NewDepartment(ds, name);
      TrimIdempotent(name);
      assert SameDepartmentName(d, name);
      assert (ds + [d])[|ds|] == d;
    }
  }

  /** A second resolution of the same name finds what the first one returned
      and creates nothing. */
  lemma ResolveDepartmentTwice(ds: seq<Department>, name: string)
    ensures var r := ResolveDepartment(ds, name);
            ResolveDepartment(r.departments, name) == r
  {
    if name != "" && FindDepartmentByName(ds, name).None? {
      var d := NewDepartment(ds, name);
      TrimIdempotent(name);
      FindDepartmentByNameAppend(ds, d, name);
    }
  }

  /** Names differing only in surrounding white space resolve alike. */
  lemma ResolveDepartmentIgnoresPadding(ds: seq<Department>, a: string, b: string)
    requires a != "" && b != "" && Trim(a) == Trim(b)
    ensures ResolveDepartment(ds, a) == ResolveDepartment(ds, b)
  {
    FindDepartmentByNameEquivalent(ds, a, b);
  }

  lemma {:induction false} FirstNameMatchEquivalent(ds: seq<Department>, a: string, b: string)
    requires ToLower(Trim(a)) == ToLower(Trim(b))
    ensures FirstNameMatch(ds, a) == FirstNameMatch(ds, b)
  {
    if ds != [] {
      FirstNameMatchEquivalent(ds[1..], a, b);
    }
  }

  /** Names with the same trimmed, lower-cased form find the same department. */
  lemma FindDepartmentByNameEquivalent(ds: seq<Department>, a: string, b: string)
    requires ToLower(Trim(a)) == ToLower(Trim(b))
    ensures FindDepartmentByName(ds, a) == FindDepartmentByName(ds, b)
  {
    FirstNameMatchEquivalent(ds, a, b);
  }

  /** The ids a batch of names resolves to, in order, and the final list: each
      name is resolved against the list the previous ones left behind. */
  function ResolveAll(ds: seq<Department>, names: seq<string>): (r: (seq<int>, seq<Department>))
    ensures |r.0| == |names|
  {
    if names == [] then ([], ds)
    else
      var prev := ResolveAll(ds, names[..|names| - 1]);
      var last := ResolveDepartment(prev.1, names[|names| - 1]);
      (prev.0 + [last.id], last.departments)
  }

  /** A name no department matches creates the next department. */
  lemma ResolveFreshName(ds: seq<Department>, name: string)
    requires name != "" && FindDepartmentByName(ds, name).None?
    ensures ResolveDepartment(ds, name) ==
            Resolution(MaxDepartmentId(ds) + 1, ds + [NewDepartment(ds, name)])
  {
  }

  /** Resolving two names is resolving the first, then the second against
      the list the first left behind. */
  lemma ResolveAllPair(ds: seq<Department>, a: string, b: string)
    ensures var ra := ResolveDepartment(ds, a);
            var rb := ResolveDepartment(ra.departments, b);
            ResolveAll(ds, [a, b]) == ([ra.id, rb.id], rb.departments)
  {
    var ra := ResolveDepartment(ds, a);
    var rb := ResolveDepartment(ra.departments, b);
    var names := [a];
    assert names[..|names| - 1] == [];
    assert names[|names| - 1] == a;
    var prev := ResolveAll(ds, names[..|names| - 1]);
    assert prev == ([], ds);
    assert ResolveAll(ds, names).1 == ra.departments;
    assert ResolveAll(ds, names).0 == [ra.id];
    var both := [a, b];
    assert both[..|both| - 1] == names && both[|both| - 1] == b;
    assert ResolveAll(ds, both).0 == [ra.id] + [rb.id] == [ra.id, rb.id];
    assert ResolveAll(ds, both).1 == rb.departments;
  }

  /** Two new, different names in one batch get consecutive fresh ids. */
  lemma ResolveTwoNewNames(ds: seq<Department>, a: string, b: string)
    requires a != "" && b != ""
    requires FindDepartmentByName(ds, a).None? && FindDepartmentByName(ds, b).None?
    requires ToLower(Trim(a)) != ToLower(Trim(b))
    ensures ResolveAll(ds, [a, b]).0 == [MaxDepartmentId(ds) + 1, MaxDepartmentId(ds) + 2]
  {
    var da := NewDepartment(ds, a);
    ResolveFreshName(ds, a);
    StillFreshAfterNew(ds, a, b);
    ResolveFreshName(ds + [da], b);
    ResolveAllPair(ds, a, b);
  }

  /** After a fresh name `a` creates its department, a different fresh name
      `b` is still fresh, and the highest id is the new one. */
  lemma StillFreshAfterNew(ds: seq<Department>, a: string, b: string)
    requires FindDepartmentByName(ds, b).None?
    requires ToLower(Trim(a)) != ToLower(Trim(b))
    ensures FindDepartmentByName(ds + [NewDepartment(ds, a)], b).None?
    ensures MaxDepartmentId(ds + [NewDepartment(ds, a)]) == MaxDepartmentId(ds) + 1
  {
    var da := NewDepartment(ds, a);
    TrimIdempotent(a);
    assert !SameDepartmentName(da, b);
    FindDepartmentByNameAppend(ds, da, b);
    MaxDepartmentIdAppend(ds, da);
  }

  // ---------------------------------------------------------------------------
  // Bulk import

  function TopicIds(ts: seq<Topic>): set<int>
  {
    set t | t in ts :: t.id
  }

  /** The incoming topics whose id the store does not hold yet. */
  function FreshTopics(ts: seq<Topic>, incoming: seq<Topic>): seq<Topic>
  {
    var existing := TopicIds(ts);
    Filter((t: Topic) => t.id !in existing, incoming)
  }

  /** `importData`'s new topic list: the fresh incoming topics, in input order,
      ahead of the old ones. */
  function ImportTopics(ts: seq<Topic>, incoming: seq<Topic>): (r: seq<Topic>)
    ensures |r| == |FreshTopics(ts, incoming)| + |ts|
    ensures r[|FreshTopics(ts, incoming)|..] == ts
  {
    FreshTopics(ts, incoming) + ts
  }

  /** The topics prepended are exactly the incoming ones with an unknown id,
      in input order; nothing is compared by content. */
  lemma ImportTopicsAddsFresh(ts: seq<Topic>, incoming: seq<Topic>)
    ensures var added := FreshTopics(ts, incoming);
            && ImportTopics(ts, incoming)[..|added|] == added
            && IsSubsequence(added, incoming)
            && (forall t :: t in added <==> t in incoming && (forall u :: u in ts ==> u.id != t.id))
            && (forall t :: multiset(added)[t] == if t.id in TopicIds(ts) then 0 else multiset(incoming)[t])
  {
    var existing := TopicIds(ts);
    forall t {
      FilterMultiset((t: Topic) => t.id !in existing, incoming, t);
    }
    FilterIsSubsequence((t: Topic) => t.id !in existing, incoming);
    FilterMembers((t: Topic) => t.id !in existing, incoming);
    forall t | t in incoming && (forall u :: u in ts ==> u.id != t.id)
      ensures t.id !in existing
    {
    }
  }

  /** Ids are checked only against the store, so a batch that repeats a new id
      brings in every copy. */
  lemma ImportKeepsBatchDuplicates(t: Topic)
    ensures ImportTopics([], [t, t]) == [t, t]
  {
    var p := (u: Topic) => u.id !in TopicIds([]);
    assert TopicIds([]) == {};
    FilterCons(p, t, []);
    FilterCons(p, t, [t]);
    assert [t] + [t] == [t, t];
  }

  // ---------------------------------------------------------------------------
  // Backup and restore

  /** What `exportFullSystem` returns. */
  datatype Backup = Backup(
    topics: seq<Topic>,
    followups: seq<Followup>,
    departments: seq<Department>,
    users: seq<User>,
    auditLogs: seq<LogEntry>,
    telegramToken: string,
    timestamp: string,
    version: string)

  /** A parsed backup file as `importFullSystem` sees it. A collection is
      `None` when the key is missing, null or falsy, or (for topics and users)
      not an array; a token of "" is a missing one. */
  datatype BackupBlob = BackupBlob(
    topics: Option<seq<Topic>>,
    followups: Option<seq<Followup>>,
    departments: Option<seq<Department>>,
    users: Option<seq<User>>,
    auditLogs: Option<seq<LogEntry>>,
    telegramToken: string)

  /** The file an export turns into once written out and read back: every
      collection and the token survive, and the restore accepts it. */
  function BlobOf(b: Backup): (blob: BackupBlob)
    ensures AcceptsBlob(blob)
    ensures blob.topics == Some(b.topics) && blob.users == Some(b.users)
    ensures blob.followups == Some(b.followups) && blob.departments == Some(b.departments)
    ensures blob.auditLogs == Some(b.auditLogs) && blob.telegramToken == b.telegramToken
  {
    BackupBlob(Some(b.topics), Some(b.followups), Some(b.departments), Some(b.users),
               Some(b.auditLogs), b.telegramToken)
  }

  /** The only validation a restore does: topics and users are arrays. */
  predicate AcceptsBlob(blob: BackupBlob)
  {
    blob.topics.Some? && blob.users.Some?
  }

  // ---------------------------------------------------------------------------
  // Factory data

  const SeedDepartments: seq<Department> := [
    Department(1, "الإدارة العامة", "admin@company.com", Some("")),
    Department(2, "قسم التطوير", "dev@company.com", Some("")),
    Department(3, "قسم الدعم الفني", "support@company.com", Some("")),
    Department(4, "الموارد البشرية", "hr@company.com", Some(""))
  ]

  const DefaultUsers: seq<User> := [
    User(1, "مدير النظام", "admin@company.com", Admin, Some(1), true)
  ]

  /** The four seed departments have ids 1 to 4, so the next department a
      fresh name creates is number 5. */
  lemma SeedNextId()
    ensures MaxDepartmentId(SeedDepartments) == 4
  {
    var s := SeedDepartments;
    assert s[1..][1..][1..][1..] == [];
  }
}
