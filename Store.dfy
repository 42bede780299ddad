/**
 * The data service (services/dataService.ts) as a store object: the module's
 * collections and session are fields, and every exported operation is a
 * method that reassigns them. Each method's contract states the new value of
 * every field it may change in terms of the rules in ServiceRules; the frame
 * says which fields those are. Persistence to local storage is not modelled:
 * the fields are the whole state.
 */
module DataService {
  import opened Types
  import opened Strings
  import opened Seqs
  import opened ServiceRules

  /** The action and the details an operation writes to the audit log. */
  datatype Note = Note(action: string, details: string)

  /** The log after `logAction` records note `n` on behalf of `current`. */
  function Logged(logs: seq<LogEntry>, current: Option<User>, n: Note, env: Env): seq<LogEntry>
  {
    PrependLog(logs, MakeEntry(current, n.action, n.details, env))
  }

  function LoginNote(u: User): Note { Note("تسجيل دخول", "المستخدم: " + u.name) }
  function LogoutNote(u: User): Note { Note("تسجيل خروج", "المستخدم: " + u.name) }
  const TokenNote: Note := Note("تحديث إعدادات", "تم تحديث توكن تيليجرام")
  function DepartmentUpdateNote(id: int): Note { Note("تحديث إدارة", "تحديث بيانات الإدارة رقم " + IntToString(id)) }
  function DepartmentAddNote(name: string): Note { Note("إضافة إدارة", "إضافة إدارة جديدة: " + name) }
  function TopicAddNote(t: Topic): Note { Note("إضافة مهمة", "تم إضافة المهمة: " + t.title) }

  /** `تعديل المهمة #${id} - ${oldTopic?.title || ''}`. */
  function TopicUpdateNote(id: int, was: Option<Topic>): Note
  {
    Note("تحديث مهمة", "تعديل المهمة #" + IntToString(id) + " - " + (if was.Some? then was.value.title else ""))
  }

  /** `تم حذف المهمة: ${t?.title || id}`: an empty title falls back to the id. */
  function TopicDeleteNote(id: int, was: Option<Topic>): Note
  {
    Note("حذف مهمة", "تم حذف المهمة: " + (if was.Some? && was.value.title != "" then was.value.title else IntToString(id)))
  }

  function StatusNote(id: int, s: TopicStatus): Note
  {
    Note("تغيير حالة", "تغيير حالة المهمة #" + IntToString(id) + " إلى " + StatusText(s))
  }

  function FollowupNote(topicId: int): Note { Note("إضافة متابعة", "متابعة للمهمة #" + IntToString(topicId)) }

  function UserDeleteNote(id: int, was: Option<User>): Note
  {
    Note("حذف مستخدم", "تم حذف المستخدم: " + (if was.Some? && was.value.name != "" then was.value.name else IntToString(id)))
  }

  const BackupNote: Note := Note("نسخ احتياطي", "تم تصدير نسخة احتياطية للنظام")
  const RestoreNote: Note := Note("استعادة نظام", "تم استعادة النظام من نسخة احتياطية")
  function ImportNote(n: nat): Note { Note("استيراد بيانات", "تم استيراد " + IntToString(n) + " مهمة من ملف خارجي") }
  const ResetNote: Note := Note("إعادة ضبط", "تم إعادة ضبط النظام للمصنع")

  /** `resolveDepartment` adds a department (and logs it) exactly when the
      name is non-empty and matches none. */
  predicate Creates(ds: seq<Department>, name: string)
  {
    name != "" && FindDepartmentByName(ds, name).None?
  }

  /** The log after `resolveDepartment(name)` on department list `ds`. */
  function LogAfterResolve(logs: seq<LogEntry>, current: Option<User>, ds: seq<Department>, name: string, env: Env): seq<LogEntry>
  {
    if Creates(ds, name) then Logged(logs, current, DepartmentAddNote(Trim(name)), env) else logs
  }

  /** The log after a status change of topic `id` on topic list `ts`: the
      update entry, then the status entry. */
  function LogAfterStatus(logs: seq<LogEntry>, current: Option<User>, ts: seq<Topic>, id: int, s: TopicStatus, env: Env): seq<LogEntry>
  {
    Logged(Logged(logs, current, TopicUpdateNote(id, FindTopic(ts, id)), env), current, StatusNote(id, s), env)
  }

  class Store {
    var topics: seq<Topic>
    var followups: seq<Followup>
    var departments: seq<Department>
    var users: seq<User>
    var auditLogs: seq<LogEntry>
    /** The session; `None` is the source's `null`. */
    var currentUser: Option<User>
    /** The stored Telegram bot token; "" when none is stored. */
    var telegramToken: string

    /** The audit log never exceeds its cap. */
    ghost predicate Valid()
      reads this
    {
      |auditLogs| <= LogCap
    }

    /** The state on first run: no topics, followups or log, the four seed
        departments, the default administrator and no session. */
    constructor ()
      ensures Valid()
      ensures topics == [] && followups == [] && auditLogs == []
      ensures departments == SeedDepartments && users == DefaultUsers
      ensures currentUser == None && telegramToken == ""
    {
      topics := [];
      followups := [];
      departments := SeedDepartments;
      users := DefaultUsers;
      auditLogs := [];
      currentUser := None;
      telegramToken := "";
    }

    /** `logAction`: the new entry goes first and the log is cut to its cap. */
    method LogAction(action: string, details: string, env: Env)
      modifies this`auditLogs
      ensures auditLogs == PrependLog(old(auditLogs), MakeEntry(currentUser, action, details, env))
      ensures Valid()
    {
      auditLogs := PrependLog(auditLogs, MakeEntry(currentUser, action, details, env));
    }

    /** `login`: a known id opens a session for the first user with that id
        and logs it under that user; an unknown id changes nothing. */
    method Login(userId: int, env: Env) returns (ok: bool)
      requires Valid()
      modifies this`currentUser, this`auditLogs
      ensures Valid()
      ensures ok == FindUser(users, userId).Some?
      ensures ok ==> currentUser == FindUser(users, userId) &&
                     auditLogs == Logged(old(auditLogs), currentUser, LoginNote(currentUser.value), env)
      ensures !ok ==> currentUser == old(currentUser) && auditLogs == old(auditLogs)
    {
      var user := FindUser(users, userId);
      if user.Some? {
        currentUser := user;
        LogAction(LoginNote(user.value).action, LoginNote(user.value).details, env);
        return true;
      }
      return false;
    }

    /** `logout`: logs the departure of the session user, if any, and ends
        the session. */
    method Logout(env: Env)
      requires Valid()
      modifies this`currentUser, this`auditLogs
      ensures Valid()
      ensures currentUser == None
      ensures auditLogs == if old(currentUser).Some?
                           then Logged(old(auditLogs), old(currentUser), LogoutNote(old(currentUser).value), env)
                           else old(auditLogs)
    {
      if currentUser.Some? {
        LogAction(LogoutNote(currentUser.value).action, LogoutNote(currentUser.value).details, env);
      }
      currentUser := None;
    }

    /** `getCurrentUser`: the session user, else the first user; `None` is
        the `undefined` the source returns when both are missing. */
    method GetCurrentUser() returns (u: Option<User>)
      ensures currentUser.Some? ==> u == currentUser
      ensures currentUser.None? && users != [] ==> u == Some(users[0])
      ensures u.None? <==> currentUser.None? && users == []
    {
      if currentUser.Some? {
        u := currentUser;
      } else if users != [] {
        u := Some(users[0]);
      } else {
        u := None;
      }
    }

    /** `setTelegramToken`: stores the token and logs the change. */
    method SetTelegramToken(token: string, env: Env)
      modifies this`telegramToken, this`auditLogs
      ensures Valid()
      ensures telegramToken == token
      ensures auditLogs == Logged(old(auditLogs), currentUser, TokenNote, env)
    {
      telegramToken := token;
      LogAction(TokenNote.action, TokenNote.details, env);
    }

    /** `updateDepartment`: patches the departments with the id and logs. */
    method UpdateDepartment(id: int, p: DepartmentPatch, env: Env)
      modifies this`departments, this`auditLogs
      ensures Valid()
      ensures departments == UpdateDepartments(old(departments), id, p)
      ensures auditLogs == Logged(old(auditLogs), currentUser, DepartmentUpdateNote(id), env)
    {
      departments := UpdateDepartments(departments, id, p);
      LogAction(DepartmentUpdateNote(id).action, DepartmentUpdateNote(id).details, env);
    }

    /** `resolveDepartment`: the id of the department the name finds or
        creates; a created department is appended and logged. */
    method ResolveDepartment(name: string, env: Env) returns (id: int)
      requires Valid()
      modifies this`departments, this`auditLogs
      ensures Valid()
      ensures id == ServiceRules.ResolveDepartment(old(departments), name).id
      ensures departments == ServiceRules.ResolveDepartment(old(departments), name).departments
      ensures auditLogs == LogAfterResolve(old(auditLogs), currentUser, old(departments), name, env)
    {
      var r := ServiceRules.ResolveDepartment(departments, name);
      if Creates(departments, name) {
        departments := r.departments;
        LogAction(DepartmentAddNote(Trim(name)).action, DepartmentAddNote(Trim(name)).details, env);
      }
      id := r.id;
    }

    /** `addTopic`: the draft gets the random id and today's stamp and goes
        to the front of the list. */
    method AddTopic(draft: Topic, id: int, env: Env) returns (t: Topic)
      requires 1000 <= id < 101000
      modifies this`topics, this`auditLogs
      ensures Valid()
      ensures t == draft.(id := id, lastUpdated := env.today)
      ensures topics == [t] + old(topics)
      ensures auditLogs == Logged(old(auditLogs), currentUser, TopicAddNote(t), env)
    {
      t := draft.(id := id, lastUpdated := env.today);
      topics := [t] + topics;
      LogAction(TopicAddNote(t).action, TopicAddNote(t).details, env);
    }

    /** `updateTopic`: patches and re-stamps every topic with the id, leaves
        the others alone, and logs with the title the topic had before. */
    method UpdateTopic(id: int, p: TopicPatch, env: Env)
      modifies this`topics, this`auditLogs
      ensures Valid()
      ensures topics == UpdateTopics(old(topics), id, p, env.today)
      ensures auditLogs == Logged(old(auditLogs), currentUser, TopicUpdateNote(id, FindTopic(old(topics), id)), env)
    {
      var was := FindTopic(topics, id);
      topics := UpdateTopics(topics, id, p, env.today);
      LogAction(TopicUpdateNote(id, was).action, TopicUpdateNote(id, was).details, env);
    }

    /** `deleteTopic`: removes the topic and, in cascade, its followups. */
    method DeleteTopic(id: int, env: Env)
      modifies this`topics, this`followups, this`auditLogs
      ensures Valid()
      ensures topics == WithoutTopic(old(topics), id)
      ensures followups == WithoutFollowupsOf(old(followups), id)
      ensures auditLogs == Logged(old(auditLogs), currentUser, TopicDeleteNote(id, FindTopic(old(topics), id)), env)
    {
      var was := FindTopic(topics, id);
      topics := WithoutTopic(topics, id);
      followups := WithoutFollowupsOf(followups, id);
      LogAction(TopicDeleteNote(id, was).action, TopicDeleteNote(id, was).details, env);
    }

    /** `updateTopicStatus`: an `updateTopic` with the status and the coupled
        closing date, then a second log entry for the status change. */
    method UpdateTopicStatus(id: int, s: TopicStatus, env: Env)
      modifies this`topics, this`auditLogs
      ensures Valid()
      ensures topics == UpdateTopics(old(topics), id, StatusPatch(s, env.today), env.today)
      ensures auditLogs == LogAfterStatus(old(auditLogs), currentUser, old(topics), id, s, env)
    {
      UpdateTopic(id, StatusPatch(s, env.today), env);
      LogAction(StatusNote(id, s).action, StatusNote(id, s).details, env);
    }

    /** `getFollowups(topicId)`: a missing or zero id gives every followup;
        any other id gives exactly that topic's followups, in store order. */
    method GetFollowups(topicId: Option<int>) returns (r: seq<Followup>)
      ensures topicId.None? || topicId.value == 0 ==> r == followups
      ensures topicId.Some? && topicId.value != 0 ==>
                (forall f :: f in r <==> f in followups && f.topicId == topicId.value) &&
                IsSubsequence(r, followups)
    ensures topicId.Some? && topicId.value != 0 ==>
              forall f :: multiset(r)[f] == if f.topicId == topicId.value then multiset(followups)[f] else 0
    {
      if topicId.Some? && topicId.value != 0 {
        var id := topicId.value;
        r := Filter((f: Followup) => f.topicId == id, followups);
        forall f {
          FilterMultiset((f: Followup) => f.topicId == id, followups, f);
        }
        FilterIsSubsequence((f: Followup) => f.topicId == id, followups);
        FilterMembers((f: Followup) => f.topicId == id, followups);
      } else {
        r := followups;
      }
    }

    /** `addFollowup`: the followup gets the random id and goes first; if its
        topic exists, the topic's status moves as the followup dictates
        (through `updateTopicStatus`, which logs twice); a last entry logs the
        followup. */
    method AddFollowup(draft: Followup, id: int, env: Env) returns (f: Followup)
      requires 0 <= id < 100000
      modifies this`followups, this`topics, this`auditLogs
      ensures Valid()
      ensures f == draft.(id := id)
      ensures followups == [f] + old(followups)
      ensures topics == TopicsAfterFollowup(old(topics), draft, env.today)
      ensures var parent := FindTopic(old(topics), draft.topicId);
              auditLogs == Logged(
                if parent.Some? then
                  LogAfterStatus(old(auditLogs), currentUser, old(topics), parent.value.id,
                                 StatusAfterFollowup(parent.value.status, draft.progressLevel, draft.resultText), env)
                else old(auditLogs),
                currentUser, FollowupNote(draft.topicId), env)
    {
      f := draft.(id := id);
      followups := [f] + followups;
      var parent := FindTopic(topics, draft.topicId);
      if parent.Some? {
        var s := StatusAfterFollowup(parent.value.status, draft.progressLevel, draft.resultText);
        UpdateTopicStatus(parent.value.id, s, env);
      }
      LogAction(FollowupNote(draft.topicId).action, FollowupNote(draft.topicId).details, env);
    }

    /** `getUsers`: an empty user list is reset to the default administrator
        before it is returned. */
    method GetUsers() returns (r: seq<User>)
      modifies this`users
      ensures users == if old(users) == [] then DefaultUsers else old(users)
      ensures r == users && r != []
    {
      if users == [] {
        users := DefaultUsers;
      }
      r := users;
    }

    /** `deleteUser`: user 1 can never be deleted (and the attempt is not
        logged); any other id removes every user with it and logs. */
    method DeleteUser(id: int, env: Env)
      requires Valid()
      modifies this`users, this`auditLogs
      ensures Valid()
      ensures id == 1 ==> users == old(users) && auditLogs == old(auditLogs)
      ensures id != 1 ==> users == WithoutUser(old(users), id) &&
                          auditLogs == Logged(old(auditLogs), currentUser, UserDeleteNote(id, FindUser(old(users), id)), env)
    {
      if id == 1 {
        return;
      }
      var was := FindUser(users, id);
      users := WithoutUser(users, id);
      LogAction(UserDeleteNote(id, was).action, UserDeleteNote(id, was).details, env);
    }

    /** `exportFullSystem`: the export is logged first, so the snapshot holds
        its own log entry. */
    method ExportFullSystem(env: Env) returns (b: Backup)
      modifies this`auditLogs
      ensures Valid()
      ensures auditLogs == Logged(old(auditLogs), currentUser, BackupNote, env)
      ensures b == Backup(topics, followups, departments, users, auditLogs, telegramToken, env.timestamp, "2.1")
    {
      LogAction(BackupNote.action, BackupNote.details, env);
      b := Backup(topics, followups, departments, users, auditLogs, telegramToken, env.timestamp, "2.1");
    }

    /** `importFullSystem`: all or nothing. A blob without topic and user
        arrays is refused and nothing changes; otherwise topics and users are
        replaced, followups and the log default to empty, departments are kept
        when the blob has none, a non-empty token is stored (and logged), and
        the restore is logged last. */
    method ImportFullSystem(blob: BackupBlob, env: Env) returns (ok: bool)
      requires Valid()
      modifies this`topics, this`followups, this`departments, this`users, this`auditLogs, this`telegramToken
      ensures Valid()
      ensures ok == AcceptsBlob(blob)
      ensures !ok ==> topics == old(topics) && followups == old(followups) && departments == old(departments) &&
                      users == old(users) && auditLogs == old(auditLogs) && telegramToken == old(telegramToken)
      ensures ok ==> topics == blob.topics.value && users == blob.users.value &&
                     followups == OrElse(blob.followups, []) &&
                     departments == OrElse(blob.departments, old(departments))
      ensures ok ==> telegramToken == if blob.telegramToken != "" then blob.telegramToken else old(telegramToken)
      ensures ok ==> var restored := OrElse(blob.auditLogs, []);
                     auditLogs == Logged(if blob.telegramToken != "" then Logged(restored, currentUser, TokenNote, env) else restored,
                                         currentUser, RestoreNote, env)
    {
      if !AcceptsBlob(blob) {
        return false;
      }
      topics := blob.topics.value;
      followups := OrElse(blob.followups, []);
      departments := OrElse(blob.departments, departments);
      users := blob.users.value;
      auditLogs := OrElse(blob.auditLogs, []);
      if blob.telegramToken != "" {
        SetTelegramToken(blob.telegramToken, env);
      }
      LogAction(RestoreNote.action, RestoreNote.details, env);
      return true;
    }

    /** `importData`: prepends the incoming topics whose id is new, logs how
        many were added, and returns the new total (not the number added). */
    method ImportData(incoming: seq<Topic>, env: Env) returns (total: int)
      modifies this`topics, this`auditLogs
      ensures Valid()
      ensures topics == ImportTopics(old(topics), incoming)
      ensures total == |topics| == |old(topics)| + |FreshTopics(old(topics), incoming)|
      ensures auditLogs == Logged(old(auditLogs), currentUser, ImportNote(|FreshTopics(old(topics), incoming)|), env)
    {
      var added := FreshTopics(topics, incoming);
      topics := ImportTopics(topics, incoming);
      LogAction(ImportNote(|added|).action, ImportNote(|added|).details, env);
      total := |topics|;
    }

    /** `resetSystem`: logs, then restores the first-run collections, which
        wipes that entry too. The session and the Telegram token stay. */
    method ResetSystem(env: Env)
      modifies this`topics, this`followups, this`departments, this`users, this`auditLogs
      ensures Valid()
      ensures topics == [] && followups == [] && auditLogs == []
      ensures departments == SeedDepartments && users == DefaultUsers
    {
      LogAction(ResetNote.action, ResetNote.details, env);
      topics := [];
      followups := [];
      departments := SeedDepartments;
      users := DefaultUsers;
      auditLogs := [];
    }

    /** `getOverdueTopics`: exactly the topics the overdue rule selects, in
        store order. */
    method GetOverdueTopics(today: string) returns (r: seq<Topic>)
      ensures r == OverdueTopics(topics, today)
      ensures forall t :: t in r <==> t in topics && IsOverdue(t, today)
      ensures IsSubsequence(r, topics)
    {
      r := OverdueTopics(topics, today);
      OverdueTopicsExactly(topics, today);
    }

    /** `getStats`. */
    method GetStats(today: string) returns (s: Stats)
      ensures s.total == |topics| && s.overdue == |OverdueTopics(topics, today)|
      ensures s.completed == Count(IsClosed, topics) && s.pending == Count(IsInProgress, topics)
      ensures s.completed + s.pending <= s.total && s.completed + s.overdue <= s.total
    {
      s := ComputeStats(topics, today);
    }
  }

  /** A backup taken before a deletion and restored after it brings back the
      topics, followups, departments and users as they were, and the token. */
  method RestoreUndoesDelete(s: Store, id: int, env: Env)
    requires s.Valid()
    modifies s
    ensures s.Valid()
    ensures s.topics == old(s.topics) && s.followups == old(s.followups)
    ensures s.departments == old(s.departments) && s.users == old(s.users)
    ensures s.telegramToken == old(s.telegramToken) && s.currentUser == old(s.currentUser)
  {
    var b := s.ExportFullSystem(env);
    s.DeleteTopic(id, env);
    var ok := s.ImportFullSystem(BlobOf(b), env);
  }
}
