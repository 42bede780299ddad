/**
 * The entities of the goal-tracking dashboard (types.ts): topics, their
 * followups, departments, users and audit-log entries, with the enumerations
 * whose string values the rest of the system compares against.
 */
module Types {

  datatype Option<T> = None | Some(value: T)

  /** The eight topic states. The source stores each as an Arabic string. */
  datatype TopicStatus = Pending | Closed | Overdue | Ongoing | Cancelled | Phased | Postponed | Stalled

  /** The string each status stands for in the source's enum. */
  function StatusText(s: TopicStatus): string
  {
    match s
    case Pending => "قيد المتابعة"
    case Closed => "مغلقة"
    case Overdue => "متأخرة"
    case Ongoing => "مستمر"
    case Cancelled => "ملغية"
    case Phased => "مرحلة"
    case Postponed => "مؤجلة"
    case Stalled => "متوقفة"
  }

  /** `Object.values(TopicStatus)`, in declaration order. */
  const AllStatuses: seq<TopicStatus> :=
    [Pending, Closed, Overdue, Ongoing, Cancelled, Phased, Postponed, Stalled]

  /** The status whose string is `text`, if any: `Object.values(TopicStatus).includes(text)`. */
  function StatusOfText(text: string): (r: Option<TopicStatus>)
    ensures r.Some? ==> StatusText(r.value) == text
    ensures r.None? ==> forall s :: StatusText(s) != text
  {
    if text == StatusText(Pending) then Some(Pending)
    else if text == StatusText(Closed) then Some(Closed)
    else if text == StatusText(Overdue) then Some(Overdue)
    else if text == StatusText(Ongoing) then Some(Ongoing)
    else if text == StatusText(Cancelled) then Some(Cancelled)
    else if text == StatusText(Phased) then Some(Phased)
    else if text == StatusText(Postponed) then Some(Postponed)
    else if text == StatusText(Stalled) then Some(Stalled)
    else None
  }

  /** Distinct statuses have distinct strings: a status is recovered from its string. */
  lemma StatusTextRoundTrip(s: TopicStatus)
    ensures StatusOfText(StatusText(s)) == Some(s)
  {
  }

  datatype PriorityLevel = Low | Normal | High | Urgent

  datatype UserRole = Admin | Manager | Member

  datatype Department = Department(id: int, name: string, email: string, telegramChatId: Option<string>)

  datatype User = User(id: int, name: string, email: string, role: UserRole, deptId: Option<int>, isActive: bool)

  /** A tracked task. Dates are ISO 8601 strings; `kind` is the source's `type`. */
  datatype Topic = Topic(
    id: int,
    title: string,
    kind: string,
    assignmentDate: string,
    sender: string,
    deptId: int,
    priority: PriorityLevel,
    dueDate: string,
    details: string,
    status: TopicStatus,
    lastUpdated: string,
    createdBy: int,
    closingDate: Option<string>)

  /** A progress check-in on a topic; `kind` is the source's `type`. */
  datatype Followup = Followup(
    id: int,
    topicId: int,
    date: string,
    kind: string,
    notes: string,
    progressLevel: string,
    evaluatorId: int,
    resultText: string)

  datatype LogEntry = LogEntry(id: string, action: string, details: string, userId: int, userName: string, timestamp: string)

  /** What an operation reads from its environment: the current date
      (`YYYY-MM-DD`), the current instant, and the random id it gives to the
      audit entries it writes. */
  datatype Env = Env(today: string, timestamp: string, logId: string)
}
