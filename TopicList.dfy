/**
 * The topic register (components/TopicList.tsx): the list it shows for the
 * URL's `filter` parameter, the text-and-status filter over it, the per-row
 * late flag, and the quoting of the details column in the CSV export.
 */
module TopicList {
  import opened Types
  import opened Strings
  import opened Seqs
  import opened ServiceRules

  // ---------------------------------------------------------------------------
  // The filter

  /** The search box matches the title, the sender or the details. */
  predicate MatchesText(t: Topic, text: string)
  {
    Contains(t.title, text) || Contains(t.sender, text) || Contains(t.details, text)
  }

  /** The list's own overdue rule: stored as Overdue, or past due and neither
      Closed nor Cancelled. */
  predicate IsOverdueForList(t: Topic, today: string)
  {
    t.status == Overdue || (Less(t.dueDate, today) && t.status != Closed && t.status != Cancelled)
  }

  /** The `filteredTopics` predicate for search text `text` and status filter
      `statusFilter` ('all', 'overdue_calculated' or a status string). */
  predicate KeepTopic(t: Topic, text: string, statusFilter: string, today: string)
  {
    var m := MatchesText(t, text);
    if statusFilter == "all" then m
    else if statusFilter == "overdue_calculated" then m && IsOverdueForList(t, today)
    else m && StatusText(t.status) == statusFilter
  }

  /** `filteredTopics`. */
  function FilteredTopics(ts: seq<Topic>, text: string, statusFilter: string, today: string): seq<Topic>
  {
    Filter((t: Topic) => KeepTopic(t, text, statusFilter, today), ts)
  }

  /** A status string is neither of the two special filter values. */
  lemma StatusTextIsNotSpecial(s: TopicStatus)
    ensures StatusText(s) != "all" && StatusText(s) != "overdue_calculated"
  {
    assert StatusText(s)[0] != "all"[0] && StatusText(s)[0] != "overdue_calculated"[0];
  }

  /** The filtered list is an order-preserving selection of the list; with
      'all' it keeps exactly the text matches, with 'overdue_calculated' the
      text matches the list's overdue rule selects, and with a status string
      the text matches with exactly that status. */
  lemma FilteredTopicsExactly(ts: seq<Topic>, text: string, statusFilter: string, today: string)
    ensures var r := FilteredTopics(ts, text, statusFilter, today);
            && IsSubsequence(r, ts)
            && (statusFilter == "all" ==> forall t :: t in r <==> t in ts && MatchesText(t, text))
            && (statusFilter == "overdue_calculated" ==>
                  forall t :: t in r <==> t in ts && MatchesText(t, text) && IsOverdueForList(t, today))
            && (forall s :: statusFilter == StatusText(s) ==>
                  forall t :: t in r <==> t in ts && MatchesText(t, text) && t.status == s)
            && (forall t :: multiset(r)[t] == if KeepTopic(t, text, statusFilter, today) then multiset(ts)[t] else 0)
  {
    forall t {
      FilterMultiset((t: Topic) => KeepTopic(t, text, statusFilter, today), ts, t);
    }
    FilterIsSubsequence((t: Topic) => KeepTopic(t, text, statusFilter, today), ts);
    FilterMembers((t: Topic) => KeepTopic(t, text, statusFilter, today), ts);
    forall s, t | statusFilter == StatusText(s)
      ensures KeepTopic(t, text, statusFilter, today) <==> MatchesText(t, text) && t.status == s
    {
      StatusTextIsNotSpecial(s);
      StatusTextRoundTrip(s);
      StatusTextRoundTrip(t.status);
    }
  }

  /** An empty search text matches every topic. */
  lemma EmptyTextMatchesAll(t: Topic)
    ensures MatchesText(t, "")
  {
    ContainsEmpty(t.title);
  }

  // ---------------------------------------------------------------------------
  // Three overdue rules

  /** Everything the data service calls overdue the list calls overdue too;
      the list adds exactly the late Phased and Stalled topics. */
  lemma ListOverdueWidensServiceOverdue(t: Topic, today: string)
    ensures IsOverdue(t, today) ==> IsOverdueForList(t, today)
    ensures IsOverdueForList(t, today) && !IsOverdue(t, today) <==>
            Less(t.dueDate, today) && (t.status == Phased || t.status == Stalled)
  {
  }

  /** The late flag a row shows: past due and not Closed, Cancelled or
      already Overdue. */
  predicate RowIsLate(t: Topic, today: string)
  {
    Less(t.dueDate, today) && t.status != Closed && t.status != Cancelled && t.status != Overdue
  }

  /** The row flag marks the topics the list's overdue rule selects, except
      those whose stored status already says Overdue. */
  lemma RowFlagAndListRule(t: Topic, today: string)
    ensures IsOverdueForList(t, today) <==> RowIsLate(t, today) || t.status == Overdue
    ensures RowIsLate(t, today) ==> t.status != Overdue
  {
  }

  // ---------------------------------------------------------------------------
  // The URL filter

  /** The topics and status filter the register starts with. */
  datatype View = View(topics: seq<Topic>, statusFilter: string)

  /** The effect of the `filter` URL parameter on a register whose status
      filter is `current`: 'overdue' shows the data service's overdue list
      under 'overdue_calculated', 'completed' filters Closed, 'pending'
      filters Pending, and anything else (or none) shows every topic with
      the filter unchanged. */
  function UrlView(filter: Option<string>, ts: seq<Topic>, today: string, current: string): View
  {
    if filter == Some("overdue") then View(OverdueTopics(ts, today), "overdue_calculated")
    else if filter == Some("completed") then View(ts, StatusText(Closed))
    else if filter == Some("pending") then View(ts, StatusText(Pending))
    else View(ts, current)
  }

  /** Opened from the dashboard's overdue link with no search text, the
      register shows the data service's overdue list unchanged: the list's
      looser rule drops none of it. */
  lemma OverdueLinkShowsServiceList(ts: seq<Topic>, today: string, current: string)
    ensures var v := UrlView(Some("overdue"), ts, today, current);
            FilteredTopics(v.topics, "", v.statusFilter, today) == OverdueTopics(ts, today)
  {
    var late := OverdueTopics(ts, today);
    FilterMembers((t: Topic) => IsOverdue(t, today), ts);
    forall i | 0 <= i < |late|
      ensures KeepTopic(late[i], "", "overdue_calculated", today)
    {
      EmptyTextMatchesAll(late[i]);
      ListOverdueWidensServiceOverdue(late[i], today);
    }
    FilterKeepsAll((t: Topic) => KeepTopic(t, "", "overdue_calculated", today), late);
  }

  /** Opened from the 'completed' link, the register shows exactly the Closed
      topics that match the search text. */
  lemma CompletedLinkShowsClosed(ts: seq<Topic>, text: string, today: string, current: string)
    ensures var v := UrlView(Some("completed"), ts, today, current);
            forall t :: t in FilteredTopics(v.topics, text, v.statusFilter, today) <==>
                        t in ts && MatchesText(t, text) && t.status == Closed
  {
    FilteredTopicsExactly(ts, text, StatusText(Closed), today);
  }

  /** Opened from the 'pending' link, the register keeps every topic and
      shows exactly the Pending ones that match the search text. */
  lemma PendingLinkShowsPending(ts: seq<Topic>, text: string, today: string, current: string)
    ensures var v := UrlView(Some("pending"), ts, today, current);
            && v == View(ts, StatusText(Pending))
            && forall t :: t in FilteredTopics(v.topics, text, v.statusFilter, today) <==>
                           t in ts && MatchesText(t, text) && t.status == Pending
  {
    FilteredTopicsExactly(ts, text, StatusText(Pending), today);
  }

  /** With no `filter` parameter, or one the register does not know, every
      topic is listed and the status filter is left as it was. */
  lemma OtherLinkKeepsView(filter: Option<string>, ts: seq<Topic>, today: string, current: string)
    requires filter !in {Some("overdue"), Some("completed"), Some("pending")}
    ensures UrlView(filter, ts, today, current) == View(ts, current)
  {
  }

  // ---------------------------------------------------------------------------
  // CSV quoting of the details column

  /** `replace(/"/g, '""')`: every double quote is doubled. */
  function EscapeQuotes(s: string): (r: string)
    ensures |r| >= |s|
  {
    if s == [] then []
    else (if s[0] == '"' then "\"\"" else [s[0]]) + EscapeQuotes(s[1..])
  }

  /** The details cell: the escaped text between double quotes (section 2,
      rule 7 of RFC 4180). */
  function CsvCell(details: string): string
  {
    "\"" + EscapeQuotes(details) + "\""
  }

  /** Reading an escaped field back: a doubled quote is one quote, and a lone
      quote is malformed. */
  function UnescapeQuotes(s: string): Option<string>
  {
    if s == [] then Some([])
    else if s[0] == '"' then
      if |s| >= 2 && s[1] == '"' then
        var rest := UnescapeQuotes(s[2..]);
        if rest.Some? then Some(['"'] + rest.value) else None
      else None
    else
      var rest := UnescapeQuotes(s[1..]);
      if rest.Some? then Some([s[0]] + rest.value) else None
  }

  /** Reading a quoted field back, as a CSV reader following RFC 4180 does. */
  function ParseCsvCell(cell: string): Option<string>
  {
    if |cell| >= 2 && cell[0] == '"' && cell[|cell| - 1] == '"' then UnescapeQuotes(cell[1..|cell| - 1])
    else None
  }

  lemma {:induction false} UnescapeEscape(s: string)
    ensures UnescapeQuotes(EscapeQuotes(s)) == Some(s)
  {
    if s != [] {
      UnescapeEscape(s[1..]);
      var e := EscapeQuotes(s);
      if s[0] == '"' {
        assert e[2..] == EscapeQuotes(s[1..]);
      } else {
        assert e[1..] == EscapeQuotes(s[1..]);
      }
      assert s == [s[0]] + s[1..];
    }
  }

  /** The details column survives export: a reader recovers the text exactly,
      whatever quotes it contains. */
  lemma CsvCellRoundTrip(details: string)
    ensures ParseCsvCell(CsvCell(details)) == Some(details)
  {
    var c := CsvCell(details);
    assert c[1..|c| - 1] == EscapeQuotes(details);
    UnescapeEscape(details);
  }
}
