/**
 * The performance report (components/PerformanceAnalysis.tsx): counts over
 * the topics assigned in a period, per department and overall, the list of
 * overdue topics, and the breakdown of one selected department. Dates are
 * `YYYY-MM-DD` strings compared as strings; `today` is a parameter.
 */
module PerformanceAnalysis {
  import opened Types
  import opened Strings
  import opened Seqs
  import opened ServiceRules
  import TopicList

  // ---------------------------------------------------------------------------
  // The period

  /** `assignmentDate >= startDate && assignmentDate <= endDate`. */
  predicate InPeriod(t: Topic, start: string, end: string)
  {
    LessOrEqual(start, t.assignmentDate) && LessOrEqual(t.assignmentDate, end)
  }

  function TopicsInPeriod(ts: seq<Topic>, start: string, end: string): seq<Topic>
  {
    Filter((t: Topic) => InPeriod(t, start, end), ts)
  }

  /** The analysed topics are exactly those assigned within the period, in
      store order. */
  lemma TopicsInPeriodExactly(ts: seq<Topic>, start: string, end: string)
    ensures forall t :: t in TopicsInPeriod(ts, start, end) <==> t in ts && InPeriod(t, start, end)
    ensures IsSubsequence(TopicsInPeriod(ts, start, end), ts)
    ensures forall t :: multiset(TopicsInPeriod(ts, start, end))[t] ==
                        if InPeriod(t, start, end) then multiset(ts)[t] else 0
  {
    forall t {
      FilterMultiset((t: Topic) => InPeriod(t, start, end), ts, t);
    }
    FilterIsSubsequence((t: Topic) => InPeriod(t, start, end), ts);
    FilterMembers((t: Topic) => InPeriod(t, start, end), ts);
  }

  // ---------------------------------------------------------------------------
  // Per-department metrics

  predicate IsCancelled(t: Topic) { t.status == Cancelled }

  /** The report's "stalled" column counts Stalled and Postponed topics. */
  predicate IsStalledOrPostponed(t: Topic) { t.status == Stalled || t.status == Postponed }

  /** The department table's overdue rule: stored as Overdue, or past due and
      not Closed, Cancelled, Stalled or Postponed. */
  predicate IsOverdueForDept(t: Topic, today: string)
  {
    t.status == Overdue ||
    (Less(t.dueDate, today) && t.status != Closed && t.status != Cancelled &&
     t.status != Stalled && t.status != Postponed)
  }

  /** Active: Pending, Ongoing or Phased and not yet due (`dueDate >= today`). */
  predicate IsActive(t: Topic, today: string)
  {
    (t.status == Pending || t.status == Ongoing || t.status == Phased) && !Less(t.dueDate, today)
  }

  datatype DeptMetric = DeptMetric(
    id: int, name: string,
    total: nat, closed: nat, active: nat, overdue: nat, cancelled: nat, stalled: nat,
    completionRate: int)

  /** `Math.round(closed / effective * 100)`, or 0 without an effective
      total: the integer nearest to 100·closed/effective, halves rounded up. */
  function RoundedRate(closed: nat, effective: int): (r: int)
    ensures effective <= 0 ==> r == 0
    ensures effective > 0 ==> 2 * effective * r <= 200 * closed + effective < 2 * effective * (r + 1)
  {
    if effective > 0 then (200 * closed + effective) / (2 * effective) else 0
  }

  /** A rate is a percentage when no more topics are closed than count. */
  lemma RoundedRateIsPercentage(closed: nat, effective: int)
    requires closed <= effective || effective <= 0
    ensures 0 <= RoundedRate(closed, effective) <= 100
    ensures effective > 0 && closed == effective ==> RoundedRate(closed, effective) == 100
    ensures closed == 0 ==> RoundedRate(closed, effective) == 0
  {
    var r := RoundedRate(closed, effective);
    if effective > 0 {
      var e := effective;
      var n := 200 * closed + e;
      assert 2 * e * r <= n < 2 * e * (r + 1);
      if r + 1 <= 0 {
        MulMonotone(2 * e, r + 1, 0);
      }
      if r >= 101 {
        MulMonotone(2 * e, 101, r);
      }
      if closed == e && r <= 99 {
        MulMonotone(2 * e, r + 1, 100);
      }
      if closed == 0 && r >= 1 {
        MulMonotone(2 * e, 1, r);
      }
    }
  }

  lemma MulMonotone(a: int, b: int, c: int)
    requires a > 0 && b <= c
    ensures a * b <= a * c
  {
    assert a * c - a * b == a * (c - b);
  }

  /** The topics of department `id`. */
  function TopicsOfDept(ts: seq<Topic>, id: int): seq<Topic>
  {
    Filter((t: Topic) => t.deptId == id, ts)
  }

  /** The five columns count disjoint sets of topics: no topic is counted
      twice, so together they never exceed the total. */
  lemma DeptColumnsDisjoint(dt: seq<Topic>, today: string)
    ensures Count(IsClosed, dt) + Count(IsCancelled, dt) + Count(IsStalledOrPostponed, dt) +
            Count((t: Topic) => IsOverdueForDept(t, today), dt) + Count((t: Topic) => IsActive(t, today), dt) <= |dt|
  {
    var late := (t: Topic) => IsOverdueForDept(t, today);
    var active := (t: Topic) => IsActive(t, today);
    var u1 := (t: Topic) => IsClosed(t) || IsCancelled(t);
    var u2 := (t: Topic) => u1(t) || IsStalledOrPostponed(t);
    var u3 := (t: Topic) => u2(t) || late(t);
    var u4 := (t: Topic) => u3(t) || active(t);
    CountDisjointUnion(IsClosed, IsCancelled, u1, dt);
    CountDisjointUnion(u1, IsStalledOrPostponed, u2, dt);
    CountDisjointUnion(u2, late, u3, dt);
    CountDisjointUnion(u3, active, u4, dt);
  }

  /** One row of the department table, over the period's topics. */
  function DeptMetricOf(d: Department, period: seq<Topic>, today: string): (m: DeptMetric)
    ensures m.id == d.id && m.name == d.name && m.total == |TopicsOfDept(period, d.id)|
    ensures var dt := TopicsOfDept(period, d.id);
            && m.closed == Count(IsClosed, dt)
            && m.cancelled == Count(IsCancelled, dt)
            && m.stalled == Count(IsStalledOrPostponed, dt)
            && m.overdue == Count((t: Topic) => IsOverdueForDept(t, today), dt)
            && m.active == Count((t: Topic) => IsActive(t, today), dt)
    ensures m.completionRate == RoundedRate(m.closed, m.total - m.cancelled)
    ensures m.closed + m.cancelled + m.stalled + m.overdue + m.active <= m.total
    ensures 0 <= m.completionRate <= 100
  {
    var dt := TopicsOfDept(period, d.id);
    var closed := Count(IsClosed, dt);
    var cancelled := Count(IsCancelled, dt);
    DeptColumnsDisjoint(dt, today);
    RoundedRateIsPercentage(closed, |dt| - cancelled);
    DeptMetric(d.id, d.name, |dt|, closed,
               Count((t: Topic) => IsActive(t, today), dt),
               Count((t: Topic) => IsOverdueForDept(t, today), dt),
               cancelled,
               Count(IsStalledOrPostponed, dt),
               RoundedRate(closed, |dt| - cancelled))
  }

  // ---------------------------------------------------------------------------
  // Ordering the department table: a stable sort by total, descending

  predicate DescendingByTotal(r: seq<DeptMetric>)
  {
    forall i, j :: 0 <= i < j < |r| ==> r[i].total >= r[j].total
  }

  /** `m` goes before the first row whose total is not larger. */
  function InsertByTotal(m: DeptMetric, r: seq<DeptMetric>): (q: seq<DeptMetric>)
    ensures multiset(q) == multiset(r) + multiset{m}
  {
    if r == [] || m.total >= r[0].total then [m] + r
    else
      assert r == [r[0]] + r[1..];
      [r[0]] + InsertByTotal(m, r[1..])
  }

  /** `.sort((a, b) => b.total - a.total)`. */
  function SortByTotal(s: seq<DeptMetric>): (r: seq<DeptMetric>)
    ensures multiset(r) == multiset(s)
  {
    if s == [] then []
    else
      assert s == [s[0]] + s[1..];
      InsertByTotal(s[0], SortByTotal(s[1..]))
  }

  lemma {:induction false} InsertByTotalSorted(m: DeptMetric, r: seq<DeptMetric>)
    requires DescendingByTotal(r)
    ensures DescendingByTotal(InsertByTotal(m, r))
  {
    if !(r == [] || m.total >= r[0].total) {
      var rest := InsertByTotal(m, r[1..]);
      InsertByTotalSorted(m, r[1..]);
      InsertByTotalBounded(m, r[1..], r[0].total);
      assert InsertByTotal(m, r) == [r[0]] + rest;
    }
  }

  /** Inserting a row no larger than a bound into rows no larger than it
      gives rows no larger than it. */
  lemma {:induction false} InsertByTotalBounded(m: DeptMetric, r: seq<DeptMetric>, b: int)
    requires m.total <= b && forall i :: 0 <= i < |r| ==> r[i].total <= b
    ensures forall i :: 0 <= i < |InsertByTotal(m, r)| ==> InsertByTotal(m, r)[i].total <= b
  {
    if !(r == [] || m.total >= r[0].total) {
      InsertByTotalBounded(m, r[1..], b);
    }
  }

  lemma {:induction false} SortByTotalSorted(s: seq<DeptMetric>)
    ensures DescendingByTotal(SortByTotal(s))
  {
    if s != [] {
      SortByTotalSorted(s[1..]);
      InsertByTotalSorted(s[0], SortByTotal(s[1..]));
    }
  }

  /** The rows with total `k`. */
  function TotalIs(k: int): DeptMetric -> bool
  {
    (m: DeptMetric) => m.total == k
  }

  /** Insertion only moves `m` past rows with a larger total, so among the
      rows with any one total the order is kept. */
  lemma {:induction false} InsertByTotalStable(m: DeptMetric, r: seq<DeptMetric>, k: int)
    ensures Filter(TotalIs(k), InsertByTotal(m, r)) == Filter(TotalIs(k), [m] + r)
  {
    if !(r == [] || m.total >= r[0].total) {
      var p := TotalIs(k);
      var tail := r[1..];
      InsertByTotalStable(m, tail, k);
      FilterConsCongruent(p, r[0], InsertByTotal(m, tail), [m] + tail);
      FilterSwapHead(p, r[0], m, tail);
      assert r == [r[0]] + tail;
    }
  }

  /** Rows with equal totals keep their department order, as the stable
      `Array.prototype.sort` keeps them. */
  lemma {:induction false} SortByTotalStable(s: seq<DeptMetric>, k: int)
    ensures Filter(TotalIs(k), SortByTotal(s)) == Filter(TotalIs(k), s)
  {
    if s != [] {
      var p := TotalIs(k);
      SortByTotalStable(s[1..], k);
      InsertByTotalStable(s[0], SortByTotal(s[1..]), k);
      FilterConsCongruent(p, s[0], SortByTotal(s[1..]), s[1..]);
      assert s == [s[0]] + s[1..];
    }
  }

  predicate HasTopics(m: DeptMetric) { m.total > 0 }

  /** The department table: one row per department, over the period, without
      the departments that have no topic there, largest total first. */
  function DeptTable(ds: seq<Department>, period: seq<Topic>, today: string): seq<DeptMetric>
  {
    SortByTotal(Filter(HasTopics, DeptRows(ds, period, today)))
  }

  /** One row per department, in department order. */
  function DeptRows(ds: seq<Department>, period: seq<Topic>, today: string): (rows: seq<DeptMetric>)
    ensures |rows| == |ds|
  {
    seq(|ds|, i requires 0 <= i < |ds| => DeptMetricOf(ds[i], period, today))
  }

  /** The table holds exactly the rows of departments with topics in the
      period, each once per department, ordered by total descending, ties in
      department order. */
  lemma DeptTableOrdered(ds: seq<Department>, period: seq<Topic>, today: string)
    ensures var rows := DeptRows(ds, period, today);
            var table := DeptTable(ds, period, today);
            && multiset(table) == multiset(Filter(HasTopics, rows))
            && (forall m :: m in table <==> m in rows && m.total > 0)
            && DescendingByTotal(table)
            && (forall k :: Filter(TotalIs(k), table) == Filter(TotalIs(k), Filter(HasTopics, rows)))
  {
    SortedRowsWithTopics(DeptRows(ds, period, today));
  }

  /** Dropping the rows without topics and sorting by total, for any rows. */
  lemma SortedRowsWithTopics(rows: seq<DeptMetric>)
    ensures var kept := Filter(HasTopics, rows);
            var table := SortByTotal(kept);
            && multiset(table) == multiset(kept)
            && (forall m :: m in table <==> m in rows && m.total > 0)
            && DescendingByTotal(table)
            && (forall k :: Filter(TotalIs(k), table) == Filter(TotalIs(k), kept))
  {
    var kept := Filter(HasTopics, rows);
    var table := SortByTotal(kept);
    FilterMembers(HasTopics, rows);
    SortByTotalSorted(kept);
    forall k
      ensures Filter(TotalIs(k), table) == Filter(TotalIs(k), kept)
    {
      SortByTotalStable(kept, k);
    }
    forall m
      ensures m in table <==> m in kept
    {
      assert m in table <==> m in multiset(table);
    }
  }

  // ---------------------------------------------------------------------------
  // The overall status breakdown

  datatype Slice = Slice(name: string, value: int)

  predicate IsShown(s: Slice) { s.value > 0 }

  function SumValues(sl: seq<Slice>): int
  {
    if sl == [] then 0 else sl[0].value + SumValues(sl[1..])
  }

  /** Dropping the empty slices does not change the sum. */
  lemma {:induction false} SumValuesShown(sl: seq<Slice>)
    requires forall i :: 0 <= i < |sl| ==> sl[i].value >= 0
    ensures SumValues(Filter(IsShown, sl)) == SumValues(sl)
    ensures forall i :: 0 <= i < |Filter(IsShown, sl)| ==> Filter(IsShown, sl)[i].value > 0
  {
    if sl != [] {
      SumValuesShown(sl[1..]);
      var f := Filter(IsShown, sl);
      var rest := Filter(IsShown, sl[1..]);
      if IsShown(sl[0]) {
        assert f == [sl[0]] + rest;
        assert f[0] == sl[0] && f[1..] == rest;
      } else {
        assert f == rest;
      }
    }
  }

  lemma SumOfFour(sl: seq<Slice>)
    requires |sl| == 4
    ensures SumValues(sl) == sl[0].value + sl[1].value + sl[2].value + sl[3].value
  {
    assert sl[3..][1..] == [];
    assert SumValues(sl[3..]) == sl[3].value;
    assert sl[2..][0] == sl[2] && sl[2..][1..] == sl[3..];
    assert SumValues(sl[2..]) == sl[2].value + sl[3].value;
    assert sl[1..][0] == sl[1] && sl[1..][1..] == sl[2..];
    assert SumValues(sl[1..]) == sl[1].value + sl[2].value + sl[3].value;
  }

  /** `statusCounts[s] || 0`. */
  function CountStatus(ts: seq<Topic>, s: TopicStatus): nat
  {
    Count((t: Topic) => t.status == s, ts)
  }

  /** The per-status counts partition the topics. */
  lemma {:induction false} StatusCountsPartition(ts: seq<Topic>)
    ensures CountStatus(ts, Closed) + CountStatus(ts, Pending) + CountStatus(ts, Ongoing) +
            CountStatus(ts, Phased) + CountStatus(ts, Overdue) + CountStatus(ts, Stalled) +
            CountStatus(ts, Postponed) + CountStatus(ts, Cancelled) == |ts|
  {
    if ts != [] {
      StatusCountsPartition(ts[1..]);
    }
  }

  /** Late and not Closed, Overdue or Cancelled: what the late slice adds to
      the stored Overdue ones. It is the register's per-row late flag. */
  predicate IsLateUnmarked(t: Topic, today: string)
  {
    TopicList.RowIsLate(t, today)
  }

  /** The four slices before the empty ones are dropped: closed, running
      (Pending, Ongoing, Phased), late (stored Overdue plus late unmarked
      ones) and other (Stalled, Postponed, Cancelled). */
  function StatusSlices(period: seq<Topic>, today: string): seq<Slice>
  {
    [Slice("مغلقة", CountStatus(period, Closed)),
     Slice("جارية", CountStatus(period, Pending) + CountStatus(period, Ongoing) + CountStatus(period, Phased)),
     Slice("متأخرة", CountStatus(period, Overdue) + Count((t: Topic) => IsLateUnmarked(t, today), period)),
     Slice("أخرى", CountStatus(period, Stalled) + CountStatus(period, Postponed) + CountStatus(period, Cancelled))]
  }

  /** `statusData`. */
  function StatusData(period: seq<Topic>, today: string): seq<Slice>
  {
    Filter(IsShown, StatusSlices(period, today))
  }

  /** The shown slices are the non-empty ones and add up to the topic count
      plus the late unmarked topics, which also sit in the running or the
      other slice: those are counted twice. */
  lemma StatusDataSum(period: seq<Topic>, today: string)
    ensures forall i :: 0 <= i < |StatusData(period, today)| ==> StatusData(period, today)[i].value > 0
    ensures SumValues(StatusData(period, today)) ==
            |period| + Count((t: Topic) => IsLateUnmarked(t, today), period)
  {
    var sl := StatusSlices(period, today);
    SumValuesShown(sl);
    StatusCountsPartition(period);
    SumOfFour(sl);
  }

  /** A single late Pending topic shows as one running and one late topic. */
  lemma LatePendingCountedTwice(t: Topic, today: string)
    requires t.status == Pending && Less(t.dueDate, today)
    ensures SumValues(StatusData([t], today)) == 2
  {
    StatusDataSum([t], today);
    assert Filter((x: Topic) => IsLateUnmarked(x, today), [t]) == [t];
  }

  // ---------------------------------------------------------------------------
  // The overdue list: a stable sort by due date, ascending

  /** Listed as overdue: not Closed, Cancelled or Stalled, and stored as
      Overdue or past due. Postponed and Phased topics can be listed. */
  predicate InOverdueList(t: Topic, today: string)
  {
    t.status != Closed && t.status != Cancelled && t.status != Stalled &&
    (t.status == Overdue || Less(t.dueDate, today))
  }

  predicate AscendingByDue(r: seq<Topic>)
  {
    forall i, j :: 0 <= i < j < |r| ==> LessOrEqual(r[i].dueDate, r[j].dueDate)
  }

  /** `t` goes before the first topic due no earlier. */
  function InsertByDue(t: Topic, r: seq<Topic>): (q: seq<Topic>)
    ensures multiset(q) == multiset(r) + multiset{t}
  {
    if r == [] || LessOrEqual(t.dueDate, r[0].dueDate) then [t] + r
    else
      assert r == [r[0]] + r[1..];
      [r[0]] + InsertByDue(t, r[1..])
  }

  /** `.sort((a, b) => dueDate(a) - dueDate(b))`. */
  function SortByDue(s: seq<Topic>): (r: seq<Topic>)
    ensures multiset(r) == multiset(s)
  {
    if s == [] then []
    else
      assert s == [s[0]] + s[1..];
      InsertByDue(s[0], SortByDue(s[1..]))
  }

  lemma {:induction false} InsertByDueSorted(t: Topic, r: seq<Topic>)
    requires AscendingByDue(r)
    ensures AscendingByDue(InsertByDue(t, r))
  {
    var q := InsertByDue(t, r);
    if r == [] || LessOrEqual(t.dueDate, r[0].dueDate) {
      forall j | 1 <= j < |q|
        ensures LessOrEqual(t.dueDate, q[j].dueDate)
      {
        if j > 1 {
          LessOrEqualTransitive(t.dueDate, r[0].dueDate, r[j - 1].dueDate);
        }
      }
    } else {
      var rest := InsertByDue(t, r[1..]);
      InsertByDueSorted(t, r[1..]);
      LessAsymmetric(r[0].dueDate, t.dueDate);
      InsertByDueBounded(t, r[1..], r[0].dueDate);
      assert InsertByDue(t, r) == [r[0]] + rest;
    }
  }

  /** Inserting a topic due no earlier than a date into topics due no
      earlier than it gives topics due no earlier than it. */
  lemma {:induction false} InsertByDueBounded(t: Topic, r: seq<Topic>, b: string)
    requires LessOrEqual(b, t.dueDate) && forall i :: 0 <= i < |r| ==> LessOrEqual(b, r[i].dueDate)
    ensures forall i :: 0 <= i < |InsertByDue(t, r)| ==> LessOrEqual(b, InsertByDue(t, r)[i].dueDate)
  {
    if !(r == [] || LessOrEqual(t.dueDate, r[0].dueDate)) {
      InsertByDueBounded(t, r[1..], b);
    }
  }

  lemma {:induction false} SortByDueSorted(s: seq<Topic>)
    ensures AscendingByDue(SortByDue(s))
  {
    if s != [] {
      SortByDueSorted(s[1..]);
      InsertByDueSorted(s[0], SortByDue(s[1..]));
    }
  }

  /** The topics due on `d`. */
  function DueIs(d: string): Topic -> bool
  {
    (t: Topic) => t.dueDate == d
  }

  /** Insertion only moves `t` past topics due strictly earlier, so among
      the topics due on any one day the order is kept. */
  lemma {:induction false} InsertByDueStable(t: Topic, r: seq<Topic>, d: string)
    ensures Filter(DueIs(d), InsertByDue(t, r)) == Filter(DueIs(d), [t] + r)
  {
    if !(r == [] || LessOrEqual(t.dueDate, r[0].dueDate)) {
      var p := DueIs(d);
      var tail := r[1..];
      InsertByDueStable(t, tail, d);
      FilterConsCongruent(p, r[0], InsertByDue(t, tail), [t] + tail);
      LessIrreflexive(t.dueDate);
      FilterSwapHead(p, r[0], t, tail);
      assert r == [r[0]] + tail;
    }
  }

  /** Topics due on the same day keep their store order. */
  lemma {:induction false} SortByDueStable(s: seq<Topic>, d: string)
    ensures Filter(DueIs(d), SortByDue(s)) == Filter(DueIs(d), s)
  {
    if s != [] {
      var p := DueIs(d);
      SortByDueStable(s[1..], d);
      InsertByDueStable(s[0], SortByDue(s[1..]), d);
      FilterConsCongruent(p, s[0], SortByDue(s[1..]), s[1..]);
      assert s == [s[0]] + s[1..];
    }
  }

  /** `overdueList`, drawn from all topics rather than the period's. */
  function OverdueList(ts: seq<Topic>, today: string): seq<Topic>
  {
    SortByDue(Filter((t: Topic) => InOverdueList(t, today), ts))
  }

  /** The overdue list holds exactly the topics the rule selects, each as
      often as in the store, earliest due first, same-day ones in store
      order. */
  lemma OverdueListOrdered(ts: seq<Topic>, today: string)
    ensures var kept := Filter((t: Topic) => InOverdueList(t, today), ts);
            var r := OverdueList(ts, today);
            && multiset(r) == multiset(kept)
            && (forall t :: t in r <==> t in ts && InOverdueList(t, today))
            && AscendingByDue(r)
            && (forall d :: Filter(DueIs(d), r) == Filter(DueIs(d), kept))
  {
    var kept := Filter((t: Topic) => InOverdueList(t, today), ts);
    FilterMembers((t: Topic) => InOverdueList(t, today), ts);
    SortByDueSorted(kept);
    forall d
      ensures Filter(DueIs(d), OverdueList(ts, today)) == Filter(DueIs(d), kept)
    {
      SortByDueStable(kept, d);
    }
    forall t
      ensures t in OverdueList(ts, today) <==> t in kept
    {
      assert t in OverdueList(ts, today) <==> t in multiset(OverdueList(ts, today));
    }
  }

  /** How the report's two overdue rules relate to the data service's: the
      table adds late Phased topics and drops late Postponed ones; the list
      is the table's rule plus late Postponed topics. */
  lemma OverdueRulesCompared(t: Topic, today: string)
    ensures IsOverdueForDept(t, today) && !IsOverdue(t, today) <==> Less(t.dueDate, today) && t.status == Phased
    ensures IsOverdue(t, today) && !IsOverdueForDept(t, today) <==> Less(t.dueDate, today) && t.status == Postponed
    ensures IsOverdueForDept(t, today) ==> InOverdueList(t, today)
    ensures InOverdueList(t, today) && !IsOverdueForDept(t, today) <==> Less(t.dueDate, today) && t.status == Postponed
  {
  }

  // ---------------------------------------------------------------------------
  // The selected department

  /** Active in the selected-department view: Pending or Ongoing and not yet
      due. Phased topics are not active here. */
  predicate IsActiveForSelected(t: Topic, today: string)
  {
    (t.status == Pending || t.status == Ongoing) && !Less(t.dueDate, today)
  }

  datatype DeptStats = DeptStats(total: nat, closed: nat, overdue: nat, active: nat, others: int)

  /** Closed, overdue (the register's rule) and active are disjoint. */
  lemma SelectedColumnsDisjoint(dt: seq<Topic>, today: string)
    ensures Count(IsClosed, dt) + Count((t: Topic) => TopicList.IsOverdueForList(t, today), dt) +
            Count((t: Topic) => IsActiveForSelected(t, today), dt) <= |dt|
  {
    var late := (t: Topic) => TopicList.IsOverdueForList(t, today);
    var active := (t: Topic) => IsActiveForSelected(t, today);
    var u1 := (t: Topic) => IsClosed(t) || late(t);
    var u2 := (t: Topic) => u1(t) || active(t);
    CountDisjointUnion(IsClosed, late, u1, dt);
    CountDisjointUnion(u1, active, u2, dt);
  }

  /** `selectedDeptAnalytics.stats`: `None` when no department is selected;
      otherwise the counts over the department's topics in the period, its
      overdue rule being the register's. The remainder is never negative and
      the four parts make up the total. */
  function SelectedDeptStats(selected: Option<int>, ts: seq<Topic>, start: string, end: string, today: string): (r: Option<DeptStats>)
    ensures r.None? <==> selected.None?
    ensures r.Some? ==> r.value.total == |TopicsInPeriod(TopicsOfDept(ts, selected.value), start, end)|
    ensures r.Some? ==>
              var dt := TopicsInPeriod(TopicsOfDept(ts, selected.value), start, end);
              && r.value.closed == Count(IsClosed, dt)
              && r.value.overdue == Count((t: Topic) => TopicList.IsOverdueForList(t, today), dt)
              && r.value.active == Count((t: Topic) => IsActiveForSelected(t, today), dt)
    ensures r.Some? ==> r.value.others >= 0
    ensures r.Some? ==> r.value.closed + r.value.overdue + r.value.active + r.value.others == r.value.total
  {
    if selected.None? then None
    else
      var dt := TopicsInPeriod(TopicsOfDept(ts, selected.value), start, end);
      var closed := Count(IsClosed, dt);
      var overdue := Count((t: Topic) => TopicList.IsOverdueForList(t, today), dt);
      var active := Count((t: Topic) => IsActiveForSelected(t, today), dt);
      SelectedColumnsDisjoint(dt, today);
      Some(DeptStats(|dt|, closed, overdue, active, |dt| - closed - overdue - active))
  }

  /** `pieData`: the four parts, without the empty ones. */
  function SelectedPie(st: DeptStats): seq<Slice>
  {
    Filter(IsShown, [Slice("مغلقة", st.closed), Slice("جارية", st.active),
                     Slice("متأخرة", st.overdue), Slice("أخرى", st.others)])
  }

  /** The selected department's pie shows only non-empty slices, and they
      add up to its topic count: unlike the overall breakdown, nothing is
      counted twice. */
  lemma SelectedPieSumsToTotal(selected: int, ts: seq<Topic>, start: string, end: string, today: string)
    ensures var st := SelectedDeptStats(Some(selected), ts, start, end, today).value;
            && SumValues(SelectedPie(st)) == st.total
            && forall i :: 0 <= i < |SelectedPie(st)| ==> SelectedPie(st)[i].value > 0
  {
    var st := SelectedDeptStats(Some(selected), ts, start, end, today).value;
    var sl := [Slice("مغلقة", st.closed), Slice("جارية", st.active),
               Slice("متأخرة", st.overdue), Slice("أخرى", st.others)];
    SumValuesShown(sl);
    SumOfFour(sl);
  }
}
