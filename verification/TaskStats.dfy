/**
 * PracticeSessionsService.getTaskStats: one pass over a user's practised tasks, newest first, that
 * groups them by task in a map which keeps insertion order.
 */
module TaskStats {
  import opened Outcomes

  /** One practice of one task; instants are milliseconds. */
  datatype Row = Row(taskId: string, title: string, createdAt: int, durationMinutes: Option<int>)

  datatype TaskStat = TaskStat(taskId: string, title: string, recentTimes: nat, recentMinutes: int,
                               lastPracticedAt: Option<int>, allTimes: nat)

  // ----- the specification: filtered counts, sums and maxima -----

  function Times(rows: seq<Row>, task: string): nat {
    if rows == [] then 0
    else Times(rows[..|rows| - 1], task) + if rows[|rows| - 1].taskId == task then 1 else 0
  }

  function RecentTimes(rows: seq<Row>, task: string, cutoff: int): nat {
    if rows == [] then 0
    else
      var row := rows[|rows| - 1];
      RecentTimes(rows[..|rows| - 1], task, cutoff) + if row.taskId == task && row.createdAt >= cutoff then 1 else 0
  }

  function RecentMinutes(rows: seq<Row>, task: string, cutoff: int): int {
    if rows == [] then 0
    else
      var row := rows[|rows| - 1];
      RecentMinutes(rows[..|rows| - 1], task, cutoff)
      + if row.taskId == task && row.createdAt >= cutoff && row.durationMinutes.Some? then row.durationMinutes.value
        else 0
  }

  ghost predicate IsLatest(rows: seq<Row>, task: string, at: int) {
    && (exists i :: 0 <= i < |rows| && rows[i].taskId == task && rows[i].createdAt == at)
    && (forall i :: 0 <= i < |rows| && rows[i].taskId == task ==> rows[i].createdAt <= at)
  }

  ghost predicate Describes(stat: TaskStat, rows: seq<Row>, cutoff: int) {
    && stat.allTimes == Times(rows, stat.taskId)
    && stat.recentTimes == RecentTimes(rows, stat.taskId, cutoff)
    && stat.recentMinutes == RecentMinutes(rows, stat.taskId, cutoff)
    && stat.lastPracticedAt.Some? && IsLatest(rows, stat.taskId, stat.lastPracticedAt.value)
    && exists i :: 0 <= i < |rows| && rows[i].taskId == stat.taskId && rows[i].title == stat.title
  }

  predicate NewestFirst(rows: seq<Row>) {
    forall i, j :: 0 <= i < j < |rows| ==> rows[i].createdAt >= rows[j].createdAt
  }

  function TotalTimes(stats: seq<TaskStat>): nat {
    if stats == [] then 0 else TotalTimes(stats[..|stats| - 1]) + stats[|stats| - 1].allTimes
  }

  predicate Listed(stats: seq<TaskStat>, task: string) {
    exists i :: 0 <= i < |stats| && stats[i].taskId == task
  }

  /** Of two different entries, the first was practised last, or no earlier. */
  predicate Before(a: TaskStat, b: TaskStat) {
    && a.taskId != b.taskId
    && a.lastPracticedAt.Some? && b.lastPracticedAt.Some? && a.lastPracticedAt.value >= b.lastPracticedAt.value
  }

  /** One entry for each practised task, each as specified, last practised first. */
  ghost predicate IsReport(stats: seq<TaskStat>, rows: seq<Row>, cutoff: int) {
    && (forall k :: 0 <= k < |rows| ==> Listed(stats, rows[k].taskId))
    && (forall i :: 0 <= i < |stats| ==> Describes(stats[i], rows, cutoff))
    && (forall i, j :: 0 <= i < j < |stats| ==> Before(stats[i], stats[j]))
  }

  // ----- the insertion-ordered map -----

  /** The values of the map in the order in which their keys were first set. */
  function Values(order: seq<string>, byTask: map<string, TaskStat>): (stats: seq<TaskStat>)
    requires forall k :: k in order ==> k in byTask
    ensures |stats| == |order|
    ensures forall i :: 0 <= i < |order| ==> stats[i] == byTask[order[i]]
  {
    seq(|order|, i requires 0 <= i < |order| => assert order[i] in order; byTask[order[i]])
  }

  ghost predicate IsOrderOf(order: seq<string>, byTask: map<string, TaskStat>) {
    && (forall k :: k in order <==> k in byTask)
    && (forall i, j :: 0 <= i < j < |order| ==> order[i] != order[j])
    && (forall k :: k in byTask ==> byTask[k].taskId == k)
  }

  /** `durationMinutes ?? 0` */
  function Minutes(row: Row): int { if row.durationMinutes.Some? then row.durationMinutes.value else 0 }

  /** The stat of a row's task after the row has been added to it. */
  function Updated(stat: TaskStat, row: Row, cutoff: int): TaskStat {
    var s := stat.(allTimes := stat.allTimes + 1,
                   lastPracticedAt := if stat.lastPracticedAt.Some? then stat.lastPracticedAt else Some(row.createdAt));
    if row.createdAt < cutoff then s
    else s.(recentTimes := s.recentTimes + 1, recentMinutes := s.recentMinutes + Minutes(row))
  }

  lemma AnotherTasksRow(stat: TaskStat, rows: seq<Row>, row: Row, cutoff: int)
    requires Describes(stat, rows, cutoff) && row.taskId != stat.taskId
    ensures Describes(stat, rows + [row], cutoff)
  {
    var more := rows + [row];
    assert more[..|rows|] == rows;
    var i :| 0 <= i < |rows| && rows[i].taskId == stat.taskId && rows[i].createdAt == stat.lastPracticedAt.value;
    assert more[i] == rows[i];
    var j :| 0 <= j < |rows| && rows[j].taskId == stat.taskId && rows[j].title == stat.title;
    assert more[j] == rows[j];
  }

  lemma FurtherRow(stat: TaskStat, rows: seq<Row>, row: Row, cutoff: int)
    requires Describes(stat, rows, cutoff) && row.taskId == stat.taskId && NewestFirst(rows + [row])
    ensures Describes(Updated(stat, row, cutoff), rows + [row], cutoff)
  {
    var more := rows + [row];
    assert more[..|rows|] == rows;
    var i :| 0 <= i < |rows| && rows[i].taskId == stat.taskId && rows[i].createdAt == stat.lastPracticedAt.value;
    assert more[i] == rows[i] && more[|rows|] == row;
    var j :| 0 <= j < |rows| && rows[j].taskId == stat.taskId && rows[j].title == stat.title;
    assert more[j] == rows[j];
  }

  lemma {:induction false} NeverPracticed(rows: seq<Row>, task: string, cutoff: int)
    requires forall i :: 0 <= i < |rows| ==> rows[i].taskId != task
    ensures Times(rows, task) == 0 && RecentTimes(rows, task, cutoff) == 0 && RecentMinutes(rows, task, cutoff) == 0
  {
    if rows != [] { NeverPracticed(rows[..|rows| - 1], task, cutoff); }
  }

  function Unpracticed(row: Row): TaskStat { TaskStat(row.taskId, row.title, 0, 0, None, 0) }

  lemma FirstRow(rows: seq<Row>, row: Row, cutoff: int)
    requires forall i :: 0 <= i < |rows| ==> rows[i].taskId != row.taskId
    ensures Describes(Updated(Unpracticed(row), row, cutoff), rows + [row], cutoff)
  {
    var more := rows + [row];
    assert more[..|rows|] == rows && more[|rows|] == row;
    NeverPracticed(rows, row.taskId, cutoff);
  }

  lemma {:induction false} TotalChanges(stats: seq<TaskStat>, changed: seq<TaskStat>, k: nat)
    requires k < |stats| == |changed| && changed == stats[k := changed[k]]
    ensures TotalTimes(changed) == TotalTimes(stats) - stats[k].allTimes + changed[k].allTimes
  {
    var n := |stats| - 1;
    if k == n {
      assert changed[..n] == stats[..n];
    } else {
      TotalChanges(stats[..n], changed[..n], k);
    }
  }

  // ----- the loop -----

  ghost predicate Kept(order: seq<string>, byTask: map<string, TaskStat>, rows: seq<Row>, cutoff: int) {
    && IsOrderOf(order, byTask)
    && (forall i :: 0 <= i < |rows| ==> rows[i].taskId in byTask)
    && (forall k :: k in byTask ==> Describes(byTask[k], rows, cutoff))
  }

  ghost predicate LastPracticedFirst(order: seq<string>, byTask: map<string, TaskStat>) {
    forall i, j :: 0 <= i < j < |order| && order[i] in byTask && order[j] in byTask ==>
      && byTask[order[i]].lastPracticedAt.Some? && byTask[order[j]].lastPracticedAt.Some?
      && byTask[order[i]].lastPracticedAt.value >= byTask[order[j]].lastPracticedAt.value
  }

  lemma RowKept(order: seq<string>, byTask: map<string, TaskStat>, rows: seq<Row>, row: Row, cutoff: int)
    requires Kept(order, byTask, rows, cutoff) && NewestFirst(rows + [row])
    ensures var stat := if row.taskId in byTask then byTask[row.taskId] else Unpracticed(row);
            Kept(if row.taskId in byTask then order else order + [row.taskId],
                 byTask[row.taskId := Updated(stat, row, cutoff)], rows + [row], cutoff)
  {
    hide Describes, NewestFirst;
    var stat := if row.taskId in byTask then byTask[row.taskId] else Unpracticed(row);
    var after := byTask[row.taskId := Updated(stat, row, cutoff)];
    forall k | k in after
      ensures Describes(after[k], rows + [row], cutoff)
    {
      if k != row.taskId {
        AnotherTasksRow(byTask[k], rows, row, cutoff);
      } else if k in byTask {
        FurtherRow(byTask[k], rows, row, cutoff);
      } else {
        FirstRow(rows, row, cutoff);
      }
    }
  }

  lemma NoNewerThanRow(stat: TaskStat, rows: seq<Row>, row: Row, cutoff: int)
    requires Describes(stat, rows, cutoff) && NewestFirst(rows + [row])
    ensures stat.lastPracticedAt.Some? && stat.lastPracticedAt.value >= row.createdAt
  {
    var k :| 0 <= k < |rows| && rows[k].createdAt == stat.lastPracticedAt.value;
    assert (rows + [row])[k] == rows[k] && (rows + [row])[|rows|] == row;
  }

  lemma OrderKept(order: seq<string>, byTask: map<string, TaskStat>, rows: seq<Row>, row: Row, cutoff: int)
    requires Kept(order, byTask, rows, cutoff) && NewestFirst(rows + [row]) && LastPracticedFirst(order, byTask)
    ensures var stat := if row.taskId in byTask then byTask[row.taskId] else Unpracticed(row);
            LastPracticedFirst(if row.taskId in byTask then order else order + [row.taskId],
                               byTask[row.taskId := Updated(stat, row, cutoff)])
  {
    hide Describes, NewestFirst;
    forall k | k in byTask
      ensures byTask[k].lastPracticedAt.Some? && byTask[k].lastPracticedAt.value >= row.createdAt
    {
      NoNewerThanRow(byTask[k], rows, row, cutoff);
    }
  }

  lemma ChangedEntry(order: seq<string>, byTask: map<string, TaskStat>, key: string, stat: TaskStat)
    requires forall k :: k in order ==> k in byTask
    requires forall i, j :: 0 <= i < j < |order| ==> order[i] != order[j]
    requires key in order && stat.allTimes == byTask[key].allTimes + 1
    ensures TotalTimes(Values(order, byTask[key := stat])) == TotalTimes(Values(order, byTask)) + 1
  {
    hide TotalTimes;
    var k :| 0 <= k < |order| && order[k] == key;
    var stats, changed := Values(order, byTask), Values(order, byTask[key := stat]);
    assert changed == stats[k := changed[k]];
    TotalChanges(stats, changed, k);
  }

  lemma AddedEntry(order: seq<string>, byTask: map<string, TaskStat>, key: string, stat: TaskStat)
    requires (forall k :: k in order ==> k in byTask) && key !in order
    ensures TotalTimes(Values(order + [key], byTask[key := stat])) == TotalTimes(Values(order, byTask)) + stat.allTimes
  {
    var stats := Values(order + [key], byTask[key := stat]);
    assert stats[..|order|] == Values(order, byTask);
  }

  lemma TotalKept(order: seq<string>, byTask: map<string, TaskStat>, row: Row, cutoff: int)
    requires IsOrderOf(order, byTask)
    ensures var stat := if row.taskId in byTask then byTask[row.taskId] else Unpracticed(row);
            var after := byTask[row.taskId := Updated(stat, row, cutoff)];
            var newOrder := if row.taskId in byTask then order else order + [row.taskId];
            && (forall k :: k in newOrder ==> k in after)
            && TotalTimes(Values(newOrder, after)) == TotalTimes(Values(order, byTask)) + 1
  {
    hide TotalTimes, Values;
    if row.taskId in byTask {
      ChangedEntry(order, byTask, row.taskId, Updated(byTask[row.taskId], row, cutoff));
    } else {
      AddedEntry(order, byTask, row.taskId, Updated(Unpracticed(row), row, cutoff));
    }
  }

  lemma ReportOf(order: seq<string>, byTask: map<string, TaskStat>, rows: seq<Row>, cutoff: int)
    requires Kept(order, byTask, rows, cutoff) && LastPracticedFirst(order, byTask)
    ensures IsReport(Values(order, byTask), rows, cutoff)
  {
    hide Describes;
    var stats := Values(order, byTask);
    forall i | 0 <= i < |stats|
      ensures order[i] in byTask && stats[i] == byTask[order[i]] && stats[i].taskId == order[i]
      ensures Describes(stats[i], rows, cutoff)
    {
      assert order[i] in order;
    }
    forall k | 0 <= k < |rows|
      ensures Listed(stats, rows[k].taskId)
    {
      var j :| 0 <= j < |order| && order[j] == rows[k].taskId;
      assert stats[j].taskId == rows[k].taskId;
    }
    forall i, j | 0 <= i < j < |stats|
      ensures Before(stats[i], stats[j])
    {
      assert order[i] in byTask && order[j] in byTask;
    }
  }

  /** What holds after the first `n` rows. */
  ghost predicate Grouped(order: seq<string>, byTask: map<string, TaskStat>, rows: seq<Row>, n: nat, cutoff: int) {
    && n <= |rows| && Kept(order, byTask, rows[..n], cutoff) && LastPracticedFirst(order, byTask)
    && TotalTimes(Values(order, byTask)) == n
  }

  lemma RowGrouped(order: seq<string>, byTask: map<string, TaskStat>, rows: seq<Row>, n: nat, cutoff: int)
    requires Grouped(order, byTask, rows, n, cutoff) && n < |rows| && NewestFirst(rows)
    ensures var row := rows[n];
            var stat := if row.taskId in byTask then byTask[row.taskId] else Unpracticed(row);
            Grouped(if row.taskId in byTask then order else order + [row.taskId],
                    byTask[row.taskId := Updated(stat, row, cutoff)], rows, n + 1, cutoff)
  {
    hide Describes, NewestFirst, LastPracticedFirst, Updated, TotalTimes, Values;
    assert rows[..n + 1] == rows[..n] + [rows[n]];
    PrefixNewestFirst(rows, n);
    RowKept(order, byTask, rows[..n], rows[n], cutoff);
    OrderKept(order, byTask, rows[..n], rows[n], cutoff);
    TotalKept(order, byTask, rows[n], cutoff);
  }

  lemma NothingYet(rows: seq<Row>, cutoff: int)
    ensures Grouped([], map[], rows, 0, cutoff)
  {
  }

  lemma AllGrouped(order: seq<string>, byTask: map<string, TaskStat>, rows: seq<Row>, cutoff: int)
    requires Grouped(order, byTask, rows, |rows|, cutoff)
    ensures IsOrderOf(order, byTask)
    ensures IsReport(Values(order, byTask), rows, cutoff) && TotalTimes(Values(order, byTask)) == |rows|
  {
    hide Describes, LastPracticedFirst, TotalTimes, Values, IsReport;
    assert rows[..|rows|] == rows;
    ReportOf(order, byTask, rows, cutoff);
  }

  lemma PrefixNewestFirst(rows: seq<Row>, i: nat)
    requires NewestFirst(rows) && i < |rows|
    ensures NewestFirst(rows[..i] + [rows[i]])
  {
  }

  /** `rows` as the query returns them: newest first. */
  method GetTaskStats(rows: seq<Row>, cutoff: int) returns (stats: seq<TaskStat>)
    requires NewestFirst(rows)
    ensures IsReport(stats, rows, cutoff)
    ensures TotalTimes(stats) == |rows|
  {
    hide Grouped, NewestFirst, IsReport, TotalTimes;
    var order: seq<string>, byTask: map<string, TaskStat> := [], map[];
    var i := 0;
    NothingYet(rows, cutoff);
    while i < |rows|
      invariant 0 <= i <= |rows|
      invariant Grouped(order, byTask, rows, i, cutoff)
    {
      var row := rows[i];
      RowGrouped(order, byTask, rows, i, cutoff);
      var stat := if row.taskId in byTask then byTask[row.taskId] else Unpracticed(row);
      stat := stat.(allTimes := stat.allTimes + 1);
      if stat.lastPracticedAt.None? {
        stat := stat.(lastPracticedAt := Some(row.createdAt));
      }
      if row.createdAt >= cutoff {
        stat := stat.(recentTimes := stat.recentTimes + 1);
        stat := stat.(recentMinutes := stat.recentMinutes
            + if row.durationMinutes.Some? then row.durationMinutes.value else 0);
      }
      if row.taskId !in byTask {
        order := order + [row.taskId];
      }
      byTask := byTask[row.taskId := stat];
      i := i + 1;
    }
    AllGrouped(order, byTask, rows, cutoff);
    stats := Values(order, byTask);
  }
}
