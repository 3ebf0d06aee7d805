/**
 * What the reads and writes of the task library mean, task by task: the pages of the list query, looking
 * one task up, and the effect of each write.
 */
module TaskLibrary {
  import opened LikePattern
  import opened Outcomes
  import opened TaskCache
  import opened TaskQueries

  // ----- pages -----

  /** What a list query asks for: shared tasks, of the category and difficulty if given, with the search text
      in the title, in whatever case, if there is one. */
  ghost predicate Wanted(query: Query, task: Task) {
    && task.owner == None
    && (query.category == None || query.category == task.category)
    && (query.difficulty == None || query.difficulty == task.difficulty)
    && (query.q == None || OccursAnyCase(query.q.value, task.title))
  }

  ghost predicate Ascending(a: seq<nat>) { forall k, l :: 0 <= k < l < |a| ==> a[k] < a[l] }

  /** The places in the table of all that the query asks for, in table order. */
  ghost predicate Picks(query: Query, table: seq<Task>, at: seq<nat>) {
    && (forall k :: 0 <= k < |at| ==> at[k] < |table| && Wanted(query, table[at[k]]))
    && Ascending(at)
    && (forall i :: 0 <= i < |table| && Wanted(query, table[i]) ==> i in at)
  }

  /** The tasks at `at`, from number `skip` on and at most `take` of them. */
  ghost predicate HasTasks(tasks: seq<Task>, table: seq<Task>, at: seq<nat>, skip: nat, take: nat)
    requires forall k :: 0 <= k < |at| ==> at[k] < |table|
  {
    && |tasks| == (if |at| <= skip then 0 else if |at| - skip < take then |at| - skip else take)
    && forall k :: 0 <= k < |tasks| ==> tasks[k] == table[at[skip + k]]
  }

  /** How many tasks are on the pages before page `p`. */
  function Before(p: nat, n: nat): nat
    requires p >= 1
  {
    (p - 1) * n
  }

  /** So many pages are needed, and no fewer would do. */
  predicate Covers(pages: nat, n: nat, total: nat) { (pages - 1) * n < total <= pages * n }

  /** Page p of limit n holds the wanted tasks number (p - 1) * n to p * n - 1, and says how many there are. The
      first page and a limit of 20 are the defaults. */
  ghost predicate IsPage(query: ListQuery, table: seq<Task>, page: Page) {
    var p := if query.page.Some? then query.page.value else 1;
    var n := if query.limit.Some? then query.limit.value else 20;
    && page.page == p && page.limit == n
    && Covers(page.totalPages, n, page.total)
    && exists at :: Picks(query, table, at) && page.total == |at| && HasTasks(page.data, table, at, Before(p, n), n)
  }

  lemma SelectsIffWanted(query: Query, task: Task)
    ensures Selects(query, task) <==> Wanted(query, task)
  {
    if query.q.Some? { SearchFindsAnyCase(task.title, query.q.value); }
  }

  function Shifted(at: seq<nat>): seq<nat> { seq(|at|, k requires 0 <= k < |at| => at[k] + 1) }

  ghost predicate StandAt(tasks: seq<Task>, table: seq<Task>, at: seq<nat>) {
    |tasks| == |at| && forall k :: 0 <= k < |at| ==> at[k] < |table| && tasks[k] == table[at[k]]
  }

  lemma {:induction false} SelectedPicks(query: Query, table: seq<Task>) returns (at: seq<nat>)
    ensures Picks(query, table, at) && StandAt(Selected(query, table), table, at)
  {
    hide Selects, Wanted, Picks, Ascending, Shifted, StandAt;
    if table == [] {
      at := [];
      NothingToPick(query);
    } else {
      var rest := SelectedPicks(query, table[1..]);
      SelectsIffWanted(query, table[0]);
      LaterPicks(query, table, rest);
      OneFurther(Selected(query, table[1..]), table, rest);
      if Selects(query, table[0]) {
        at := [0] + Shifted(rest);
        FirstIsPicked(query, table, Shifted(rest));
      } else {
        at := Shifted(rest);
        FirstIsSkipped(query, table, at);
        assert Selected(query, table) == Selected(query, table[1..]);
      }
    }
  }

  lemma NothingToPick(query: Query)
    ensures Picks(query, [], []) && StandAt([], [], [])
  {
  }

  lemma OneFurther(tasks: seq<Task>, table: seq<Task>, rest: seq<nat>)
    requires table != [] && StandAt(tasks, table[1..], rest)
    ensures StandAt(tasks, table, Shifted(rest)) && StandAt([table[0]] + tasks, table, [0] + Shifted(rest))
  {
    assert forall k :: 0 <= k < |rest| ==> Shifted(rest)[k] == rest[k] + 1;
  }

  /** The places in the rest of the table, counted from its start. */
  lemma LaterPicks(query: Query, table: seq<Task>, rest: seq<nat>)
    requires table != [] && Picks(query, table[1..], rest)
    ensures var later := Shifted(rest);
            forall k :: 0 <= k < |later| ==> 0 < later[k] < |table| && Wanted(query, table[later[k]])
    ensures Ascending(Shifted(rest))
    ensures forall i :: 0 < i < |table| && Wanted(query, table[i]) ==> i in Shifted(rest)
  {
    hide Wanted;
    var later := Shifted(rest);
    forall k | 0 <= k < |later| ensures 0 < later[k] < |table| && Wanted(query, table[later[k]]) {
      assert Wanted(query, table[1..][rest[k]]);
    }
    forall i | 0 < i < |table| && Wanted(query, table[i]) ensures i in later {
      assert Wanted(query, table[1..][i - 1]);
      var k :| 0 <= k < |rest| && rest[k] == i - 1;
      assert later[k] == i;
    }
  }

  lemma FirstIsPicked(query: Query, table: seq<Task>, later: seq<nat>)
    requires table != [] && Wanted(query, table[0]) && Ascending(later)
    requires forall k :: 0 <= k < |later| ==> 0 < later[k] < |table| && Wanted(query, table[later[k]])
    requires forall i :: 0 < i < |table| && Wanted(query, table[i]) ==> i in later
    ensures Picks(query, table, [0] + later)
  {
    hide Wanted;
    var at := [0] + later;
    assert forall k :: 0 < k < |at| ==> at[k] == later[k - 1];
    forall i | 0 <= i < |table| && Wanted(query, table[i]) ensures i in at {
      if i == 0 { assert at[0] == 0; }
    }
  }

  lemma FirstIsSkipped(query: Query, table: seq<Task>, later: seq<nat>)
    requires table != [] && !Wanted(query, table[0]) && Ascending(later)
    requires forall k :: 0 <= k < |later| ==> 0 < later[k] < |table| && Wanted(query, table[later[k]])
    requires forall i :: 0 < i < |table| && Wanted(query, table[i]) ==> i in later
    ensures Picks(query, table, later)
  {
    hide Wanted;
  }

  /** The places are determined. */
  lemma {:induction false} PicksAreUnique(query: Query, table: seq<Task>, a: seq<nat>, b: seq<nat>)
    requires Picks(query, table, a) && Picks(query, table, b)
    ensures a == b
  {
    forall k | 0 <= k < |a| ensures a[k] in b { assert Wanted(query, table[a[k]]); }
    forall k | 0 <= k < |b| ensures b[k] in a { assert Wanted(query, table[b[k]]); }
    AscendingEqual(a, b, |a|);
    AscendingEqual(b, a, |b|);
  }

  /** After a common front, the next of `b` is no greater than a later member of it. */
  lemma NextIsNoGreater(a: seq<nat>, b: seq<nat>, n: nat)
    requires n < |a| && n <= |b| && Ascending(a) && Ascending(b) && a[n] in b
    requires forall k :: 0 <= k < n ==> a[k] == b[k]
    ensures n < |b| && b[n] <= a[n]
  {
    var i :| 0 <= i < |b| && b[i] == a[n];
    assert i >= n;
  }

  lemma {:induction false} AscendingEqual(a: seq<nat>, b: seq<nat>, n: nat)
    requires n <= |a|
    requires Ascending(a) && Ascending(b)
    requires (forall k :: 0 <= k < |a| ==> a[k] in b) && forall k :: 0 <= k < |b| ==> b[k] in a
    ensures n <= |b| && forall k :: 0 <= k < n ==> a[k] == b[k]
  {
    if n > 0 {
      AscendingEqual(a, b, n - 1);
      NextIsNoGreater(a, b, n - 1);
      NextIsNoGreater(b, a, n - 1);
    }
  }

  lemma WindowHasTasks(tasks: seq<Task>, table: seq<Task>, at: seq<nat>, skip: nat, take: nat)
    requires StandAt(tasks, table, at)
    ensures HasTasks(Window(tasks, skip, take), table, at, skip, take)
  {
    var window := Window(tasks, skip, take);
    assert forall k :: 0 <= k < |window| ==> window[k] == tasks[skip + k];
  }

  /** The answer of findAll is the page asked for. */
  lemma {:induction false} AnswerIsPage(query: ListQuery, table: seq<Task>)
    ensures IsPage(query, table, Answer(query, table))
  {
    hide Picks, HasTasks, Selected, Rows, Covers, Before, Answer;
    var at := SelectedPicks(query, table);
    RowsHaveTasks(query, table, at);
    AnswerParts(query, table);
  }

  lemma RowsHaveTasks(query: ListQuery, table: seq<Task>, at: seq<nat>)
    requires Picks(query, table, at) && StandAt(Selected(query, table), table, at)
    ensures HasTasks(Rows(query, table), table, at, Before(PageOf(query), LimitOf(query)), LimitOf(query))
  {
    hide Picks, HasTasks, Selected, Window, Rows, Before, StandAt;
    PicksAreIndices(query, table, at);
    RowsAreWindow(query, table);
    WindowHasTasks(Selected(query, table), table, at, Before(PageOf(query), LimitOf(query)), LimitOf(query));
  }

  lemma PicksAreIndices(query: Query, table: seq<Task>, at: seq<nat>)
    requires Picks(query, table, at)
    ensures forall k :: 0 <= k < |at| ==> at[k] < |table|
  {
  }

  lemma AnswerParts(query: ListQuery, table: seq<Task>)
    ensures var answer := Answer(query, table);
            && answer.data == Rows(query, table) && answer.total == |Selected(query, table)|
            && answer.page == PageOf(query) && answer.limit == LimitOf(query)
            && Covers(answer.totalPages, LimitOf(query), answer.total)
  {
    PagesNeeded(|Selected(query, table)|, LimitOf(query));
  }

  lemma PagesNeeded(total: nat, n: nat)
    requires n > 0
    ensures Covers((total + n - 1) / n, n, total)
  {
  }

  /** Whichever way the places are given, the page holds what is there. */
  lemma PageHasTasks(query: ListQuery, table: seq<Task>, page: Page, at: seq<nat>)
    requires IsPage(query, table, page) && Picks(query, table, at)
    ensures page.total == |at| && HasTasks(page.data, table, at, Before(PageOf(query), LimitOf(query)), LimitOf(query))
  {
    hide Wanted, Covers, Before, HasTasks, Ascending;
    var p, n := PageOf(query), LimitOf(query);
    var own :| Picks(query, table, own) && page.total == |own| && HasTasks(page.data, table, own, Before(p, n), n);
    PicksAreUnique(query, table, own, at);
  }

  /** There is one such page. */
  lemma {:induction false} PageIsUnique(query: ListQuery, table: seq<Task>, page: Page)
    requires IsPage(query, table, page)
    ensures page == Answer(query, table)
  {
    hide Picks, Selected, Answer, Covers, Before, HasTasks;
    AnswerIsPage(query, table);
    var answer := Answer(query, table);
    var at := SelectedPicks(query, table);
    PicksAreIndices(query, table, at);
    PageHasTasks(query, table, page, at);
    PageHasTasks(query, table, answer, at);
    SameTasks(page.data, answer.data, table, at, Before(PageOf(query), LimitOf(query)), LimitOf(query));
    FewerPages(page.totalPages, answer.totalPages, page.total, LimitOf(query));
    FewerPages(answer.totalPages, page.totalPages, page.total, LimitOf(query));
  }

  lemma SameTasks(x: seq<Task>, y: seq<Task>, table: seq<Task>, at: seq<nat>, skip: nat, take: nat)
    requires forall k :: 0 <= k < |at| ==> at[k] < |table|
    requires HasTasks(x, table, at, skip, take) && HasTasks(y, table, at, skip, take)
    ensures x == y
  {
  }

  lemma FewerPages(a: nat, b: nat, total: nat, n: nat)
    requires n > 0 && Covers(a, n, total) && Covers(b, n, total)
    ensures a <= b
  {
    Times(b, a - 1, n);
  }

  lemma Times(x: int, y: int, n: nat)
    ensures x <= y ==> x * n <= y * n
  {
  }

  /** Queries that share a key ask for the same page, on every table. */
  lemma {:induction false} SharedKeySamePage(v: nat, p: ListQuery, w: nat, q: ListQuery, table: seq<Task>, page: Page)
    requires ListKey(v, p) == ListKey(w, q)
    ensures IsPage(p, table, page) <==> IsPage(q, table, page)
  {
    hide IsPage, Answer, ListKey;
    SharedKeySameAnswer(v, p, w, q, table);
    AnswerIsPage(p, table);
    AnswerIsPage(q, table);
    if IsPage(p, table, page) { PageIsUnique(p, table, page); }
    if IsPage(q, table, page) { PageIsUnique(q, table, page); }
  }

  /** The query for another page. */
  function ForPage(query: ListQuery, p: nat): ListQuery
    requires p >= 1
  {
    query.(page := Some(p))
  }

  /** The rows of pages 1 to `m`, one after the other. */
  function FirstPages(query: ListQuery, table: seq<Task>, m: nat): seq<Task> {
    if m == 0 then [] else FirstPages(query, table, m - 1) + Answer(ForPage(query, m), table).data
  }

  lemma {:induction false} SelectedForPage(query: ListQuery, table: seq<Task>, p: nat)
    requires p >= 1
    ensures Selected(ForPage(query, p), table) == Selected(query, table)
  {
    if table != [] { SelectedForPage(query, table[1..], p); }
  }

  lemma {:induction false} PagesJoin(query: ListQuery, table: seq<Task>, m: nat)
    ensures var all, n := Selected(query, table), m * LimitOf(query);
            FirstPages(query, table, m) == if n <= |all| then all[..n] else all
  {
    hide Selected, Window, Answer, ForPage, Before;
    if m > 0 {
      PagesJoin(query, table, m - 1);
      PageRows(query, table, m);
      OneMoreWindow(Selected(query, table), Before(m, LimitOf(query)), LimitOf(query));
      Distributes(m, LimitOf(query));
    }
  }

  lemma PageRows(query: ListQuery, table: seq<Task>, p: nat)
    requires p >= 1
    ensures Answer(ForPage(query, p), table).data ==
            Window(Selected(query, table), Before(p, LimitOf(query)), LimitOf(query))
  {
    hide Selected, Window, Answer;
    SelectedForPage(query, table, p);
    AnswerParts(ForPage(query, p), table);
    RowsAreWindow(ForPage(query, p), table);
  }

  lemma RowsAreWindow(query: ListQuery, table: seq<Task>)
    ensures Rows(query, table) == Window(Selected(query, table), Before(PageOf(query), LimitOf(query)), LimitOf(query))
  {
    hide Selected, Window;
  }

  lemma Distributes(m: nat, n: nat)
    requires m >= 1
    ensures Before(m, n) == (m - 1) * n && Before(m, n) + n == m * n
  {
  }

  lemma OneMoreWindow<T>(all: seq<T>, skip: nat, take: nat)
    ensures (if skip <= |all| then all[..skip] else all) + Window(all, skip, take) ==
            if skip + take <= |all| then all[..skip + take] else all
  {
  }

  /** All pages, in order, hold each wanted task once, in table order. */
  lemma {:induction false} PagesHoldAll(query: ListQuery, table: seq<Task>, at: seq<nat>)
    requires Picks(query, table, at)
    ensures HasTasks(FirstPages(query, table, Answer(query, table).totalPages), table, at, 0, |at|)
    ensures Answer(query, table).total == |at|
  {
    var found := SelectedPicks(query, table);
    PicksAreUnique(query, table, at, found);
    PagesNeeded(|at|, LimitOf(query));
    PagesJoin(query, table, Answer(query, table).totalPages);
  }

  /** A page shows shared tasks only. */
  lemma {:induction false} RowsAreShared(query: ListQuery, table: seq<Task>)
    ensures forall task :: task in Rows(query, table) ==> task.owner == None
  {
    hide Selected;
    var at := SelectedPicks(query, table);
    forall task | task in Rows(query, table)
      ensures task.owner == None
    {
      var k :| 0 <= k < |at| && task == Selected(query, table)[k];
    }
  }

  // ----- one task -----

  lemma {:induction false} FindIsFirst(table: seq<Task>, id: string)
    ensures Find(table, id).None? ==> forall i :: 0 <= i < |table| ==> table[i].id != id
    ensures Find(table, id).Some? ==>
              exists i :: 0 <= i < |table| && table[i] == Find(table, id).value && table[i].id == id
                && forall j :: 0 <= j < i ==> table[j].id != id
  {
    if table != [] && table[0].id != id {
      FindIsFirst(table[1..], id);
      assert forall i :: 0 < i < |table| ==> table[i] == table[1..][i - 1];
      if Find(table, id).Some? {
        var i :| 0 <= i < |table[1..]| && table[1..][i] == Find(table, id).value && table[1..][i].id == id
          && forall j :: 0 <= j < i ==> table[1..][j].id != id;
        assert table[i + 1] == table[1..][i];
        assert forall j :: 0 <= j < i + 1 ==> table[j].id != id;
      }
    }
  }

  // ----- writes -----

  /** Each field is the one asked for, or as before. */
  ghost predicate TakesFields(before: Task, after: Task, w: Write)
    requires w.Update?
  {
    && after.id == before.id && after.owner == before.owner
    && (if w.title.Some? then Some(after.title) == w.title else after.title == before.title)
    && (if w.category.Some? then Some(after.category) == w.category else after.category == before.category)
    && (if w.difficulty.Some? then Some(after.difficulty) == w.difficulty else after.difficulty == before.difficulty)
    && (if w.details.Some? then Some(after.details) == w.details else after.details == before.details)
  }

  /** An update changes the row with its id, in the fields asked for, and no other. */
  lemma {:induction false} UpdateIsExact(table: seq<Task>, w: Write)
    requires w.Update?
    ensures |Written(table, w)| == |table|
    ensures forall i :: 0 <= i < |table| ==>
              if table[i].id == w.id then TakesFields(table[i], Written(table, w)[i], w)
              else Written(table, w)[i] == table[i]
  {
  }

  /** A remove takes out the row with its id, and leaves the others in order. */
  lemma {:induction false} RemoveIsExact(before: seq<Task>, row: Task, after: seq<Task>, id: Uuid)
    requires row.id == id && forall i :: 0 <= i < |before| ==> before[i].id != id
    requires forall i :: 0 <= i < |after| ==> after[i].id != id
    ensures Written(before + [row] + after, Remove(id)) == before + after
    ensures Written(before + after, Remove(id)) == before + after
  {
    RemoveOfAbsent(before, id);
    RemoveOfAbsent(after, id);
    WithoutIdJoins(before + [row], after, id);
    WithoutIdJoins(before, [row], id);
    WithoutIdJoins(before, after, id);
    assert WithoutId([row], id) == [] && before + [] == before by { assert [row][1..] == []; }
  }

  lemma {:induction false} WithoutIdJoins(a: seq<Task>, b: seq<Task>, id: string)
    ensures WithoutId(a + b, id) == WithoutId(a, id) + WithoutId(b, id)
  {
    if a == [] {
      assert a + b == b;
    } else {
      WithoutIdJoins(a[1..], b, id);
      assert (a + b)[1..] == a[1..] + b && (a + b)[0] == a[0];
      var first := if a[0].id == id then [] else [a[0]];
      assert WithoutId(a, id) == first + WithoutId(a[1..], id);
      Associates(first, WithoutId(a[1..], id), WithoutId(b, id));
    }
  }

  lemma {:induction false} RemoveOfAbsent(table: seq<Task>, id: Uuid)
    requires forall i :: 0 <= i < |table| ==> table[i].id != id
    ensures WithoutId(table, id) == table
  {
    if table != [] { RemoveOfAbsent(table[1..], id); }
  }

  /** New rows come first, in front of all that were there. */
  lemma {:induction false} CreateIsExact(table: seq<Task>, tasks: seq<Task>, task: Task)
    ensures Written(table, CreateMany(tasks))[..|tasks|] == tasks
    ensures Written(table, CreateMany(tasks))[|tasks|..] == table
    ensures Written(table, Create(task)) == Written(table, CreateMany([task]))
  {
  }

  /** A private task comes first as well, and nothing else changes. */
  lemma {:induction false} CreatePrivateIsExact(s: State, task: Task)
    requires Enabled(s, CreatePrivate(task))
    ensures Do(s, CreatePrivate(task)) == s.(table := [task] + s.table)
  {
  }

  /** A purge takes out exactly the tasks of the owner, wherever they stand, and keeps the order. */
  lemma {:induction false} PurgeIsExact(s: State, owner: string, before: seq<Task>, after: seq<Task>)
    requires s.table == before + after
    ensures var t := Do(s, PurgePrivate(owner));
            && t == s.(table := t.table)
            && t.table == WithoutOwner(before, owner) + WithoutOwner(after, owner)
            && forall task :: task in t.table <==> task in s.table && task.owner != Some(owner)
  {
    WithoutOwnerJoins(before, after, owner);
    OwnersTasksGo(s.table, owner);
  }

  lemma {:induction false} WithoutOwnerJoins(a: seq<Task>, b: seq<Task>, owner: string)
    ensures WithoutOwner(a + b, owner) == WithoutOwner(a, owner) + WithoutOwner(b, owner)
  {
    if a == [] {
      assert a + b == b;
    } else {
      WithoutOwnerJoins(a[1..], b, owner);
      assert (a + b)[1..] == a[1..] + b && (a + b)[0] == a[0];
      var first := if a[0].owner == Some(owner) then [] else [a[0]];
      assert WithoutOwner(a, owner) == first + WithoutOwner(a[1..], owner);
      Associates(first, WithoutOwner(a[1..], owner), WithoutOwner(b, owner));
    }
  }

  lemma Associates(a: seq<Task>, b: seq<Task>, c: seq<Task>)
    ensures a + b + c == a + (b + c)
  {
  }

  lemma {:induction false} OwnersTasksGo(table: seq<Task>, owner: string)
    ensures forall task :: task in WithoutOwner(table, owner) <==> task in table && task.owner != Some(owner)
  {
    if table != [] {
      OwnersTasksGo(table[1..], owner);
      assert table == [table[0]] + table[1..];
    }
  }
}
