/** The shared task library, the list query over it, and the cache keys under which answers are kept. */
module TaskQueries {
  import opened Outcomes
  import opened LikePattern
  import opened UriEncoding

  datatype Category = Technique | Theory | Repertoire

  datatype Difficulty = Easy | Medium | Hard

  datatype Task = Task(id: string, title: string, category: Option<Category>, difficulty: Option<Difficulty>,
                       details: string, owner: Option<string>)

  datatype Query = Query(page: Option<nat>, limit: Option<nat>, category: Option<Category>,
                         difficulty: Option<Difficulty>, q: Option<string>)

  const DEFAULT_PAGE := 1
  const DEFAULT_LIMIT := 20

  function PageOf(query: Query): nat { if query.page.Some? then query.page.value else DEFAULT_PAGE }

  function LimitOf(query: Query): nat { if query.limit.Some? then query.limit.value else DEFAULT_LIMIT }

  /** What FindTasksQueryDto lets through. */
  predicate Validated(query: Query) {
    && (query.page.Some? ==> query.page.value >= 1)
    && (query.limit.Some? ==> 1 <= query.limit.value <= 100)
    && (query.q.Some? ==> 1 <= |query.q.value| <= 100)
  }

  type ListQuery = query: Query | Validated(query) witness Query(None, None, None, None, None)

  // ----- the two reads -----

  predicate Selects(query: Query, task: Task) {
    && task.owner.None?
    && (query.category.Some? ==> task.category == query.category)
    && (query.difficulty.Some? ==> task.difficulty == query.difficulty)
    && (query.q.Some? ==> Contains(task.title, EscapeLike(query.q.value)) == Some(true))
  }

  /** The table is kept newest first, which is the order of every listing. */
  function Selected(query: Query, table: seq<Task>): seq<Task> {
    if table == [] then []
    else (if Selects(query, table[0]) then [table[0]] else []) + Selected(query, table[1..])
  }

  function Window<T>(s: seq<T>, skip: nat, take: nat): seq<T> {
    if skip >= |s| then [] else if skip + take >= |s| then s[skip..] else s[skip..skip + take]
  }

  /** findMany with skip and take. */
  function Rows(query: ListQuery, table: seq<Task>): seq<Task> {
    Window(Selected(query, table), (PageOf(query) - 1) * LimitOf(query), LimitOf(query))
  }

  /** count */
  function Total(query: Query, table: seq<Task>): nat { |Selected(query, table)| }

  /** The answer of findAll. */
  datatype Page = Page(data: seq<Task>, total: nat, page: nat, limit: nat, totalPages: nat)

  function Assemble(query: ListQuery, rows: seq<Task>, total: nat): Page {
    Page(rows, total, PageOf(query), LimitOf(query), (total + LimitOf(query) - 1) / LimitOf(query))
  }

  function Answer(query: ListQuery, table: seq<Task>): Page {
    Assemble(query, Rows(query, table), Total(query, table))
  }

  // ----- the key -----

  function CategoryName(c: Option<Category>): string {
    match c
    case None => ""
    case Some(Technique) => "technique"
    case Some(Theory) => "theory"
    case Some(Repertoire) => "repertoire"
  }

  function DifficultyName(d: Option<Difficulty>): string {
    match d
    case None => ""
    case Some(Easy) => "easy"
    case Some(Medium) => "medium"
    case Some(Hard) => "hard"
  }

  function SearchPart(q: Option<string>): string {
    if q.None? then "" else EncodeUriComponent(Lower(q.value))
  }

  const VERSION_KEY := "tasks:list:version"

  /** The segments of the key template after its fixed head, separated by colons. */
  function Join(parts: seq<string>): string {
    if parts == [] then "" else if |parts| == 1 then parts[0] else parts[0] + (":" + Join(parts[1..]))
  }

  function KeyParts(version: nat, query: ListQuery): seq<string> {
    [Decimal(version), Decimal(PageOf(query)), Decimal(LimitOf(query)),
     CategoryName(query.category), DifficultyName(query.difficulty), SearchPart(query.q)]
  }

  function ListKey(version: nat, query: ListQuery): string {
    "tasks:list:v" + Join(KeyParts(version, query))
  }

  /** Task ids are UUIDs: 36 characters, hexadecimal digits and dashes. */
  predicate IsUuid(id: string) {
    |id| == 36 && forall c :: c in id ==> '0' <= c <= '9' || 'a' <= c <= 'f' || 'A' <= c <= 'F' || c == '-'
  }

  type Uuid = id: string | IsUuid(id) witness "00000000-0000-4000-8000-000000000000"

  const SOME_UUID: Uuid := "00000000-0000-4000-8000-000000000000"

  function TaskKey(id: Uuid): string { "tasks:" + id }

  /** Two queries that ask for the same thing: same page, filters, and search text up to ASCII case. */
  predicate Alike(p: Query, q: Query) {
    && PageOf(p) == PageOf(q) && LimitOf(p) == LimitOf(q) && p.category == q.category && p.difficulty == q.difficulty
    && (p.q.None? <==> q.q.None?) && (p.q.Some? ==> Lower(p.q.value) == Lower(q.q.value))
  }

  lemma {:induction false} SplitAtColon(a: string, b: string, s: string, t: string)
    requires NoColon(a) && NoColon(b) && a + (":" + s) == b + (":" + t)
    ensures a == b && s == t
  {
    var whole := a + (":" + s);
    assert whole[|a|] == ':' && whole[|b|] == ':';
    assert whole[..|a|] == a && whole[..|b|] == b;
    assert whole[|a| + 1..] == s && whole[|b| + 1..] == t;
  }

  lemma DecimalNoColon(n: nat)
    ensures NoColon(Decimal(n))
  {
    DecimalDigits(n);
  }

  lemma {:induction false} JoinInjective(a: seq<string>, b: seq<string>)
    requires |a| == |b| && Join(a) == Join(b)
    requires forall i :: 0 <= i < |a| ==> NoColon(a[i]) && NoColon(b[i])
    ensures a == b
  {
    if |a| > 1 {
      SplitAtColon(a[0], b[0], Join(a[1..]), Join(b[1..]));
      JoinInjective(a[1..], b[1..]);
      assert a == [a[0]] + a[1..] && b == [b[0]] + b[1..];
    }
  }

  lemma KeyPartsNoColon(version: nat, query: ListQuery)
    ensures forall i :: 0 <= i < 6 ==> NoColon(KeyParts(version, query)[i])
  {
    DecimalNoColon(version);
    DecimalNoColon(PageOf(query));
    DecimalNoColon(LimitOf(query));
    if query.q.Some? { EncodeNoColon(Lower(query.q.value)); }
  }

  /** Keys are equal exactly when the versions are and the queries are alike. */
  lemma {:induction false} ListKeysAreFaithful(v: nat, p: ListQuery, w: nat, q: ListQuery)
    ensures ListKey(v, p) == ListKey(w, q) <==> v == w && Alike(p, q)
  {
    if ListKey(v, p) == ListKey(w, q) {
      var a, b := KeyParts(v, p), KeyParts(w, q);
      assert ListKey(v, p)[12..] == Join(a) && ListKey(w, q)[12..] == Join(b);
      KeyPartsNoColon(v, p);
      KeyPartsNoColon(w, q);
      JoinInjective(a, b);
      assert a[0] == b[0] && a[1] == b[1] && a[2] == b[2] && a[3] == b[3] && a[4] == b[4] && a[5] == b[5];
      DecimalInjective(v, w);
      DecimalInjective(PageOf(p), PageOf(q));
      DecimalInjective(LimitOf(p), LimitOf(q));
      CategoryNamesDiffer(p.category, q.category);
      DifficultyNamesDiffer(p.difficulty, q.difficulty);
      SearchPartsDiffer(p.q, q.q);
    }
  }

  lemma CategoryNamesDiffer(c: Option<Category>, d: Option<Category>)
    requires CategoryName(c) == CategoryName(d)
    ensures c == d
  {
    assert |"technique"| == 9 && |"theory"| == 6 && |"repertoire"| == 10;
  }

  lemma DifficultyNamesDiffer(c: Option<Difficulty>, d: Option<Difficulty>)
    requires DifficultyName(c) == DifficultyName(d)
    ensures c == d
  {
    assert "easy"[0] == 'e' && "hard"[0] == 'h' && |"medium"| == 6;
  }

  lemma SearchPartsDiffer(p: Option<string>, q: Option<string>)
    requires (p.Some? ==> p.value != "") && (q.Some? ==> q.value != "")
    requires SearchPart(p) == SearchPart(q)
    ensures (p.None? <==> q.None?) && (p.Some? ==> Lower(p.value) == Lower(q.value))
  {
    if p.Some? { EncodeNoColon(Lower(p.value)); assert |Lower(p.value)| == |p.value|; }
    if q.Some? { EncodeNoColon(Lower(q.value)); assert |Lower(q.value)| == |q.value|; }
    if p.Some? && q.Some? { EncodeInjective(Lower(p.value), Lower(q.value)); }
  }

  /** A list key is neither the version key nor any task's key, and no task's key is the version key. */
  lemma {:induction false} KeyKindsDiffer(v: nat, query: ListQuery, id: Uuid)
    ensures ListKey(v, query) != VERSION_KEY
    ensures ListKey(v, query) != TaskKey(id)
    ensures TaskKey(id) != VERSION_KEY
  {
    DecimalDigits(v);
    var parts := KeyParts(v, query);
    assert Join(parts)[0] == parts[0][0];
    assert ListKey(v, query)[12] == Decimal(v)[0] && Decimal(v)[0] in Decimal(v);
    assert VERSION_KEY[12] == 'e';
    assert ListKey(v, query)[6] == 'l' && VERSION_KEY[6] == 'l' && TaskKey(id)[6] == id[0];
    assert id[0] in id;
  }

  lemma {:induction false} TaskKeysDiffer(id: Uuid, other: Uuid)
    requires TaskKey(id) == TaskKey(other)
    ensures id == other
  {
    assert TaskKey(id)[6..] == id && TaskKey(other)[6..] == other;
  }

  /** Alike queries have the same answer on every table. */
  lemma {:induction false} AlikeSelectsSame(p: ListQuery, q: ListQuery, table: seq<Task>)
    requires Alike(p, q)
    ensures Selected(p, table) == Selected(q, table)
  {
    if table != [] {
      AlikeSelectsSame(p, q, table[1..]);
      if p.q.Some? { SearchIgnoresCase(table[0].title, p.q.value, q.q.value); }
    }
  }

  /** Sharing a key is harmless: whoever shares it would have read the same. */
  lemma {:induction false} SharedKeySameAnswer(v: nat, p: ListQuery, w: nat, q: ListQuery, table: seq<Task>)
    requires ListKey(v, p) == ListKey(w, q)
    ensures v == w && Rows(p, table) == Rows(q, table) && Total(p, table) == Total(q, table)
    ensures Answer(p, table) == Answer(q, table)
  {
    ListKeysAreFaithful(v, p, w, q);
    AlikeSelectsSame(p, q, table);
  }

  // ----- private tasks -----

  lemma {:induction false} SelectedConcat(query: Query, a: seq<Task>, b: seq<Task>)
    ensures Selected(query, a + b) == Selected(query, a) + Selected(query, b)
  {
    if a == [] {
      assert a + b == b;
    } else {
      SelectedConcat(query, a[1..], b);
      assert (a + b)[1..] == a[1..] + b;
    }
  }

  lemma PrivateTaskUnselected(query: Query, a: seq<Task>, task: Task, b: seq<Task>)
    requires task.owner.Some?
    ensures Selected(query, a + [task] + b) == Selected(query, a + b)
  {
    assert Selected(query, [task]) == [] by { assert [task][1..] == []; }
    SelectedConcat(query, a, [task]);
    SelectedConcat(query, a + [task], b);
    SelectedConcat(query, a, b);
    assert Selected(query, a) + [] == Selected(query, a);
  }

  /** A private task, wherever it is inserted, changes no list answer: createPrivate need not bump. */
  lemma {:induction false} PrivateTaskInvisible(query: ListQuery, a: seq<Task>, task: Task, b: seq<Task>)
    requires task.owner.Some?
    ensures Answer(query, a + [task] + b) == Answer(query, a + b)
  {
    PrivateTaskUnselected(query, a, task, b);
  }

  /** The table once a purge has removed the private tasks of `user`. */
  function WithoutOwner(table: seq<Task>, user: string): seq<Task> {
    if table == [] then []
    else (if table[0].owner == Some(user) then [] else [table[0]]) + WithoutOwner(table[1..], user)
  }

  lemma {:induction false} PurgeInvisible(query: ListQuery, table: seq<Task>, user: string)
    ensures Selected(query, WithoutOwner(table, user)) == Selected(query, table)
    ensures Answer(query, WithoutOwner(table, user)) == Answer(query, table)
  {
    if table != [] {
      PurgeInvisible(query, table[1..], user);
      var rest := WithoutOwner(table[1..], user);
      if table[0].owner == Some(user) {
        assert WithoutOwner(table, user) == rest;
        assert Selected(query, table) == Selected(query, table[1..]);
      } else {
        assert ([table[0]] + rest)[1..] == rest;
      }
    }
  }
}
