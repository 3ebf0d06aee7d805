/** What is left of a value: all that redact does not take out comes out as it went in. */
module RedactedOutput {
  import opened CredentialedUrl
  import opened Outcomes
  import opened Redaction
  import opened ValueGraph

  ghost predicate IsUrlWith(s: string, scheme: string, userinfo: string, rest: string) {
    IsScheme(scheme) && IsUserinfo(userinfo) && s == scheme + "://" + userinfo + "@" + rest
  }

  /** `x` is `s` with the userinfo replaced if `s` is a URL with one, and `s` itself otherwise. */
  ghost predicate WithoutUserinfo(s: string, x: string) {
    if exists scheme, userinfo, rest :: IsUrlWith(s, scheme, userinfo, rest) then
      exists scheme, userinfo, rest ::
        IsUrlWith(s, scheme, userinfo, rest) && x == scheme + "://" + "[REDACTED]" + "@" + rest
    else x == s
  }

  lemma {:induction false} UrlIsReplacedOnly(s: string)
    ensures WithoutUserinfo(s, RedactCredentialedUrl(s))
  {
    hide RedactCredentialedUrl, IsScheme, IsUserinfo, IsCredentialed;
    if scheme, userinfo, rest :| IsUrlWith(s, scheme, userinfo, rest) {
      UserinfoIsReplaced(scheme, userinfo, rest);
      assert s == Url(scheme, userinfo, rest);
    } else {
      UnlessUrlSame(s);
    }
  }

  lemma UnlessUrlSame(s: string)
    requires !exists scheme, userinfo, rest :: IsUrlWith(s, scheme, userinfo, rest)
    ensures RedactCredentialedUrl(s) == s
  {
    if IsCredentialed(s) {
      var scheme, userinfo, rest := CredentialedIsUrl(s);
      assert IsUrlWith(s, scheme, userinfo, rest);
    }
  }

  /** `t` shows `v`: the same numbers and lists, the same keys in the same order, texts without userinfo, and
      a marker for what a secret key holds. An object may be shown as a marker. */
  ghost predicate Shows(g: Graph, v: Value, t: Tree)
    requires Closed(g) && InGraph(g, v)
    decreases t
  {
    match v
    case Str(s) => t.Text? && WithoutUserinfo(s, t.text)
    case Prim(tag) => t == Plain(tag)
    case Ref(id) =>
      match g[id]
      case Items(items) =>
        t.List? && |t.items| == |items| && forall i :: 0 <= i < |items| ==> Shows(g, items[i], t.items[i])
      case Error(name, message, stack) =>
        && t.Record? && |t.entries| == 3
        && t.entries[0] == ("name", Text(name))
        && t.entries[1].0 == "message" && t.entries[1].1.Text? && WithoutUserinfo(message, t.entries[1].1.text)
        && t.entries[2] == ("stack", if stack.Some? then Text(stack.value) else Plain(UNDEFINED))
      case Object(entries) =>
        || t == Text("[CIRCULAR]")
        || (t.Record? && |t.entries| == |entries| && forall i :: 0 <= i < |entries| ==> ShowsEntry(g, entries[i], t, i))
  }

  ghost predicate ShowsEntry(g: Graph, entry: (string, Value), t: Tree, i: nat)
    requires Closed(g) && InGraph(g, entry.1) && t.Record? && i < |t.entries|
    decreases t, 0
  {
    && t.entries[i].0 == entry.0
    && if NamesSecret(entry.0) then t.entries[i].1 == Text("[REDACTED]") else Shows(g, entry.1, t.entries[i].1)
  }

  lemma {:induction false} RedactShows(g: Graph, v: Value, seen: set<nat>)
    requires Fine(g) && InGraph(g, v)
    ensures Shows(g, v, Redact(g, v, seen).0)
    decreases g.Keys - seen, Depth(g, v), if v.Ref? && IsArray(g, v.id) then |g[v.id].items| + 1 else 0
  {
    match v
    case Str(s) => UrlIsReplacedOnly(s);
    case Prim(_) =>
    case Ref(id) =>
      match g[id]
      case Items(items) => ItemsShow(g, id, |items|, seen);
      case Error(_, message, _) => UrlIsReplacedOnly(message);
      case Object(entries) => if id !in seen { EntriesShow(g, id, |entries|, seen + {id}); }
  }

  lemma {:induction false} ItemsShow(g: Graph, id: nat, n: nat, seen: set<nat>)
    requires Fine(g) && IsArray(g, id) && n <= |g[id].items|
    ensures forall i :: 0 <= i < n ==> Shows(g, g[id].items[i], RedactItems(g, id, n, seen).0[i])
    decreases g.Keys - seen, Depth(g, Ref(id)), n
  {
    if n > 0 {
      ItemsAreShallower(g, id);
      ItemsShow(g, id, n - 1, seen);
      RedactShows(g, g[id].items[n - 1], RedactItems(g, id, n - 1, seen).1);
    }
  }

  lemma {:induction false} EntriesShow(g: Graph, id: nat, n: nat, seen: set<nat>)
    requires Fine(g) && IsObject(g, id) && n <= |g[id].entries|
    ensures forall i :: 0 <= i < n ==>
              ShowsEntry(g, g[id].entries[i], Record(RedactEntries(g, id, n, seen).0), i)
    decreases g.Keys - seen, |g| + 1, n
  {
    if n > 0 {
      EntriesShow(g, id, n - 1, seen);
      var front, entry := RedactEntries(g, id, n - 1, seen), g[id].entries[n - 1];
      var t := Record(RedactEntries(g, id, n, seen).0);
      forall i | 0 <= i < n - 1 ensures ShowsEntry(g, g[id].entries[i], t, i) {
        assert ShowsEntry(g, g[id].entries[i], Record(front.0), i);
        assert t.entries[i] == front.0[i];
      }
      SensitiveIff(entry.0);
      if !Sensitive(entry.0) {
        DepthIsBounded(g, entry.1);
        RedactShows(g, entry.1, front.1);
      }
    }
  }

  /** On every graph on which redact ends, the output shows the value. */
  lemma {:induction false} OutputShowsValue(g: Graph, v: Value)
    requires Fine(g) && InGraph(g, v)
    ensures Shows(g, v, Redact(g, v, {}).0)
  {
    RedactShows(g, v, {});
  }
}
