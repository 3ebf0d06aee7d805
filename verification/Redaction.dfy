/**
 * redaction.util.ts: what is taken out of a value before it reaches a log line. The value is a node of a
 * graph; what comes out is a tree.
 */
module Redaction {
  import LikePattern
  import opened CredentialedUrl
  import opened Outcomes
  import opened ValueGraph

  const CIRCULAR := "[CIRCULAR]"

  datatype Tree = Text(text: string) | Plain(tag: int) | List(items: seq<Tree>) | Record(entries: seq<(string, Tree)>)

  const UNDEFINED := 0

  const SENSITIVE := ["password", "passwd", "secret", "token", "authorization", "cookie", "apikey", "api-key",
                      "api_key", "credential", "jwt"]

  predicate ContainsFrom(needle: string, text: string, i: nat)
    decreases |text| - i
  {
    if i + |needle| > |text| then false
    else text[i..i + |needle|] == needle || ContainsFrom(needle, text, i + 1)
  }

  /** The key pattern, which ignores ASCII case. */
  predicate Sensitive(key: string) {
    exists k :: 0 <= k < |SENSITIVE| && ContainsFrom(SENSITIVE[k], LikePattern.Lower(key), 0)
  }

  // ----- redact -----

  function ErrorRecord(node: Node): Tree
    requires node.Error?
  {
    Record([("name", Text(node.name)), ("message", Text(RedactCredentialedUrl(node.message))),
            ("stack", if node.stack.Some? then Text(node.stack.value) else Plain(UNDEFINED))])
  }

  /** The output for `v`, and the objects seen after it; `seen` only grows. It ends on every closed graph
      in which no cycle is made of arrays alone. */
  function Redact(g: Graph, v: Value, seen: set<nat>): (r: (Tree, set<nat>))
    requires Fine(g) && InGraph(g, v)
    ensures seen <= r.1
    decreases g.Keys - seen, Depth(g, v), if v.Ref? && IsArray(g, v.id) then |g[v.id].items| + 1 else 0
  {
    match v
    case Str(s) => (Text(RedactCredentialedUrl(s)), seen)
    case Prim(tag) => (Plain(tag), seen)
    case Ref(id) =>
      match g[id]
      case Items(items) =>
        var r := RedactItems(g, id, |items|, seen);
        (List(r.0), r.1)
      case Error(_, _, _) => (ErrorRecord(g[id]), seen)
      case Object(entries) =>
        if id in seen then (Text(CIRCULAR), seen)
        else
          var r := RedactEntries(g, id, |entries|, seen + {id});
          (Record(r.0), r.1)
  }

  /** The first `n` items of an array. */
  function RedactItems(g: Graph, id: nat, n: nat, seen: set<nat>): (r: (seq<Tree>, set<nat>))
    requires Fine(g) && IsArray(g, id) && n <= |g[id].items|
    ensures seen <= r.1 && |r.0| == n
    decreases g.Keys - seen, Depth(g, Ref(id)), n
  {
    if n == 0 then ([], seen)
    else
      ItemsAreShallower(g, id);
      var front := RedactItems(g, id, n - 1, seen);
      var last := Redact(g, g[id].items[n - 1], front.1);
      (front.0 + [last.0], last.1)
  }

  /** The first `n` entries of an object; the value under a sensitive key is not looked at. */
  function RedactEntries(g: Graph, id: nat, n: nat, seen: set<nat>): (r: (seq<(string, Tree)>, set<nat>))
    requires Fine(g) && IsObject(g, id) && n <= |g[id].entries|
    ensures seen <= r.1 && |r.0| == n
    decreases g.Keys - seen, |g| + 1, n
  {
    if n == 0 then ([], seen)
    else
      var front := RedactEntries(g, id, n - 1, seen);
      var (key, value) := g[id].entries[n - 1];
      if Sensitive(key) then (front.0 + [(key, Text(REDACTED))], front.1)
      else
        DepthIsBounded(g, value);
        var last := Redact(g, value, front.1);
        (front.0 + [(key, last.0)], last.1)
  }

  class WeakSet {
    var ids: set<nat>

    constructor ()
      ensures ids == {}
    {
      ids := {};
    }
  }

  /** redact, with the set that all its recursive calls share and add to. */
  method RedactValue(g: Graph, v: Value, seen: WeakSet) returns (output: Tree)
    requires Fine(g) && InGraph(g, v)
    modifies seen
    ensures (output, seen.ids) == Redact(g, v, old(seen.ids))
    decreases g.Keys - seen.ids, Depth(g, v)
  {
    if v.Str? { return Text(RedactCredentialedUrl(v.text)); }
    if v.Prim? { return Plain(v.tag); }
    var node := g[v.id];
    ghost var before := seen.ids;
    match node
    case Items(items) =>
      var outputs: seq<Tree> := [];
      for i := 0 to |items|
        invariant (outputs, seen.ids) == RedactItems(g, v.id, i, before)
      {
        ItemsAreShallower(g, v.id);
        var item := RedactValue(g, items[i], seen);
        outputs := outputs + [item];
      }
      output := List(outputs);
    case Error(_, _, _) =>
      output := ErrorRecord(node);
    case Object(entries) =>
      if v.id in seen.ids { return Text(CIRCULAR); }
      seen.ids := seen.ids + {v.id};
      var outputs: seq<(string, Tree)> := [];
      for i := 0 to |entries|
        invariant (outputs, seen.ids) == RedactEntries(g, v.id, i, before + {v.id})
      {
        var key, value := entries[i].0, entries[i].1;
        var entry := Text(REDACTED);
        if !Sensitive(key) {
          entry := RedactValue(g, value, seen);
        }
        outputs := outputs + [(key, entry)];
      }
      output := Record(outputs);
  }

  // ----- which keys are sensitive -----

  /** The words of the key pattern; between api and key there may be a dash or an underscore. */
  ghost predicate IsSecretWord(word: string) {
    || word == "password" || word == "passwd" || word == "secret" || word == "token" || word == "authorization"
    || word == "cookie" || word == "credential" || word == "jwt"
    || exists mark :: (mark == "" || mark == "-" || mark == "_") && word == "api" + mark + "key"
  }

  /** One of the words stands somewhere in the key, in whatever case. */
  ghost predicate NamesSecret(key: string) {
    exists word :: IsSecretWord(word) && LikePattern.OccursAnyCase(word, key)
  }

  lemma {:induction false} ContainsIffOccurs(needle: string, text: string, i: nat)
    ensures ContainsFrom(needle, text, i) <==> exists k :: i <= k && LikePattern.OccursAt(needle, text, k)
    decreases |text| - i
  {
    if i + |needle| <= |text| {
      ContainsIffOccurs(needle, text, i + 1);
      assert LikePattern.OccursAt(needle, text, i) <==> text[i..i + |needle|] == needle;
    }
  }

  lemma SecretWords(word: string)
    ensures word in SENSITIVE <==> IsSecretWord(word)
  {
    assert "api" + "" + "key" == "apikey" && "api" + "-" + "key" == "api-key" && "api" + "_" + "key" == "api_key";
    if IsSecretWord(word) {
      assert SENSITIVE[0] == "password" && SENSITIVE[1] == "passwd" && SENSITIVE[2] == "secret";
      assert SENSITIVE[3] == "token" && SENSITIVE[4] == "authorization" && SENSITIVE[5] == "cookie";
      assert SENSITIVE[6] == "apikey" && SENSITIVE[7] == "api-key" && SENSITIVE[8] == "api_key";
      assert SENSITIVE[9] == "credential" && SENSITIVE[10] == "jwt";
    }
  }

  lemma WordsAreFolded(k: nat)
    requires k < |SENSITIVE|
    ensures LikePattern.Lower(SENSITIVE[k]) == SENSITIVE[k]
  {
    forall i | 0 <= i < |SENSITIVE[k]| ensures LikePattern.LowerChar(SENSITIVE[k][i]) == SENSITIVE[k][i] {
    }
  }

  /** A key is sensitive if and only if a word of the pattern stands in it, in whatever case. */
  lemma {:induction false} SensitiveIff(key: string)
    ensures Sensitive(key) <==> NamesSecret(key)
  {
    var folded := LikePattern.Lower(key);
    forall k | 0 <= k < |SENSITIVE|
      ensures ContainsFrom(SENSITIVE[k], folded, 0) <==> LikePattern.OccursAnyCase(SENSITIVE[k], key)
    {
      WordsAreFolded(k);
      LikePattern.FoldedOccurs(SENSITIVE[k], key);
      ContainsIffOccurs(SENSITIVE[k], folded, 0);
    }
    if Sensitive(key) {
      var k :| 0 <= k < |SENSITIVE| && ContainsFrom(SENSITIVE[k], folded, 0);
      SecretWords(SENSITIVE[k]);
    }
    if NamesSecret(key) {
      var word :| IsSecretWord(word) && LikePattern.OccursAnyCase(word, key);
      SecretWords(word);
    }
  }

  /** Case makes no difference: `Password` and `accessToken` are as sensitive as their folded forms. */
  lemma {:induction false} SensitiveIgnoresCase(a: string, b: string)
    requires |a| == |b| && forall k :: 0 <= k < |a| ==> LikePattern.SameLetter(a[k], b[k])
    ensures Sensitive(a) <==> Sensitive(b)
  {
    LikePattern.LowerForgetsCase(a, b);
  }

  // ----- nothing sensitive gets through -----

  /** At no depth is there a sensitive key with any value other than the marker. */
  predicate Safe(t: Tree) {
    match t
    case Text(_) => true
    case Plain(_) => true
    case List(items) => forall i :: 0 <= i < |items| ==> Safe(items[i])
    case Record(entries) =>
      forall i :: 0 <= i < |entries| ==>
        Safe(entries[i].1) && (Sensitive(entries[i].0) ==> entries[i].1 == Text(REDACTED))
  }

  /** The first two letters of a needle show wherever it occurs. */
  lemma {:induction false} StartsSomewhere(needle: string, text: string, i: nat) returns (k: nat)
    requires |needle| >= 2 && ContainsFrom(needle, text, i)
    ensures k + 1 < |text| && text[k] == needle[0] && text[k + 1] == needle[1]
    decreases |text| - i
  {
    if text[i..i + |needle|] == needle {
      k := i;
      assert text[i] == text[i..i + |needle|][0] && text[i + 1] == text[i..i + |needle|][1];
    } else {
      k := StartsSomewhere(needle, text, i + 1);
    }
  }

  predicate Opening(a: char, b: char) {
    || (a == 'p' && b == 'a') || (a == 's' && b == 'e') || (a == 't' && b == 'o')
    || (a == 'a' && (b == 'u' || b == 'p'))
    || (a == 'c' && (b == 'o' || b == 'r')) || (a == 'j' && b == 'w')
  }

  predicate OpensAt(text: string, k: nat) { k + 1 < |text| && Opening(text[k], text[k + 1]) }

  lemma NotSensitive(key: string)
    requires forall k :: 0 <= k < |key| ==> 'a' <= key[k] <= 'z' && !OpensAt(key, k)
    ensures !Sensitive(key)
  {
    var text := LikePattern.Lower(key);
    forall n | 0 <= n < |SENSITIVE|
      ensures !ContainsFrom(SENSITIVE[n], text, 0)
    {
      assert Opening(SENSITIVE[n][0], SENSITIVE[n][1]);
      if ContainsFrom(SENSITIVE[n], text, 0) {
        var _ := StartsSomewhere(SENSITIVE[n], text, 0);
      }
    }
  }

  lemma ErrorRecordIsSafe(node: Node)
    requires node.Error?
    ensures Safe(ErrorRecord(node))
  {
    NotSensitive("name");
    NotSensitive("message");
    NotSensitive("stack");
  }

  /** On every graph, cyclic or shared as it may be. */
  lemma {:induction false} RedactIsSafe(g: Graph, v: Value, seen: set<nat>)
    requires Fine(g) && InGraph(g, v)
    ensures Safe(Redact(g, v, seen).0)
    decreases g.Keys - seen, Depth(g, v), if v.Ref? && IsArray(g, v.id) then |g[v.id].items| + 1 else 0
  {
    if v.Ref? {
      match g[v.id]
      case Items(items) => ItemsAreSafe(g, v.id, |items|, seen);
      case Error(_, _, _) => ErrorRecordIsSafe(g[v.id]);
      case Object(entries) => if v.id !in seen { EntriesAreSafe(g, v.id, |entries|, seen + {v.id}); }
    }
  }

  lemma {:induction false} ItemsAreSafe(g: Graph, id: nat, n: nat, seen: set<nat>)
    requires Fine(g) && IsArray(g, id) && n <= |g[id].items|
    ensures Safe(List(RedactItems(g, id, n, seen).0))
    decreases g.Keys - seen, Depth(g, Ref(id)), n
  {
    if n > 0 {
      ItemsAreShallower(g, id);
      var front := RedactItems(g, id, n - 1, seen);
      ItemsAreSafe(g, id, n - 1, seen);
      RedactIsSafe(g, g[id].items[n - 1], front.1);
      assert Safe(List(front.0));
    }
  }

  lemma {:induction false} EntriesAreSafe(g: Graph, id: nat, n: nat, seen: set<nat>)
    requires Fine(g) && IsObject(g, id) && n <= |g[id].entries|
    ensures Safe(Record(RedactEntries(g, id, n, seen).0))
    decreases g.Keys - seen, |g| + 1, n
  {
    if n > 0 {
      var front := RedactEntries(g, id, n - 1, seen);
      EntriesAreSafe(g, id, n - 1, seen);
      var key, value := g[id].entries[n - 1].0, g[id].entries[n - 1].1;
      if !Sensitive(key) {
        DepthIsBounded(g, value);
        RedactIsSafe(g, value, front.1);
      }
      assert Safe(Record(front.0));
    }
  }

  /** At no depth has a key that names a secret any value other than the marker's text. */
  ghost predicate KeepsSecrets(t: Tree) {
    match t
    case Text(_) => true
    case Plain(_) => true
    case List(items) => forall i :: 0 <= i < |items| ==> KeepsSecrets(items[i])
    case Record(entries) =>
      forall i :: 0 <= i < |entries| ==>
        KeepsSecrets(entries[i].1) && (NamesSecret(entries[i].0) ==> entries[i].1 == Text("[REDACTED]"))
  }

  lemma {:induction false} SafeKeepsSecrets(t: Tree)
    ensures Safe(t) <==> KeepsSecrets(t)
  {
    match t
    case Text(_) =>
    case Plain(_) =>
    case List(items) =>
      forall i | 0 <= i < |items| ensures Safe(items[i]) <==> KeepsSecrets(items[i]) { SafeKeepsSecrets(items[i]); }
    case Record(entries) =>
      forall i | 0 <= i < |entries|
        ensures Safe(entries[i].1) <==> KeepsSecrets(entries[i].1)
        ensures Sensitive(entries[i].0) <==> NamesSecret(entries[i].0)
      {
        SafeKeepsSecrets(entries[i].1);
        SensitiveIff(entries[i].0);
      }
  }

  /** The redacted value of every graph is safe. */
  lemma {:induction false} RedactionIsComplete(g: Graph, v: Value)
    requires Fine(g) && InGraph(g, v)
    ensures Safe(Redact(g, v, {}).0) && KeepsSecrets(Redact(g, v, {}).0)
  {
    RedactIsSafe(g, v, {});
    SafeKeepsSecrets(Redact(g, v, {}).0);
  }

  // ----- a second pass changes nothing -----

  /** Safe, and with no credentials left in any string outside sensitive keys. */
  predicate Clean(t: Tree) {
    match t
    case Text(s) => !IsCredentialed(s) || RedactCredentialedUrl(s) == s
    case Plain(_) => true
    case List(items) => forall i :: 0 <= i < |items| ==> Clean(items[i])
    case Record(entries) =>
      forall i :: 0 <= i < |entries| ==>
        if Sensitive(entries[i].0) then entries[i].1 == Text(REDACTED) else Clean(entries[i].1)
  }

  ghost predicate NoErrors(g: Graph) { forall id :: id in g ==> !g[id].Error? }

  lemma {:induction false} RedactIsClean(g: Graph, v: Value, seen: set<nat>)
    requires Fine(g) && InGraph(g, v) && NoErrors(g)
    ensures Clean(Redact(g, v, seen).0)
    decreases g.Keys - seen, Depth(g, v), if v.Ref? && IsArray(g, v.id) then |g[v.id].items| + 1 else 0
  {
    match v
    case Str(s) => UrlRedactionIsIdempotent(s);
    case Prim(_) =>
    case Ref(id) =>
      match g[id]
      case Items(items) => ItemsAreClean(g, id, |items|, seen);
      case Error(_, _, _) =>
      case Object(entries) => if id !in seen { EntriesAreClean(g, id, |entries|, seen + {id}); }
  }

  lemma {:induction false} ItemsAreClean(g: Graph, id: nat, n: nat, seen: set<nat>)
    requires Fine(g) && NoErrors(g) && IsArray(g, id) && n <= |g[id].items|
    ensures Clean(List(RedactItems(g, id, n, seen).0))
    decreases g.Keys - seen, Depth(g, Ref(id)), n
  {
    if n > 0 {
      ItemsAreShallower(g, id);
      var front := RedactItems(g, id, n - 1, seen);
      ItemsAreClean(g, id, n - 1, seen);
      RedactIsClean(g, g[id].items[n - 1], front.1);
      assert Clean(List(front.0));
    }
  }

  lemma {:induction false} EntriesAreClean(g: Graph, id: nat, n: nat, seen: set<nat>)
    requires Fine(g) && NoErrors(g) && IsObject(g, id) && n <= |g[id].entries|
    ensures Clean(Record(RedactEntries(g, id, n, seen).0))
    decreases g.Keys - seen, |g| + 1, n
  {
    if n > 0 {
      var front := RedactEntries(g, id, n - 1, seen);
      EntriesAreClean(g, id, n - 1, seen);
      var key, value := g[id].entries[n - 1].0, g[id].entries[n - 1].1;
      if !Sensitive(key) {
        DepthIsBounded(g, value);
        RedactIsClean(g, value, front.1);
      }
      assert Clean(Record(front.0));
    }
  }

  /** Reads `v` as the tree `t`, meeting no object twice: the objects met so far and here, or nothing if
      `v` is not such a tree. */
  function Unfold(g: Graph, v: Value, t: Tree, seen: set<nat>): Option<set<nat>>
    decreases t, 1, 0
  {
    match t
    case Text(s) => if v == Str(s) then Some(seen) else None
    case Plain(tag) => if v == Prim(tag) then Some(seen) else None
    case List(items) =>
      if v.Ref? && IsArray(g, v.id) && |g[v.id].items| == |items| then UnfoldItems(g, v.id, t, |items|, seen) else None
    case Record(entries) =>
      if v.Ref? && IsObject(g, v.id) && |g[v.id].entries| == |entries| && v.id !in seen
      then UnfoldEntries(g, v.id, t, |entries|, seen + {v.id}) else None
  }

  function UnfoldItems(g: Graph, id: nat, t: Tree, n: nat, seen: set<nat>): Option<set<nat>>
    requires IsArray(g, id) && t.List? && n <= |g[id].items| == |t.items|
    decreases t, 0, n
  {
    if n == 0 then Some(seen)
    else
      var front := UnfoldItems(g, id, t, n - 1, seen);
      if front.None? then None else Unfold(g, g[id].items[n - 1], t.items[n - 1], front.value)
  }

  function UnfoldEntries(g: Graph, id: nat, t: Tree, n: nat, seen: set<nat>): Option<set<nat>>
    requires IsObject(g, id) && t.Record? && n <= |g[id].entries| == |t.entries|
    decreases t, 0, n
  {
    if n == 0 then Some(seen)
    else
      var front := UnfoldEntries(g, id, t, n - 1, seen);
      var entry := g[id].entries[n - 1];
      if front.None? || entry.0 != t.entries[n - 1].0 then None
      else Unfold(g, entry.1, t.entries[n - 1].1, front.value)
  }

  /** `v` holds the tree `t` with a new object for every record in it. */
  predicate Holds(g: Graph, v: Value, t: Tree) { Unfold(g, v, t, {}).Some? }

  lemma {:induction false} CleanIsUnchanged(g: Graph, v: Value, t: Tree, seen: set<nat>)
    requires Fine(g) && InGraph(g, v) && Clean(t) && Unfold(g, v, t, seen).Some?
    ensures Redact(g, v, seen) == (t, Unfold(g, v, t, seen).value)
    decreases t, 1, 0
  {
    match t
    case Text(_) =>
    case Plain(_) =>
    case List(items) =>
      CleanItemsUnchanged(g, v.id, t, |items|, seen);
      assert items[..|items|] == items;
    case Record(entries) =>
      CleanEntriesUnchanged(g, v.id, t, |entries|, seen + {v.id});
      assert entries[..|entries|] == entries;
  }

  lemma {:induction false} CleanItemsUnchanged(g: Graph, id: nat, t: Tree, n: nat, seen: set<nat>)
    requires Fine(g) && IsArray(g, id) && t.List? && Clean(t) && n <= |g[id].items| == |t.items|
    requires UnfoldItems(g, id, t, n, seen).Some?
    ensures RedactItems(g, id, n, seen) == (t.items[..n], UnfoldItems(g, id, t, n, seen).value)
    decreases t, 0, n
  {
    if n > 0 {
      ItemsAreShallower(g, id);
      CleanItemsUnchanged(g, id, t, n - 1, seen);
      assert t.items[..n] == t.items[..n - 1] + [t.items[n - 1]];
      CleanIsUnchanged(g, g[id].items[n - 1], t.items[n - 1], UnfoldItems(g, id, t, n - 1, seen).value);
    }
  }

  lemma {:induction false} CleanEntriesUnchanged(g: Graph, id: nat, t: Tree, n: nat, seen: set<nat>)
    requires Fine(g) && IsObject(g, id) && t.Record? && Clean(t) && n <= |g[id].entries| == |t.entries|
    requires UnfoldEntries(g, id, t, n, seen).Some?
    ensures RedactEntries(g, id, n, seen) == (t.entries[..n], UnfoldEntries(g, id, t, n, seen).value)
    decreases t, 0, n
  {
    if n > 0 {
      CleanEntriesUnchanged(g, id, t, n - 1, seen);
      assert t.entries[..n] == t.entries[..n - 1] + [t.entries[n - 1]];
      var before, entry := UnfoldEntries(g, id, t, n - 1, seen).value, g[id].entries[n - 1];
      if Sensitive(entry.0) {
        assert t.entries[n - 1] == (entry.0, Text(REDACTED));
      } else {
        DepthIsBounded(g, entry.1);
        CleanIsUnchanged(g, entry.1, t.entries[n - 1].1, before);
        assert t.entries[n - 1] == (entry.0, t.entries[n - 1].1);
      }
    }
  }

  /** On values without Error objects, redacting the output again gives the same output. */
  lemma {:induction false} RedactionIsIdempotent(g: Graph, v: Value, again: Graph, w: Value)
    requires Fine(g) && InGraph(g, v) && NoErrors(g)
    requires Fine(again) && InGraph(again, w) && Holds(again, w, Redact(g, v, {}).0)
    ensures Redact(again, w, {}).0 == Redact(g, v, {}).0
  {
    RedactIsClean(g, v, {});
    CleanIsUnchanged(again, w, Redact(g, v, {}).0, {});
  }
}
