/**
 * escapeLike and PostgreSQL's LIKE (section 9.7.1 of the PostgreSQL documentation), with the
 * backslash as the escape character. Prisma's insensitive `contains` is ILIKE on `%` + text + `%`,
 * and ILIKE folds both sides before it matches.
 */
module LikePattern {
  import opened Outcomes

  predicate IsSpecial(c: char) { c == '\\' || c == '%' || c == '_' }

  /** `value.replace(/[\\%_]/g, '\\$&')` */
  function EscapeLike(value: string): string {
    if value == "" then ""
    else (if IsSpecial(value[0]) then ['\\', value[0]] else [value[0]]) + EscapeLike(value[1..])
  }

  datatype Token = Literal(c: char) | AnyChar | AnyString

  /** A pattern as tokens; a pattern that ends in the escape character is an error. */
  function Parse(pattern: string): Option<seq<Token>> {
    if pattern == "" then Some([])
    else if pattern[0] == '\\' then
      if |pattern| == 1 then None
      else Prepend(Literal(pattern[1]), Parse(pattern[2..]))
    else if pattern[0] == '%' then Prepend(AnyString, Parse(pattern[1..]))
    else if pattern[0] == '_' then Prepend(AnyChar, Parse(pattern[1..]))
    else Prepend(Literal(pattern[0]), Parse(pattern[1..]))
  }

  function Prepend(t: Token, rest: Option<seq<Token>>): Option<seq<Token>> {
    if rest.Some? then Some([t] + rest.value) else None
  }

  /** The whole text must match; `%` takes any number of characters, none included. */
  predicate Matches(text: string, tokens: seq<Token>)
    decreases |tokens|, |text|
  {
    if tokens == [] then text == ""
    else
      match tokens[0]
      case Literal(c) => text != "" && text[0] == c && Matches(text[1..], tokens[1..])
      case AnyChar => text != "" && Matches(text[1..], tokens[1..])
      case AnyString => Matches(text, tokens[1..]) || (text != "" && Matches(text[1..], tokens))
  }

  function Like(text: string, pattern: string): Option<bool> {
    var tokens := Parse(pattern);
    if tokens.Some? then Some(Matches(text, tokens.value)) else None
  }

  function LowerChar(c: char): char {
    if 'A' <= c <= 'Z' then (c as int + 32) as char else c
  }

  function Lower(s: string): string {
    seq(|s|, i requires 0 <= i < |s| => LowerChar(s[i]))
  }

  function ILike(text: string, pattern: string): Option<bool> {
    Like(Lower(text), Lower(pattern))
  }

  /** The filter `{ contains: value, mode: 'insensitive' }`. */
  function Contains(title: string, value: string): Option<bool> {
    ILike(title, "%" + value + "%")
  }

  ghost predicate Occurs(needle: string, text: string) {
    exists i :: OccursAt(needle, text, i)
  }

  predicate OccursAt(needle: string, text: string, i: int) {
    0 <= i <= |text| - |needle| && text[i..i + |needle|] == needle
  }

  // ----- escaping -----

  function Literals(s: string): seq<Token> { seq(|s|, i requires 0 <= i < |s| => Literal(s[i])) }

  lemma LowerKeepsSpecials(c: char)
    ensures IsSpecial(LowerChar(c)) <==> IsSpecial(c)
    ensures IsSpecial(c) ==> LowerChar(c) == c
  {
  }

  /** Folding an escaped text is escaping the folded text. */
  lemma {:induction false} LowerOfEscape(q: string)
    ensures Lower(EscapeLike(q)) == EscapeLike(Lower(q))
  {
    if q != "" {
      LowerOfEscape(q[1..]);
      LowerKeepsSpecials(q[0]);
      assert Lower(q)[1..] == Lower(q[1..]);
      var head := if IsSpecial(q[0]) then ['\\', q[0]] else [q[0]];
      assert Lower(head + EscapeLike(q[1..])) == Lower(head) + Lower(EscapeLike(q[1..]));
    }
  }

  lemma ParseEscaped(c: char, tail: string)
    ensures Parse(['\\', c] + tail) == Prepend(Literal(c), Parse(tail))
  {
    assert (['\\', c] + tail)[2..] == tail;
  }

  lemma ParsePlain(c: char, tail: string)
    requires !IsSpecial(c)
    ensures Parse([c] + tail) == Prepend(Literal(c), Parse(tail))
  {
    assert ([c] + tail)[1..] == tail;
  }

  lemma ParsePercent(tail: string)
    ensures Parse("%" + tail) == Prepend(AnyString, Parse(tail))
    ensures Parse("%") == Some([AnyString])
  {
    assert ("%" + tail)[1..] == tail;
    assert "%"[1..] == "";
    assert [AnyString] + [] == [AnyString];
  }

  function Preceded(tokens: seq<Token>, rest: Option<seq<Token>>): Option<seq<Token>> {
    if rest.Some? then Some(tokens + rest.value) else None
  }

  lemma PrependPreceded(t: Token, tokens: seq<Token>, rest: Option<seq<Token>>)
    ensures Prepend(t, Preceded(tokens, rest)) == Preceded([t] + tokens, rest)
  {
    if rest.Some? { assert [t] + (tokens + rest.value) == [t] + tokens + rest.value; }
  }

  /** An escaped text parses as its own characters, whatever follows it. */
  lemma {:induction false} ParseOfEscape(q: string, rest: string)
    ensures Parse(EscapeLike(q) + rest) == Preceded(Literals(q), Parse(rest))
  {
    hide Parse;
    if q == "" {
      assert EscapeLike(q) + rest == rest;
      assert Parse(rest).Some? ==> Literals(q) + Parse(rest).value == Parse(rest).value;
    } else {
      var tail := EscapeLike(q[1..]) + rest;
      ParseOfEscape(q[1..], rest);
      EscapeStep(q, rest);
      if IsSpecial(q[0]) { ParseEscaped(q[0], tail); } else { ParsePlain(q[0], tail); }
      PrependPreceded(Literal(q[0]), Literals(q[1..]), Parse(rest));
      assert Literals(q) == [Literal(q[0])] + Literals(q[1..]);
    }
  }

  lemma EscapeStep(q: string, rest: string)
    requires q != ""
    ensures EscapeLike(q) + rest ==
            (if IsSpecial(q[0]) then ['\\', q[0]] else [q[0]]) + (EscapeLike(q[1..]) + rest)
  {
  }

  lemma {:induction false} TrailingAnyMatchesAll(text: string)
    ensures Matches(text, [AnyString])
  {
    assert [AnyString][1..] == [];
    if text != "" { TrailingAnyMatchesAll(text[1..]); }
  }

  lemma {:induction false} LiteralsMatchPrefix(text: string, q: string)
    ensures Matches(text, Literals(q) + [AnyString]) <==> q <= text
  {
    var tokens := Literals(q) + [AnyString];
    if q == "" {
      assert tokens == [AnyString];
      TrailingAnyMatchesAll(text);
    } else {
      assert tokens[0] == Literal(q[0]) && tokens[1..] == Literals(q[1..]) + [AnyString];
      if text != "" {
        LiteralsMatchPrefix(text[1..], q[1..]);
        if text[0] == q[0] && q[1..] <= text[1..] {
          assert q == [q[0]] + q[1..] && text == [text[0]] + text[1..];
        }
      }
    }
  }

  lemma {:induction false} AnywhereMatchesOccurrence(text: string, q: string)
    ensures Matches(text, [AnyString] + Literals(q) + [AnyString]) <==> Occurs(q, text)
  {
    var tokens := [AnyString] + Literals(q) + [AnyString];
    assert tokens[1..] == Literals(q) + [AnyString];
    LiteralsMatchPrefix(text, q);
    if q <= text { assert OccursAt(q, text, 0); }
    if text != "" {
      AnywhereMatchesOccurrence(text[1..], q);
      OccursInTail(q, text);
    } else if Occurs(q, text) {
      assert q == "";
    }
  }

  lemma OccursInTail(q: string, text: string)
    requires text != ""
    ensures Occurs(q, text) <==> q <= text || Occurs(q, text[1..])
  {
    if Occurs(q, text) {
      var i :| OccursAt(q, text, i);
      if i > 0 {
        assert text[1..][i - 1..i - 1 + |q|] == text[i..i + |q|];
        assert OccursAt(q, text[1..], i - 1);
      }
    }
    if Occurs(q, text[1..]) {
      var i :| OccursAt(q, text[1..], i);
      assert text[1..][i..i + |q|] == text[i + 1..i + 1 + |q|];
      assert OccursAt(q, text, i + 1);
    }
    if q <= text { assert OccursAt(q, text, 0); }
  }

  /** Searching for an escaped text finds exactly the titles that contain it, ignoring ASCII case,
      and is never a malformed pattern. */
  lemma {:induction false} EscapedSearchIsLiteral(title: string, q: string)
    ensures Contains(title, EscapeLike(q)) == Some(Occurs(Lower(q), Lower(title)))
  {
    var folded := Lower(q);
    LowerOfEscape(q);
    assert Lower("%" + EscapeLike(q) + "%") == "%" + EscapeLike(folded) + "%";
    ParseOfEscape(folded, "%");
    ParsePercent(EscapeLike(folded) + "%");
    assert "%" + EscapeLike(folded) + "%" == "%" + (EscapeLike(folded) + "%");
    assert [AnyString] + (Literals(folded) + [AnyString]) == [AnyString] + Literals(folded) + [AnyString];
    AnywhereMatchesOccurrence(Lower(title), folded);
  }

  /** Two searches that differ only in ASCII case find the same titles. */
  lemma {:induction false} SearchIgnoresCase(title: string, p: string, q: string)
    requires Lower(p) == Lower(q)
    ensures Contains(title, EscapeLike(p)) == Contains(title, EscapeLike(q))
  {
    EscapedSearchIsLiteral(title, p);
    EscapedSearchIsLiteral(title, q);
  }

  // ----- letter by letter -----

  /** Equal, or the two cases of one ASCII letter. */
  predicate SameLetter(c: char, d: char) {
    || c == d
    || ('A' <= c <= 'Z' && d as int == c as int + 32)
    || ('A' <= d <= 'Z' && c as int == d as int + 32)
  }

  lemma {:induction false} LowerForgetsCase(a: string, b: string)
    ensures Lower(a) == Lower(b) <==> |a| == |b| && forall k :: 0 <= k < |a| ==> SameLetter(a[k], b[k])
  {
    if Lower(a) == Lower(b) {
      assert |a| == |Lower(a)| == |b|;
      assert forall k :: 0 <= k < |a| ==> Lower(a)[k] == LowerChar(a[k]) && Lower(b)[k] == LowerChar(b[k]);
    }
  }

  /** `needle` stands somewhere in `text`, in whatever case. */
  ghost predicate OccursAnyCase(needle: string, text: string) {
    exists i :: AnyCaseAt(needle, text, i)
  }

  predicate AnyCaseAt(needle: string, text: string, i: int) {
    0 <= i <= |text| - |needle| && forall k :: 0 <= k < |needle| ==> SameLetter(needle[k], text[i + k])
  }

  lemma {:induction false} FoldedOccurs(needle: string, text: string)
    ensures Occurs(Lower(needle), Lower(text)) <==> OccursAnyCase(needle, text)
  {
    forall i ensures OccursAt(Lower(needle), Lower(text), i) <==> AnyCaseAt(needle, text, i) {
      if 0 <= i <= |text| - |needle| {
        var part := text[i..i + |needle|];
        assert Lower(text)[i..i + |needle|] == Lower(part);
        LowerForgetsCase(needle, part);
        assert forall k :: 0 <= k < |needle| ==> part[k] == text[i + k];
      }
    }
  }

  /** So the search finds exactly the titles in which the text stands, in whatever case. */
  lemma {:induction false} SearchFindsAnyCase(title: string, q: string)
    ensures Contains(title, EscapeLike(q)) == Some(OccursAnyCase(q, title))
  {
    EscapedSearchIsLiteral(title, q);
    FoldedOccurs(q, title);
  }

  // ----- without escaping -----

  ghost predicate Plain(q: string) {
    forall i :: 0 <= i < |q| ==> !IsSpecial(q[i])
  }

  lemma {:induction false} EscapeOfPlain(q: string)
    ensures Plain(q) <==> EscapeLike(q) == q
    ensures |EscapeLike(q)| >= |q|
    ensures |EscapeLike(q)| == |q| ==> Plain(q)
  {
    if q != "" {
      EscapeOfPlain(q[1..]);
      assert q == [q[0]] + q[1..];
      if Plain(q) { assert Plain(q[1..]); }
      if Plain(q[1..]) && !IsSpecial(q[0]) {
        forall i | 0 <= i < |q| ensures !IsSpecial(q[i]) {
          if i > 0 { assert q[i] == q[1..][i - 1]; }
        }
      }
    }
  }

  /** A shortest text the tokens match: their literals, with 'x' for each single-character wildcard. */
  function Sample(tokens: seq<Token>): string {
    if tokens == [] then ""
    else
      (match tokens[0]
       case Literal(c) => [c]
       case AnyChar => ['x']
       case AnyString => "") + Sample(tokens[1..])
  }

  lemma {:induction false} SampleMatches(tokens: seq<Token>)
    ensures Matches(Sample(tokens), tokens)
  {
    if tokens != [] {
      SampleMatches(tokens[1..]);
      assert !tokens[0].AnyString? ==> Sample(tokens)[1..] == Sample(tokens[1..]);
      assert tokens[0].AnyString? ==> Sample(tokens) == Sample(tokens[1..]);
    }
  }

  /** The shortest match of `q` + `%` is shorter than `q`, or as long and different, as soon as `q` has a
      special character. */
  lemma {:induction false} SampleOfRaw(q: string)
    ensures var tokens := Parse(q + "%");
            tokens.Some? ==> |Sample(tokens.value)| <= |q| && (!Plain(q) ==> Sample(tokens.value) != q)
    decreases |q|
  {
    var raw := q + "%";
    if q == "" {
      assert raw == "%";
      ParsePercent("");
      assert [AnyString][1..] == [];
    } else if q[0] == '\\' {
      if |q| == 1 {
        assert raw == ['\\', '%'] + "";
        ParseEscaped('%', "");
        assert [Literal('%')] + [] == [Literal('%')] && [Literal('%')][1..] == [];
      } else {
        assert raw[2..] == q[2..] + "%";
        SampleOfRaw(q[2..]);
      }
    } else {
      assert raw[1..] == q[1..] + "%";
      SampleOfRaw(q[1..]);
      if !Plain(q) && !IsSpecial(q[0]) {
        assert !Plain(q[1..]) by {
          var i :| 0 <= i < |q| && IsSpecial(q[i]);
          assert q[1..][i - 1] == q[i];
        }
        assert q == [q[0]] + q[1..];
      }
    }
  }

  /** Escaping is needed exactly for the searches with a special character: for those, and only those,
      some title is matched that does not contain the text (or the pattern is malformed). */
  lemma {:induction false} EscapingIsNeeded(q: string)
    ensures Plain(q) <==> forall title :: Contains(title, q) == Some(Occurs(Lower(q), Lower(title)))
  {
    if Plain(q) {
      EscapeOfPlain(q);
      forall title ensures Contains(title, q) == Some(Occurs(Lower(q), Lower(title))) {
        EscapedSearchIsLiteral(title, q);
      }
    } else {
      var folded := Lower(q);
      assert !Plain(folded) by {
        var i :| 0 <= i < |q| && IsSpecial(q[i]);
        LowerKeepsSpecials(q[i]);
        assert folded[i] == q[i];
      }
      assert Lower("%" + q + "%") == "%" + folded + "%";
      assert ("%" + folded + "%")[1..] == folded + "%";
      var tail := Parse(folded + "%");
      if tail.None? {
        assert Contains("", q) == None;
      } else {
        SampleOfRaw(folded);
        var title := Sample(tail.value);
        UnfoldedSample(q, title, tail.value);
      }
    }
  }

  lemma UnfoldedSample(q: string, title: string, tokens: seq<Token>)
    requires Parse(Lower(q) + "%") == Some(tokens) && title == Sample(tokens)
    requires |title| <= |q| && title != Lower(q)
    ensures Contains(title, q) != Some(Occurs(Lower(q), Lower(title)))
  {
    LowerSample(Lower(q) + "%", tokens);
    var pattern := "%" + Lower(q) + "%";
    assert Lower("%" + q + "%") == pattern && pattern[1..] == Lower(q) + "%";
    assert Parse(pattern) == Some([AnyString] + tokens);
    SampleMatches(tokens);
    assert ([AnyString] + tokens)[1..] == tokens;
    assert Contains(title, q) == Some(true);
    assert !Occurs(Lower(q), title);
  }

  /** The shortest match of a folded pattern is folded. */
  lemma {:induction false} LowerSample(pattern: string, tokens: seq<Token>)
    requires Parse(pattern) == Some(tokens) && Lower(pattern) == pattern
    ensures Lower(Sample(tokens)) == Sample(tokens)
    decreases |pattern|
  {
    if pattern != "" {
      var k := if pattern[0] == '\\' then 2 else 1;
      assert LowerChar(pattern[0]) == Lower(pattern)[0];
      if k == 2 && |pattern| > 1 { assert LowerChar(pattern[1]) == Lower(pattern)[1]; }
      if |pattern| >= k {
        assert Lower(pattern[k..]) == Lower(pattern)[k..];
        assert tokens[1..] == Parse(pattern[k..]).value;
        LowerSample(pattern[k..], tokens[1..]);
      }
    }
  }
}
