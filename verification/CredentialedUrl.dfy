/** redactCredentialedUrl: the userinfo of a URL is replaced before it reaches a log line. */
module CredentialedUrl {
  import opened Outcomes

  const REDACTED := "[REDACTED]"

  predicate IsLetter(c: char) { 'a' <= c <= 'z' || 'A' <= c <= 'Z' }

  predicate IsSchemeChar(c: char) { IsLetter(c) || '0' <= c <= '9' || c == '+' || c == '.' || c == '-' }

  /** White space in a regular expression: tabs, line ends and the space separators of Unicode. */
  predicate IsWhiteSpace(c: char) {
    var n := c as int;
    || 9 <= n <= 13 || n == 32 || n == 0xA0 || n == 0x1680 || 0x2000 <= n <= 0x200A
    || n == 0x2028 || n == 0x2029 || n == 0x202F || n == 0x205F || n == 0x3000 || n == 0xFEFF
  }

  predicate IsUserinfoChar(c: char) { c != '/' && c != '@' && !IsWhiteSpace(c) }

  /** The end of the run of scheme characters that starts at `i`. */
  function SchemeEnd(s: string, i: nat): (end: nat)
    requires i <= |s|
    ensures i <= end <= |s|
    ensures forall k :: i <= k < end ==> IsSchemeChar(s[k])
    ensures end < |s| ==> !IsSchemeChar(s[end])
    decreases |s| - i
  {
    if i < |s| && IsSchemeChar(s[i]) then SchemeEnd(s, i + 1) else i
  }

  function UserinfoEnd(s: string, i: nat): (end: nat)
    requires i <= |s|
    ensures i <= end <= |s|
    ensures forall k :: i <= k < end ==> IsUserinfoChar(s[k])
    ensures end < |s| ==> !IsUserinfoChar(s[end])
    decreases |s| - i
  {
    if i < |s| && IsUserinfoChar(s[i]) then UserinfoEnd(s, i + 1) else i
  }

  /** Two slashes, at least one userinfo character and an @ stand at `i`. */
  predicate AuthorityAt(s: string, i: nat) {
    && i + 2 <= |s| && s[i] == '/' && s[i + 1] == '/'
    && var end := UserinfoEnd(s, i + 2); i + 2 < end < |s| && s[end] == '@'
  }

  /** The URL pattern matches: a scheme from the start, a colon, and userinfo right after it. */
  predicate IsCredentialed(s: string) {
    && |s| > 0 && IsLetter(s[0])
    && var end := SchemeEnd(s, 0); end < |s| && s[end] == ':' && AuthorityAt(s, end + 1)
  }

  /** The first place at or after `i` where an authority stands. */
  function FirstAuthority(s: string, i: nat): (r: Option<nat>)
    requires i <= |s|
    ensures r.Some? ==> i <= r.value && AuthorityAt(s, r.value)
    ensures forall k :: i <= k && (r.Some? ==> k < r.value) ==> !AuthorityAt(s, k)
    decreases |s| - i
  {
    if i == |s| then None else if AuthorityAt(s, i) then Some(i) else FirstAuthority(s, i + 1)
  }

  function RedactCredentialedUrl(s: string): string {
    if !IsCredentialed(s) then s
    else
      var at := FirstAuthority(s, 0);
      if at.None? then s
      else s[..at.value] + ("//" + REDACTED + "@") + s[UserinfoEnd(s, at.value + 2) + 1..]
  }

  predicate IsScheme(s: string) { |s| > 0 && IsLetter(s[0]) && forall k :: 0 <= k < |s| ==> IsSchemeChar(s[k]) }

  predicate IsUserinfo(s: string) { |s| > 0 && forall k :: 0 <= k < |s| ==> IsUserinfoChar(s[k]) }

  function Url(scheme: string, userinfo: string, rest: string): string {
    scheme + "://" + userinfo + "@" + rest
  }

  lemma UrlParts(scheme: string, userinfo: string, rest: string)
    ensures var s, n := Url(scheme, userinfo, rest), |scheme|;
            && |s| == n + 3 + |userinfo| + 1 + |rest|
            && s[..n] == scheme && s[n] == ':' && s[n + 1] == '/' && s[n + 2] == '/'
            && s[n + 3..n + 3 + |userinfo|] == userinfo && s[n + 3 + |userinfo|] == '@'
            && s[n + 3 + |userinfo| + 1..] == rest
            && s[..n + 1] == scheme + ":"
            && (forall k :: 0 <= k < n ==> s[k] == scheme[k])
            && (forall k :: n + 3 <= k < n + 3 + |userinfo| ==> s[k] == userinfo[k - (n + 3)])
  {
  }

  lemma {:induction false} RunEnds(s: string, i: nat, end: nat)
    requires i <= end <= |s|
    ensures (forall k :: i <= k < end ==> IsSchemeChar(s[k])) && (end < |s| ==> !IsSchemeChar(s[end])) ==>
              SchemeEnd(s, i) == end
    ensures (forall k :: i <= k < end ==> IsUserinfoChar(s[k])) && (end < |s| ==> !IsUserinfoChar(s[end])) ==>
              UserinfoEnd(s, i) == end
  {
  }

  /** A URL's first authority is the one right after its scheme. */
  lemma UrlAuthority(scheme: string, userinfo: string, rest: string)
    requires IsScheme(scheme) && IsUserinfo(userinfo)
    ensures var s, n := Url(scheme, userinfo, rest), |scheme|;
            && IsCredentialed(s) && FirstAuthority(s, 0) == Some(n + 1)
            && UserinfoEnd(s, n + 3) == n + 3 + |userinfo|
  {
    hide Url, IsWhiteSpace, FirstAuthority;
    var s, n := Url(scheme, userinfo, rest), |scheme|;
    UrlParts(scheme, userinfo, rest);
    RunEnds(s, 0, n);
    RunEnds(s, n + 3, n + 3 + |userinfo|);
    assert AuthorityAt(s, n + 1);
    assert !IsSchemeChar('/');
    forall k | 0 <= k < n + 1
      ensures !AuthorityAt(s, k)
    {
      assert s[k] != '/';
    }
  }

  lemma Rejoined(scheme: string, userinfo: string, rest: string)
    ensures (scheme + ":") + ("//" + userinfo + "@") + rest == Url(scheme, userinfo, rest)
  {
    assert "://" == ":" + "//";
  }

  /** In every URL with userinfo, the userinfo and nothing else is replaced. */
  lemma {:induction false} UserinfoIsReplaced(scheme: string, userinfo: string, rest: string)
    requires IsScheme(scheme) && IsUserinfo(userinfo)
    ensures RedactCredentialedUrl(Url(scheme, userinfo, rest)) == Url(scheme, REDACTED, rest)
  {
    hide IsCredentialed, UserinfoEnd, FirstAuthority, IsScheme, IsUserinfo, Url;
    UrlParts(scheme, userinfo, rest);
    UrlAuthority(scheme, userinfo, rest);
    Rejoined(scheme, REDACTED, rest);
  }

  /** And what is not of that form stays as it is. */
  lemma {:induction false} CredentialedIsUrl(s: string) returns (scheme: string, userinfo: string, rest: string)
    requires IsCredentialed(s)
    ensures IsScheme(scheme) && IsUserinfo(userinfo) && s == Url(scheme, userinfo, rest)
  {
    var n := SchemeEnd(s, 0);
    var end := UserinfoEnd(s, n + 3);
    scheme, userinfo, rest := s[..n], s[n + 3..end], s[end + 1..];
    assert s[n..n + 3] == "://";
    assert s == s[..n] + s[n..n + 3] + s[n + 3..end] + [s[end]] + s[end + 1..];
  }

  // ----- what may stand in a URL -----

  /** What `\s` matches. */
  predicate Blank(c: char) {
    var n := c as int;
    || n == 9 || n == 10 || n == 11 || n == 12 || n == 13 || n == 32 || n == 160 || n == 5760 || n == 8192 || n == 8193
    || n == 8194 || n == 8195 || n == 8196 || n == 8197 || n == 8198 || n == 8199 || n == 8200 || n == 8201
    || n == 8202 || n == 8232 || n == 8233 || n == 8239 || n == 8287 || n == 12288 || n == 65279
  }

  lemma {:induction false} UserinfoCharacters(c: char)
    ensures IsUserinfoChar(c) <==> c !in {'/', '@'} && !Blank(c)
  {
    assert IsWhiteSpace(c) <==> Blank(c);
  }

  /** No slash, at sign or white space: what a user name or a password may hold. */
  predicate Bare(text: string) { forall c :: c in text ==> c !in {'/', '@'} && !Blank(c) }

  /** User and password go, the rest of the URL stays. */
  lemma {:induction false} PasswordsAreReplaced(scheme: string, user: string, password: string, rest: string)
    requires scheme != "" && ('a' <= scheme[0] <= 'z' || 'A' <= scheme[0] <= 'Z')
    requires forall c :: c in scheme ==>
              'a' <= c <= 'z' || 'A' <= c <= 'Z' || '0' <= c <= '9' || c in {'+', '.', '-'}
    requires Bare(user) && Bare(password)
    ensures RedactCredentialedUrl(scheme + "://" + user + ":" + password + "@" + rest) ==
            scheme + "://[REDACTED]@" + rest
  {
    hide RedactCredentialedUrl, IsUserinfoChar;
    var userinfo := user + ":" + password;
    assert forall k :: 0 <= k < |scheme| ==> scheme[k] in scheme;
    forall k | 0 <= k < |userinfo| ensures IsUserinfoChar(userinfo[k]) {
      UserinfoCharacters(userinfo[k]);
      assert userinfo[k] in user || userinfo[k] == ':' || userinfo[k] in password;
    }
    UserinfoIsReplaced(scheme, userinfo, rest);
    assert Url(scheme, userinfo, rest) == scheme + "://" + user + ":" + password + "@" + rest;
    assert Url(scheme, REDACTED, rest) == scheme + "://[REDACTED]@" + rest by {
      assert "://[REDACTED]@" == "://" + REDACTED + "@";
    }
  }

  lemma RedactedIsUserinfo()
    ensures IsUserinfo(REDACTED)
  {
  }

  lemma {:induction false} UrlRedactionIsIdempotent(s: string)
    ensures RedactCredentialedUrl(RedactCredentialedUrl(s)) == RedactCredentialedUrl(s)
  {
    if IsCredentialed(s) {
      var scheme, userinfo, rest := CredentialedIsUrl(s);
      RedactedIsUserinfo();
      UserinfoIsReplaced(scheme, userinfo, rest);
      UserinfoIsReplaced(scheme, REDACTED, rest);
    }
  }
}
