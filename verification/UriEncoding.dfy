/**
 * encodeURIComponent (section 19.2.6 of ECMA-262) on strings of Unicode scalar values, and the
 * decimal rendering of a number: both are injective and neither produces a colon.
 */
module UriEncoding {
  type Byte = b: int | 0 <= b < 256

  /** The characters that stand for themselves. */
  predicate Unreserved(c: char) {
    'A' <= c <= 'Z' || 'a' <= c <= 'z' || '0' <= c <= '9' ||
    c == '-' || c == '_' || c == '.' || c == '!' || c == '~' || c == '*' || c == '\'' || c == '(' || c == ')'
  }

  /** The UTF-8 form of a scalar value. */
  function Utf8(n: nat): seq<Byte>
    requires n < 0x110000
  {
    if n < 0x80 then [n]
    else if n < 0x800 then [0xC0 + n / 64, 0x80 + n % 64]
    else if n < 0x10000 then [0xE0 + n / 4096, 0x80 + n / 64 % 64, 0x80 + n % 64]
    else [0xF0 + n / 262144, 0x80 + n / 4096 % 64, 0x80 + n / 64 % 64, 0x80 + n % 64]
  }

  function HexDigit(d: nat): char
    requires d < 16
  {
    "0123456789ABCDEF"[d]
  }

  function Percent(b: Byte): string { ['%', HexDigit(b / 16), HexDigit(b % 16)] }

  function PercentAll(bytes: seq<Byte>): string {
    if bytes == [] then "" else Percent(bytes[0]) + PercentAll(bytes[1..])
  }

  function EncodeChar(c: char): string {
    if Unreserved(c) then [c] else PercentAll(Utf8(c as int))
  }

  function EncodeUriComponent(s: string): string {
    if s == "" then "" else EncodeChar(s[0]) + EncodeUriComponent(s[1..])
  }

  /** Digits are upper case, as the standard has them. */
  lemma {:induction false} HexDigitValue(d: nat)
    requires d < 16
    ensures if d < 10 then HexDigit(d) as int == '0' as int + d else HexDigit(d) as int == 'A' as int + d - 10
  {
    assert "0123456789ABCDEF"[10] == 'A' && "0123456789ABCDEF"[15] == 'F';
  }

  // ----- injectivity -----

  lemma HexDigitInjective(a: nat, b: nat)
    requires a < 16 && b < 16 && HexDigit(a) == HexDigit(b)
    ensures a == b
  {
  }

  lemma {:induction false} PercentInjective(a: Byte, b: Byte, s: string, t: string)
    requires Percent(a) + s == Percent(b) + t
    ensures a == b && s == t
  {
    var whole := Percent(a) + s;
    assert whole[1] == HexDigit(a / 16) == HexDigit(b / 16) && whole[2] == HexDigit(a % 16) == HexDigit(b % 16);
    HexDigitInjective(a / 16, b / 16);
    HexDigitInjective(a % 16, b % 16);
    assert whole[3..] == s && whole[3..] == t;
  }

  /** The first byte tells how many follow. */
  function LengthFrom(first: Byte): nat {
    if first < 0x80 then 1 else if first < 0xE0 then 2 else if first < 0xF0 then 3 else 4
  }

  lemma Utf8Length(n: nat)
    requires n < 0x110000
    ensures |Utf8(n)| == LengthFrom(Utf8(n)[0])
  {
  }

  /** The scalar value a well-formed byte sequence stands for. */
  function FromUtf8(bytes: seq<int>): int
    requires 1 <= |bytes| <= 4
  {
    if |bytes| == 1 then bytes[0]
    else if |bytes| == 2 then (bytes[0] - 0xC0) * 64 + (bytes[1] - 0x80)
    else if |bytes| == 3 then (bytes[0] - 0xE0) * 4096 + (bytes[1] - 0x80) * 64 + (bytes[2] - 0x80)
    else (bytes[0] - 0xF0) * 262144 + (bytes[1] - 0x80) * 4096 + (bytes[2] - 0x80) * 64 + (bytes[3] - 0x80)
  }

  lemma {:induction false} Utf8RoundTrip(n: nat)
    requires n < 0x110000
    ensures FromUtf8(Utf8(n)) == n
  {
    assert n / 64 / 64 == n / 4096;
    assert n / 4096 / 64 == n / 262144;
  }

  lemma {:induction false} PercentAllInjective(a: seq<Byte>, b: seq<Byte>, s: string, t: string)
    requires |a| == |b| && PercentAll(a) + s == PercentAll(b) + t
    ensures a == b && s == t
  {
    if a == [] {
      assert PercentAll(a) + s == s && PercentAll(b) + t == t;
    } else {
      PercentStep(a, s);
      PercentStep(b, t);
      PercentInjective(a[0], b[0], PercentAll(a[1..]) + s, PercentAll(b[1..]) + t);
      PercentAllInjective(a[1..], b[1..], s, t);
      assert a == [a[0]] + a[1..] && b == [b[0]] + b[1..];
    }
  }

  lemma PercentStep(a: seq<Byte>, s: string)
    requires a != []
    ensures PercentAll(a) + s == Percent(a[0]) + (PercentAll(a[1..]) + s)
  {
  }

  /** No encoded character is the beginning of another's encoding. */
  lemma {:induction false} EncodeCharPrefixFree(c: char, d: char, s: string, t: string)
    requires EncodeChar(c) + s == EncodeChar(d) + t
    ensures c == d && s == t
  {
    var whole := EncodeChar(c) + s;
    EncodeCharHead(c);
    EncodeCharHead(d);
    assert whole[0] == EncodeChar(c)[0] == EncodeChar(d)[0];
    if Unreserved(c) {
      assert whole[1..] == s && whole[1..] == t;
    } else {
      var a, b := Utf8(c as int), Utf8(d as int);
      PercentStep(a, s);
      PercentStep(b, t);
      PercentInjective(a[0], b[0], PercentAll(a[1..]) + s, PercentAll(b[1..]) + t);
      Utf8Length(c as int);
      Utf8Length(d as int);
      PercentAllInjective(a, b, s, t);
      Utf8RoundTrip(c as int);
      Utf8RoundTrip(d as int);
    }
  }

  lemma EncodeCharHead(c: char)
    ensures EncodeChar(c) != ""
    ensures if Unreserved(c) then EncodeChar(c) == [c] && c != '%' else EncodeChar(c)[0] == '%'
  {
  }

  /** Different texts have different encodings. */
  lemma {:induction false} EncodeInjective(s: string, t: string)
    requires EncodeUriComponent(s) == EncodeUriComponent(t)
    ensures s == t
  {
    if s == "" || t == "" {
      if s != "" { EncodeCharHead(s[0]); }
      if t != "" { EncodeCharHead(t[0]); }
    } else {
      EncodeCharPrefixFree(s[0], t[0], EncodeUriComponent(s[1..]), EncodeUriComponent(t[1..]));
      EncodeInjective(s[1..], t[1..]);
      assert s == [s[0]] + s[1..] && t == [t[0]] + t[1..];
    }
  }

  predicate NoColon(s: string) { ':' !in s }

  lemma {:induction false} PercentAllNoColon(bytes: seq<Byte>)
    ensures NoColon(PercentAll(bytes))
  {
    if bytes != [] { PercentAllNoColon(bytes[1..]); }
  }

  lemma {:induction false} EncodeNoColon(s: string)
    ensures NoColon(EncodeUriComponent(s))
    ensures EncodeUriComponent(s) == "" <==> s == ""
  {
    if s != "" {
      EncodeNoColon(s[1..]);
      EncodeCharHead(s[0]);
      if !Unreserved(s[0]) { PercentAllNoColon(Utf8(s[0] as int)); }
    }
  }

  // ----- decimal numbers -----

  function Digit(d: nat): char
    requires d < 10
  {
    "0123456789"[d]
  }

  function Decimal(n: nat): string {
    if n < 10 then [Digit(n)] else Decimal(n / 10) + [Digit(n % 10)]
  }

  predicate IsDigit(c: char) { '0' <= c <= '9' }

  lemma {:induction false} DecimalDigits(n: nat)
    ensures Decimal(n) != "" && forall c :: c in Decimal(n) ==> IsDigit(c)
  {
    if n >= 10 { DecimalDigits(n / 10); }
  }

  lemma {:induction false} DecimalInjective(m: nat, n: nat)
    requires Decimal(m) == Decimal(n)
    ensures m == n
  {
    DecimalDigits(m / 10);
    DecimalDigits(n / 10);
    var s := Decimal(m);
    assert s[|s| - 1] == Digit(m % 10) == Digit(n % 10);
    if m >= 10 && n >= 10 {
      assert s[..|s| - 1] == Decimal(m / 10) && s[..|s| - 1] == Decimal(n / 10);
      DecimalInjective(m / 10, n / 10);
    }
  }
}
