/** The few pieces of the .NET base library whose behaviour the plugin's
    logic depends on: nullable strings, `string.IsNullOrEmpty`,
    `string.IsNullOrWhiteSpace`, `string.Trim`, ordinal case-insensitive
    equality, integer formatting and the `DateTime` value type. */
module DotNet {
  import opened Wrappers

  /** A .NET `string` reference; `None` is null. */
  type NString = Option<string>

  /** A `System.DateTime`. The plugin only copies and stores these. */
  datatype DateTime = DateTime(ticks: int)

  /** `char.IsWhiteSpace`, which is also the class `\s` of .NET regular
      expressions: the Unicode space, line and paragraph separators,
      U+0009 to U+000D and U+0085. */
  predicate IsWhiteSpace(c: char) {
    || c == ' '
    || '\t' <= c <= '\r'
    || c == '\U{85}'
    || c == '\U{A0}'
    || c == '\U{1680}'
    || '\U{2000}' <= c <= '\U{200A}'
    || c == '\U{2028}'
    || c == '\U{2029}'
    || c == '\U{202F}'
    || c == '\U{205F}'
    || c == '\U{3000}'
  }

  predicate IsBlank(s: string) {
    forall i | 0 <= i < |s| :: IsWhiteSpace(s[i])
  }

  /** `string.IsNullOrEmpty`. */
  predicate IsNullOrEmpty(s: NString) {
    s.None? || s.value == ""
  }

  /** `string.IsNullOrWhiteSpace`. */
  predicate IsNullOrWhiteSpace(s: NString) {
    s.None? || IsBlank(s.value)
  }

  /** The number of blank characters `s` starts with. */
  function LeadingBlanks(s: string): (k: nat)
    ensures k <= |s| && IsBlank(s[..k])
    ensures k == |s| || !IsWhiteSpace(s[k])
  {
    if s != [] && IsWhiteSpace(s[0]) then
      var k := LeadingBlanks(s[1..]);
      BlankPrefixCons(s, k + 1);
      k + 1
    else 0
  }

  /** A blank prefix of the tail, after a blank first character, is a blank
      prefix of the whole. */
  lemma BlankPrefixCons(s: string, k: nat)
    requires 0 < k <= |s| && IsWhiteSpace(s[0]) && IsBlank(s[1..][..k - 1])
    ensures IsBlank(s[..k])
  {
    forall i | 1 <= i < k
      ensures IsWhiteSpace(s[..k][i])
    {
      assert s[..k][i] == s[1..][..k - 1][i - 1];
    }
  }

  /** Drops the longest blank prefix. */
  function TrimStart(s: string): (r: string)
    ensures |r| <= |s| && r == s[|s| - |r|..]
    ensures IsBlank(s[..|s| - |r|])
    ensures r == [] || !IsWhiteSpace(r[0])
  {
    s[LeadingBlanks(s)..]
  }

  /** Blank characters in front of a text that is not blank do not change
      where its white space ends; a blank text in front only shifts it. */
  lemma {:induction false} LeadingBlanksAppend(a: string, c: string)
    ensures LeadingBlanks(a) < |a| ==> LeadingBlanks(a + c) == LeadingBlanks(a)
    ensures IsBlank(a) ==> LeadingBlanks(a + c) == |a| + LeadingBlanks(c)
    decreases |a|
  {
    if a == [] {
      assert a + c == c;
    } else {
      assert (a + c)[0] == a[0];
      assert (a + c)[1..] == a[1..] + c;
      if IsWhiteSpace(a[0]) {
        LeadingBlanksAppend(a[1..], c);
        assert IsBlank(a) ==> IsBlank(a[1..]) by {
          assert forall i | 0 <= i < |a| - 1 :: a[1..][i] == a[i + 1];
        }
      }
    }
  }

  /** `TrimStart` of a concatenation: a text that is not blank keeps what
      follows it; a blank one disappears. */
  lemma TrimStartAppend(a: string, c: string)
    ensures !IsBlank(a) ==> TrimStart(a + c) == TrimStart(a) + c
    ensures IsBlank(a) ==> TrimStart(a + c) == TrimStart(c)
  {
    LeadingBlanksAppend(a, c);
    var k := LeadingBlanks(a);
    if !IsBlank(a) {
      assert a[..|a|] == a;
      assert k < |a|;
      assert (a + c)[k..] == a[k..] + c;
    } else {
      assert (a + c)[|a| + LeadingBlanks(c)..] == c[LeadingBlanks(c)..];
    }
  }

  /** A text whose first and last characters are not white space is its own `Trim()`. */
  lemma TrimFixesVisibleEnds(s: string)
    requires s == [] || (!IsWhiteSpace(s[0]) && !IsWhiteSpace(s[|s| - 1]))
    ensures Trim(s) == s
  {
    if s != [] {
      assert LeadingBlanks(s) == 0;
      assert TrimStart(s) == s;
    }
  }

  /** Drops the longest blank suffix. */
  function TrimEnd(s: string): (r: string)
    ensures |r| <= |s| && r == s[..|r|]
    ensures IsBlank(s[|r|..])
    ensures r == [] || !IsWhiteSpace(r[|r| - 1])
  {
    if s != [] && IsWhiteSpace(s[|s| - 1]) then
      var r := TrimEnd(s[..|s| - 1]);
      assert s[..|s| - 1][..|r|] == s[..|r|];
      assert s[|r|..] == s[..|s| - 1][|r|..] + [s[|s| - 1]];
      r
    else s
  }

  /** `string.Trim()`. */
  function Trim(s: string): (r: string)
    ensures r == [] || (!IsWhiteSpace(r[0]) && !IsWhiteSpace(r[|r| - 1]))
    ensures r == [] <==> IsBlank(s)
    ensures |r| <= |s|
  {
    var t := TrimStart(s);
    assert s == s[..|s| - |t|] + t;
    TrimEnd(t)
  }

  /** The upper-case mapping behind `StringComparison.OrdinalIgnoreCase`,
      restricted to ASCII letters. */
  function ToUpperAscii(c: char): char {
    if 'a' <= c <= 'z' then (c as int - 32) as char else c
  }

  /** `a.Equals(b, StringComparison.OrdinalIgnoreCase)` for two non-null strings. */
  predicate EqualsIgnoreCase(a: string, b: string) {
    |a| == |b| && forall i | 0 <= i < |a| :: ToUpperAscii(a[i]) == ToUpperAscii(b[i])
  }

  /** `a.Equals(b, StringComparison.OrdinalIgnoreCase)` where the argument may
      be null: a null argument never equals the (non-null) receiver. */
  predicate EqualsIgnoreCaseN(a: string, b: NString) {
    b.Some? && EqualsIgnoreCase(a, b.value)
  }

  function DigitChar(d: nat): (c: char)
    requires d < 10
    ensures '0' <= c <= '9' && c as int - '0' as int == d
  {
    (d + '0' as int) as char
  }

  /** Decimal digits of a natural number, without leading zeros. */
  function NatToString(n: nat): (r: string)
    ensures r != []
    ensures forall i | 0 <= i < |r| :: '0' <= r[i] <= '9'
    ensures r[0] == '0' <==> n == 0
    ensures |r| > 1 ==> r[0] != '0'
    decreases n
  {
    if n < 10 then [DigitChar(n)] else NatToString(n / 10) + [DigitChar(n % 10)]
  }

  /** `int.ToString()`. */
  function IntToString(n: int): (r: string)
    ensures r != []
  {
    if n < 0 then "-" + NatToString(-n) else NatToString(n)
  }

  /** `int.ToString()` reads back: a minus sign exactly for a negative number,
      then the digits of its magnitude. */
  lemma IntToStringRoundTrip(n: int)
    ensures var r := IntToString(n);
      && (r[0] == '-' <==> n < 0)
      && var digits := if n < 0 then r[1..] else r;
         && (forall i | 0 <= i < |digits| :: '0' <= digits[i] <= '9')
         && DigitsValue(digits) == if n < 0 then -n else n
  {
    NatToStringRoundTrip(if n < 0 then -n else n);
  }

  /** The value of a string of decimal digits; the inverse of NatToString. */
  function DigitsValue(s: string): nat
    requires forall i | 0 <= i < |s| :: '0' <= s[i] <= '9'
  {
    if s == [] then 0 else DigitsValue(s[..|s| - 1]) * 10 + (s[|s| - 1] as int - '0' as int)
  }

  lemma {:induction false} NatToStringRoundTrip(n: nat)
    ensures DigitsValue(NatToString(n)) == n
    decreases n
  {
    if n >= 10 {
      NatToStringRoundTrip(n / 10);
      var s := NatToString(n);
      assert s[..|s| - 1] == NatToString(n / 10);
    }
  }

  /** LINQ `Take(n)`: the first `n` elements, all of them when there are
      fewer, none when `n` is zero or negative. */
  function Take<T>(s: seq<T>, n: int): (r: seq<T>)
    ensures n <= 0 ==> r == []
    ensures 0 <= n <= |s| ==> |r| == n
    ensures n > |s| ==> r == s
    ensures r == s[..|r|]
  {
    if n <= 0 then [] else if n >= |s| then s else s[..n]
  }

  /** Taking from a sequence with one more element in front. */
  lemma TakeCons<T>(x: T, s: seq<T>, n: int)
    requires n >= 1
    ensures Take([x] + s, n) == [x] + Take(s, n - 1)
  {
    if n - 1 < |s| {
      assert ([x] + s)[..n] == [x] + s[..n - 1];
    }
  }
}
