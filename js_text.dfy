/**
 * The few pieces of the JavaScript runtime's string behaviour that the site's
 * code calls: the `\s` character class of regular expressions,
 * `Number.prototype.toString` on integral values (and NaN),
 * `String.prototype.padStart`, and `replace` with a one-character pattern,
 * whose first-match search is `IndexOf`. `Split`, `split` on a one-character
 * separator, is not called by the site; it states that a rendered date
 * falls apart into its '/'-fields.
 */
module JsText {
  import opened Wrappers

  /** The characters `\s` matches in an ECMAScript regular expression (WhiteSpace and LineTerminator). */
  predicate IsWhitespace(c: char)
    ensures IsWhitespace(c) && c <= '\U{007F}' ==> c == ' ' || '\t' <= c <= '\r'
    ensures IsWhitespace(c) ==> !('!' <= c <= '~')
  {
    || c == '\t' || c == '\n' || c == '\U{000B}' || c == '\U{000C}' || c == '\r' || c == ' '
    || c == '\U{00A0}' || c == '\U{1680}' || ('\U{2000}' <= c <= '\U{200A}')
    || c == '\U{2028}' || c == '\U{2029}' || c == '\U{202F}' || c == '\U{205F}'
    || c == '\U{3000}' || c == '\U{FEFF}'
  }

  predicate IsDigit(c: char) {
    '0' <= c <= '9'
  }

  predicate AllDigits(s: string) {
    forall k :: 0 <= k < |s| ==> IsDigit(s[k])
  }

  function DigitValue(c: char): (d: nat)
    requires IsDigit(c)
    ensures d < 10
  {
    (c as int) - ('0' as int)
  }

  function DigitChar(d: nat): (c: char)
    requires d < 10
    ensures IsDigit(c) && DigitValue(c) == d
  {
    (('0' as int) + d) as char
  }

  /** The value a string of decimal digits denotes, read most significant digit first. */
  function DecimalValue(s: string): nat
    requires AllDigits(s)
    decreases |s|
  {
    if s == [] then 0 else DecimalValue(s[..|s| - 1]) * 10 + DigitValue(s[|s| - 1])
  }

  /** `n.toString()` for a non-negative integer: its shortest decimal numeral. */
  function NatToString(n: nat): (r: string)
    ensures 1 <= |r| && AllDigits(r)
    ensures r[0] == '0' <==> n == 0
    ensures |r| == 1 <==> n < 10
    decreases n
  {
    if n < 10 then [DigitChar(n)] else NatToString(n / 10) + [DigitChar(n % 10)]
  }

  /** Reading back the numeral `toString` prints gives the number again. */
  lemma {:induction false} DecimalRoundTrip(n: nat)
    ensures DecimalValue(NatToString(n)) == n
  {
    if n >= 10 {
      var s := NatToString(n);
      assert s[..|s| - 1] == NatToString(n / 10);
      DecimalRoundTrip(n / 10);
    }
  }

  /** `n.toString()` for an integer: a minus sign before the numeral of a negative value. */
  function IntToString(n: int): (r: string)
    ensures 1 <= |r|
    ensures n >= 0 ==> AllDigits(r) && DecimalValue(r) == n
    ensures n < 0 ==> r[0] == '-' && AllDigits(r[1..]) && DecimalValue(r[1..]) == -n
  {
    if n < 0 then
      var digits := NatToString(-n);
      DecimalRoundTrip(-n);
      assert ("-" + digits)[1..] == digits;
      "-" + digits
    else
      DecimalRoundTrip(n);
      NatToString(n)
  }

  /** Distinct integers print differently. */
  lemma IntToStringInjective(a: int, b: int)
    requires IntToString(a) == IntToString(b)
    ensures a == b
  {
  }

  /** `x.toString()` for a Number that is either NaN (None) or integral. */
  function NumberToString(x: Option<int>): (r: string)
    ensures 1 <= |r|
    ensures x.None? ==> r == "NaN"
    ensures x.Some? && x.value >= 0 ==> AllDigits(r) && DecimalValue(r) == x.value
    ensures x.Some? && x.value < 0 ==> r[0] == '-' && AllDigits(r[1..]) && DecimalValue(r[1..]) == -x.value
    ensures x.Some? ==> r == IntToString(x.value)
  {
    match x
    case None => "NaN"
    case Some(n) => IntToString(n)
  }

  function Repeat(c: char, n: nat): (r: string)
    ensures |r| == n && forall k :: 0 <= k < n ==> r[k] == c
  {
    if n == 0 then [] else [c] + Repeat(c, n - 1)
  }

  /** `s.padStart(width, fill)` with a one-character fill string. */
  function PadStart(s: string, width: nat, fill: char): (r: string)
    ensures |r| == if |s| >= width then |s| else width
    ensures r[|r| - |s|..] == s
    ensures forall k :: 0 <= k < |r| - |s| ==> r[k] == fill
  {
    if |s| >= width then s else Repeat(fill, width - |s|) + s
  }

  /** `s.indexOf(c)`, with None for JavaScript's -1. */
  function IndexOf(s: string, c: char): (r: Option<nat>)
    ensures r.None? <==> c !in s
    ensures r.Some? ==> r.value < |s| && s[r.value] == c && c !in s[..r.value]
    decreases |s|
  {
    if s == [] then None
    else if s[0] == c then Some(0)
    else match IndexOf(s[1..], c)
      case None => None
      case Some(i) =>
        assert s[..i + 1] == [s[0]] + s[1..][..i];
        Some(i + 1)
  }

  /** The first occurrence of a character, located by its neighbourhood. */
  lemma FirstOccurrence(s: string, c: char, i: nat)
    requires i < |s| && s[i] == c && c !in s[..i]
    ensures IndexOf(s, c) == Some(i)
  {
    assert s[i] in s;
  }

  /** `s.replace(c, '')` for a one-character pattern: removes the first occurrence only. */
  function RemoveFirst(s: string, c: char): (r: string)
    ensures c !in s ==> r == s
    ensures c in s ==> |r| == |s| - 1
    ensures |s| > 0 && s[0] == c ==> r == s[1..]
    ensures forall i :: 0 <= i < |s| && s[i] == c && c !in s[..i] ==> r == s[..i] + s[i + 1..]
  {
    match IndexOf(s, c)
    case None => s
    case Some(i) =>
      s[..i] + s[i + 1..]
  }

  /** `s.split(sep)` for a one-character separator. */
  function Split(s: string, sep: char): (r: seq<string>)
    ensures |r| >= 1
    ensures sep !in s ==> r == [s]
    ensures forall k :: 0 <= k < |r| ==> sep !in r[k]
    decreases |s|
  {
    match IndexOf(s, sep)
    case None => [s]
    case Some(i) => [s[..i]] + Split(s[i + 1..], sep)
  }

  /** Splitting a string whose first field holds no separator peels off that field. */
  lemma SplitCons(a: string, sep: char, rest: string)
    requires sep !in a
    ensures Split(a + [sep] + rest, sep) == [a] + Split(rest, sep)
  {
    var s := a + [sep] + rest;
    assert s[..|a|] == a;
    FirstOccurrence(s, sep, |a|);
    assert s[|a| + 1..] == rest;
  }

  /** A string without the separator splits into itself alone. */
  lemma SplitNone(c: string, sep: char)
    requires sep !in c
    ensures Split(c, sep) == [c]
  {
  }

  /** Three separator-free fields joined by the separator split back into those fields. */
  lemma SplitThree(a: string, b: string, c: string, sep: char)
    requires sep !in a && sep !in b && sep !in c
    ensures Split(a + [sep] + b + [sep] + c, sep) == [a, b, c]
  {
    var rest := b + [sep] + c;
    var whole := a + [sep] + b + [sep] + c;
    assert whole == a + [sep] + rest;
    SplitCons(b, sep, c);
    SplitNone(c, sep);
    var tail := Split(rest, sep);
    assert tail == [b, c];
    SplitCons(a, sep, rest);
    assert Split(whole, sep) == [a] + tail;
  }
}
