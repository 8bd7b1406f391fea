/** PHP's string conversions as the core uses them: integers to decimal text and back,
    numeric strings, array-key normalisation, `implode` and ASCII case mapping. */
module PhpStrings {
  import opened PhpValues

  predicate IsDigit(c: char) { '0' <= c <= '9' }

  predicate AllDigits(s: string) { forall i :: 0 <= i < |s| ==> IsDigit(s[i]) }

  /** The white space PHP 8 allows around a numeric string: space, \t, \n, \r, \v, \f. */
  predicate IsNumericWhitespace(c: char)
  {
    c == ' ' || c == '\t' || c == '\n' || c == '\r' || c == '\U{000B}' || c == '\U{000C}'
  }

  function DigitChar(d: nat): (c: char)
    requires d < 10
    ensures IsDigit(c)
  {
    ('0' as int + d) as char
  }

  function DigitValue(c: char): nat
    requires IsDigit(c)
  {
    c as int - '0' as int
  }

  /** The decimal spelling of a natural number, with no leading zero. */
  function NatToString(n: nat): (r: string)
    ensures |r| > 0 && AllDigits(r)
    decreases n
  {
    if n < 10 then [DigitChar(n)] else NatToString(n / 10) + [DigitChar(n % 10)]
  }

  /** PHP's string conversion of an int. */
  function IntToString(n: int): string
  {
    if n < 0 then "-" + NatToString(-n) else NatToString(n)
  }

  /** The value of a run of decimal digits, most significant first. */
  function DigitsValue(d: string): nat
    requires AllDigits(d)
  {
    if d == [] then 0 else DigitsValue(d[..|d| - 1]) * 10 + DigitValue(d[|d| - 1])
  }

  /** The longest prefix of `s` made of digits. */
  function DigitPrefix(s: string): (r: string)
    ensures |r| <= |s| && r == s[..|r|] && AllDigits(r)
    ensures |r| < |s| ==> !IsDigit(s[|r|])
  {
    if s != [] && IsDigit(s[0]) then [s[0]] + DigitPrefix(s[1..]) else []
  }

  /** `s` without its leading numeric white space. */
  function SkipWhitespace(s: string): (r: string)
    ensures |r| <= |s| && r == s[|s| - |r|..]
    ensures r == [] || !IsNumericWhitespace(r[0])
  {
    if s != [] && IsNumericWhitespace(s[0]) then SkipWhitespace(s[1..]) else s
  }

  predicate HasSign(t: string) { t != [] && (t[0] == '+' || t[0] == '-') }

  function Unsigned(t: string): string { if HasSign(t) then t[1..] else t }

  /** The integer PHP reads from the start of a string (`intval`, `(int)`): leading white
      space, an optional sign, then digits; 0 when there are none. Unbounded: PHP's 64-bit
      saturation is Clamp64. */
  function LeadingInt(s: string): int
  {
    var t := SkipWhitespace(s);
    var v: int := DigitsValue(DigitPrefix(Unsigned(t)));
    if t != [] && t[0] == '-' then -v else v
  }

  /** PHP 8's numeric string of integer form: optional leading white space, an optional
      sign, at least one digit, optional trailing white space. Its value is LeadingInt. */
  predicate IsIntegerString(s: string)
  {
    var u := Unsigned(SkipWhitespace(s));
    var d := DigitPrefix(u);
    |d| > 0 && forall i :: |d| <= i < |u| ==> IsNumericWhitespace(u[i])
  }

  const Int64Min: int := -0x8000_0000_0000_0000
  const Int64Max: int := 0x7FFF_FFFF_FFFF_FFFF

  predicate InInt64(n: int) { Int64Min <= n <= Int64Max }

  /** PHP's saturating conversion of an over-long integer string to int. */
  function Clamp64(n: int): (r: int)
    ensures InInt64(r)
    ensures InInt64(n) <==> r == n
  {
    if n < Int64Min then Int64Min else if n > Int64Max then Int64Max else n
  }

  /** A string PHP stores as an integer array key: the canonical spelling of a 64-bit int. */
  predicate IsCanonicalInt(s: string)
  {
    InInt64(LeadingInt(s)) && IntToString(LeadingInt(s)) == s
  }

  /** The text of an array key, as `foreach`, `array_keys` and string interpolation give it. */
  function KeyText(k: Key): string
  {
    match k
    case KInt(n) => IntToString(n)
    case KStr(s) => s
  }

  /** The key PHP makes of a string used as an array key (`$a[$s] = ...`). */
  function ArrayKey(s: string): (k: Key)
    ensures KeyText(k) == s
    ensures k.KInt? <==> IsCanonicalInt(s)
  {
    if IsCanonicalInt(s) then KInt(LeadingInt(s)) else KStr(s)
  }

  /** A key PHP can hold: an int in the 64-bit range, or a string it does not normalise. */
  predicate ValidKey(k: Key)
  {
    match k
    case KInt(n) => InInt64(n)
    case KStr(s) => !IsCanonicalInt(s)
  }

  /** PHP's conversion of a value to string; an array gives "Array" (with a warning). */
  function ToText(v: Value): string
  {
    match v
    case PNull => ""
    case PBool(b) => if b then "1" else ""
    case PInt(i) => IntToString(i)
    case PStr(s) => s
    case PList(_) => "Array"
  }

  /** PHP's `implode(sep, parts)`. */
  function Implode(sep: string, parts: seq<string>): string
  {
    if parts == [] then ""
    else if |parts| == 1 then parts[0]
    else Implode(sep, parts[..|parts| - 1]) + sep + parts[|parts| - 1]
  }

  /** Each string of `parts` with `p` in front of it. */
  function Prefixed(p: string, parts: seq<string>): (r: seq<string>)
    ensures |r| == |parts| && forall i :: 0 <= i < |parts| ==> r[i] == p + parts[i]
  {
    seq(|parts|, i requires 0 <= i < |parts| => p + parts[i])
  }

  function KeyTexts(ks: seq<Key>): (r: seq<string>)
    ensures |r| == |ks| && forall i :: 0 <= i < |ks| ==> r[i] == KeyText(ks[i])
  {
    seq(|ks|, i requires 0 <= i < |ks| => KeyText(ks[i]))
  }

  function ValueTexts(vs: seq<Value>): (r: seq<string>)
    ensures |r| == |vs| && forall i :: 0 <= i < |vs| ==> r[i] == ToText(vs[i])
  {
    seq(|vs|, i requires 0 <= i < |vs| => ToText(vs[i]))
  }

  function ToUpper(c: char): char { if 'a' <= c <= 'z' then (c as int - 32) as char else c }

  function ToLower(c: char): char { if 'A' <= c <= 'Z' then (c as int + 32) as char else c }

  // ---------------------------------------------------------------------------------------
  // Lemmas

  lemma {:induction false} DigitsValueSnoc(d: string, c: char)
    requires AllDigits(d) && IsDigit(c)
    ensures AllDigits(d + [c]) && DigitsValue(d + [c]) == DigitsValue(d) * 10 + DigitValue(c)
  {
    assert (d + [c])[..|d + [c]| - 1] == d;
  }

  lemma {:induction false} NatToStringValue(n: nat)
    ensures DigitsValue(NatToString(n)) == n
    decreases n
  {
    if n >= 10 {
      NatToStringValue(n / 10);
      DigitsValueSnoc(NatToString(n / 10), DigitChar(n % 10));
    }
  }

  lemma {:induction false} DigitPrefixOfDigits(s: string)
    requires AllDigits(s)
    ensures DigitPrefix(s) == s
  {
    if s != [] {
      DigitPrefixOfDigits(s[1..]);
    }
  }

  lemma {:induction false} ReadDigits(d: string)
    requires d != [] && AllDigits(d)
    ensures LeadingInt(d) == DigitsValue(d) && IsIntegerString(d)
  {
    assert SkipWhitespace(d) == d;
    assert Unsigned(d) == d;
    DigitPrefixOfDigits(d);
  }

  lemma {:induction false} ReadNegativeDigits(d: string)
    requires d != [] && AllDigits(d)
    ensures LeadingInt("-" + d) == -(DigitsValue(d) as int) && IsIntegerString("-" + d)
  {
    var s := "-" + d;
    assert SkipWhitespace(s) == s;
    assert s[1..] == d;
    assert Unsigned(s) == d;
    DigitPrefixOfDigits(d);
  }

  /** Reading back the decimal spelling of an int gives the int: `(int)(string)$n === $n`. */
  lemma {:induction false} IntToStringRoundTrip(n: int)
    ensures LeadingInt(IntToString(n)) == n
    ensures IsIntegerString(IntToString(n))
  {
    if n < 0 {
      NatToStringValue(-n);
      ReadNegativeDigits(NatToString(-n));
    } else {
      NatToStringValue(n);
      ReadDigits(NatToString(n));
    }
  }

  /** The decimal spelling is injective. */
  lemma IntToStringInjective(m: int, n: int)
    requires IntToString(m) == IntToString(n)
    ensures m == n
  {
    IntToStringRoundTrip(m);
    IntToStringRoundTrip(n);
  }

  /** Writing a valid key and reading its text back gives the same key, so `ArrayKey` and
      `KeyText` are inverse on the keys PHP can hold. */
  lemma ArrayKeyRoundTrip(k: Key)
    requires ValidKey(k)
    ensures ArrayKey(KeyText(k)) == k
  {
    if k.KInt? {
      IntToStringRoundTrip(k.n);
    }
  }

  /** Distinct valid keys have distinct texts (so `":" . $key` placeholders never clash). */
  lemma KeyTextInjective(j: Key, k: Key)
    requires ValidKey(j) && ValidKey(k) && KeyText(j) == KeyText(k)
    ensures j == k
  {
    ArrayKeyRoundTrip(j);
    ArrayKeyRoundTrip(k);
  }

  lemma {:induction false} ImplodeSnoc(sep: string, parts: seq<string>, p: string)
    requires parts != []
    ensures Implode(sep, parts + [p]) == Implode(sep, parts) + sep + p
  {
    assert (parts + [p])[..|parts + [p]| - 1] == parts;
  }

  /** `":" . implode(", :", $ks)` (QueryBuilder.php line 115) is the list of the placeholders
      `:k`, one per key, joined by ", ". */
  lemma {:induction false} PlaceholderList(ks: seq<string>)
    requires ks != []
    ensures ":" + Implode(", :", ks) == Implode(", ", Prefixed(":", ks))
    decreases |ks|
  {
    if |ks| > 1 {
      var init := ks[..|ks| - 1];
      PlaceholderList(init);
      assert Prefixed(":", ks) == Prefixed(":", init) + [":" + ks[|ks| - 1]];
      ImplodeSnoc(", ", Prefixed(":", init), ":" + ks[|ks| - 1]);
    }
  }
}
