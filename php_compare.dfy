/** PHP 8's loose comparison `==`, `intval` and `in_array` with loose matching. */
module PhpCompare {
  import opened PhpValues
  import opened PhpStrings

  /** `==` between two strings: numerically when both are numeric, else byte for byte. */
  predicate StrLooseEq(s: string, t: string)
  {
    if IsIntegerString(s) && IsIntegerString(t) then LeadingInt(s) == LeadingInt(t) else s == t
  }

  /** `==` between an int and a string: numerically when the string is numeric, else the
      int's decimal text is compared with the string. */
  predicate IntStrLooseEq(n: int, s: string)
  {
    if IsIntegerString(s) then LeadingInt(s) == n else IntToString(n) == s
  }

  /** PHP 8's `$a == $b` for every pair that is not two arrays: null against a string
      compares "" with it; otherwise a bool or a null on either side compares truth values;
      an array equals nothing else; ints and strings compare as above. */
  predicate LooseEq(a: Value, b: Value)
    requires !(a.PList? && b.PList?)
  {
    if a.PNull? && b.PStr? then StrLooseEq("", b.s)
    else if a.PStr? && b.PNull? then StrLooseEq(a.s, "")
    else if a.PBool? || b.PBool? || a.PNull? || b.PNull? then ToBool(a) == ToBool(b)
    else if a.PList? || b.PList? then false
    else if a.PInt? && b.PInt? then a.i == b.i
    else if a.PInt? then IntStrLooseEq(a.i, b.s)
    else if b.PInt? then IntStrLooseEq(b.i, a.s)
    else StrLooseEq(a.s, b.s)
  }

  /** PHP's `intval`: arrays give 0 or 1, strings their leading integer saturated to 64 bits. */
  function IntVal(v: Value): (r: int)
    ensures v.PStr? ==> InInt64(r)
  {
    match v
    case PNull => 0
    case PBool(b) => if b then 1 else 0
    case PInt(i) => i
    case PStr(s) => Clamp64(LeadingInt(s))
    case PList(es) => if es == [] then 0 else 1
  }

  /** `in_array($s, $haystack)` for a string needle and a list of strings (loose). */
  predicate InStrings(s: string, haystack: seq<string>)
  {
    exists i :: 0 <= i < |haystack| && StrLooseEq(s, haystack[i])
  }

  // ---------------------------------------------------------------------------------------
  // Lemmas

  /** The empty string is not numeric, so `$x == ''` between strings is plain equality. */
  lemma EmptyIsNotNumeric()
    ensures !IsIntegerString("")
  {
    assert SkipWhitespace("") == "";
  }

  /** A string equals `''` loosely exactly when it is empty. */
  lemma LooseEqEmptyString(s: string)
    ensures LooseEq(PStr(s), PStr("")) <==> s == ""
  {
    EmptyIsNotNumeric();
  }

  /** An int is never loosely equal to `''` under PHP 8 (its text is never empty). */
  lemma IntNotLooseEqEmpty(n: int)
    ensures !LooseEq(PInt(n), PStr(""))
  {
    EmptyIsNotNumeric();
  }
}
