/** The Router's route table and its name transforms (src/Fluid/Router/Router.php). The
    transforms work character by character with PHP's ASCII-only case mapping, which leaves
    every other character as it is. */
module Routing {
  import opened PhpValues
  import opened PhpStrings
  import opened PhpArrays

  /** The fixed prefix of every controller class name. */
  const ControllerNamespace: string := "App\\Controller\\"

  /** The delimiters `ucwords` uses by default: space, tab, CR, LF, form feed, vertical tab. */
  predicate IsWordDelimiter(c: char)
  {
    c == ' ' || c == '\t' || c == '\r' || c == '\n' || c as int == 12 || c as int == 11
  }

  /** `str_replace('-', ' ', $s)`. */
  function HyphensToSpaces(s: string): string
  {
    if s == [] then [] else [if s[0] == '-' then ' ' else s[0]] + HyphensToSpaces(s[1..])
  }

  /** `ucwords` once the previous character is known: `up` says whether it was a delimiter
      (or there was none). */
  function UcWordsFrom(up: bool, s: string): string
    decreases |s|
  {
    if s == [] then [] else [if up then ToUpper(s[0]) else s[0]] + UcWordsFrom(IsWordDelimiter(s[0]), s[1..])
  }

  /** `ucwords($s)`: the first character and each one after a delimiter upper-cased. */
  function UcWords(s: string): string
  {
    UcWordsFrom(true, s)
  }

  /** `str_replace(' ', '', $s)`. */
  function WithoutSpaces(s: string): string
  {
    if s == [] then [] else (if s[0] == ' ' then [] else [s[0]]) + WithoutSpaces(s[1..])
  }

  /** `lcfirst($s)`. */
  function LcFirst(s: string): string
  {
    if s == [] then [] else [ToLower(s[0])] + s[1..]
  }

  /** `transformUpperCamelCase`, which is the one-pass walk from the start of a word. */
  function TransformUpperCamelCase(s: string): (r: string)
    ensures r == CamelWalk(s, true)
  {
    PipelineIsWalk(s, true);
    WithoutSpaces(UcWords(HyphensToSpaces(s)))
  }

  /** `transformCamelCase`: the kept characters, the first lower-cased after its upper-casing
      and the rest as `transformUpperCamelCase` gives them. */
  function TransformCamelCase(s: string): (r: string)
    ensures |r| == |TransformUpperCamelCase(s)| == |Kept(s)|
    ensures Kept(s) != [] ==>
              && r[0] == ToLower(ToUpper(Kept(s)[0]))
              && r[1..] == TransformUpperCamelCase(s)[1..]
  {
    WalkKeeps(s, true);
    LcFirst(TransformUpperCamelCase(s))
  }

  /** The same transform told as one left-to-right pass: hyphens and spaces are dropped and
      make the next character start a word; another delimiter is kept and also starts a word;
      the first character of each word is upper-cased. */
  function CamelWalk(s: string, up: bool): string
    decreases |s|
  {
    if s == [] then []
    else if s[0] == '-' || s[0] == ' ' then CamelWalk(s[1..], true)
    else [if up then ToUpper(s[0]) else s[0]] + CamelWalk(s[1..], IsWordDelimiter(s[0]))
  }

  /** The characters of `s` that are neither hyphens nor spaces, in order. */
  function Kept(s: string): string
  {
    if s == [] then [] else (if s[0] == '-' || s[0] == ' ' then [] else [s[0]]) + Kept(s[1..])
  }

  class Router {
    var routes: PArray
    var params: PArray
    const controllerSuffix: string

    predicate Valid()
      reads this
    {
      DistinctKeys(routes)
    }

    /** The property defaults: no routes, no parameters, the suffix "controller". */
    constructor()
      ensures Valid() && routes == [] && params == [] && controllerSuffix == "controller"
    {
      routes := [];
      params := [];
      controllerSuffix := "controller";
    }

    /** `add`: the route string is an array key, so a canonical integer route becomes an int
        key; the entry is replaced when present and appended otherwise. */
    method Add(route: string, params: PArray)
      requires Valid()
      modifies this
      ensures Valid()
      ensures routes == Put(old(routes), ArrayKey(route), PList(params))
      ensures this.params == old(this.params)
    {
      PutDistinct(routes, ArrayKey(route), PList(params));
      routes := Put(routes, ArrayKey(route), PList(params));
    }

    /** `getNameSpace`: the namespace prefix, extended by the matched `namespace` parameter
        (converted to string) when one exists; the argument plays no part. */
    function GetNameSpace(name: string): (r: string)
      reads this
      ensures |r| >= |ControllerNamespace| && r[..|ControllerNamespace|] == ControllerNamespace
      ensures r == ControllerNamespace <==> KStr("namespace") !in Keys(params)
      ensures KStr("namespace") in Keys(params) ==>
                r == ControllerNamespace + ToText(Lookup(params, KStr("namespace")).value) + "\\"
    {
      var ns := ControllerNamespace;
      if KStr("namespace") in Keys(params) then ns + ToText(Index(params, KStr("namespace"))) + "\\" else ns
    }
  }

  // ---------------------------------------------------------------------------------------
  // Lemmas

  /** After `add(route, params)` the route maps to its parameters, every other route reads as
      before, and an existing route is replaced rather than duplicated. */
  lemma AddReplaces(routes: PArray, route: string, params: PArray, other: string)
    requires other != route
    ensures Lookup(Put(routes, ArrayKey(route), PList(params)), ArrayKey(route)) == Some(PList(params))
    ensures Lookup(Put(routes, ArrayKey(route), PList(params)), ArrayKey(other)) == Lookup(routes, ArrayKey(other))
    ensures ArrayKey(route) in Keys(routes) ==> Keys(Put(routes, ArrayKey(route), PList(params))) == Keys(routes)
  {
    assert KeyText(ArrayKey(route)) == route && KeyText(ArrayKey(other)) == other;
  }

  /** Two routers with the same parameters give the same namespace whatever name is passed. */
  lemma NameSpaceIgnoresName(r: Router, a: string, b: string)
    ensures r.GetNameSpace(a) == r.GetNameSpace(b)
  {
  }

  /** From any starting state, the three-stage pipeline is the one-pass walk. */
  lemma {:induction false} PipelineIsWalk(s: string, up: bool)
    ensures WithoutSpaces(UcWordsFrom(up, HyphensToSpaces(s))) == CamelWalk(s, up)
    decreases |s|
  {
    if s != [] {
      PipelineIsWalk(s[1..], if s[0] == '-' || s[0] == ' ' then true else IsWordDelimiter(s[0]));
      var h := HyphensToSpaces(s);
      assert h[1..] == HyphensToSpaces(s[1..]);
      var u := UcWordsFrom(up, h);
      assert u[1..] == UcWordsFrom(IsWordDelimiter(h[0]), h[1..]);
      assert u[0] == ' ' <==> (s[0] == '-' || s[0] == ' ');
      assert WithoutSpaces(u) == (if u[0] == ' ' then [] else [u[0]]) + WithoutSpaces(u[1..]);
    }
  }

  /** The walk keeps exactly the characters that are not hyphens or spaces, in order, each
      either unchanged or upper-cased; so no hyphen and no space survives, and ignoring case
      nothing else changes. */
  lemma {:induction false} WalkKeeps(s: string, up: bool)
    ensures |CamelWalk(s, up)| == |Kept(s)|
    ensures forall i :: 0 <= i < |Kept(s)| ==>
              CamelWalk(s, up)[i] == Kept(s)[i] || CamelWalk(s, up)[i] == ToUpper(Kept(s)[i])
    ensures forall i :: 0 <= i < |Kept(s)| ==> Kept(s)[i] != '-' && Kept(s)[i] != ' '
    ensures forall i :: 0 <= i < |CamelWalk(s, up)| ==> CamelWalk(s, up)[i] != '-' && CamelWalk(s, up)[i] != ' '
    ensures up && Kept(s) != [] ==> CamelWalk(s, up)[0] == ToUpper(Kept(s)[0])
    decreases |s|
  {
    if s != [] {
      var next := if s[0] == '-' || s[0] == ' ' then true else IsWordDelimiter(s[0]);
      WalkKeeps(s[1..], next);
      if !(s[0] == '-' || s[0] == ' ') {
        var w := CamelWalk(s, up);
        var k := Kept(s);
        assert w[1..] == CamelWalk(s[1..], next);
        assert k[1..] == Kept(s[1..]);
      }
    }
  }

  /** The properties of `transformUpperCamelCase` in terms of the input: no hyphen or space,
      the other characters in order, the first one upper-cased. */
  lemma UpperCamelShape(s: string)
    ensures |TransformUpperCamelCase(s)| == |Kept(s)|
    ensures forall i :: 0 <= i < |TransformUpperCamelCase(s)| ==>
              && TransformUpperCamelCase(s)[i] != '-' && TransformUpperCamelCase(s)[i] != ' '
              && (TransformUpperCamelCase(s)[i] == Kept(s)[i] || TransformUpperCamelCase(s)[i] == ToUpper(Kept(s)[i]))
    ensures Kept(s) != [] ==> TransformUpperCamelCase(s)[0] == ToUpper(Kept(s)[0])
  {
    WalkKeeps(s, true);
  }

  /** A non-empty run of lower-case ASCII letters. */
  predicate LowerRun(w: string)
  {
    w != [] && forall i :: 0 <= i < |w| ==> 'a' <= w[i] <= 'z'
  }

  /** A run of lower-case letters is one word: its first letter takes the word-start case and
      the rest are copied. */
  lemma {:induction false} WalkLowerRun(w: string, up: bool)
    requires LowerRun(w)
    ensures CamelWalk(w, up) == [if up then ToUpper(w[0]) else w[0]] + w[1..]
    decreases |w|
  {
    if |w| > 1 {
      WalkLowerRun(w[1..], false);
    }
  }

  /** A run of lower-case letters followed by a hyphen: the walk over the run, then a fresh
      word. */
  lemma {:induction false} WalkAfterRun(w: string, t: string, up: bool)
    requires LowerRun(w)
    ensures CamelWalk(w + "-" + t, up) == CamelWalk(w, up) + CamelWalk(t, true)
    decreases |w|
  {
    assert (w + "-" + t)[1..] == w[1..] + "-" + t;
    if |w| > 1 {
      WalkAfterRun(w[1..], t, false);
    } else {
      assert w[1..] == [];
    }
  }

  /** Three hyphen-joined lower-case words become the three words capitalised and joined. */
  lemma ThreeWords(a: string, b: string, c: string)
    requires LowerRun(a) && LowerRun(b) && LowerRun(c)
    ensures TransformUpperCamelCase(a + "-" + b + "-" + c)
         == [ToUpper(a[0])] + a[1..] + [ToUpper(b[0])] + b[1..] + [ToUpper(c[0])] + c[1..]
  {
    assert a + "-" + b + "-" + c == a + "-" + (b + "-" + c);
    WalkAfterRun(a, b + "-" + c, true);
    WalkAfterRun(b, c, true);
    WalkLowerRun(a, true);
    WalkLowerRun(b, true);
    WalkLowerRun(c, true);
  }

  /** The example in the comment of `transformUpperCamelCase`: "my-custom-string" gives
      "MyCustomString". */
  lemma UpperDocExample()
    ensures TransformUpperCamelCase("my" + "-" + "custom" + "-" + "string") == "My" + "Custom" + "String"
  {
    assert LowerRun("my") && LowerRun("custom") && LowerRun("string");
    ThreeWords("my", "custom", "string");
  }

  /** The example in the comment of `transformCamelCase`: "my-custom-string" gives
      "myCustomString". */
  lemma CamelDocExample()
    ensures TransformCamelCase("my" + "-" + "custom" + "-" + "string") == "my" + "Custom" + "String"
  {
    UpperDocExample();
    assert ("My" + "Custom" + "String")[1..] == "y" + "Custom" + "String";
  }
}
