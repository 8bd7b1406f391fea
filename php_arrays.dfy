/** PHP arrays as ordered maps: reading, `isset`, assignment, `unset`, `[]`-append and
    `array_merge`. */
module PhpArrays {
  import opened PhpValues
  import opened PhpStrings

  function Keys(a: PArray): (r: seq<Key>)
    ensures |r| == |a| && forall i :: 0 <= i < |a| ==> r[i] == a[i].0
    decreases |a|
  {
    if a == [] then []
    else
      var r := [a[0].0] + Keys(a[1..]);
      assert forall i :: 1 <= i < |a| ==> r[i] == Keys(a[1..])[i - 1] && a[i] == a[1..][i - 1];
      r
  }

  function Values(a: PArray): (r: seq<Value>)
    ensures |r| == |a| && forall i :: 0 <= i < |a| ==> r[i] == a[i].1
  {
    seq(|a|, i requires 0 <= i < |a| => a[i].1)
  }

  predicate DistinctKeys(a: PArray)
  {
    forall i, j :: 0 <= i < j < |a| ==> a[i].0 != a[j].0
  }

  predicate StringKeyed(a: PArray)
  {
    forall i :: 0 <= i < |a| ==> a[i].0.KStr?
  }

  /** The value stored under `k`, if any. */
  function Lookup(a: PArray, k: Key): (r: Option<Value>)
    ensures r.Some? <==> k in Keys(a)
  {
    if a == [] then None
    else
      assert Keys(a) == [a[0].0] + Keys(a[1..]);
      if a[0].0 == k then Some(a[0].1) else Lookup(a[1..], k)
  }

  /** `$a[$k]` as an rvalue: the stored value, or null (with a warning) when `k` is absent. */
  function Index(a: PArray, k: Key): Value
  {
    match Lookup(a, k)
    case Some(v) => v
    case None => PNull
  }

  /** `isset($a[$k])`: present with a non-null value. */
  predicate Isset(a: PArray, k: Key)
  {
    Lookup(a, k).Some? && Lookup(a, k).value != PNull
  }

  /** `$a[$k] = $v`: replaces the value in place when `k` is present, appends otherwise. */
  function Put(a: PArray, k: Key, v: Value): (r: PArray)
    ensures Keys(r) == if k in Keys(a) then Keys(a) else Keys(a) + [k]
    ensures forall j :: Lookup(r, j) == if j == k then Some(v) else Lookup(a, j)
    decreases |a|
  {
    if a == [] then
      ConsKeysLookup((k, v), []);
      [(k, v)]
    else
      ConsKeysLookup(a[0], a[1..]);
      if a[0].0 == k then
        ConsKeysLookup((k, v), a[1..]);
        [(k, v)] + a[1..]
      else
        var rest := Put(a[1..], k, v);
        ConsKeysLookup(a[0], rest);
        [a[0]] + rest
  }

  /** `unset($a[$k])`: drops `k`, keeps every other entry in order. */
  function Remove(a: PArray, k: Key): (r: PArray)
    ensures forall j :: Lookup(r, j) == if j == k then None else Lookup(a, j)
    ensures |r| <= |a|
    ensures k !in Keys(a) ==> r == a
    decreases |a|
  {
    if a == [] then []
    else
      ConsKeysLookup(a[0], a[1..]);
      if a[0].0 == k then Remove(a[1..], k)
      else
        var rest := Remove(a[1..], k);
        ConsKeysLookup(a[0], rest);
        [a[0]] + rest
  }

  /** The key `$a[] = $v` uses: one past the largest int key, and at least 0. */
  function NextIndex(a: PArray): (r: int)
    ensures r >= 0
    ensures forall i :: 0 <= i < |a| && a[i].0.KInt? ==> a[i].0.n < r
  {
    if a == [] then 0
    else
      var n := NextIndex(a[1..]);
      assert forall i :: 1 <= i < |a| ==> a[i] == a[1..][i - 1];
      match a[0].0
      case KInt(m) => if m + 1 > n then m + 1 else n
      case KStr(_) => n
  }

  /** `$a[] = $v`: the value lands under a key the array did not hold, and every other key
      reads as before. */
  function Push(a: PArray, v: Value): (r: PArray)
    ensures Keys(r) == Keys(a) + [KInt(NextIndex(a))] && Values(r) == Values(a) + [v]
    ensures KInt(NextIndex(a)) !in Keys(a)
    ensures Lookup(r, KInt(NextIndex(a))) == Some(v)
    ensures forall j :: j != KInt(NextIndex(a)) ==> Lookup(r, j) == Lookup(a, j)
  {
    var k := KInt(NextIndex(a));
    assert k !in Keys(a) by {
      forall i | 0 <= i < |a| ensures Keys(a)[i] != k {
        assert Keys(a)[i] == a[i].0;
      }
    }
    assert forall j :: Lookup(a + [(k, v)], j) == if j in Keys(a) then Lookup(a, j) else if j == k then Some(v) else None by {
      forall j ensures Lookup(a + [(k, v)], j) == if j in Keys(a) then Lookup(a, j) else if j == k then Some(v) else None {
        LookupAppend(a, k, v, j);
      }
    }
    var r := a + [(k, v)];
    assert Keys(r) == Keys(a) + [k] && Values(r) == Values(a) + [v];
    r
  }

  /** `array_merge` folds the entries of `b`, in order, into `acc`: a string key is assigned
      (in place when present), an int key is renumbered and appended. */
  function MergeInto(acc: PArray, b: PArray): PArray
    decreases |b|
  {
    if b == [] then acc
    else
      var next := if b[0].0.KInt? then Push(acc, b[0].1) else Put(acc, b[0].0, b[0].1);
      MergeInto(next, b[1..])
  }

  /** PHP's `array_merge($a, $b)`. */
  function ArrayMerge(a: PArray, b: PArray): PArray
  {
    MergeInto(MergeInto([], a), b)
  }

  /** The keys of `bs` that are not among `ks`, in order. */
  function NewKeys(ks: seq<Key>, bs: seq<Key>): (r: seq<Key>)
    ensures forall k :: k in r <==> k in bs && k !in ks
  {
    if bs == [] then []
    else if bs[0] in ks then NewKeys(ks, bs[1..])
    else [bs[0]] + NewKeys(ks, bs[1..])
  }

  // ---------------------------------------------------------------------------------------
  // Lemmas

  /** Keys and lookups of an array given by its first entry and the rest. */
  lemma ConsKeysLookup(e: (Key, Value), t: PArray)
    ensures [e] + t != [] && ([e] + t)[0] == e && ([e] + t)[1..] == t
    ensures Keys([e] + t) == [e.0] + Keys(t)
    ensures forall j :: Lookup([e] + t, j) == if j == e.0 then Some(e.1) else Lookup(t, j)
  {
    ConsKeys(e, t);
  }

  lemma ConsKeys(e: (Key, Value), t: PArray)
    ensures ([e] + t)[1..] == t
    ensures Keys([e] + t) == [e.0] + Keys(t)
  {
    assert ([e] + t)[1..] == t;
  }

  lemma LookupAt(a: PArray, i: nat)
    requires DistinctKeys(a) && i < |a|
    ensures Lookup(a, a[i].0) == Some(a[i].1)
  {
    if i > 0 {
      assert a[1..][i - 1] == a[i];
      LookupAt(a[1..], i - 1);
    }
  }

  lemma {:induction false} LookupAppend(a: PArray, k: Key, v: Value, j: Key)
    ensures Lookup(a + [(k, v)], j) == if j in Keys(a) then Lookup(a, j) else if j == k then Some(v) else None
    decreases |a|
  {
    if a != [] {
      assert (a + [(k, v)])[1..] == a[1..] + [(k, v)];
      assert Keys(a) == [a[0].0] + Keys(a[1..]);
      LookupAppend(a[1..], k, v, j);
    }
  }

  lemma {:induction false} PutDistinct(a: PArray, k: Key, v: Value)
    requires DistinctKeys(a)
    ensures DistinctKeys(Put(a, k, v))
  {
    var r := Put(a, k, v);
    forall i, j | 0 <= i < j < |r| ensures r[i].0 != r[j].0 {
      assert Keys(r)[i] == r[i].0 && Keys(r)[j] == r[j].0;
    }
  }

  /** A key not yet present is appended at the end. */
  lemma {:induction false} PutFresh(a: PArray, k: Key, v: Value)
    requires k !in Keys(a)
    ensures Put(a, k, v) == a + [(k, v)]
    decreases |a|
  {
    if a != [] {
      assert Keys(a) == [a[0].0] + Keys(a[1..]);
      PutFresh(a[1..], k, v);
      SnocCons(a, (k, v));
    }
  }

  /** Appending after a non-empty sequence is appending after its tail. */
  lemma SnocCons<T>(a: seq<T>, x: T)
    requires a != []
    ensures a + [x] == [a[0]] + (a[1..] + [x])
  {
    assert (a + [x])[1..] == a[1..] + [x];
  }

  /** What an array's tail inherits from it. */
  lemma TailFacts(b: PArray)
    requires b != []
    ensures Keys(b) == [b[0].0] + Keys(b[1..])
    ensures DistinctKeys(b) ==> DistinctKeys(b[1..]) && b[0].0 !in Keys(b[1..])
    ensures StringKeyed(b) ==> StringKeyed(b[1..]) && b[0].0.KStr?
  {
    ConsKeysLookup(b[0], b[1..]);
    var t := b[1..];
    if DistinctKeys(b) {
      forall i | 0 <= i < |t| ensures Keys(t)[i] != b[0].0 {
        assert t[i] == b[i + 1];
      }
      forall i, j | 0 <= i < j < |t| ensures t[i].0 != t[j].0 {
        assert t[i] == b[i + 1] && t[j] == b[j + 1];
      }
    }
    if StringKeyed(b) {
      forall i | 0 <= i < |t| ensures t[i].0.KStr? {
        assert t[i] == b[i + 1];
      }
    }
  }

  /** An entry whose key the rest lacks can go in front of a duplicate-free array. */
  lemma ConsDistinct(e: (Key, Value), t: PArray)
    requires DistinctKeys(t) && e.0 !in Keys(t)
    ensures DistinctKeys([e] + t)
  {
    var r := [e] + t;
    forall i, j | 0 <= i < j < |r| ensures r[i].0 != r[j].0 {
      assert r[j] == t[j - 1] && Keys(t)[j - 1] == t[j - 1].0;
      if i > 0 {
        assert r[i] == t[i - 1];
      }
    }
  }

  /** Unsetting a key keeps the other keys distinct. */
  lemma {:induction false} RemoveDistinct(a: PArray, k: Key)
    requires DistinctKeys(a)
    ensures DistinctKeys(Remove(a, k))
    decreases |a|
  {
    if a != [] {
      TailFacts(a);
      RemoveDistinct(a[1..], k);
      if a[0].0 != k {
        var rest := Remove(a[1..], k);
        assert Lookup(rest, a[0].0) == None;
        ConsDistinct(a[0], rest);
      }
    }
  }

  lemma PushDistinct(a: PArray, v: Value)
    requires DistinctKeys(a)
    ensures DistinctKeys(Push(a, v))
  {
  }

  lemma {:induction false} MergeIntoDistinct(acc: PArray, b: PArray)
    requires DistinctKeys(acc)
    ensures DistinctKeys(MergeInto(acc, b))
    decreases |b|
  {
    if b != [] {
      if b[0].0.KInt? {
        PushDistinct(acc, b[0].1);
      } else {
        PutDistinct(acc, b[0].0, b[0].1);
      }
      var next := if b[0].0.KInt? then Push(acc, b[0].1) else Put(acc, b[0].0, b[0].1);
      MergeIntoDistinct(next, b[1..]);
    }
  }

  /** Merging never moves or drops a key already in the accumulator. */
  lemma {:induction false} MergeIntoKeepsPrefix(acc: PArray, b: PArray)
    ensures Keys(acc) <= Keys(MergeInto(acc, b))
    decreases |b|
  {
    if b != [] {
      var next := if b[0].0.KInt? then Push(acc, b[0].1) else Put(acc, b[0].0, b[0].1);
      assert Keys(acc) <= Keys(next);
      MergeIntoKeepsPrefix(next, b[1..]);
    }
  }

  /** A string key ends up with the value the merged array `b` gives it, if any. */
  lemma {:induction false} MergeIntoLookupString(acc: PArray, b: PArray, s: string)
    requires DistinctKeys(b)
    ensures Lookup(MergeInto(acc, b), KStr(s))
         == if KStr(s) in Keys(b) then Lookup(b, KStr(s)) else Lookup(acc, KStr(s))
    decreases |b|
  {
    if b != [] {
      var next := if b[0].0.KInt? then Push(acc, b[0].1) else Put(acc, b[0].0, b[0].1);
      if b[0].0.KInt? {
        LookupAppend(acc, KInt(NextIndex(acc)), b[0].1, KStr(s));
      }
      assert Keys(b) == [b[0].0] + Keys(b[1..]);
      MergeIntoLookupString(next, b[1..], s);
    }
  }

  /** Merging string-keyed entries whose keys are new and distinct appends them as they are. */
  lemma {:induction false} MergeIntoFresh(acc: PArray, b: PArray)
    requires StringKeyed(b) && DistinctKeys(acc + b)
    ensures MergeInto(acc, b) == acc + b
    decreases |b|
  {
    if b != [] {
      var t := b[1..];
      var next := acc + [b[0]];
      assert next + t == acc + b;
      assert b[0].0 !in Keys(acc) by {
        forall j | 0 <= j < |acc| ensures Keys(acc)[j] != b[0].0 {
          assert (acc + b)[j] == acc[j] && (acc + b)[|acc|] == b[0];
        }
      }
      PutFresh(acc, b[0].0, b[0].1);
      TailFacts(b);
      assert MergeInto(acc, b) == MergeInto(next, t);
      MergeIntoFresh(next, t);
    }
  }

  lemma {:induction false} NewKeysSkip(ks: seq<Key>, k: Key, bs: seq<Key>)
    requires k !in bs
    ensures NewKeys(ks + [k], bs) == NewKeys(ks, bs)
  {
    if bs != [] {
      NewKeysSkip(ks, k, bs[1..]);
    }
  }

  /** The new keys of `[k] + bs`: those of `bs`, after `k` itself when it is new. */
  lemma NewKeysCons(ks: seq<Key>, k: Key, bs: seq<Key>)
    ensures NewKeys(ks, [k] + bs) == if k in ks then NewKeys(ks, bs) else [k] + NewKeys(ks, bs)
  {
    assert ([k] + bs)[1..] == bs;
  }

  /** Assigning key `k` and then appending the new keys of `bs` appends the new keys of
      `[k] + bs`. */
  lemma NewKeysAfterPut(ks: seq<Key>, kn: seq<Key>, k: Key, bs: seq<Key>)
    requires k !in bs && kn == if k in ks then ks else ks + [k]
    ensures kn + NewKeys(kn, bs) == ks + NewKeys(ks, [k] + bs)
  {
    NewKeysCons(ks, k, bs);
    if k !in ks {
      NewKeysSkip(ks, k, bs);
      Assoc(ks, [k], NewKeys(ks, bs));
    }
  }

  lemma Assoc<T>(a: seq<T>, b: seq<T>, c: seq<T>)
    ensures a + b + c == a + (b + c)
  {
  }

  /** The first step of a merge when the first key is a string. */
  lemma MergeStringStep(acc: PArray, b: PArray)
    requires b != [] && b[0].0.KStr?
    ensures MergeInto(acc, b) == MergeInto(Put(acc, b[0].0, b[0].1), b[1..])
  {
  }

  /** With string keys only, the merge appends exactly the keys of `b` that are new, in order. */
  lemma {:induction false} MergeIntoKeys(acc: PArray, b: PArray)
    requires StringKeyed(b) && DistinctKeys(b)
    ensures Keys(MergeInto(acc, b)) == Keys(acc) + NewKeys(Keys(acc), Keys(b))
    decreases |b|
  {
    if b != [] {
      TailFacts(b);
      MergeStringStep(acc, b);
      var next := Put(acc, b[0].0, b[0].1);
      MergeIntoKeys(next, b[1..]);
      NewKeysAfterPut(Keys(acc), Keys(next), b[0].0, Keys(b[1..]));
    }
  }

  /** `array_merge($a, $b)` over a string-keyed `$a` (QueryBuilder.php line 95,
      DataMapper.php line 228): every key of `$a` stays where it was, a string key takes
      `$b`'s value when `$b` has it and `$a`'s otherwise, and keys are never duplicated;
      when `$b` is string-keyed too, the new keys of `$b` are appended in `$b`'s order. */
  lemma ArrayMergeSpec(a: PArray, b: PArray)
    requires StringKeyed(a) && DistinctKeys(a) && DistinctKeys(b)
    ensures DistinctKeys(ArrayMerge(a, b))
    ensures Keys(a) <= Keys(ArrayMerge(a, b))
    ensures forall s :: Lookup(ArrayMerge(a, b), KStr(s))
                     == if KStr(s) in Keys(b) then Lookup(b, KStr(s)) else Lookup(a, KStr(s))
    ensures StringKeyed(b) ==> Keys(ArrayMerge(a, b)) == Keys(a) + NewKeys(Keys(a), Keys(b))
  {
    assert [] + a == a;
    MergeIntoFresh([], a);
    MergeIntoDistinct(a, b);
    MergeIntoKeepsPrefix(a, b);
    forall s ensures Lookup(ArrayMerge(a, b), KStr(s))
                  == if KStr(s) in Keys(b) then Lookup(b, KStr(s)) else Lookup(a, KStr(s)) {
      MergeIntoLookupString(a, b, s);
    }
    if StringKeyed(b) {
      MergeIntoKeys(a, b);
    }
  }

  /** Position by position: the first `|a|` entries of the merge are `a`'s keys, each with
      the value `b` overrides it with, if any. */
  lemma ArrayMergeInPlace(a: PArray, b: PArray, i: nat)
    requires StringKeyed(a) && DistinctKeys(a) && DistinctKeys(b) && i < |a|
    ensures i < |ArrayMerge(a, b)| && ArrayMerge(a, b)[i].0 == a[i].0
    ensures ArrayMerge(a, b)[i].1 == if a[i].0 in Keys(b) then Lookup(b, a[i].0).value else a[i].1
  {
    var r := ArrayMerge(a, b);
    ArrayMergeSpec(a, b);
    assert Keys(r)[i] == Keys(a)[i];
    LookupAt(r, i);
    LookupAt(a, i);
  }

  /** Merging an empty array changes nothing in a string-keyed array. */
  lemma MergeEmpty(a: PArray)
    requires StringKeyed(a) && DistinctKeys(a)
    ensures ArrayMerge(a, []) == a && ArrayMerge([], a) == a
  {
    assert [] + a == a;
    MergeIntoFresh([], a);
  }
}
