/** The `$_SESSION` operations of NativeSessionStorage
    (src/Fluid/Session/Storage/NativeSessionStorage.php). The session map is the `session`
    field; a key string indexes it as PHP indexes an array, so "7" is the int key 7. The map
    holds no duplicate key, an invariant every operation keeps. */
module SessionStorage {
  import opened PhpValues
  import opened PhpStrings
  import opened PhpArrays

  /** `isset($_SESSION[$key])`. */
  predicate StoreHas(session: PArray, key: string)
  {
    Isset(session, ArrayKey(key))
  }

  /** What `getSession($key, $default)` returns. */
  function StoreGet(session: PArray, key: string, default: Value): Value
  {
    if StoreHas(session, key) then Index(session, ArrayKey(key)) else default
  }

  /** `$slot[] = $value` on the current entry (None when absent): null, an absent entry and
      `false` become the list `[0 => value]`; a list gets the value under its next index,
      unless that index is past PHP_INT_MAX; a string or another scalar raises an Error. */
  function Appended(slot: Option<Value>, value: Value): (r: Result<Value>)
    ensures r.Ok? ==> r.value.PList?
    ensures r.Err? ==> r.error == Error
  {
    match slot
    case None => Ok(PList([(KInt(0), value)]))
    case Some(PNull) => Ok(PList([(KInt(0), value)]))
    case Some(PBool(b)) => if b then Err(Error) else Ok(PList([(KInt(0), value)]))
    case Some(PList(es)) => if NextIndex(es) > Int64Max then Err(Error) else Ok(PList(Push(es, value)))
    case Some(_) => Err(Error)
  }

  /** The map after `deleteSession($key)`: the entry goes only when it is set. */
  function StoreDelete(session: PArray, key: string): PArray
  {
    if StoreHas(session, key) then Remove(session, ArrayKey(key)) else session
  }

  class NativeSessionStorage {
    /** `$_SESSION`. */
    var session: PArray

    predicate Valid()
      reads this
    {
      DistinctKeys(session)
    }

    /** The storage over the map `session_start` loaded; the ini, cookie and session-start
        calls of the parent constructor are left out. */
    constructor(loaded: PArray)
      requires DistinctKeys(loaded)
      ensures Valid() && session == loaded
    {
      session := loaded;
    }

    method SetSession(key: string, value: Value)
      requires Valid()
      modifies this
      ensures Valid()
      ensures session == Put(old(session), ArrayKey(key), value)
    {
      PutDistinct(session, ArrayKey(key), value);
      session := Put(session, ArrayKey(key), value);
    }

    method SetSessionArray(key: string, value: Value) returns (r: Outcome)
      requires Valid()
      modifies this
      ensures Valid()
      ensures var a := Appended(Lookup(old(session), ArrayKey(key)), value);
              && (a.Ok? ==> r == Pass && session == Put(old(session), ArrayKey(key), a.value))
              && (a.Err? ==> r == Fail(a.error) && session == old(session))
    {
      var a := Appended(Lookup(session, ArrayKey(key)), value);
      if a.Err? {
        r := Fail(a.error);
        return;
      }
      PutDistinct(session, ArrayKey(key), a.value);
      session := Put(session, ArrayKey(key), a.value);
      r := Pass;
    }

    function GetSession(key: string, default: Value): (r: Value)
      reads this
      ensures HasSession(key) ==> r == Index(session, ArrayKey(key))
      ensures !HasSession(key) ==> r == default
    {
      StoreGet(session, key, default)
    }

    method DeleteSession(key: string)
      requires Valid()
      modifies this
      ensures Valid()
      ensures session == StoreDelete(old(session), key)
    {
      if HasSession(key) {
        RemoveDistinct(session, ArrayKey(key));
        session := Remove(session, ArrayKey(key));
      }
    }

    /** The map-clearing half of `invalidateSession`; the cookie and session-destroy calls
        that follow are left out. */
    method InvalidateSession()
      modifies this
      ensures Valid() && session == []
    {
      session := [];
    }

    method FlushSession(key: string, default: Value) returns (r: Value)
      requires Valid()
      modifies this
      ensures Valid()
      ensures r == StoreGet(old(session), key, default)
      ensures session == StoreDelete(old(session), key)
    {
      if HasSession(key) {
        var value := Index(session, ArrayKey(key));
        DeleteSession(key);
        return value;
      }
      return default;
    }

    /** `hasSession`: `isset`, which holds exactly when reading the entry gives a non-null
        value (a missing entry reads as null). */
    predicate HasSession(key: string)
      reads this
      ensures HasSession(key) <==> Index(session, ArrayKey(key)) != PNull
    {
      StoreHas(session, key)
    }
  }

  // ---------------------------------------------------------------------------------------
  // Lemmas

  /** Two different key strings never name the same entry: PHP turns only canonical integer
      strings into int keys, and reads them back as the same text. */
  lemma SessionKeysDistinct(key1: string, key2: string)
    requires key1 != key2
    ensures ArrayKey(key1) != ArrayKey(key2)
  {
    assert KeyText(ArrayKey(key1)) == key1 && KeyText(ArrayKey(key2)) == key2;
  }

  /** `setSession(k, v)` then `getSession(k, d)` gives v, or d when v is null (a null entry is
      not set); every other key reads as before. */
  lemma GetAfterSet(session: PArray, key: string, value: Value, other: string, default: Value)
    requires other != key
    ensures StoreGet(Put(session, ArrayKey(key), value), key, default) == if value == PNull then default else value
    ensures StoreGet(Put(session, ArrayKey(key), value), other, default) == StoreGet(session, other, default)
    ensures StoreHas(Put(session, ArrayKey(key), value), key) <==> value != PNull
  {
    var after := Put(session, ArrayKey(key), value);
    SessionKeysDistinct(key, other);
    assert Lookup(after, ArrayKey(key)) == Some(value);
    assert Lookup(after, ArrayKey(other)) == Lookup(session, ArrayKey(other));
  }

  /** After `deleteSession(k)` the key is not set, and every other key reads as before. */
  lemma DeleteUnsets(session: PArray, key: string, other: string, default: Value)
    requires other != key
    ensures !StoreHas(StoreDelete(session, key), key)
    ensures StoreGet(StoreDelete(session, key), other, default) == StoreGet(session, other, default)
    ensures !StoreHas(session, key) ==> StoreDelete(session, key) == session
  {
    SessionKeysDistinct(key, other);
  }

  /** `setSessionArray(k, v)` on an absent or null entry stores `[v]`; on a list it appends v
      under the next index, keeping the earlier elements. */
  lemma AppendShape(slot: Option<Value>, value: Value)
    ensures slot.None? || slot == Some(PNull) ==> Appended(slot, value) == Ok(PList([(KInt(0), value)]))
    ensures slot.Some? && slot.value.PList? && NextIndex(slot.value.entries) <= Int64Max ==>
              && Appended(slot, value).Ok?
              && Values(Appended(slot, value).value.entries) == Values(slot.value.entries) + [value]
              && Keys(Appended(slot, value).value.entries) == Keys(slot.value.entries) + [KInt(NextIndex(slot.value.entries))]
    ensures slot.Some? && (slot.value.PStr? || slot.value.PInt? || slot.value == PBool(true)) ==> Appended(slot, value) == Err(Error)
  {
  }

  /** `setSessionArray` appends under a fresh key, so the list never loses a duplicate-free
      shape. */
  lemma AppendDistinct(slot: Option<Value>, value: Value)
    requires slot.Some? && slot.value.PList? ==> DistinctKeys(slot.value.entries)
    ensures Appended(slot, value).Ok? ==> DistinctKeys(Appended(slot, value).value.entries)
  {
    if slot.Some? && slot.value.PList? {
      PushDistinct(slot.value.entries, value);
    }
  }

  /** `flushSession(k, d)` is `getSession(k, d)` followed by `deleteSession(k)`: a set key is
      returned and removed; otherwise d comes back and the map is untouched. */
  lemma FlushIsGetThenDelete(session: PArray, key: string, default: Value)
    ensures StoreHas(session, key) ==> StoreGet(session, key, default) == Lookup(session, ArrayKey(key)).value
    ensures StoreHas(session, key) ==> !StoreHas(StoreDelete(session, key), key)
    ensures !StoreHas(session, key) ==> StoreGet(session, key, default) == default && StoreDelete(session, key) == session
  {
  }
}
