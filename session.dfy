/** The Session facade (src/Fluid/Session/Session.php): key validation against
    SESSION_REGEX, then a call into the storage, whose Throwables come back as
    SessionException. */
module Sessions {
  import opened PhpValues
  import opened PhpStrings
  import opened PhpArrays
  import opened SessionStorage

  /** The character class `[a-zA-Z0-9_\.]`. */
  predicate IsKeyChar(c: char)
  {
    'a' <= c <= 'z' || 'A' <= c <= 'Z' || '0' <= c <= '9' || c == '_' || c == '.'
  }

  /** One to 64 characters of the class. */
  predicate IsKeyBody(s: string)
  {
    1 <= |s| <= 64 && forall i :: 0 <= i < |s| ==> IsKeyChar(s[i])
  }

  /** `preg_match('/^[a-zA-Z0-9_\.]{1,64}$/', $key) === 1`: without the D modifier, `$` also
      matches just before a final newline, so one trailing "\n" is accepted. */
  predicate IsSessionKeyValid(key: string)
    ensures IsSessionKeyValid(key) <==> RegexMatches(key, 0)
  {
    RegexMatchesFrom(key, 0);
    assert |key| >= 1 ==> forall i :: 0 <= i < |key| - 1 ==> key[..|key| - 1][i] == key[i];
    IsKeyBody(key) || (|key| >= 2 && key[|key| - 1] == '\n' && IsKeyBody(key[..|key| - 1]))
  }

  /** The pattern run left to right over `s` after `n` class characters: stop at the end or
      before a final newline once one character has matched; otherwise take one more class
      character, at most 64 in all. */
  predicate RegexMatches(s: string, n: nat)
    decreases |s|
  {
    if s == [] || s == "\n" then n >= 1
    else IsKeyChar(s[0]) && n < 64 && RegexMatches(s[1..], n + 1)
  }

  /** `ensureSessionKeyIsValid`. */
  function EnsureSessionKeyIsValid(key: string): (r: Outcome)
    ensures r.Fail? <==> !IsSessionKeyValid(key)
    ensures r.Fail? ==> r.error == SessionInvalidArgumentException
  {
    if !IsSessionKeyValid(key) then Fail(SessionInvalidArgumentException) else Pass
  }

  /** `catch (Throwable $t) { throw new SessionException(...); }` */
  function Rewrapped(o: Outcome): (r: Outcome)
    ensures o.Pass? ==> r == Pass
    ensures o.Fail? ==> r == Fail(SessionException)
  {
    if o.Fail? then Fail(SessionException) else Pass
  }

  class Session {
    const sessionName: string
    const storage: NativeSessionStorage

    constructor(sessionName: string, storage: NativeSessionStorage)
      ensures this.sessionName == sessionName && this.storage == storage
    {
      this.sessionName := sessionName;
      this.storage := storage;
    }

    /** The constructor: an invalid name raises before anything is stored; a null storage
        (the parameter defaults to null) cannot go into the typed property. */
    static method New(sessionName: string, storage: Option<NativeSessionStorage>) returns (r: Result<Session>)
      ensures !IsSessionKeyValid(sessionName) ==> r == Err(SessionInvalidArgumentException)
      ensures IsSessionKeyValid(sessionName) && storage.None? ==> r == Err(TypeError)
      ensures IsSessionKeyValid(sessionName) && storage.Some? ==>
                r.Ok? && fresh(r.value) && r.value.sessionName == sessionName && r.value.storage == storage.value
    {
      if !IsSessionKeyValid(sessionName) {
        r := Err(SessionInvalidArgumentException);
        return;
      }
      if storage.None? {
        r := Err(TypeError);
        return;
      }
      var s := new Session(sessionName, storage.value);
      r := Ok(s);
    }

    method Set(key: string, value: Value) returns (r: Outcome)
      requires storage.Valid()
      modifies storage
      ensures storage.Valid()
      ensures !IsSessionKeyValid(key) ==> r == Fail(SessionInvalidArgumentException) && storage.session == old(storage.session)
      ensures IsSessionKeyValid(key) ==> r == Pass && storage.session == Put(old(storage.session), ArrayKey(key), value)
    {
      r := EnsureSessionKeyIsValid(key);
      if r.Fail? {
        return;
      }
      storage.SetSession(key, value);
    }

    method SetArray(key: string, value: Value) returns (r: Outcome)
      requires storage.Valid()
      modifies storage
      ensures storage.Valid()
      ensures !IsSessionKeyValid(key) ==> r == Fail(SessionInvalidArgumentException) && storage.session == old(storage.session)
      ensures IsSessionKeyValid(key) ==>
                var a := Appended(Lookup(old(storage.session), ArrayKey(key)), value);
                && (a.Ok? ==> r == Pass && storage.session == Put(old(storage.session), ArrayKey(key), a.value))
                && (a.Err? ==> r == Fail(SessionException) && storage.session == old(storage.session))
    {
      r := EnsureSessionKeyIsValid(key);
      if r.Fail? {
        return;
      }
      var o := storage.SetSessionArray(key, value);
      r := Rewrapped(o);
    }

    method Get(key: string, default: Value) returns (r: Result<Value>)
      ensures !IsSessionKeyValid(key) ==> r == Err(SessionInvalidArgumentException)
      ensures IsSessionKeyValid(key) ==> r == Ok(StoreGet(storage.session, key, default))
    {
      var check := EnsureSessionKeyIsValid(key);
      if check.Fail? {
        r := Err(check.error);
        return;
      }
      r := Ok(storage.GetSession(key, default));
    }

    /** `delete`: the key goes, but `deleteSession` returns nothing, and returning that null
        from the `: bool` method raises a TypeError inside the `try`, which rewraps it. */
    method Delete(key: string) returns (r: Result<bool>)
      requires storage.Valid()
      modifies storage
      ensures storage.Valid()
      ensures !IsSessionKeyValid(key) ==> r == Err(SessionInvalidArgumentException) && storage.session == old(storage.session)
      ensures IsSessionKeyValid(key) ==> r == Err(SessionException) && storage.session == StoreDelete(old(storage.session), key)
    {
      var check := EnsureSessionKeyIsValid(key);
      if check.Fail? {
        r := Err(check.error);
        return;
      }
      storage.DeleteSession(key);
      var returned := Fail(TypeError);
      r := Err(Rewrapped(returned).error);
    }

    /** `invalidate`: no key check, straight to the storage. */
    method Invalidate()
      modifies storage
      ensures storage.Valid() && storage.session == []
    {
      storage.InvalidateSession();
    }

    /** `flush`: the storage's flushed value is dropped (the method is `: void`). */
    method Flush(key: string, default: Value) returns (r: Outcome)
      requires storage.Valid()
      modifies storage
      ensures storage.Valid()
      ensures !IsSessionKeyValid(key) ==> r == Fail(SessionInvalidArgumentException) && storage.session == old(storage.session)
      ensures IsSessionKeyValid(key) ==> r == Pass && storage.session == StoreDelete(old(storage.session), key)
    {
      r := EnsureSessionKeyIsValid(key);
      if r.Fail? {
        return;
      }
      var flushed := storage.FlushSession(key, default);
    }

    /** `has`: validated, then the storage's answer, with no `try`. */
    method Has(key: string) returns (r: Result<bool>)
      ensures !IsSessionKeyValid(key) ==> r == Err(SessionInvalidArgumentException)
      ensures IsSessionKeyValid(key) ==> r == Ok(StoreHas(storage.session, key))
    {
      var check := EnsureSessionKeyIsValid(key);
      if check.Fail? {
        r := Err(check.error);
        return;
      }
      r := Ok(storage.HasSession(key));
    }
  }

  // ---------------------------------------------------------------------------------------
  // Lemmas

  /** The left-to-right matcher accepts exactly what the predicate describes, from any
      number of characters already taken. */
  lemma {:induction false} RegexMatchesFrom(s: string, n: nat)
    requires n <= 64
    ensures RegexMatches(s, n) <==>
              (1 <= n + |s| <= 64 && forall i :: 0 <= i < |s| ==> IsKeyChar(s[i]))
              || (|s| >= 1 && s[|s| - 1] == '\n' && 1 <= n + |s| - 1 <= 64
                  && forall i :: 0 <= i < |s| - 1 ==> IsKeyChar(s[i]))
    decreases |s|
  {
    if s == "\n" {
      assert s[0] == '\n' && !IsKeyChar(s[0]);
    } else if s != [] {
      if n < 64 {
        RegexMatchesFrom(s[1..], n + 1);
      }
      assert forall i :: 1 <= i < |s| ==> s[i] == s[1..][i - 1];
    }
  }

  /** A name of the class is accepted with one trailing newline and refused with two. */
  lemma TrailingNewline(key: string)
    requires IsKeyBody(key)
    ensures IsSessionKeyValid(key)
    ensures IsSessionKeyValid(key + "\n")
    ensures !IsSessionKeyValid(key + "\n\n")
  {
    assert (key + "\n")[..|key|] == key;
    var k2 := key + "\n\n";
    assert k2[|k2| - 2] == '\n';
    assert !IsKeyChar('\n');
    assert !IsKeyBody(k2) by {
      assert k2[|k2| - 1] == '\n';
    }
    assert !IsKeyBody(k2[..|k2| - 1]) by {
      assert k2[..|k2| - 1][|k2| - 2] == '\n';
    }
  }

  /** Concrete cases of the key rule. */
  lemma SessionKeyExamples()
    ensures IsSessionKeyValid("user.id_2")
    ensures !IsSessionKeyValid("")
    ensures !IsSessionKeyValid("user-id")
    ensures !IsSessionKeyValid("\n")
  {
    assert IsKeyBody("user.id_2");
    assert !IsKeyChar('-');
    assert "user-id"[4] == '-';
    assert "user-id"[..6][4] == '-';
    assert !IsKeyBody("\n") by { assert "\n"[0] == '\n'; }
  }
}
