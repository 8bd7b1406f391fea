/** LiquidORM's DataMapper (src/Fluid/LiquidORM/DataMapper/DataMapper.php): bind-type
    inference, the bind guard and loops that fill a prepared statement's placeholder table,
    parameter merging and `persist`. The connection and PDO are outside the model: the
    statement is its SQL text plus a placeholder table. */
module DataMapping {
  import opened PhpValues
  import opened PhpStrings
  import opened PhpArrays
  import opened PhpCompare

  /** PDO::PARAM_NULL (0), PDO::PARAM_INT (1) and PDO::PARAM_STR (2). */
  datatype ParamType = ParamNull | ParamInt | ParamStr

  function ParamCode(t: ParamType): int
  {
    match t
    case ParamNull => 0
    case ParamInt => 1
    case ParamStr => 2
  }

  /** A placeholder's bound value and type, as `bindValue` records them. */
  datatype Binding = Binding(value: Value, paramType: ParamType)

  /** A prepared statement: its SQL text and its placeholder table. */
  datatype Statement = Statement(sql: string, bound: map<string, Binding>)

  /** `bind`: `switch ($value)` compares `$value` loosely with each case expression in turn,
      `is_bool($value)`, `intval($value)`, `is_null($value)`. */
  function Bind(v: Value): (r: ParamType)
    ensures v.PNull? || v.PBool? || v.PInt? ==> r == ParamInt
  {
    if LooseEq(v, PBool(v.PBool?)) then ParamInt
    else if LooseEq(v, PInt(IntVal(v))) then ParamInt
    else if LooseEq(v, PBool(v.PNull?)) then ParamNull
    else ParamStr
  }

  /** The values `bind` types as PARAM_INT: null, every bool and int, the empty array, and
      the strings "", "0" and those spelling an in-range integer. */
  predicate IntLike(v: Value)
  {
    match v
    case PNull => true
    case PBool(_) => true
    case PInt(_) => true
    case PStr(s) => s == "" || s == "0" || (IsIntegerString(s) && InInt64(LeadingInt(s)))
    case PList(es) => es == []
  }

  /** DataMapper's `isArray`, inverted: it raises exactly when its argument is an array. */
  function IsArray(v: Value): (r: Outcome)
    ensures r.Fail? <==> v.PList?
    ensures r.Fail? ==> r.error == DataMapperException
  {
    if v.PList? then Fail(DataMapperException) else Pass
  }

  /** DataMapper's `isEmpty`: raises when `empty($value)`. */
  function IsEmpty(v: Value): (r: Outcome)
    ensures r.Fail? <==> !ToBool(v)
    ensures r.Fail? ==> r.error == DataMapperException
  {
    if !ToBool(v) then Fail(DataMapperException) else Pass
  }

  /** The value the loops bind: the field itself, or `'%' . $value . '%'` for a search. */
  function BoundValue(v: Value, isSearch: bool): Value
  {
    if isSearch then PStr("%" + ToText(v) + "%") else v
  }

  function Placeholder(k: Key): string
  {
    ":" + KeyText(k)
  }

  /** The placeholder table after binding `fields` in order over `m`. */
  function BindAll(m: map<string, Binding>, fields: PArray, isSearch: bool): map<string, Binding>
  {
    if fields == [] then m
    else
      var last := fields[|fields| - 1];
      BindAll(m, fields[..|fields| - 1], isSearch)[Placeholder(last.0) := Binding(BoundValue(last.1, isSearch), Bind(last.1))]
  }

  /** `buildQueryParameters`. */
  function BuildQueryParameters(conditions: PArray, parameters: PArray): (r: PArray)
    ensures r == ArrayMerge(conditions, parameters)
  {
    if ToBool(PList(conditions)) || ToBool(PList(parameters)) then ArrayMerge(conditions, parameters) else parameters
  }

  class DataMapper {
    /** What `$this->dbh->open()->prepare(...)` does: None when it gives a statement, or the
        Throwable the connection raises. */
    const connectionError: Option<Throwable>
    /** The `$stmt` property; None until `prepare` first initialises it. */
    var stmt: Option<Statement>

    constructor(connectionError: Option<Throwable>)
      ensures this.connectionError == connectionError && stmt == None
    {
      this.connectionError := connectionError;
      stmt := None;
    }

    /** `prepare` replaces the single statement handle. */
    method Prepare(query: string) returns (r: Outcome)
      modifies this
      ensures connectionError.Some? ==> r == Fail(connectionError.value) && stmt == old(stmt)
      ensures connectionError.None? ==> r == Pass && stmt == Some(Statement(query, map[]))
    {
      if connectionError.Some? {
        r := Fail(connectionError.value);
        return;
      }
      stmt := Some(Statement(query, map[]));
      r := Pass;
    }

    /** `bindValues`: its `isArray` guard rejects the array it is always given, so it raises
        before the foreach (BindEach) binds anything. */
    method BindValues(fields: PArray) returns (r: Outcome)
      ensures r == Fail(DataMapperException)
    {
      r := IsArray(PList(fields));
    }

    /** `bindSearchValues`: the same guard, so the same failure. */
    method BindSearchValues(fields: PArray) returns (r: Outcome)
      ensures r == Fail(DataMapperException)
    {
      r := IsArray(PList(fields));
    }

    /** The foreach of `bindValues` (`isSearch` false) and `bindSearchValues` (true): each
        entry binds `':' . $key`; the statement's text and every other placeholder stay. */
    method BindEach(fields: PArray, isSearch: bool) returns (r: Outcome)
      modifies this
      ensures old(stmt).None? ==> r == Fail(Error) && stmt == old(stmt)
      ensures old(stmt).Some? ==> r == Pass
      ensures old(stmt).Some? ==>
                stmt == Some(Statement(old(stmt).value.sql, BindAll(old(stmt).value.bound, fields, isSearch)))
    {
      if stmt.None? {
        r := Fail(Error);
        return;
      }
      var s0 := stmt.value;
      var i := 0;
      while i < |fields|
        invariant 0 <= i <= |fields|
        invariant stmt == Some(Statement(s0.sql, BindAll(s0.bound, fields[..i], isSearch)))
      {
        BindAllSnoc(s0.bound, fields, isSearch, i);
        var (key, value) := fields[i];
        var bound := if isSearch then PStr("%" + ToText(value) + "%") else value;
        stmt := Some(stmt.value.(bound := stmt.value.bound[":" + KeyText(key) := Binding(bound, Bind(value))]));
        i := i + 1;
      }
      assert fields[..i] == fields;
      r := Pass;
    }

    /** `bindParameters`: `is_array` of an array always holds, and both bind paths raise. */
    method BindParameters(fields: PArray, isSearch: bool) returns (r: Outcome)
      ensures r == Fail(DataMapperException)
    {
      if !isSearch {
        r := BindValues(fields);
      } else {
        r := BindSearchValues(fields);
      }
    }

    /** `persist` = `prepare` -> `bindParameters` (never a search) -> `execute`, rethrowing
        unchanged: a connection failure, else the bind guard's exception. */
    method Persist(query: string, parameters: PArray) returns (r: Result<Value>)
      modifies this
      ensures connectionError.Some? ==> r == Err(connectionError.value) && stmt == old(stmt)
      ensures connectionError.None? ==> r == Err(DataMapperException) && stmt == Some(Statement(query, map[]))
    {
      var p := Prepare(query);
      if p.Fail? {
        r := Err(p.error);
        return;
      }
      var b := BindParameters(parameters, false);
      r := Err(b.error);
    }
  }

  // ---------------------------------------------------------------------------------------
  // Lemmas

  lemma IntegerTextIsNumeric(n: int, s: string)
    requires IntToString(n) == s
    ensures IsIntegerString(s) && LeadingInt(s) == n
  {
    IntToStringRoundTrip(n);
  }

  /** `intval` of a string is loosely equal to it exactly when the string spells an
      in-range integer. */
  lemma IntValMatchesString(s: string)
    ensures IntStrLooseEq(Clamp64(LeadingInt(s)), s) <==> IsIntegerString(s) && InInt64(LeadingInt(s))
  {
    if !IsIntegerString(s) && IntToString(Clamp64(LeadingInt(s))) == s {
      IntegerTextIsNumeric(Clamp64(LeadingInt(s)), s);
    }
  }

  lemma BindString(s: string)
    ensures Bind(PStr(s)) == if s == "" || s == "0" || IntStrLooseEq(Clamp64(LeadingInt(s)), s) then ParamInt else ParamStr
  {
    var v := PStr(s);
    assert LooseEq(v, PBool(false)) <==> s == "" || s == "0";
    assert LooseEq(v, PInt(IntVal(v))) <==> IntStrLooseEq(Clamp64(LeadingInt(s)), s);
  }

  lemma BindList(es: PArray)
    ensures Bind(PList(es)) == if es == [] then ParamInt else ParamStr
  {
  }

  /** `bind` types a value PARAM_INT exactly when it is IntLike, and PARAM_STR otherwise. */
  lemma BindIntIff(v: Value)
    ensures Bind(v) == ParamInt <==> IntLike(v)
    ensures Bind(v) == ParamStr <==> !IntLike(v)
  {
    match v
    case PStr(s) =>
      BindString(s);
      IntValMatchesString(s);
    case PList(es) =>
      BindList(es);
    case _ =>
  }

  /** The `is_null` arm of the switch is unreachable: `bind` never gives PARAM_NULL. */
  lemma BindNeverNull(v: Value)
    ensures Bind(v) != ParamNull
  {
    BindIntIff(v);
  }

  /** Distinct valid keys have distinct placeholders. */
  lemma PlaceholderInjective(j: Key, k: Key)
    requires ValidKey(j) && ValidKey(k) && Placeholder(j) == Placeholder(k)
    ensures j == k
  {
    assert KeyText(j) == Placeholder(j)[1..];
    assert KeyText(k) == Placeholder(k)[1..];
    KeyTextInjective(j, k);
  }

  /** Binding leaves every placeholder not named by the fields as it was. */
  lemma {:induction false} BindAllOther(m: map<string, Binding>, fields: PArray, isSearch: bool, p: string)
    requires p !in PlaceholdersOf(fields)
    ensures p in BindAll(m, fields, isSearch) <==> p in m
    ensures p in m ==> BindAll(m, fields, isSearch)[p] == m[p]
  {
    if fields != [] {
      var init := fields[..|fields| - 1];
      assert PlaceholdersOf(fields) == PlaceholdersOf(init) + {Placeholder(fields[|fields| - 1].0)} by {
        forall i | 0 <= i < |init| ensures init[i] == fields[i] { }
      }
      BindAllOther(m, init, isSearch, p);
    }
  }

  /** One more iteration of the foreach binds field `i` over what the earlier ones bound. */
  lemma BindAllSnoc(m: map<string, Binding>, fields: PArray, isSearch: bool, i: nat)
    requires i < |fields|
    ensures BindAll(m, fields[..i + 1], isSearch)
         == BindAll(m, fields[..i], isSearch)[Placeholder(fields[i].0) := Binding(BoundValue(fields[i].1, isSearch), Bind(fields[i].1))]
  {
    assert fields[..i + 1][..i] == fields[..i];
  }

  /** The placeholder of field `i` holds that field's binding when all keys are distinct. */
  lemma {:induction false} BindAllAt(m: map<string, Binding>, fields: PArray, isSearch: bool, i: nat)
    requires DistinctKeys(fields) && i < |fields|
    requires forall j :: 0 <= j < |fields| ==> ValidKey(fields[j].0)
    ensures Placeholder(fields[i].0) in BindAll(m, fields, isSearch)
    ensures BindAll(m, fields, isSearch)[Placeholder(fields[i].0)]
              == Binding(BoundValue(fields[i].1, isSearch), Bind(fields[i].1))
  {
    var n := |fields| - 1;
    if i < n {
      var init := fields[..n];
      PlaceholdersDiffer(fields[i].0, fields[n].0);
      InitWellFormed(fields, init);
      BindAllAt(m, init, isSearch, i);
      assert init[i] == fields[i];
    }
  }

  /** Different valid keys never share a placeholder. */
  lemma PlaceholdersDiffer(j: Key, k: Key)
    requires ValidKey(j) && ValidKey(k) && j != k
    ensures Placeholder(j) != Placeholder(k)
  {
    if Placeholder(j) == Placeholder(k) {
      PlaceholderInjective(j, k);
    }
  }

  /** Dropping the last field keeps the keys distinct and valid. */
  lemma InitWellFormed(fields: PArray, init: PArray)
    requires fields != [] && init == fields[..|fields| - 1] && DistinctKeys(fields)
    requires forall j :: 0 <= j < |fields| ==> ValidKey(fields[j].0)
    ensures DistinctKeys(init)
    ensures forall j :: 0 <= j < |init| ==> ValidKey(init[j].0)
  {
  }

  /** Binding a field table: each field's placeholder holds its (possibly wrapped) value and
      the type of the unwrapped value; placeholders of other names keep their old binding. */
  lemma BindAllLookup(m: map<string, Binding>, fields: PArray, isSearch: bool)
    requires DistinctKeys(fields)
    requires forall i :: 0 <= i < |fields| ==> ValidKey(fields[i].0)
    ensures forall i :: 0 <= i < |fields| ==>
              Placeholder(fields[i].0) in BindAll(m, fields, isSearch) &&
              BindAll(m, fields, isSearch)[Placeholder(fields[i].0)]
                == Binding(BoundValue(fields[i].1, isSearch), Bind(fields[i].1))
    ensures forall p :: p !in PlaceholdersOf(fields) ==>
              (p in BindAll(m, fields, isSearch) <==> p in m) &&
              (p in m ==> BindAll(m, fields, isSearch)[p] == m[p])
  {
    forall i | 0 <= i < |fields|
      ensures Placeholder(fields[i].0) in BindAll(m, fields, isSearch)
      ensures BindAll(m, fields, isSearch)[Placeholder(fields[i].0)]
                == Binding(BoundValue(fields[i].1, isSearch), Bind(fields[i].1))
    {
      BindAllAt(m, fields, isSearch, i);
    }
    forall p | p !in PlaceholdersOf(fields)
      ensures p in BindAll(m, fields, isSearch) <==> p in m
      ensures p in m ==> BindAll(m, fields, isSearch)[p] == m[p]
    {
      BindAllOther(m, fields, isSearch, p);
    }
  }

  /** The placeholder names of a field table. */
  function PlaceholdersOf(fields: PArray): set<string>
  {
    set i | 0 <= i < |fields| :: Placeholder(fields[i].0)
  }

  /** `buildQueryParameters` lets `parameters` win on a string-key collision and, with no
      parameters, returns a string-keyed `conditions` unchanged. */
  lemma BuildQueryParametersSpec(conditions: PArray, parameters: PArray)
    requires StringKeyed(conditions) && DistinctKeys(conditions) && DistinctKeys(parameters)
    ensures forall s :: Lookup(BuildQueryParameters(conditions, parameters), KStr(s))
                     == if KStr(s) in Keys(parameters) then Lookup(parameters, KStr(s)) else Lookup(conditions, KStr(s))
    ensures parameters == [] ==> BuildQueryParameters(conditions, parameters) == conditions
    ensures Keys(conditions) <= Keys(BuildQueryParameters(conditions, parameters))
  {
    ArrayMergeSpec(conditions, parameters);
    MergeEmpty(conditions);
  }
}
