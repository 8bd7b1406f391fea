/** LiquidORM's QueryBuilder (src/Fluid/LiquidORM/QueryBuilder/QueryBuilder.php): a query
    descriptor merged over SQL_DEFAULT is kept in `key`, and each `*Query` method writes
    parameterised SQL text for it into `sqlQuery`. */
module QueryBuilding {
  import opened PhpValues
  import opened PhpStrings
  import opened PhpArrays
  import opened PhpCompare

  /** SQL_DEFAULT: the descriptor every query starts from. */
  const SqlDefault: PArray := [
    (KStr("and"), PList([])),
    (KStr("conditions"), PList([])),
    (KStr("distinct"), PBool(false)),
    (KStr("fields"), PList([])),
    (KStr("from"), PList([])),
    (KStr("or"), PList([])),
    (KStr("orderBy"), PList([])),
    (KStr("pk"), PStr("")),
    (KStr("raw"), PStr("")),
    (KStr("replace"), PBool(false)),
    (KStr("selectors"), PList([])),
    (KStr("table"), PStr("")),
    (KStr("type"), PStr("")),
    (KStr("where"), PNull)
  ]

  /** `array_merge(self::SQL_DEFAULT, $args)`, started from SQL_DEFAULT itself (see
      WithDefaultsIsArrayMerge). */
  function WithDefaults(args: PArray): PArray
  {
    MergeInto(SqlDefault, args)
  }

  /** QUERY_TYPES. */
  const QueryTypes: seq<string> := ["insert", "select", "update", "delete", "search", "raw"]

  /** `isQueryTypeValid`: `in_array` with loose matching over QUERY_TYPES, which holds exactly
      for the six kinds; the literal each `*Query` method passes is one of them, so the check
      never fails. */
  predicate IsQueryTypeValid(t: string)
    ensures IsQueryTypeValid(t) <==> t in QueryTypes
  {
    InQueryTypesIff(t);
    InStrings(t, QueryTypes)
  }

  /** `$this->key[name]` as an rvalue. */
  function Field(key: PArray, name: string): Value
  {
    Index(key, KStr(name))
  }

  /** `count($this->key['fields']) > 0` behind `is_array`. */
  predicate HasFields(key: PArray)
  {
    Field(key, "fields").PList? && |Field(key, "fields").entries| > 0
  }

  // ---------------------------------------------------------------------------------------
  // insertQuery

  /** The text `insertQuery` returns; `return false` from a `: string` method is a TypeError. */
  function InsertText(key: PArray): Result<string>
  {
    if HasFields(key) then
      var index := KeyTexts(Keys(Field(key, "fields").entries));
      Ok("INSERT INTO " + ToText(Field(key, "table")) + " (" + Implode(", ", index)
         + ") VALUES(" + (":" + Implode(", :", index)) + ")")
    else Err(TypeError)
  }

  // ---------------------------------------------------------------------------------------
  // hasConditions

  /** The term the foreach of `hasConditions` adds for a condition key. */
  function Term(k: Key): string
  {
    KeyText(k) + " = :" + KeyText(k)
  }

  /** One term per key, in key order. */
  function KeyTerms(ks: seq<Key>): (r: seq<string>)
    ensures |r| == |ks| && forall i :: 0 <= i < |ks| ==> r[i] == Term(ks[i])
  {
    seq(|ks|, i requires 0 <= i < |ks| => Term(ks[i]))
  }

  /** The test `isset($where) && $where != ''` on a key read back by `array_keys`. */
  predicate Kept(k: Key)
  {
    KeyValue(k) != PNull && !LooseEq(KeyValue(k), PStr(""))
  }

  /** `$sort` after the foreach over the keys `ks`: the guard passes every key but the empty
      string (KeptIff). */
  function WhereTerms(ks: seq<Key>): seq<string>
  {
    if ks == [] then []
    else WhereTerms(ks[..|ks| - 1]) + (if ks[|ks| - 1] != KStr("") then [Term(ks[|ks| - 1])] else [])
  }

  /** The guard of `hasConditions`. */
  predicate ConditionsUsable(conds: Value)
  {
    conds != PNull && !LooseEq(conds, PStr("")) && conds.PList?
  }

  /** `sqlQuery` after the WHERE step: appended for non-empty conditions, overwritten with
      " WHERE 1" for empty ones. */
  function WhereClause(conds: PArray, cur: string): string
  {
    if |conds| > 0 then cur + " WHERE " + Implode(" AND ", WhereTerms(Keys(conds)))
    else if !ToBool(PList(conds)) then " WHERE 1"
    else cur
  }

  /** What the ORDER BY step appends. */
  function OrderByClause(key: PArray): string
  {
    var ob := Field(key, "orderBy");
    if ob != PNull && !LooseEq(ob, PStr("")) then "ORDER BY " + ToText(ob) + " " else ""
  }

  /** What the LIMIT step appends. */
  function LimitClause(key: PArray): string
  {
    if Isset(key, KStr("limit")) && !LooseEq(Field(key, "offset"), PInt(-1)) then " LIMIT :offset, :limit"
    else ""
  }

  /** The value `hasConditions` returns, given `sqlQuery` on entry; None is its implicit
      null return when the guard fails. */
  function ConditionsText(key: PArray, cur: string): Option<string>
  {
    var conds := Field(key, "conditions");
    if ConditionsUsable(conds) then
      Some(WhereClause(conds.entries, cur) + OrderByClause(key) + LimitClause(key))
    else None
  }

  // ---------------------------------------------------------------------------------------
  // selectQuery

  /** The `SELECT ... FROM ...` text, or None when `implode` rejects a non-array selector. */
  function SelectPrefix(key: PArray): Option<string>
  {
    var sel := Field(key, "selectors");
    if ToBool(sel) && !sel.PList? then None
    else
      var selectors := if ToBool(sel) then Implode(", ", ValueTexts(Values(sel.entries))) else "*";
      Some("SELECT " + selectors + " FROM " + ToText(Field(key, "table")))
  }

  /** The value `selectQuery` returns: a null from `hasConditions` cannot be stored in the
      string property, a TypeError. */
  function SelectText(key: PArray): Result<string>
  {
    match SelectPrefix(key)
    case None => Err(TypeError)
    case Some(p) =>
      match ConditionsText(key, p)
      case None => Err(TypeError)
      case Some(q) => Ok(q)
  }

  /** `sqlQuery` after `selectQuery`, success or not. */
  function SelectState(key: PArray, cur: string): string
  {
    match SelectPrefix(key)
    case None => cur
    case Some(p) =>
      match ConditionsText(key, p)
      case None => p
      case Some(q) => q
  }

  // ---------------------------------------------------------------------------------------
  // updateQuery

  /** `substr_replace($s, '', -2)`: the last two characters dropped. */
  function DropLast2(s: string): (r: string)
    ensures |s| >= 2 ==> r + s[|s| - 2..] == s
    ensures |s| < 2 ==> r == ""
  {
    if |s| < 2 then "" else s[..|s| - 2]
  }

  /** `$values` at the end of the first (and only) iteration of the foreach. */
  function SetList(field: Value, pk: Value): string
  {
    DropLast2(if field != pk then ToText(field) + " = :" + ToText(field) + ", " else "")
  }

  /** The text `updateQuery` returns. */
  function UpdateText(key: PArray): Result<string>
  {
    if HasFields(key) then
      var pk := Field(key, "pk");
      var values := SetList(Field(key, "fields").entries[0].1, pk);
      var table := ToText(Field(key, "table"));
      if pk == PStr("0") then Ok("UPDATE " + table + " SET (" + values + ")")
      else Ok("UPDATE " + table + " SET (" + values + ") WHERE " + ToText(pk) + " = :" + ToText(pk) + " LIMIT 1")
    else Err(TypeError)
  }

  /** `key` after `updateQuery`: `pk` is unset when it is the string "0". */
  function UpdateKey(key: PArray): PArray
  {
    if HasFields(key) && Field(key, "pk") == PStr("0") then Remove(key, KStr("pk")) else key
  }

  // ---------------------------------------------------------------------------------------
  // deleteQuery

  /** `{$index[0]}`: the text of the first condition key, "" (with a warning) when none. */
  function FirstKeyText(conds: PArray): string
  {
    if conds == [] then "" else KeyText(conds[0].0)
  }

  /** The DELETE text before the bulk loop. */
  function DeleteBase(key: PArray, first: string): string
  {
    "DELETE FROM " + ToText(Field(key, "table")) + " WHERE " + first + " = :" + first
  }

  /** The text `deleteQuery` returns; the guard is on `fields`, and `array_keys` of a
      non-array `conditions` is a TypeError. */
  function DeleteText(key: PArray): Result<string>
  {
    if !HasFields(key) then Err(TypeError)
    else
      var conds := Field(key, "conditions");
      if !conds.PList? then Err(TypeError)
      else
        var base := DeleteBase(key, FirstKeyText(conds.entries));
        if |Field(key, "fields").entries| > 1 then Ok(base) else Ok(base + " LIMIT 1")
  }

  class QueryBuilder {
    /** The merged descriptor; None until `buildQuery` first initialises the typed property. */
    var key: Option<PArray>
    var sqlQuery: string

    constructor()
      ensures key == None && sqlQuery == ""
    {
      key := None;
      sqlQuery := "";
    }

    /** `buildQuery`: the `count($args) < 0` guard cannot fire, so the merge always happens. */
    method BuildQuery(args: PArray)
      modifies this
      ensures key == Some(WithDefaults(args))
      ensures sqlQuery == old(sqlQuery)
    {
      key := Some(WithDefaults(args));
    }

    method InsertQuery() returns (r: Result<string>)
      modifies this
      ensures key == old(key)
      ensures key.None? ==> r == Err(Error) && sqlQuery == old(sqlQuery)
      ensures key.Some? ==> r == InsertText(key.value)
      ensures key.Some? ==> sqlQuery == if r.Ok? then r.value else old(sqlQuery)
    {
      if key.None? {
        r := Err(Error);
        return;
      }
      var k := key.value;
      var fields := Field(k, "fields");
      if fields.PList? && |fields.entries| > 0 {
        var index := KeyTexts(Keys(fields.entries));
        var value := [Implode(", ", index), ":" + Implode(", :", index)];
        sqlQuery := "INSERT INTO " + ToText(Field(k, "table")) + " (" + value[0] + ") VALUES(" + value[1] + ")";
        r := Ok(sqlQuery);
        return;
      }
      r := Err(TypeError);
    }

    /** The foreach of `hasConditions` that fills `$sort`, one `k = :k` term per kept key. */
    static method WhereTermsOf(ks: seq<Key>) returns (sort: seq<string>)
      ensures sort == WhereTerms(ks)
    {
      sort := [];
      var i := 0;
      while i < |ks|
        invariant 0 <= i <= |ks|
        invariant sort == WhereTerms(ks[..i])
      {
        WhereTermsStep(ks, i);
        if Kept(ks[i]) {
          sort := sort + [KeyText(ks[i]) + " = :" + KeyText(ks[i])];
        }
        i := i + 1;
      }
      assert ks[..i] == ks;
    }

    /** `hasConditions`, called by `selectQuery` once `key` has been read. The text is built
        in a local and stored once at the end, which nothing can observe in between. */
    method HasConditions() returns (r: Option<string>)
      requires key.Some?
      modifies this
      ensures key == old(key)
      ensures r == ConditionsText(key.value, old(sqlQuery))
      ensures sqlQuery == if r.Some? then r.value else old(sqlQuery)
    {
      var k := key.value;
      var conds := Field(k, "conditions");
      if !(conds != PNull && !LooseEq(conds, PStr("")) && conds.PList?) {
        r := None;
        return;
      }
      var q := sqlQuery;
      var ks := Keys(conds.entries);
      var sort := WhereTermsOf(ks);
      if |conds.entries| > 0 {
        q := q + " WHERE " + Implode(" AND ", sort);
      } else if !ToBool(conds) {
        q := " WHERE 1";
      }
      assert q == WhereClause(conds.entries, sqlQuery);
      var ob := Field(k, "orderBy");
      var order := "";
      if ob != PNull && !LooseEq(ob, PStr("")) {
        order := "ORDER BY " + ToText(ob) + " ";
      }
      assert order == OrderByClause(k);
      q := q + order;
      var limit := "";
      if Isset(k, KStr("limit")) && !LooseEq(Field(k, "offset"), PInt(-1)) {
        limit := " LIMIT :offset, :limit";
      }
      assert limit == LimitClause(k);
      q := q + limit;
      sqlQuery := q;
      r := Some(q);
    }

    method SelectQuery() returns (r: Result<string>)
      modifies this
      ensures key == old(key)
      ensures key.None? ==> r == Err(Error) && sqlQuery == old(sqlQuery)
      ensures key.Some? ==> r == SelectText(key.value) && sqlQuery == SelectState(key.value, old(sqlQuery))
    {
      if key.None? {
        r := Err(Error);
        return;
      }
      var k := key.value;
      var sel := Field(k, "selectors");
      if ToBool(sel) && !sel.PList? {
        r := Err(TypeError);
        return;
      }
      var selectors := if ToBool(sel) then Implode(", ", ValueTexts(Values(sel.entries))) else "*";
      sqlQuery := "SELECT " + selectors + " FROM " + ToText(Field(k, "table"));
      var c := HasConditions();
      if c.None? {
        r := Err(TypeError);
        return;
      }
      sqlQuery := c.value;
      r := Ok(sqlQuery);
    }

    /** `updateQuery`: the foreach returns during its first iteration. */
    method UpdateQuery() returns (r: Result<string>)
      modifies this
      ensures old(key).None? ==> key == old(key) && r == Err(Error) && sqlQuery == old(sqlQuery)
      ensures old(key).Some? ==> key == Some(UpdateKey(old(key).value)) && r == UpdateText(old(key).value)
      ensures old(key).Some? ==> sqlQuery == if r.Ok? then r.value else old(sqlQuery)
    {
      if key.None? {
        r := Err(Error);
        return;
      }
      var k := key.value;
      var fields := Field(k, "fields");
      r := Err(TypeError);
      if fields.PList? && |fields.entries| > 0 {
        var values := "";
        for i := 0 to |fields.entries|
          invariant i == 0 && values == "" && key == Some(k)
        {
          var field := fields.entries[i].1;
          if field != Field(k, "pk") {
            values := values + ToText(field) + " = :" + ToText(field) + ", ";
          }
          assert values == if field != Field(k, "pk") then ToText(field) + " = :" + ToText(field) + ", " else "";
          values := DropLast2(values);
          if |fields.entries| > 0 {
            var pk := Field(k, "pk");
            sqlQuery := "UPDATE " + ToText(Field(k, "table")) + " SET (" + values + ") WHERE "
                        + ToText(pk) + " = :" + ToText(pk) + " LIMIT 1";
            if Isset(k, KStr("pk")) && pk == PStr("0") {
              key := Some(Remove(k, KStr("pk")));
              sqlQuery := "UPDATE " + ToText(Field(k, "table")) + " SET (" + values + ")";
            }
          }
          r := Ok(sqlQuery);
          return;
        }
      }
    }

    /** `deleteQuery`, with its bulk loop rewriting the text without `LIMIT 1`. */
    method DeleteQuery() returns (r: Result<string>)
      modifies this
      ensures key == old(key)
      ensures key.None? ==> r == Err(Error) && sqlQuery == old(sqlQuery)
      ensures key.Some? ==> r == DeleteText(key.value)
      ensures key.Some? ==> sqlQuery == if r.Ok? then r.value else old(sqlQuery)
    {
      if key.None? {
        r := Err(Error);
        return;
      }
      var k := key.value;
      var fields := Field(k, "fields");
      if !(fields.PList? && |fields.entries| > 0) {
        r := Err(TypeError);
        return;
      }
      var conds := Field(k, "conditions");
      if !conds.PList? {
        r := Err(TypeError);
        return;
      }
      var index := KeyTexts(Keys(conds.entries));
      var first := if |index| > 0 then index[0] else "";
      var table := ToText(Field(k, "table"));
      sqlQuery := "DELETE FROM " + table + " WHERE " + first + " = :" + first + " LIMIT 1";
      assert first == FirstKeyText(conds.entries);
      var bulkDelete := Values(fields.entries);
      if |bulkDelete| > 1 {
        for i := 0 to |bulkDelete|
          invariant key == old(key)
          invariant sqlQuery == if i == 0 then DeleteBase(k, first) + " LIMIT 1" else DeleteBase(k, first)
        {
          sqlQuery := "DELETE FROM " + table + " WHERE " + first + " = :" + first;
        }
      }
      r := Ok(sqlQuery);
    }

    /** `searchQuery`: always the empty text. */
    function SearchQuery(): (r: string)
      ensures |r| == 0
    {
      ""
    }

    /** `rawQuery`: always the empty text, whatever `raw` holds. */
    function RawQuery(): (r: string)
      ensures |r| == 0
    {
      ""
    }
  }

  // ---------------------------------------------------------------------------------------
  // Lemmas

  /** SQL_DEFAULT has string keys only, with no duplicate. */
  lemma SqlDefaultWellFormed()
    ensures StringKeyed(SqlDefault) && DistinctKeys(SqlDefault)
  {
    var names := ["and", "conditions", "distinct", "fields", "from", "or", "orderBy",
                  "pk", "raw", "replace", "selectors", "table", "type", "where"];
    assert forall i :: 0 <= i < |SqlDefault| ==> SqlDefault[i].0 == KStr(names[i]);
    forall i, j | 0 <= i < j < |names| ensures names[i] != names[j] {
      assert names[i][0] != names[j][0] || |names[i]| != |names[j]| || names[i][1] != names[j][1];
    }
  }

  /** `array_merge` renumbers nothing in SQL_DEFAULT (string keys, no duplicate), so
      `array_merge(self::SQL_DEFAULT, $args)` is `args` merged into SQL_DEFAULT as it stands. */
  lemma WithDefaultsIsArrayMerge(args: PArray)
    ensures WithDefaults(args) == ArrayMerge(SqlDefault, args)
  {
    SqlDefaultWellFormed();
    MergeEmpty(SqlDefault);
    assert MergeInto([], SqlDefault) == ArrayMerge(SqlDefault, []);
  }

  /** `buildQuery(args)` keeps every SQL_DEFAULT key in its place, gives each string key the
      value of `args` when `args` has it and the default otherwise, and appends the other keys
      of a string-keyed `args` in their order. */
  lemma BuildQueryMerge(args: PArray)
    requires DistinctKeys(args)
    ensures Keys(SqlDefault) <= Keys(WithDefaults(args))
    ensures DistinctKeys(WithDefaults(args))
    ensures forall s :: Lookup(WithDefaults(args), KStr(s))
                     == if KStr(s) in Keys(args) then Lookup(args, KStr(s)) else Lookup(SqlDefault, KStr(s))
    ensures StringKeyed(args) ==>
              Keys(WithDefaults(args)) == Keys(SqlDefault) + NewKeys(Keys(SqlDefault), Keys(args))
  {
    SqlDefaultWellFormed();
    WithDefaultsIsArrayMerge(args);
    ArrayMergeSpec(SqlDefault, args);
  }

  lemma NotNumericWord(s: string)
    requires s != [] && 'a' <= s[0] <= 'z'
    ensures !IsIntegerString(s)
  {
    assert SkipWhitespace(s) == s;
    assert Unsigned(s) == s;
  }

  /** None of the six kinds is numeric, so loose membership among them is exact membership. */
  lemma InQueryTypesIff(t: string)
    ensures InStrings(t, QueryTypes) <==> t in QueryTypes
  {
    forall i | 0 <= i < |QueryTypes| ensures StrLooseEq(t, QueryTypes[i]) <==> t == QueryTypes[i] {
      NotNumericWord(QueryTypes[i]);
    }
    if t in QueryTypes {
      var i :| 0 <= i < |QueryTypes| && QueryTypes[i] == t;
      assert StrLooseEq(t, QueryTypes[i]);
    }
  }

  /** `insertQuery` fails exactly when `fields` is not a non-empty array; otherwise it names
      the field keys in order and gives one `:`-placeholder per key, in the same order. */
  lemma InsertShape(key: PArray)
    ensures InsertText(key).Err? <==> !HasFields(key)
    ensures HasFields(key) ==>
      var names := KeyTexts(Keys(Field(key, "fields").entries));
      InsertText(key) == Ok("INSERT INTO " + ToText(Field(key, "table")) + " (" + Implode(", ", names)
                            + ") VALUES(" + Implode(", ", Prefixed(":", names)) + ")")
      && |Prefixed(":", names)| == |Field(key, "fields").entries|
  {
    if HasFields(key) {
      var names := KeyTexts(Keys(Field(key, "fields").entries));
      PlaceholderList(names);
      assert ":" + Implode(", :", names) == Implode(", ", Prefixed(":", names));
    }
  }

  /** A condition key contributes a term exactly when it is not the empty string. */
  lemma KeptIff(k: Key)
    ensures Kept(k) <==> k != KStr("")
  {
    EmptyIsNotNumeric();
    if k.KStr? {
      LooseEqEmptyString(k.s);
    } else {
      IntNotLooseEqEmpty(k.n);
    }
  }

  /** Without empty-string keys, `$sort` holds one `k = :k` term per key, in key order. */
  lemma {:induction false} WhereTermsAll(ks: seq<Key>)
    requires forall i :: 0 <= i < |ks| ==> ks[i] != KStr("")
    ensures WhereTerms(ks) == KeyTerms(ks)
  {
    if ks != [] {
      var init := ks[..|ks| - 1];
      WhereTermsAll(init);
      WhereTermsSnoc(ks);
      KeyTermsSnoc(ks);
    }
  }

  /** The reference list grows by the last key's term. */
  lemma KeyTermsSnoc(ks: seq<Key>)
    requires ks != []
    ensures KeyTerms(ks) == KeyTerms(ks[..|ks| - 1]) + [Term(ks[|ks| - 1])]
  {
  }

  /** One more iteration of the foreach: the key's term is added when the guard keeps it. */
  lemma WhereTermsStep(ks: seq<Key>, i: int)
    requires 0 <= i < |ks|
    ensures WhereTerms(ks[..i + 1]) == WhereTerms(ks[..i]) + (if Kept(ks[i]) then [Term(ks[i])] else [])
  {
    assert ks[..i + 1][..i] == ks[..i];
    KeptIff(ks[i]);
  }

  /** A last key that is not the empty string adds its term at the end. */
  lemma WhereTermsSnoc(ks: seq<Key>)
    requires ks != [] && ks[|ks| - 1] != KStr("")
    ensures WhereTerms(ks) == WhereTerms(ks[..|ks| - 1]) + [Term(ks[|ks| - 1])]
  {
  }

  /** Every term of `$sort` comes from a non-empty key of the conditions. */
  lemma {:induction false} WhereTermsFromKeys(ks: seq<Key>)
    ensures |WhereTerms(ks)| <= |ks|
    ensures forall t :: t in WhereTerms(ks) ==> exists k :: k in ks && k != KStr("") && t == Term(k)
  {
    if ks != [] {
      var init := ks[..|ks| - 1];
      WhereTermsFromKeys(init);
      forall t | t in WhereTerms(ks) ensures exists k :: k in ks && k != KStr("") && t == Term(k) {
        if t in WhereTerms(init) {
          var k :| k in init && k != KStr("") && t == Term(k);
          assert k in ks;
        } else {
          assert t == Term(ks[|ks| - 1]);
        }
      }
    }
  }

  /** `hasConditions` returns null exactly when `conditions` is not an array. */
  lemma ConditionsNoneIff(key: PArray, cur: string)
    ensures ConditionsText(key, cur).None? <==> !Field(key, "conditions").PList?
  {
    if Field(key, "conditions").PList? {
      ListUsable(Field(key, "conditions"));
    }
  }

  /** Non-empty conditions append ` WHERE k1 = :k1 AND ...` to the text so far, one term
      per condition key. */
  lemma ConditionsWhere(key: PArray, cur: string)
    requires Field(key, "conditions").PList? && Field(key, "conditions").entries != []
    requires forall i :: 0 <= i < |Field(key, "conditions").entries| ==> Field(key, "conditions").entries[i].0 != KStr("")
    ensures ConditionsText(key, cur) == Some(cur + " WHERE " + Implode(" AND ", KeyTerms(Keys(Field(key, "conditions").entries)))
                                         + OrderByClause(key) + LimitClause(key))
  {
    var conds := Field(key, "conditions").entries;
    ListUsable(Field(key, "conditions"));
    WhereTermsAll(Keys(conds));
  }

  /** Empty conditions assign ` WHERE 1`, discarding the text built so far. */
  lemma ConditionsEmptyOverwrites(key: PArray, cur: string, other: string)
    requires Field(key, "conditions") == PList([])
    ensures ConditionsText(key, cur) == ConditionsText(key, other)
    ensures ConditionsText(key, cur) == Some(" WHERE 1" + OrderByClause(key) + LimitClause(key))
  {
  }

  /** ORDER BY is appended, with no leading space, unless `orderBy` is null, false or "";
      an array `orderBy` (the default `[]`) appends "ORDER BY Array ". */
  lemma OrderByIff(key: PArray)
    ensures var ob := Field(key, "orderBy");
            OrderByClause(key) == if ob == PNull || ob == PBool(false) || ob == PStr("") then ""
                                  else "ORDER BY " + ToText(ob) + " "
    ensures Field(key, "orderBy").PList? ==> OrderByClause(key) == "ORDER BY Array "
  {
    var ob := Field(key, "orderBy");
    if ob.PStr? {
      LooseEqEmptyString(ob.s);
    } else if ob.PInt? {
      IntNotLooseEqEmpty(ob.i);
    } else if ob.PList? {
      assert !LooseEq(ob, PStr(""));
    }
  }

  /** The values PHP 8 finds loosely equal to -1 (floats aside): -1, true and the integer
      strings of value -1. */
  lemma LooseEqMinusOne(v: Value)
    ensures LooseEq(v, PInt(-1)) <==>
              v == PInt(-1) || v == PBool(true) || (v.PStr? && IsIntegerString(v.s) && LeadingInt(v.s) == -1)
  {
    if v.PStr? && !IsIntegerString(v.s) {
      IntToStringRoundTrip(-1);
    }
  }

  /** ` LIMIT :offset, :limit` is appended exactly when `limit` is set and `offset` is not
      loosely -1; a missing `offset` reads as null, which is not. */
  lemma LimitIff(key: PArray)
    ensures var off := Field(key, "offset");
            LimitClause(key) == if Isset(key, KStr("limit")) && !(off == PInt(-1) || off == PBool(true)
                                     || (off.PStr? && IsIntegerString(off.s) && LeadingInt(off.s) == -1))
                                then " LIMIT :offset, :limit" else ""
  {
    LooseEqMinusOne(Field(key, "offset"));
  }

  /** `selectQuery` lists the selectors, or `*` when they are empty, and returns what
      `hasConditions` makes of that text. */
  lemma SelectShape(key: PArray)
    requires Field(key, "conditions").PList?
    requires Field(key, "selectors").PList?
    ensures var sel := Field(key, "selectors").entries;
            var prefix := "SELECT " + (if sel == [] then "*" else Implode(", ", ValueTexts(Values(sel))))
                          + " FROM " + ToText(Field(key, "table"));
            ConditionsText(key, prefix).Some? && SelectText(key) == Ok(ConditionsText(key, prefix).value)
  {
    SelectPrefixList(key);
    ListUsable(Field(key, "conditions"));
  }

  /** An array of selectors is listed, or gives `*` when it is empty. */
  lemma SelectPrefixList(key: PArray)
    requires Field(key, "selectors").PList?
    ensures var sel := Field(key, "selectors").entries;
            SelectPrefix(key) == Some("SELECT " + (if sel == [] then "*" else Implode(", ", ValueTexts(Values(sel))))
                                      + " FROM " + ToText(Field(key, "table")))
  {
  }

  /** An array passes the guard of `hasConditions`: it is neither null nor loosely "". */
  lemma ListUsable(conds: Value)
    requires conds.PList?
    ensures ConditionsUsable(conds)
  {
    assert !LooseEq(conds, PStr(""));
  }

  /** `selectQuery` fails exactly when `selectors` is a non-empty non-array, or when
      `conditions` is not an array. */
  lemma SelectErrIff(key: PArray)
    ensures SelectText(key).Err? <==>
              (ToBool(Field(key, "selectors")) && !Field(key, "selectors").PList?) || !Field(key, "conditions").PList?
  {
    ConditionsNoneIff(key, "");
    if SelectPrefix(key).Some? {
      ConditionsNoneIff(key, SelectPrefix(key).value);
    }
  }

  /** The SET list holds at most one term `v = :v`, and never the primary key's. */
  lemma SetListAtMostOne(field: Value, pk: Value)
    ensures SetList(field, pk) == if field != pk then ToText(field) + " = :" + ToText(field) else ""
  {
    var s := ToText(field) + " = :" + ToText(field) + ", ";
    if field != pk {
      assert s[..|s| - 2] == ToText(field) + " = :" + ToText(field);
    }
  }

  /** `updateQuery` uses the first field value only and ends in ` WHERE pk = :pk LIMIT 1`,
      except that a `pk` of "0" drops the WHERE clause (and is unset). */
  lemma UpdateShape(key: PArray)
    ensures UpdateText(key).Err? <==> !HasFields(key)
    ensures HasFields(key) ==>
      var f := Field(key, "fields").entries[0].1;
      var pk := Field(key, "pk");
      var terms := if f != pk then ToText(f) + " = :" + ToText(f) else "";
      var head := "UPDATE " + ToText(Field(key, "table")) + " SET (" + terms;
      UpdateText(key) == Ok(if pk == PStr("0") then head + ")"
                            else head + ") WHERE " + ToText(pk) + " = :" + ToText(pk) + " LIMIT 1")
    ensures HasFields(key) && Field(key, "pk") == PStr("0") ==> !Isset(UpdateKey(key), KStr("pk"))
  {
    if HasFields(key) {
      SetListAtMostOne(Field(key, "fields").entries[0].1, Field(key, "pk"));
    }
  }

  /** `deleteQuery` depends on `fields` only through its size: empty fields fail whatever the
      conditions, more than one value drops `LIMIT 1`; only the first condition key is used. */
  lemma DeleteShape(key: PArray)
    ensures !HasFields(key) ==> DeleteText(key) == Err(TypeError)
    ensures HasFields(key) && Field(key, "conditions").PList? ==>
      var ks := Keys(Field(key, "conditions").entries);
      var first := if ks == [] then "" else KeyText(ks[0]);
      var base := "DELETE FROM " + ToText(Field(key, "table")) + " WHERE " + first + " = :" + first;
      DeleteText(key) == Ok(if |Field(key, "fields").entries| > 1 then base else base + " LIMIT 1")
  {
  }

  /** Two descriptors that agree on table, the number of fields and the first condition key
      give the same DELETE text. */
  lemma DeleteFirstConditionOnly(k1: PArray, k2: PArray)
    requires HasFields(k1) && HasFields(k2)
    requires |Field(k1, "fields").entries| == |Field(k2, "fields").entries|
    requires Field(k1, "table") == Field(k2, "table")
    requires Field(k1, "conditions").PList? && Field(k2, "conditions").PList?
    requires Field(k1, "conditions").entries != [] && Field(k2, "conditions").entries != []
    requires Field(k1, "conditions").entries[0].0 == Field(k2, "conditions").entries[0].0
    ensures DeleteText(k1) == DeleteText(k2)
  {
  }
}
