/** LiquidORM's CRUD (src/Fluid/LiquidORM/EntityManager/CRUD.php): each operation builds a
    descriptor, merges it into the shared QueryBuilder, persists the query text through the
    DataMapper and maps the row count to a result. The DataMapper is an oracle here: the
    outcome of `persist`, `rowsCount()` and `results()` are given, and every `persist` call
    is logged. */
module EntityManager {
  import opened PhpValues
  import opened PhpStrings
  import opened PhpArrays
  import opened QueryBuilding
  import opened DataMapping

  /** The DataMapper as CRUD uses it. */
  class MapperOracle {
    /** None when `persist` succeeds, else the Throwable it raises. */
    const persistError: Option<Throwable>
    /** What `rowsCount()` returns. */
    const affected: int
    /** What `results()` returns. */
    const rows: PArray
    /** Every `persist` call, in order: the query text and the parameters. */
    var log: seq<(string, PArray)>

    constructor(persistError: Option<Throwable>, affected: int, rows: PArray)
      ensures this.persistError == persistError && this.affected == affected && this.rows == rows
      ensures log == []
    {
      this.persistError := persistError;
      this.affected := affected;
      this.rows := rows;
      log := [];
    }

    method Persist(query: string, parameters: PArray) returns (r: Result<Value>)
      modifies this
      ensures log == old(log) + [(query, parameters)]
      ensures r == if persistError.Some? then Err(persistError.value) else Ok(PBool(true))
    {
      log := log + [(query, parameters)];
      if persistError.Some? {
        r := Err(persistError.value);
      } else {
        r := Ok(PBool(true));
      }
    }

    function RowsCount(): int
    {
      affected
    }

    function Results(): PArray
    {
      rows
    }
  }

  // ---------------------------------------------------------------------------------------
  // The descriptors each operation sends to `buildQuery`.

  /** An array literal with the string keys `names` and the values `vals`, in order. */
  function Named(names: seq<string>, vals: seq<Value>): PArray
    requires |names| == |vals|
  {
    seq(|names|, i requires 0 <= i < |names| => (KStr(names[i]), vals[i]))
  }

  const InsertNames: seq<string> := ["table", "type", "fields"]
  const SelectNames: seq<string> := ["table", "type", "selectors", "conditions", "params", "extras"]
  const UpdateNames: seq<string> := ["table", "type", "pk", "fields"]
  const DeleteNames: seq<string> := ["table", "type", "conditions"]
  const SearchNames: seq<string> := ["table", "type", "selectors", "conditions"]
  const RawNames: seq<string> := ["table", "type", "raw", "conditions"]

  function InsertArgs(table: string, fields: PArray): PArray
  {
    Named(InsertNames, [PStr(table), PStr("insert"), PList(fields)])
  }

  function SelectArgs(table: string, selectors: PArray, conditions: PArray, parameters: PArray, optional: PArray): PArray
  {
    Named(SelectNames, [PStr(table), PStr("select"), PList(selectors), PList(conditions), PList(parameters), PList(optional)])
  }

  function UpdateArgs(table: string, pk: string, fields: PArray): PArray
  {
    Named(UpdateNames, [PStr(table), PStr("update"), PStr(pk), PList(fields)])
  }

  function DeleteArgs(table: string, conditions: PArray): PArray
  {
    Named(DeleteNames, [PStr(table), PStr("delete"), PList(conditions)])
  }

  function SearchArgs(table: string, selectors: PArray, conditions: PArray): PArray
  {
    Named(SearchNames, [PStr(table), PStr("search"), PList(selectors), PList(conditions)])
  }

  function RawArgs(table: string, raw: string, conditions: Option<PArray>): PArray
  {
    Named(RawNames, [PStr(table), PStr("raw"), PStr(raw), if conditions.Some? then PList(conditions.value) else PNull])
  }

  /** `if ($x) { return true; }` at the end of a `: bool` method: falling off is a TypeError. */
  function BoolReturn(b: bool): (r: Result<bool>)
    ensures r != Ok(false)
    ensures r.Ok? <==> b
  {
    if b then Ok(true) else Err(TypeError)
  }

  /** The result of a counted write (create, update, delete) once its query text exists. */
  function CountResult(persistError: Option<Throwable>, affected: int): (r: Result<bool>)
    ensures r != Ok(false)
    ensures r == Ok(true) <==> persistError.None? && affected == 1
    ensures persistError.Some? ==> r == Err(persistError.value)
  {
    if persistError.Some? then Err(persistError.value) else BoolReturn(affected == 1)
  }

  /** A query text as the value handed to `persist(string $query, ...)`. */
  function AsValue(q: Result<string>): Result<Value>
  {
    match q
    case Ok(s) => Ok(PStr(s))
    case Err(e) => Err(e)
  }

  class CRUD {
    const dataMapper: MapperOracle
    const queryBuilder: QueryBuilder
    const tableSchema: string
    const tableSchemaID: string
    const options: PArray

    constructor(dataMapper: MapperOracle, queryBuilder: QueryBuilder, tableSchema: string,
                tableSchemaID: string, options: PArray)
      ensures this.dataMapper == dataMapper && this.queryBuilder == queryBuilder
      ensures this.tableSchema == tableSchema && this.tableSchemaID == tableSchemaID
      ensures this.options == options
    {
      this.dataMapper := dataMapper;
      this.queryBuilder := queryBuilder;
      this.tableSchema := tableSchema;
      this.tableSchemaID := tableSchemaID;
      this.options := options;
    }

    /** The constructor with its `?array $options = []`: a null is stored in the `array`
        property, a TypeError. */
    static method New(dataMapper: MapperOracle, queryBuilder: QueryBuilder, tableSchema: string,
                      tableSchemaID: string, options: Option<PArray>) returns (r: Result<CRUD>)
      ensures options.None? ==> r == Err(TypeError)
      ensures options.Some? ==> r.Ok? && fresh(r.value)
      ensures options.Some? ==> r.value.dataMapper == dataMapper && r.value.queryBuilder == queryBuilder
      ensures options.Some? ==> r.value.tableSchema == tableSchema && r.value.tableSchemaID == tableSchemaID
      ensures options.Some? ==> r.value.options == options.value
    {
      if options.None? {
        r := Err(TypeError);
        return;
      }
      var c := new CRUD(dataMapper, queryBuilder, tableSchema, tableSchemaID, options.value);
      r := Ok(c);
    }

    /** `getSchema`: the table name given to the constructor (a `const`: nothing reassigns it). */
    function GetSchema(): (r: string)
      ensures r == tableSchema
    {
      tableSchema
    }

    /** `getSchemaID`: the primary-key column given to the constructor. */
    function GetSchemaID(): (r: string)
      ensures r == tableSchemaID
    {
      tableSchemaID
    }

    /** Lines 107-114 of `create`, `update` and `delete`: persist the text (unless building it
        already raised), then `true` iff exactly one row changed; anything raised goes up. */
    method PersistAndCount(query: Result<string>, parameters: PArray) returns (r: Result<bool>)
      modifies dataMapper
      ensures query.Err? ==> r == Err(query.error) && dataMapper.log == old(dataMapper.log)
      ensures query.Ok? ==> dataMapper.log == old(dataMapper.log) + [(query.value, parameters)]
      ensures query.Ok? ==> r == CountResult(dataMapper.persistError, dataMapper.affected)
    {
      if query.Err? {
        r := Err(query.error);
        return;
      }
      var p := dataMapper.Persist(query.value, parameters);
      if p.Err? {
        r := Err(p.error);
        return;
      }
      r := BoolReturn(dataMapper.RowsCount() == 1);
    }

    /** Lines 139-146 of `read` and `search`: `persist(string $query, ...)` rejects a
        non-string query; then `results()` iff some row matched, else the `: array` method
        falls off its end. */
    method PersistAndFetch(query: Result<Value>, parameters: PArray) returns (r: Result<PArray>)
      modifies dataMapper
      ensures query.Err? ==> r == Err(query.error) && dataMapper.log == old(dataMapper.log)
      ensures query.Ok? && !query.value.PStr? ==> r == Err(TypeError) && dataMapper.log == old(dataMapper.log)
      ensures query.Ok? && query.value.PStr? ==> dataMapper.log == old(dataMapper.log) + [(query.value.s, parameters)]
      ensures query.Ok? && query.value.PStr? ==>
                r == if dataMapper.persistError.Some? then Err(dataMapper.persistError.value)
                     else if dataMapper.affected > 0 then Ok(dataMapper.rows) else Err(TypeError)
    {
      if query.Err? {
        r := Err(query.error);
        return;
      }
      if !query.value.PStr? {
        r := Err(TypeError);
        return;
      }
      var p := dataMapper.Persist(query.value.s, parameters);
      if p.Err? {
        r := Err(p.error);
        return;
      }
      if dataMapper.RowsCount() > 0 {
        r := Ok(dataMapper.Results());
      } else {
        r := Err(TypeError);
      }
    }

    method Create(fields: PArray) returns (r: Result<bool>)
      modifies queryBuilder, dataMapper
      ensures queryBuilder.key == Some(WithDefaults(InsertArgs(tableSchema, fields)))
      ensures var q := InsertText(queryBuilder.key.value);
              && queryBuilder.sqlQuery == (if q.Ok? then q.value else old(queryBuilder.sqlQuery))
              && (q.Err? ==> r == Err(q.error) && dataMapper.log == old(dataMapper.log))
              && (q.Ok? ==> dataMapper.log == old(dataMapper.log) + [(q.value, BuildQueryParameters(fields, []))])
              && (q.Ok? ==> r == CountResult(dataMapper.persistError, dataMapper.affected))
      ensures r != Ok(false)
    {
      queryBuilder.BuildQuery(InsertArgs(GetSchema(), fields));
      var query := queryBuilder.InsertQuery();
      r := PersistAndCount(query, BuildQueryParameters(fields, []));
    }

    /** `read`: `->selectQuery` is read as a property, which does not exist, so the query is
        null and `persist(string ...)` rejects it; nothing reaches the DataMapper. */
    method Read(selectors: PArray, conditions: PArray, parameters: PArray, optional: PArray)
      returns (r: Result<PArray>)
      modifies queryBuilder, dataMapper
      ensures queryBuilder.key == Some(WithDefaults(SelectArgs(tableSchema, selectors, conditions, parameters, optional)))
      ensures queryBuilder.sqlQuery == old(queryBuilder.sqlQuery)
      ensures r == Err(TypeError) && dataMapper.log == old(dataMapper.log)
    {
      queryBuilder.BuildQuery(SelectArgs(GetSchema(), selectors, conditions, parameters, optional));
      var query := PNull;
      r := PersistAndFetch(Ok(query), BuildQueryParameters(conditions, parameters));
    }

    method Update(pk: string, fields: PArray) returns (r: Result<bool>)
      modifies queryBuilder, dataMapper
      ensures var key := WithDefaults(UpdateArgs(tableSchema, pk, fields));
              var q := UpdateText(key);
              && queryBuilder.key == Some(UpdateKey(key))
              && queryBuilder.sqlQuery == (if q.Ok? then q.value else old(queryBuilder.sqlQuery))
              && (q.Err? ==> r == Err(q.error) && dataMapper.log == old(dataMapper.log))
              && (q.Ok? ==> dataMapper.log == old(dataMapper.log) + [(q.value, BuildQueryParameters(fields, []))])
              && (q.Ok? ==> r == CountResult(dataMapper.persistError, dataMapper.affected))
      ensures r != Ok(false)
    {
      queryBuilder.BuildQuery(UpdateArgs(GetSchema(), pk, fields));
      var query := queryBuilder.UpdateQuery();
      r := PersistAndCount(query, BuildQueryParameters(fields, []));
    }

    /** `delete`: its descriptor has no `fields`, so `deleteQuery`'s guard rejects it. */
    method Delete(conditions: PArray) returns (r: Result<bool>)
      modifies queryBuilder, dataMapper
      ensures queryBuilder.key == Some(WithDefaults(DeleteArgs(tableSchema, conditions)))
      ensures queryBuilder.sqlQuery == old(queryBuilder.sqlQuery)
      ensures r == Err(TypeError) && dataMapper.log == old(dataMapper.log)
    {
      queryBuilder.BuildQuery(DeleteArgs(GetSchema(), conditions));
      var query := queryBuilder.DeleteQuery();
      DeleteArgsHaveNoFields(tableSchema, conditions);
      r := PersistAndCount(query, BuildQueryParameters(conditions, []));
    }

    /** `search`: builds a 'search' descriptor but asks for `deleteQuery()`, whose guard
        rejects it for want of `fields`. */
    method Search(selectors: PArray, conditions: PArray) returns (r: Result<PArray>)
      modifies queryBuilder, dataMapper
      ensures queryBuilder.key == Some(WithDefaults(SearchArgs(tableSchema, selectors, conditions)))
      ensures queryBuilder.sqlQuery == old(queryBuilder.sqlQuery)
      ensures r == Err(TypeError) && dataMapper.log == old(dataMapper.log)
    {
      queryBuilder.BuildQuery(SearchArgs(GetSchema(), selectors, conditions));
      var query := queryBuilder.DeleteQuery();
      SearchArgsHaveNoFields(tableSchema, selectors, conditions);
      r := PersistAndFetch(AsValue(query), BuildQueryParameters(conditions, []));
    }

    /** `raw`: stores the text under `raw` but persists `rawQuery()`, which is '', and never
        returns: the `: mixed` method falls off its end. A null `conditions` is rejected by
        `buildQueryParameters(array ...)` before anything is persisted. */
    method Raw(raw: string, conditions: Option<PArray>) returns (r: Result<Value>)
      modifies queryBuilder, dataMapper
      ensures queryBuilder.key == Some(WithDefaults(RawArgs(tableSchema, raw, conditions)))
      ensures queryBuilder.sqlQuery == old(queryBuilder.sqlQuery)
      ensures conditions.None? ==> r == Err(TypeError) && dataMapper.log == old(dataMapper.log)
      ensures conditions.Some? ==> dataMapper.log == old(dataMapper.log) + [("", BuildQueryParameters(conditions.value, []))]
      ensures conditions.Some? ==> r == if dataMapper.persistError.Some? then Err(dataMapper.persistError.value) else Err(TypeError)
      ensures r.Err?
    {
      queryBuilder.BuildQuery(RawArgs(GetSchema(), raw, conditions));
      var query := queryBuilder.RawQuery();
      if conditions.None? {
        r := Err(TypeError);
        return;
      }
      var p := dataMapper.Persist(query, BuildQueryParameters(conditions.value, []));
      if p.Err? {
        r := Err(p.error);
        return;
      }
      r := Err(TypeError);
    }
  }

  // ---------------------------------------------------------------------------------------
  // Lemmas

  /** Pairwise different names, each told apart by its first letter, its length or its
      second letter. */
  predicate Distinguishable(names: seq<string>)
  {
    forall i, j :: 0 <= i < j < |names| ==>
      |names[i]| >= 2 && |names[j]| >= 2 &&
      (names[i][0] != names[j][0] || |names[i]| != |names[j]| || names[i][1] != names[j][1])
  }

  lemma InsertNamesDistinguishable()
    ensures Distinguishable(InsertNames)
  {
    var n := InsertNames;
    forall i, j | 0 <= i < j < |n| ensures |n[i]| != |n[j]| {}
  }

  lemma SelectNamesDistinguishable()
    ensures Distinguishable(SelectNames)
  {
    var n := SelectNames;
    forall i, j | 0 <= i < j < |n| ensures n[i][0] != n[j][0] || |n[i]| != |n[j]| {}
  }

  lemma UpdateNamesDistinguishable()
    ensures Distinguishable(UpdateNames)
  {
    var n := UpdateNames;
    forall i, j | 0 <= i < j < |n| ensures n[i][0] != n[j][0] || |n[i]| != |n[j]| {}
  }

  lemma DeleteNamesDistinguishable()
    ensures Distinguishable(DeleteNames)
  {
    var n := DeleteNames;
    forall i, j | 0 <= i < j < |n| ensures |n[i]| != |n[j]| {}
  }

  lemma SearchNamesDistinguishable()
    ensures Distinguishable(SearchNames)
  {
    var n := SearchNames;
    forall i, j | 0 <= i < j < |n| ensures |n[i]| != |n[j]| {}
  }

  /** A descriptor with pairwise different names is string-keyed without a duplicate. */
  lemma NamedWellFormed(names: seq<string>, vals: seq<Value>)
    requires |names| == |vals| && Distinguishable(names)
    ensures StringKeyed(Named(names, vals)) && DistinctKeys(Named(names, vals))
  {
    var a := Named(names, vals);
    forall i, j | 0 <= i < j < |a| ensures a[i].0 != a[j].0 {
      assert names[i] != names[j] by {
        if |names[i]| == |names[j]| && names[i][0] == names[j][0] {
          assert names[i][1] != names[j][1];
        }
      }
    }
  }

  /** A key not among the names is not a key of the descriptor. */
  lemma NamedLacks(names: seq<string>, vals: seq<Value>, name: string)
    requires |names| == |vals|
    requires forall i :: 0 <= i < |names| ==> names[i] != name
    ensures KStr(name) !in Keys(Named(names, vals))
  {
    var a := Named(names, vals);
    forall i | 0 <= i < |a| ensures Keys(a)[i] != KStr(name) {}
  }

  /** In the merged descriptor, a key the operation sent has the value it sent. */
  lemma MergedSent(names: seq<string>, vals: seq<Value>, i: nat)
    requires |names| == |vals| && Distinguishable(names) && i < |names|
    ensures Field(WithDefaults(Named(names, vals)), names[i]) == vals[i]
  {
    var args := Named(names, vals);
    NamedWellFormed(names, vals);
    BuildQueryMerge(args);
    LookupAt(args, i);
    assert Keys(args)[i] == args[i].0;
  }

  /** In the merged descriptor, a SQL_DEFAULT entry the operation did not send keeps its
      default. */
  lemma MergedDefault(names: seq<string>, vals: seq<Value>, j: nat, name: string, v: Value)
    requires |names| == |vals| && Distinguishable(names)
    requires j < |SqlDefault| && SqlDefault[j] == (KStr(name), v)
    requires forall i :: 0 <= i < |names| ==> names[i] != name
    ensures Field(WithDefaults(Named(names, vals)), name) == v
  {
    SqlDefaultWellFormed();
    NamedWellFormed(names, vals);
    NamedLacks(names, vals, name);
    BuildQueryMerge(Named(names, vals));
    LookupAt(SqlDefault, j);
  }

  /** `delete`'s descriptor leaves `fields` at its default `[]`, so `deleteQuery` fails. */
  lemma DeleteArgsHaveNoFields(table: string, conditions: PArray)
    ensures DeleteText(WithDefaults(DeleteArgs(table, conditions))) == Err(TypeError)
  {
    DeleteNamesDistinguishable();
    var n := DeleteNames;
    forall i | 0 <= i < |n| ensures n[i] != "fields" {
      assert |n[i]| != 6;
    }
    MergedDefault(n, [PStr(table), PStr("delete"), PList(conditions)], 3, "fields", PList([]));
    DeleteShape(WithDefaults(DeleteArgs(table, conditions)));
  }

  /** `search`'s descriptor has no `fields` either, so the `deleteQuery` it calls fails. */
  lemma SearchArgsHaveNoFields(table: string, selectors: PArray, conditions: PArray)
    ensures DeleteText(WithDefaults(SearchArgs(table, selectors, conditions))) == Err(TypeError)
  {
    SearchNamesDistinguishable();
    var n := SearchNames;
    forall i | 0 <= i < |n| ensures n[i] != "fields" {
      assert |n[i]| != 6;
    }
    MergedDefault(n, [PStr(table), PStr("search"), PList(selectors), PList(conditions)], 3, "fields", PList([]));
    DeleteShape(WithDefaults(SearchArgs(table, selectors, conditions)));
  }

  /** The entries of `create`'s merged descriptor that the insert text consults. */
  lemma CreateFields(table: string, fields: PArray)
    ensures var key := WithDefaults(InsertArgs(table, fields));
            Field(key, "table") == PStr(table) && Field(key, "fields") == PList(fields)
  {
    InsertNamesDistinguishable();
    var vals := [PStr(table), PStr("insert"), PList(fields)];
    MergedSent(InsertNames, vals, 0);
    MergedSent(InsertNames, vals, 2);
  }

  /** The query `create` persists: `INSERT INTO <table> (k1, ..., kn) VALUES(:k1, ..., :kn)`
      over the field keys in order; no fields, no query (a TypeError). */
  lemma CreateQueryText(table: string, fields: PArray)
    ensures var key := WithDefaults(InsertArgs(table, fields));
            var names := KeyTexts(Keys(fields));
            InsertText(key) == if fields == [] then Err(TypeError)
                               else Ok("INSERT INTO " + table + " (" + Implode(", ", names) + ") VALUES("
                                       + Implode(", ", Prefixed(":", names)) + ")")
  {
    CreateFields(table, fields);
    InsertShape(WithDefaults(InsertArgs(table, fields)));
  }

  /** The entries of `update`'s merged descriptor that the update text consults. */
  lemma UpdateFields(table: string, pk: string, fields: PArray)
    ensures var key := WithDefaults(UpdateArgs(table, pk, fields));
            Field(key, "table") == PStr(table) && Field(key, "pk") == PStr(pk) && Field(key, "fields") == PList(fields)
  {
    UpdateNamesDistinguishable();
    var vals := [PStr(table), PStr("update"), PStr(pk), PList(fields)];
    MergedSent(UpdateNames, vals, 0);
    MergedSent(UpdateNames, vals, 2);
    MergedSent(UpdateNames, vals, 3);
  }

  /** The query `update` persists: `UPDATE <table> SET (v = :v) WHERE <pk> = :<pk> LIMIT 1`
      over the first field value only (no term when it equals the pk column's name), and no
      WHERE clause for a pk of "0". */
  lemma UpdateQueryText(table: string, pk: string, fields: PArray)
    requires fields != []
    ensures var key := WithDefaults(UpdateArgs(table, pk, fields));
            var f := fields[0].1;
            var terms := if f != PStr(pk) then ToText(f) + " = :" + ToText(f) else "";
            var head := "UPDATE " + table + " SET (" + terms;
            UpdateText(key) == Ok(if pk == "0" then head + ")" else head + ") WHERE " + pk + " = :" + pk + " LIMIT 1")
  {
    UpdateFields(table, pk, fields);
    UpdateShape(WithDefaults(UpdateArgs(table, pk, fields)));
  }

  /** SQL_DEFAULT has no `limit` key. */
  lemma NoDefaultLimit()
    ensures KStr("limit") !in Keys(SqlDefault)
  {
    var names := ["and", "conditions", "distinct", "fields", "from", "or", "orderBy",
                  "pk", "raw", "replace", "selectors", "table", "type", "where"];
    assert forall i :: 0 <= i < |SqlDefault| ==> SqlDefault[i].0 == KStr(names[i]);
    forall i | 0 <= i < |SqlDefault| ensures SqlDefault[i].0 != KStr("limit") {
      assert names[i][0] != 'l';
    }
    NotAKey(SqlDefault, KStr("limit"));
  }

  /** A key no entry carries is not among the keys. */
  lemma NotAKey(a: PArray, k: Key)
    requires forall i :: 0 <= i < |a| ==> a[i].0 != k
    ensures k !in Keys(a)
  {
  }

  /** `read`'s descriptor sends neither `orderBy` nor `limit`. */
  lemma SelectNamesLack()
    ensures forall i :: 0 <= i < |SelectNames| ==> SelectNames[i] != "orderBy" && SelectNames[i] != "limit"
  {
    forall i | 0 <= i < |SelectNames| ensures SelectNames[i] != "orderBy" && SelectNames[i] != "limit" {
      assert |SelectNames[i]| != 7;
      assert SelectNames[i][0] != 'l';
    }
  }

  /** The entries `read` sends, as the merged descriptor holds them. */
  lemma ReadSentFields(table: string, selectors: PArray, conditions: PArray, parameters: PArray, optional: PArray)
    ensures var key := WithDefaults(SelectArgs(table, selectors, conditions, parameters, optional));
            && Field(key, "table") == PStr(table)
            && Field(key, "selectors") == PList(selectors)
            && Field(key, "conditions") == PList(conditions)
  {
    SelectNamesDistinguishable();
    var vals := [PStr(table), PStr("select"), PList(selectors), PList(conditions), PList(parameters), PList(optional)];
    MergedSent(SelectNames, vals, 0);
    MergedSent(SelectNames, vals, 2);
    MergedSent(SelectNames, vals, 3);
  }

  /** The entries `read` does not send: `orderBy` keeps its default, `limit` is absent. */
  lemma ReadUnsentFields(table: string, selectors: PArray, conditions: PArray, parameters: PArray, optional: PArray)
    ensures var key := WithDefaults(SelectArgs(table, selectors, conditions, parameters, optional));
            Field(key, "orderBy") == PList([]) && Lookup(key, KStr("limit")) == None
  {
    SelectNamesDistinguishable();
    SelectNamesLack();
    var vals := [PStr(table), PStr("select"), PList(selectors), PList(conditions), PList(parameters), PList(optional)];
    MergedDefault(SelectNames, vals, 6, "orderBy", PList([]));
    NamedWellFormed(SelectNames, vals);
    NamedLacks(SelectNames, vals, "limit");
    NoDefaultLimit();
    BuildQueryMerge(SelectArgs(table, selectors, conditions, parameters, optional));
  }

  /** The select text of a descriptor with the default `orderBy` and no `limit`. */
  lemma SelectTextOf(key: PArray, table: string, selectors: PArray, conditions: PArray)
    requires Field(key, "table") == PStr(table)
    requires Field(key, "selectors") == PList(selectors)
    requires Field(key, "conditions") == PList(conditions)
    requires Field(key, "orderBy") == PList([])
    requires Lookup(key, KStr("limit")) == None
    ensures var prefix := "SELECT " + (if selectors == [] then "*" else Implode(", ", ValueTexts(Values(selectors))))
                          + " FROM " + table;
            SelectText(key) == Ok(WhereClause(conditions, prefix) + "ORDER BY Array ")
  {
    var prefix := "SELECT " + (if selectors == [] then "*" else Implode(", ", ValueTexts(Values(selectors))))
                  + " FROM " + table;
    assert ToText(PStr(table)) == table;
    SelectShape(key);
    ConditionsListText(key, prefix);
    OrderByIff(key);
    LimitAbsent(key);
    var text := WhereClause(conditions, prefix) + OrderByClause(key);
    assert text + "" == text;
  }

  /** Without a `limit` key nothing is appended for it. */
  lemma LimitAbsent(key: PArray)
    requires Lookup(key, KStr("limit")) == None
    ensures LimitClause(key) == ""
  {
  }

  /** Array conditions give the WHERE step, then the ORDER BY and LIMIT steps. */
  lemma ConditionsListText(key: PArray, cur: string)
    requires Field(key, "conditions").PList?
    ensures ConditionsText(key, cur)
         == Some(WhereClause(Field(key, "conditions").entries, cur) + OrderByClause(key) + LimitClause(key))
  {
    ListUsable(Field(key, "conditions"));
  }

  /** The select text of `read`'s descriptor: the selectors (or `*`), the table, the WHERE
      terms, and `ORDER BY Array ` from the default `orderBy` `[]`, which `!= ''` lets through;
      `parameters` and `optional`, sent under `params` and `extras`, play no part. */
  lemma ReadDescriptorText(table: string, selectors: PArray, conditions: PArray, parameters: PArray, optional: PArray)
    ensures var prefix := "SELECT " + (if selectors == [] then "*" else Implode(", ", ValueTexts(Values(selectors))))
                          + " FROM " + table;
            SelectText(WithDefaults(SelectArgs(table, selectors, conditions, parameters, optional)))
              == Ok(WhereClause(conditions, prefix) + "ORDER BY Array ")
  {
    ReadSentFields(table, selectors, conditions, parameters, optional);
    ReadUnsentFields(table, selectors, conditions, parameters, optional);
    SelectTextOf(WithDefaults(SelectArgs(table, selectors, conditions, parameters, optional)),
                 table, selectors, conditions);
  }
}
