/** LiquidORM's DataRepository (src/Fluid/LiquidORM/DataRepository/DataRepository.php): the
    finders and the find-then-change operations, over the CRUD the entity manager hands out
    (`$this->em->getCRUD()`, here the field `crud`). Every `catch (Throwable) { throw; }`
    passes the Throwable on unchanged, so a Throwable is simply the `Err` of the result. */
module Repository {
  import opened PhpValues
  import opened PhpStrings
  import opened PhpArrays
  import opened PhpCompare
  import opened QueryBuilding
  import opened EntityManager

  /** `isEmpty(int $id)`: `empty($id)` holds only for 0. */
  function IsEmpty(id: int): (r: Outcome)
    ensures r.Fail? <==> id == 0
    ensures r.Fail? ==> r.error == DataRepositoryInvalidArgumentException
  {
    if id == 0 then Fail(DataRepositoryInvalidArgumentException) else Pass
  }

  /** `isArray(array $conditions)`: the parameter type already guarantees an array, so the
      check never throws. */
  function IsArray(conditions: PArray): (r: Outcome)
    ensures r == Pass
  {
    if !PList(conditions).PList? then Fail(DataRepositoryInvalidArgumentException) else Pass
  }

  /** `$result != null && count($result) > 0` on a found array: true exactly for a
      non-empty one. */
  predicate Found(result: PArray)
  {
    !LooseEq(PList(result), PNull) && |result| > 0
  }

  /** The `$params` of `findByIDandUpdate`: `array_merge(['id' => $id, $fields])` for
      non-empty fields, which renumbers the one int key to 0, else the empty `$fields`. */
  function UpdateParams(id: int, fields: PArray): PArray
  {
    if fields != [] then ArrayMerge([(KStr("id"), PInt(id)), (KInt(0), PList(fields))], []) else fields
  }

  /** `if ($x) { return true; }` closing a `: bool` method, applied to a call's outcome. */
  function BoolVerdict(x: Result<bool>): (r: Result<bool>)
    ensures x.Err? ==> r == x
    ensures x.Ok? ==> r == BoolReturn(x.value)
  {
    match x
    case Err(e) => Err(e)
    case Ok(b) => BoolReturn(b)
  }

  class DataRepository {
    const crud: CRUD

    constructor(crud: CRUD)
      ensures this.crud == crud
    {
      this.crud := crud;
    }

    /** `find(int $id)`: 0 is rejected before any query; any other id is looked up as
        `['id' => $id]`. */
    method Find(id: int) returns (r: Result<PArray>)
      modifies crud.queryBuilder, crud.dataMapper
      ensures id == 0 ==> r == Err(DataRepositoryInvalidArgumentException)
      ensures id == 0 ==> crud.queryBuilder.key == old(crud.queryBuilder.key)
      ensures id != 0 ==> r == Err(TypeError)
      ensures id != 0 ==> crud.queryBuilder.key == Some(WithDefaults(SelectArgs(crud.tableSchema, [], [(KStr("id"), PInt(id))], [], [])))
      ensures crud.queryBuilder.sqlQuery == old(crud.queryBuilder.sqlQuery)
      ensures crud.dataMapper.log == old(crud.dataMapper.log)
    {
      var check := IsEmpty(id);
      if check.Fail? {
        r := Err(check.error);
        return;
      }
      r := FindOneBy([(KStr("id"), PInt(id))]);
    }

    /** `findOneBy`: `read([], $conditions)`. */
    method FindOneBy(conditions: PArray) returns (r: Result<PArray>)
      modifies crud.queryBuilder, crud.dataMapper
      ensures crud.queryBuilder.key == Some(WithDefaults(SelectArgs(crud.tableSchema, [], conditions, [], [])))
      ensures crud.queryBuilder.sqlQuery == old(crud.queryBuilder.sqlQuery)
      ensures r == Err(TypeError) && crud.dataMapper.log == old(crud.dataMapper.log)
    {
      var check := IsArray(conditions);
      r := crud.Read([], conditions, [], []);
    }

    /** `findAll`: `read()` with every argument at its default. */
    method FindAll() returns (r: Result<PArray>)
      modifies crud.queryBuilder, crud.dataMapper
      ensures crud.queryBuilder.key == Some(WithDefaults(SelectArgs(crud.tableSchema, [], [], [], [])))
      ensures crud.queryBuilder.sqlQuery == old(crud.queryBuilder.sqlQuery)
      ensures r == Err(TypeError) && crud.dataMapper.log == old(crud.dataMapper.log)
    {
      r := crud.Read([], [], [], []);
    }

    /** `findBy`: `read` with all four arguments. */
    method FindBy(selectors: PArray, conditions: PArray, parameters: PArray, optional: PArray)
      returns (r: Result<PArray>)
      modifies crud.queryBuilder, crud.dataMapper
      ensures crud.queryBuilder.key == Some(WithDefaults(SelectArgs(crud.tableSchema, selectors, conditions, parameters, optional)))
      ensures crud.queryBuilder.sqlQuery == old(crud.queryBuilder.sqlQuery)
      ensures r == Err(TypeError) && crud.dataMapper.log == old(crud.dataMapper.log)
    {
      var check := IsArray(conditions);
      r := crud.Read(selectors, conditions, parameters, optional);
    }

    /** `findBySearch`: `search` takes only the selectors and the conditions; the two extra
        arguments PHP passes are dropped. */
    method FindBySearch(selectors: PArray, conditions: PArray, parameters: PArray, optional: PArray)
      returns (r: Result<PArray>)
      modifies crud.queryBuilder, crud.dataMapper
      ensures crud.queryBuilder.key == Some(WithDefaults(SearchArgs(crud.tableSchema, selectors, conditions)))
      ensures crud.queryBuilder.sqlQuery == old(crud.queryBuilder.sqlQuery)
      ensures r == Err(TypeError) && crud.dataMapper.log == old(crud.dataMapper.log)
    {
      var check := IsArray(conditions);
      r := crud.Search(selectors, conditions);
    }

    /** Lines 175-184 of `findByIDandDelete`, given what `findOneBy` produced: a found row
        leads to `delete`, whose outcome decides; otherwise the `: bool` method falls off
        its end. */
    method DeleteIfFound(found: Result<PArray>, conditions: PArray) returns (r: Result<bool>)
      modifies crud.queryBuilder, crud.dataMapper
      ensures found.Err? ==> r == Err(found.error)
      ensures found.Ok? ==> r == Err(TypeError)
      ensures found.Ok? && Found(found.value) ==>
                crud.queryBuilder.key == Some(WithDefaults(DeleteArgs(crud.tableSchema, conditions)))
      ensures !(found.Ok? && Found(found.value)) ==> crud.queryBuilder.key == old(crud.queryBuilder.key)
      ensures crud.queryBuilder.sqlQuery == old(crud.queryBuilder.sqlQuery)
      ensures crud.dataMapper.log == old(crud.dataMapper.log)
    {
      if found.Err? {
        r := Err(found.error);
        return;
      }
      if !Found(found.value) {
        r := Err(TypeError);
        return;
      }
      var deleted := crud.Delete(conditions);
      r := BoolVerdict(deleted);
    }

    /** `findByIDandDelete`: `findOneBy` raises before anything is deleted. */
    method FindByIDandDelete(conditions: PArray) returns (r: Result<bool>)
      modifies crud.queryBuilder, crud.dataMapper
      ensures r == Err(TypeError)
      ensures crud.queryBuilder.key == Some(WithDefaults(SelectArgs(crud.tableSchema, [], conditions, [], [])))
      ensures crud.queryBuilder.sqlQuery == old(crud.queryBuilder.sqlQuery)
      ensures crud.dataMapper.log == old(crud.dataMapper.log)
    {
      var check := IsArray(conditions);
      var result := FindOneBy(conditions);
      r := DeleteIfFound(result, conditions);
    }

    /** Lines 202-212 of `findByIDandUpdate`, given what `findOneBy` produced: a found row
        leads to `update($params, ...)`, whose `string $pk` rejects the array `$params`;
        otherwise the `: bool` method falls off its end. Either way no update is issued. */
    method UpdateIfFound(found: Result<PArray>, id: int, fields: PArray) returns (r: Result<bool>)
      ensures found.Err? ==> r == Err(found.error)
      ensures found.Ok? ==> r == Err(TypeError)
    {
      if found.Err? {
        r := Err(found.error);
        return;
      }
      if !Found(found.value) {
        r := Err(TypeError);
        return;
      }
      var params := UpdateParams(id, fields);
      r := Err(TypeError);
    }

    /** `findByIDandUpdate`: the row is looked up under the schema's primary-key column
        (an array key, so a canonical integer name becomes an int key); the lookup raises. */
    method FindByIDandUpdate(id: int, fields: PArray) returns (r: Result<bool>)
      modifies crud.queryBuilder, crud.dataMapper
      ensures r == Err(TypeError)
      ensures crud.queryBuilder.key
           == Some(WithDefaults(SelectArgs(crud.tableSchema, [], [(ArrayKey(crud.tableSchemaID), PInt(id))], [], [])))
      ensures crud.queryBuilder.sqlQuery == old(crud.queryBuilder.sqlQuery)
      ensures crud.dataMapper.log == old(crud.dataMapper.log)
    {
      var check := IsArray(fields);
      var result := FindOneBy([(ArrayKey(crud.GetSchemaID()), PInt(id))]);
      r := UpdateIfFound(result, id, fields);
    }

    /** `findObjectBy`: a stub that returns the repository itself. */
    function FindObjectBy(conditions: PArray, selectors: PArray): (r: DataRepository)
      ensures r == this
    {
      this
    }

    /** `findWithSearchAndPaging`: a stub that returns an empty array. */
    function FindWithSearchAndPaging(args: PArray): (r: PArray)
      ensures r == []
    {
      []
    }

    /** `findAndReturn`: a stub that returns the repository itself. */
    function FindAndReturn(id: int, selectors: PArray): (r: DataRepository)
      ensures r == this
    {
      this
    }

    /** `or404`: a stub that returns null. */
    function Or404(): (r: Option<DataRepository>)
      ensures r == None
    {
      None
    }
  }

  // ---------------------------------------------------------------------------------------
  // Lemmas

  /** `array_merge` of the single array `['id' => $id, $fields]` keeps `id` and renumbers
      the fields' int key to 0: the params are `['id' => $id, 0 => $fields]`, or `[]`. */
  lemma UpdateParamsShape(id: int, fields: PArray)
    ensures fields != [] ==> UpdateParams(id, fields) == [(KStr("id"), PInt(id)), (KInt(0), PList(fields))]
    ensures fields == [] ==> UpdateParams(id, fields) == []
  {
    if fields != [] {
      var a := [(KStr("id"), PInt(id)), (KInt(0), PList(fields))];
      var p1 := Put([], KStr("id"), PInt(id));
      assert p1 == [(KStr("id"), PInt(id))];
      assert a[1..] == [(KInt(0), PList(fields))];
      assert a[1..][1..] == [];
      assert MergeInto([], a) == MergeInto(p1, a[1..]);
      assert NextIndex(p1) == 0 by {
        assert p1[1..] == [];
      }
      assert MergeInto(p1, a[1..]) == MergeInto(Push(p1, PList(fields)), a[1..][1..]);
    }
  }

  /** `$result != null && count($result) > 0` is just "non-empty": an empty array is
      loosely equal to null. */
  lemma FoundIff(result: PArray)
    ensures Found(result) <==> result != []
  {
  }
}
