# FluidCore: LiquidORM, Session and Router in Dafny

This project models three parts of the FluidCore PHP framework and proves properties of
the model.

- **LiquidORM's data-access pipeline.**
  - `QueryBuilder` merges a query descriptor over `SQL_DEFAULT` and writes parameterised
    SQL text.
  - `DataMapper` infers bind types, fills a statement's placeholder table and merges
    parameters.
  - `CRUD` builds a descriptor per operation, persists the resulting text and maps the
    row count to a result.
  - `DataRepository` holds the finders and the find-then-change operations. The
    EntityManager only hands out one CRUD, so it is folded into the repository as the
    field `crud`.
- **The session layer.**
  - `NativeSessionStorage` reads and writes the `$_SESSION` map. Here the map is the
    field `session`.
  - `Session` validates keys against `SESSION_REGEX`, calls the storage, and rewraps
    storage Throwables as `SessionException`.
- **The Router.** It covers the route table (`add`), the two camel-case transforms and
  `getNameSpace`.

## How PHP is modelled

- **Values.** A PHP value is `PhpValues.Value`. Floats, objects and resources are not
  included.
- **Arrays.** An array is an ordered sequence of key/value pairs with distinct keys.
  - A string used as an array key goes through `PhpStrings.ArrayKey`. PHP stores the
    canonical spelling of a 64-bit integer as an int key, so `"7"` is the key 7.
  - `array_merge` (`PhpArrays.ArrayMerge`) renumbers int keys and lets later string keys
    overwrite earlier ones in place.
- **Comparison.** `==` is PHP 8's loose comparison (`PhpCompare.LooseEq`). PHP's
  `switch` uses the same comparison.
- **Errors.** A Throwable is the `Err` of a `Result` or the `Fail` of an `Outcome`. The
  following all become `TypeError`:
  - falling off the end of a method with a declared return type;
  - returning `false` from a `: string` method;
  - storing `null` in a typed property;
  - passing a value of the wrong type under `strict_types`.
- **The DataMapper as CRUD sees it.** CRUD talks to a `MapperOracle`. The oracle fixes:
  - the outcome of `persist`;
  - the value of `rowsCount()`;
  - the value of `results()`.

  It logs every `persist` call, so each CRUD contract says exactly which query text and
  parameters reached the database layer. The real DataMapper is modelled separately in
  `DataMapping`.

## Where the code does not do what its names and comments suggest

In each case below the model follows the code.

- **Empty conditions in `hasConditions`.** The text is *assigned* ` WHERE 1`
  (QueryBuilder.php line 65). That discards the `SELECT ... FROM ...` prefix
  (`ConditionsEmptyOverwrites`).
- **ORDER BY.** The clause is appended with no leading space. The default `orderBy` is
  `[]`, which passes `!= ''`, so every select from SQL_DEFAULT ends in `ORDER BY Array `
  (`OrderByIff`, `ReadDescriptorText`).
- **`updateQuery`** returns during the first iteration of its loop. Its SET list therefore
  holds at most one term (`UpdateShape`).
- **`deleteQuery`** needs a non-empty `fields` entry, not conditions. It filters only on
  the first condition key.
- **DataMapper's `isArray` is inverted.** `bindValues` and `bindSearchValues` are always
  given an array, so they always raise. The real `persist` therefore never gets past
  binding (`DataMapper.Persist`).
- **`CRUD::read`** reads `->selectQuery` as a property, which is `null`.
  `persist(string ...)` rejects that, so `read` always raises `TypeError`, and so does
  every finder built on it.
- **`CRUD::delete` and `CRUD::search`** send no `fields`. `deleteQuery` (which `search`
  calls too) then returns `false` from a `: string` method, so both always raise
  `TypeError`.
- **`CRUD::raw`** persists `rawQuery()`, which is `''`. It never returns a value from
  its `: mixed` method.
- **`findByIDandUpdate`** would call `update($params, $pk)` with its arguments in reverse
  order. The array cannot pass as `string $pk`.
- **`Session::delete`** returns the `null` of the void `deleteSession`. The `: bool`
  return check raises inside the `try`, so the caller sees `SessionException`.
- **`getNameSpace`** ignores its argument.
- **The key regex.** Without the `D` modifier, `$` also matches before one final newline.
  So `"name\n"` is a valid session key (`TrailingNewline`).
- **Case mapping** in the Router transforms is ASCII-only, as PHP's `ucwords` and
  `lcfirst` are.

Operations that would always raise are split, so that what they would do on the way stays
proved:
- `BindEach` is the bind loop.
- `PersistAndCount` and `PersistAndFetch` are the tails of the CRUD operations.
- `DeleteIfFound` and `UpdateIfFound` are the gated halves of the repository's
  find-then-change operations.

Each of these is specified for all inputs. `PersistAndCount`, `PersistAndFetch`,
`DeleteIfFound` and `UpdateIfFound` are called by the as-written operations as the PHP calls
them. `BindEach` has no caller: `BindValues` returns the guard's failure, just as the PHP
never reaches its loop after the inverted `isArray` guard.

## Model

| member | source | states |
|---|---|---|
| QueryBuilding.SqlDefaultWellFormed | src/Fluid/LiquidORM/QueryBuilder/QueryBuilder.php:15-30 | SQL_DEFAULT has only string keys and no duplicate |
| QueryBuilding.IsQueryTypeValid | src/Fluid/LiquidORM/QueryBuilder/QueryBuilder.php:32-48 | loose `in_array` over QUERY_TYPES holds exactly for the six kinds, so the literal each `*Query` method passes always validates |
| QueryBuilding.QueryBuilder.constructor | src/Fluid/LiquidORM/QueryBuilder/QueryBuilder.php:85-87 | no descriptor yet and an empty query text |
| QueryBuilding.QueryBuilder.BuildQuery | src/Fluid/LiquidORM/QueryBuilder/QueryBuilder.php:89-100 | the guard `count < 0` never fires; `key` becomes the merge of the arguments over SQL_DEFAULT and the text is untouched |
| QueryBuilding.WithDefaultsIsArrayMerge | src/Fluid/LiquidORM/QueryBuilder/QueryBuilder.php:95 | the stored descriptor is `array_merge(SQL_DEFAULT, args)` |
| QueryBuilding.BuildQueryMerge | src/Fluid/LiquidORM/QueryBuilder/QueryBuilder.php:89-100 | every default key stays in place; a string key takes the argument's value when given and the default otherwise; no key is duplicated; the new keys of string-keyed args are appended in order |
| QueryBuilding.QueryBuilder.InsertQuery | src/Fluid/LiquidORM/QueryBuilder/QueryBuilder.php:102-123 | returns and stores the insert text for non-empty array fields; otherwise a TypeError, with the text unchanged and the descriptor never changed |
| QueryBuilding.InsertShape | src/Fluid/LiquidORM/QueryBuilder/QueryBuilder.php:113-122 | fails exactly without non-empty array fields; otherwise `INSERT INTO T (k1, ..., kn) VALUES(:k1, ..., :kn)`, with one placeholder per field key, in key order |
| QueryBuilding.KeptIff | src/Fluid/LiquidORM/QueryBuilder/QueryBuilder.php:57 | a condition key read back by `array_keys` passes `isset && != ''` exactly when it is not the empty string, int keys included |
| QueryBuilding.QueryBuilder.WhereTermsOf | src/Fluid/LiquidORM/QueryBuilder/QueryBuilder.php:54-60 | the foreach leaves in `$sort` the term `k = :k` of each kept key, in key order |
| QueryBuilding.WhereTermsStep | src/Fluid/LiquidORM/QueryBuilder/QueryBuilder.php:56-59 | one iteration adds the key's term exactly when the guard keeps the key |
| QueryBuilding.WhereTermsAll | src/Fluid/LiquidORM/QueryBuilder/QueryBuilder.php:56-60 | without empty-string keys, `$sort` is one `k = :k` term per key, in key order |
| QueryBuilding.WhereTermsFromKeys | src/Fluid/LiquidORM/QueryBuilder/QueryBuilder.php:56-60 | `$sort` has at most one term per key, and each term is the term of a non-empty key of the conditions |
| QueryBuilding.QueryBuilder.HasConditions | src/Fluid/LiquidORM/QueryBuilder/QueryBuilder.php:50-78 | returns the WHERE / ORDER BY / LIMIT text over the current text, and stores it; null, with nothing stored, when the guard fails |
| QueryBuilding.ConditionsNoneIff | src/Fluid/LiquidORM/QueryBuilder/QueryBuilder.php:53-77 | `hasConditions` returns null exactly when `conditions` is not an array |
| QueryBuilding.ListUsable | src/Fluid/LiquidORM/QueryBuilder/QueryBuilder.php:53 | every array passes the guard: set, and not loosely equal to '' |
| QueryBuilding.ConditionsWhere | src/Fluid/LiquidORM/QueryBuilder/QueryBuilder.php:62-63 | non-empty conditions append ` WHERE k1 = :k1 AND ... AND kn = :kn` to the text so far, followed by the ORDER BY and LIMIT parts |
| QueryBuilding.ConditionsEmptyOverwrites | src/Fluid/LiquidORM/QueryBuilder/QueryBuilder.php:64-65 | empty conditions give ` WHERE 1` plus ORDER BY and LIMIT, whatever text came before |
| QueryBuilding.OrderByIff | src/Fluid/LiquidORM/QueryBuilder/QueryBuilder.php:68-70 | `ORDER BY <orderBy> ` is appended, with no leading space, unless `orderBy` is null, false or ''; an array gives `ORDER BY Array ` |
| QueryBuilding.LooseEqMinusOne | src/Fluid/LiquidORM/QueryBuilder/QueryBuilder.php:72 | the values loosely equal to -1 are -1, true and the integer strings of value -1 |
| QueryBuilding.LimitIff | src/Fluid/LiquidORM/QueryBuilder/QueryBuilder.php:72-74 | ` LIMIT :offset, :limit` is appended exactly when `limit` is set and `offset` is not loosely -1; a missing offset is null, which passes |
| QueryBuilding.QueryBuilder.SelectQuery | src/Fluid/LiquidORM/QueryBuilder/QueryBuilder.php:125-139 | returns the select text, or a TypeError; the text stored afterwards is stated for success and for each failure |
| QueryBuilding.SelectPrefixList | src/Fluid/LiquidORM/QueryBuilder/QueryBuilder.php:129-131 | array selectors are listed, joined by ", "; empty ones give `*` |
| QueryBuilding.SelectShape | src/Fluid/LiquidORM/QueryBuilder/QueryBuilder.php:129-135 | with array selectors and conditions, `selectQuery` returns what `hasConditions` makes of `SELECT <list or *> FROM T` |
| QueryBuilding.SelectErrIff | src/Fluid/LiquidORM/QueryBuilder/QueryBuilder.php:125-139 | `selectQuery` raises exactly when the selectors are non-empty and not an array, or the conditions are not an array |
| QueryBuilding.DropLast2 | src/Fluid/LiquidORM/QueryBuilder/QueryBuilder.php:152 | `substr_replace($s, '', -2)` gives what, followed by the last two characters, is `s`; a shorter string gives '' |
| QueryBuilding.SetListAtMostOne | src/Fluid/LiquidORM/QueryBuilder/QueryBuilder.php:147-152 | the SET list is the single term `v = :v` of the first field value, or empty when that value is the pk |
| QueryBuilding.QueryBuilder.UpdateQuery | src/Fluid/LiquidORM/QueryBuilder/QueryBuilder.php:141-168 | returns the update text, or a TypeError; `pk` is unset when it is "0"; the text is stored on success only |
| QueryBuilding.UpdateShape | src/Fluid/LiquidORM/QueryBuilder/QueryBuilder.php:144-163 | fails exactly without non-empty array fields; otherwise `UPDATE T SET (<term>) WHERE pk = :pk LIMIT 1` over the first value only, with no WHERE for pk "0", and `pk` is no longer set afterwards |
| QueryBuilding.QueryBuilder.DeleteQuery | src/Fluid/LiquidORM/QueryBuilder/QueryBuilder.php:170-191 | returns the delete text, also after the bulk loop rewrites it; a TypeError, with the text unchanged, when the guard fails or `conditions` is not an array |
| QueryBuilding.DeleteShape | src/Fluid/LiquidORM/QueryBuilder/QueryBuilder.php:173-187 | empty fields fail whatever the conditions; otherwise `DELETE FROM T WHERE k = :k` on the first condition key, with ` LIMIT 1` unless fields hold more than one value |
| QueryBuilding.DeleteFirstConditionOnly | src/Fluid/LiquidORM/QueryBuilder/QueryBuilder.php:174-183 | descriptors that agree on table, field count and first condition key give the same text, whatever their other conditions |
| QueryBuilding.QueryBuilder.SearchQuery | src/Fluid/LiquidORM/QueryBuilder/QueryBuilder.php:193-196 | always the empty text |
| QueryBuilding.QueryBuilder.RawQuery | src/Fluid/LiquidORM/QueryBuilder/QueryBuilder.php:198-201 | always the empty text, whatever the descriptor holds |
| PhpArrays.ArrayMergeSpec | src/Fluid/LiquidORM/QueryBuilder/QueryBuilder.php:95 | `array_merge` over a string-keyed array keeps its keys in place; the second array wins per string key; no duplicates; new string keys are appended in order |
| PhpArrays.ArrayMergeInPlace | src/Fluid/LiquidORM/QueryBuilder/QueryBuilder.php:95 | position by position, the first entries of the merge are the first array's keys, each with its overriding value |
| PhpStrings.PlaceholderList | src/Fluid/LiquidORM/QueryBuilder/QueryBuilder.php:115 | `":" . implode(", :", $ks)` is the list of the `:k` placeholders joined by ", " |
| PhpCompare.LooseEqEmptyString | src/Fluid/LiquidORM/QueryBuilder/QueryBuilder.php:57 | a string is loosely equal to '' exactly when it is empty |
| DataMapping.IsEmpty | src/Fluid/LiquidORM/DataMapper/DataMapper.php:43-48 | raises DataMapperException exactly for an empty value |
| DataMapping.IsArray | src/Fluid/LiquidORM/DataMapper/DataMapper.php:60-65 | raises DataMapperException exactly when the argument is an array |
| DataMapping.Bind | src/Fluid/LiquidORM/DataMapper/DataMapper.php:80-100 | the switch compares the value loosely with `is_bool($value)`, `intval($value)` and `is_null($value)` in turn; null, every bool and every int come out PARAM_INT |
| DataMapping.BindIntIff | src/Fluid/LiquidORM/DataMapper/DataMapper.php:80-100 | `bind` gives PARAM_INT exactly for null, bools, ints, the empty array, '', '0' and in-range integer strings, and PARAM_STR for everything else; integer strings beyond 64 bits are compared exactly (see Left out) |
| DataMapping.BindString | src/Fluid/LiquidORM/DataMapper/DataMapper.php:83-94 | a string is PARAM_INT when it is '' or '0' or loosely equal to its `intval` (as `PhpCompare.LooseEq` compares them), else PARAM_STR |
| DataMapping.BindList | src/Fluid/LiquidORM/DataMapper/DataMapper.php:83-94 | an array is PARAM_INT exactly when it is empty |
| DataMapping.IntValMatchesString | src/Fluid/LiquidORM/DataMapper/DataMapper.php:85 | compared exactly, a string is loosely equal to its saturated `intval` exactly when it spells an in-range integer; PHP's double comparison for integer strings beyond 64 bits is not modelled (see Left out) |
| DataMapping.BindNeverNull | src/Fluid/LiquidORM/DataMapper/DataMapper.php:84-90 | the `is_null` arm is unreachable: `bind` never gives PARAM_NULL |
| DataMapping.DataMapper.constructor | src/Fluid/LiquidORM/DataMapper/DataMapper.php:28-31 | the connection is kept; no statement yet |
| DataMapping.DataMapper.Prepare | src/Fluid/LiquidORM/DataMapper/DataMapper.php:70-75 | replaces the statement with a fresh one for the text, or passes the connection's Throwable on |
| DataMapping.DataMapper.BindValues | src/Fluid/LiquidORM/DataMapper/DataMapper.php:128-137 | the inverted guard rejects the array it is given: DataMapperException every time |
| DataMapping.DataMapper.BindSearchValues | src/Fluid/LiquidORM/DataMapper/DataMapper.php:148-157 | the same guard, so the same failure |
| DataMapping.DataMapper.BindEach | src/Fluid/LiquidORM/DataMapper/DataMapper.php:132-134 | the foreach binds every field over the statement's table (see BindAllLookup); the SQL text stays; calling `bindValue` on a missing statement is an Error |
| DataMapping.BindAllLookup | src/Fluid/LiquidORM/DataMapper/DataMapper.php:152-154 | each field's `:key` holds the value (or `%value%` for a search) with the type `bind` gives the unwrapped value; every other placeholder keeps its binding |
| DataMapping.BindAllOther | src/Fluid/LiquidORM/DataMapper/DataMapper.php:133 | a placeholder no field names is neither added nor changed |
| DataMapping.BindAllAt | src/Fluid/LiquidORM/DataMapper/DataMapper.php:133 | with distinct keys, no later field overwrites field i's placeholder |
| DataMapping.PlaceholderInjective | src/Fluid/LiquidORM/DataMapper/DataMapper.php:133 | distinct keys never share the placeholder `':' . $key` |
| DataMapping.DataMapper.BindParameters | src/Fluid/LiquidORM/DataMapper/DataMapper.php:105-116 | `is_array` always holds, and both bind paths raise DataMapperException |
| DataMapping.DataMapper.Persist | src/Fluid/LiquidORM/DataMapper/DataMapper.php:241-248 | prepare, then bind (never as a search), rethrowing unchanged: the connection's failure, else the bind guard's exception; the statement is the fresh one for the text |
| DataMapping.BuildQueryParameters | src/Fluid/LiquidORM/DataMapper/DataMapper.php:226-229 | the two-branch expression is always `array_merge($conditions, $parameters)` |
| DataMapping.BuildQueryParametersSpec | src/Fluid/LiquidORM/DataMapper/DataMapper.php:226-229 | for string-keyed conditions: parameters win on a key collision, with no parameters the conditions come back unchanged, and every condition key stays (int keys are renumbered by `array_merge`, so this is not claimed for them) |
| EntityManager.MapperOracle.Persist | src/Fluid/LiquidORM/EntityManager/CRUD.php:107 | each `persist` call is logged with its text and parameters, and gives the fixed outcome |
| EntityManager.BoolReturn | src/Fluid/LiquidORM/EntityManager/CRUD.php:109-115 | `if ($x) return true;` at the end of a `: bool` method never gives false; it succeeds exactly when x holds |
| EntityManager.CountResult | src/Fluid/LiquidORM/EntityManager/CRUD.php:107-114 | true exactly when persist succeeds and one row changed; a persist Throwable is passed on; never false |
| EntityManager.CRUD.constructor | src/Fluid/LiquidORM/EntityManager/CRUD.php:46-58 | stores the mapper, the builder, the table, the pk column and the options |
| EntityManager.CRUD.New | src/Fluid/LiquidORM/EntityManager/CRUD.php:46-58 | a null `?array $options` cannot go into the `array` property (TypeError); otherwise a fresh CRUD over the arguments |
| EntityManager.CRUD.GetSchema | src/Fluid/LiquidORM/EntityManager/CRUD.php:65-68 | the table given to the constructor, which nothing reassigns |
| EntityManager.CRUD.GetSchemaID | src/Fluid/LiquidORM/EntityManager/CRUD.php:75-78 | the pk column given to the constructor, which nothing reassigns |
| EntityManager.CRUD.PersistAndCount | src/Fluid/LiquidORM/EntityManager/CRUD.php:107-114 | a failed text is passed on with nothing persisted; otherwise exactly one persist of the text, then CountResult |
| EntityManager.CRUD.PersistAndFetch | src/Fluid/LiquidORM/EntityManager/CRUD.php:139-146 | a non-string query is rejected before persisting; otherwise one persist, then `results()` when a row matched, else a TypeError for falling off `: array` |
| EntityManager.CRUD.Create | src/Fluid/LiquidORM/EntityManager/CRUD.php:98-115 | sends `{table, 'insert', fields}`, persists the insert text with the merged fields, returns true iff one row changed, never false, and passes Throwables on |
| EntityManager.CreateFields | src/Fluid/LiquidORM/EntityManager/CRUD.php:101-106 | the merged descriptor holds the sent table and fields |
| EntityManager.CreateQueryText | src/Fluid/LiquidORM/EntityManager/CRUD.php:101-107 | the persisted text is `INSERT INTO <table> (k1, ...) VALUES(:k1, ...)` over the field keys; no fields, TypeError |
| EntityManager.MergedSent | src/Fluid/LiquidORM/EntityManager/CRUD.php:101-106 | every entry an operation sends has its value in the merged descriptor |
| EntityManager.MergedDefault | src/Fluid/LiquidORM/EntityManager/CRUD.php:186-191 | an SQL_DEFAULT entry an operation does not send keeps its default |
| EntityManager.CRUD.Read | src/Fluid/LiquidORM/EntityManager/CRUD.php:127-147 | the select descriptor is stored, but the property read gives null: TypeError, nothing persisted, text untouched |
| EntityManager.ReadSentFields | src/Fluid/LiquidORM/EntityManager/CRUD.php:130-138 | the merged descriptor holds the sent table, selectors and conditions |
| EntityManager.ReadUnsentFields | src/Fluid/LiquidORM/EntityManager/CRUD.php:130-137 | `read` sends no `orderBy` (it stays `[]`) and no `limit` (absent) |
| EntityManager.ReadDescriptorText | src/Fluid/LiquidORM/EntityManager/CRUD.php:130-138 | the select text `read`'s descriptor would give: selectors or `*`, the table, the WHERE step, then `ORDER BY Array `; `params` and `extras` play no part |
| EntityManager.CRUD.Update | src/Fluid/LiquidORM/EntityManager/CRUD.php:157-175 | sends `{table, 'update', pk, fields}`, persists the update text with the merged fields, returns true iff one row changed, never false |
| EntityManager.UpdateFields | src/Fluid/LiquidORM/EntityManager/CRUD.php:160-166 | the merged descriptor holds the sent table, pk and fields |
| EntityManager.UpdateQueryText | src/Fluid/LiquidORM/EntityManager/CRUD.php:160-167 | the persisted text is `UPDATE <table> SET (<first value term>) WHERE <pk> = :<pk> LIMIT 1`, or without WHERE for pk "0" |
| EntityManager.CRUD.Delete | src/Fluid/LiquidORM/EntityManager/CRUD.php:183-200 | the descriptor is stored; `deleteQuery` rejects it: TypeError, nothing persisted |
| EntityManager.DeleteArgsHaveNoFields | src/Fluid/LiquidORM/EntityManager/CRUD.php:186-191 | `delete`'s merged descriptor keeps `fields` at `[]`, so `deleteQuery` fails |
| EntityManager.CRUD.Search | src/Fluid/LiquidORM/EntityManager/CRUD.php:209-227 | the search descriptor is stored; the `deleteQuery` it calls rejects it: TypeError, nothing persisted |
| EntityManager.SearchArgsHaveNoFields | src/Fluid/LiquidORM/EntityManager/CRUD.php:212-218 | `search`'s merged descriptor has no fields either, so its `deleteQuery` fails |
| EntityManager.CRUD.Raw | src/Fluid/LiquidORM/EntityManager/CRUD.php:237-254 | stores the raw text in the descriptor but persists '' ; a null `conditions` is rejected first; it never returns a value |
| Repository.IsEmpty | src/Fluid/LiquidORM/DataRepository/DataRepository.php:49-54 | raises DataRepositoryInvalidArgumentException exactly for id 0 |
| Repository.IsArray | src/Fluid/LiquidORM/DataRepository/DataRepository.php:35-40 | never raises: the `array` parameter type already holds |
| Repository.FoundIff | src/Fluid/LiquidORM/DataRepository/DataRepository.php:175 | `$result != null && count($result) > 0` holds exactly for a non-empty array |
| Repository.BoolVerdict | src/Fluid/LiquidORM/DataRepository/DataRepository.php:178-180 | a Throwable is passed on; a result gives true when it holds, else a TypeError for falling off `: bool` |
| Repository.UpdateParamsShape | src/Fluid/LiquidORM/DataRepository/DataRepository.php:203 | `array_merge(['id' => $id, $fields])` is `['id' => id, 0 => fields]` for non-empty fields, else `[]` |
| Repository.DataRepository.constructor | src/Fluid/LiquidORM/DataRepository/DataRepository.php:23-26 | stores the CRUD |
| Repository.DataRepository.Find | src/Fluid/LiquidORM/DataRepository/DataRepository.php:63-72 | id 0 raises before any CRUD call; otherwise `findOneBy(['id' => id])`, with the literal `id` column, which raises |
| Repository.DataRepository.FindOneBy | src/Fluid/LiquidORM/DataRepository/DataRepository.php:81-90 | `read([], conditions)`: its descriptor is stored and the TypeError comes back |
| Repository.DataRepository.FindAll | src/Fluid/LiquidORM/DataRepository/DataRepository.php:98-105 | `read()` with all defaults |
| Repository.DataRepository.FindBy | src/Fluid/LiquidORM/DataRepository/DataRepository.php:117-126 | `read` with the four arguments in order |
| Repository.DataRepository.FindBySearch | src/Fluid/LiquidORM/DataRepository/DataRepository.php:150-159 | `search(selectors, conditions)`; the extra arguments are ignored |
| Repository.DataRepository.DeleteIfFound | src/Fluid/LiquidORM/DataRepository/DataRepository.php:175-181 | `delete(conditions)` is issued exactly when a row was found; the result is true only when delete gives true; Throwables pass on |
| Repository.DataRepository.FindByIDandDelete | src/Fluid/LiquidORM/DataRepository/DataRepository.php:168-185 | the lookup raises, so nothing is deleted and the TypeError comes back |
| Repository.DataRepository.UpdateIfFound | src/Fluid/LiquidORM/DataRepository/DataRepository.php:202-209 | a found row leads to `update($params, ...)`, which rejects the array as `string $pk`; a lookup Throwable passes on |
| Repository.DataRepository.FindByIDandUpdate | src/Fluid/LiquidORM/DataRepository/DataRepository.php:195-213 | looks up `[getSchemaID() => id]` (an array key), which raises; no update is issued |
| Repository.DataRepository.FindObjectBy | src/Fluid/LiquidORM/DataRepository/DataRepository.php:135-138 | the repository itself, with no CRUD call |
| Repository.DataRepository.FindWithSearchAndPaging | src/Fluid/LiquidORM/DataRepository/DataRepository.php:223-226 | always `[]` |
| Repository.DataRepository.FindAndReturn | src/Fluid/LiquidORM/DataRepository/DataRepository.php:228-231 | the repository itself |
| Repository.DataRepository.Or404 | src/Fluid/LiquidORM/DataRepository/DataRepository.php:238-241 | always null |
| PhpStrings.ArrayKey | src/Fluid/Session/Storage/NativeSessionStorage.php:28 | a string key reads back as the same text, and is an int key exactly when it is a canonical 64-bit integer |
| PhpArrays.Put | src/Fluid/Session/Storage/NativeSessionStorage.php:28 | assignment replaces in place or appends; the key maps to the value and every other key reads as before |
| PhpArrays.Remove | src/Fluid/Session/Storage/NativeSessionStorage.php:67 | `unset` drops the key; every other key reads as before |
| SessionStorage.SessionKeysDistinct | src/Fluid/Session/Storage/NativeSessionStorage.php:28 | different key strings never name the same entry |
| SessionStorage.NativeSessionStorage.constructor | src/Fluid/Session/Storage/NativeSessionStorage.php:14-17 | the storage starts over the loaded, duplicate-free map |
| SessionStorage.NativeSessionStorage.SetSession | src/Fluid/Session/Storage/NativeSessionStorage.php:26-29 | the entry is set to the value and the map stays duplicate-free |
| SessionStorage.GetAfterSet | src/Fluid/Session/Storage/NativeSessionStorage.php:26-56 | after setting k to v, getting k gives v, or the default when v is null; every other key reads as before |
| PhpArrays.NextIndex | src/Fluid/Session/Storage/NativeSessionStorage.php:40 | the key `$a[] = $v` takes, computed from the current keys: at least 0 and greater than every int key the array holds (see Left out for PHP's stored counter) |
| PhpArrays.Push | src/Fluid/Session/Storage/NativeSessionStorage.php:40 | `$a[] = $v` adds v at the end under a key the array did not hold; the other entries keep their keys and values and every other key reads as before |
| SessionStorage.Appended | src/Fluid/Session/Storage/NativeSessionStorage.php:40 | `$slot[] = $value` gives an array, or raises an Error |
| SessionStorage.AppendShape | src/Fluid/Session/Storage/NativeSessionStorage.php:40 | an absent or null entry becomes `[v]`; a list gains v under its next index, keeping its elements; a string, an int or true raises |
| SessionStorage.AppendDistinct | src/Fluid/Session/Storage/NativeSessionStorage.php:40 | appending keeps the list free of duplicate keys |
| SessionStorage.NativeSessionStorage.SetSessionArray | src/Fluid/Session/Storage/NativeSessionStorage.php:38-41 | the entry becomes the appended value, or the Error is returned with the map unchanged |
| SessionStorage.NativeSessionStorage.HasSession | src/Fluid/Session/Storage/NativeSessionStorage.php:121-124 | `isset($_SESSION[$key])`: true exactly when reading the entry under the normalised key gives a non-null value |
| SessionStorage.NativeSessionStorage.GetSession | src/Fluid/Session/Storage/NativeSessionStorage.php:50-56 | the stored value when `hasSession`, else the default |
| SessionStorage.NativeSessionStorage.DeleteSession | src/Fluid/Session/Storage/NativeSessionStorage.php:64-69 | the entry is removed when set; otherwise the map is unchanged |
| SessionStorage.DeleteUnsets | src/Fluid/Session/Storage/NativeSessionStorage.php:64-69 | afterwards the key is not set and every other key reads as before |
| SessionStorage.NativeSessionStorage.InvalidateSession | src/Fluid/Session/Storage/NativeSessionStorage.php:76-78 | the whole map is emptied |
| SessionStorage.NativeSessionStorage.FlushSession | src/Fluid/Session/Storage/NativeSessionStorage.php:103-113 | returns what `getSession` would and leaves the map as `deleteSession` would |
| SessionStorage.FlushIsGetThenDelete | src/Fluid/Session/Storage/NativeSessionStorage.php:103-113 | a set key is returned and no longer set; an unset key gives the default and leaves the map unchanged |
| Sessions.IsSessionKeyValid | src/Fluid/Session/Session.php:28-39 | the regex run over a key accepts exactly 1 to 64 characters of `[a-zA-Z0-9_.]`, optionally followed by one newline |
| Sessions.RegexMatchesFrom | src/Fluid/Session/Session.php:28 | the matcher, from any count already matched, accepts exactly the class run within the bound, with or without a final newline |
| Sessions.TrailingNewline | src/Fluid/Session/Session.php:28-38 | a valid name stays valid with one trailing newline, and is invalid with two |
| Sessions.SessionKeyExamples | src/Fluid/Session/Session.php:28-38 | "user.id_2" is valid; "", "user-id" and "\n" are not |
| Sessions.EnsureSessionKeyIsValid | src/Fluid/Session/Session.php:47-52 | raises SessionInvalidArgumentException exactly for an invalid key |
| Sessions.Rewrapped | src/Fluid/Session/Session.php:84-88 | the storage's success passes through; any Throwable becomes SessionException |
| Sessions.Session.constructor | src/Fluid/Session/Session.php:67-68 | stores the name and the storage |
| Sessions.Session.New | src/Fluid/Session/Session.php:61-69 | an invalid name raises before anything is stored; a null storage cannot go into the typed property; otherwise a fresh session |
| Sessions.Session.Set | src/Fluid/Session/Session.php:80-89 | an invalid key raises with the storage untouched; otherwise the entry is set |
| Sessions.Session.SetArray | src/Fluid/Session/Session.php:100-109 | an invalid key raises; otherwise the value is appended, or the storage's Error comes back as SessionException with the map unchanged |
| Sessions.Session.Get | src/Fluid/Session/Session.php:120-129 | an invalid key raises; otherwise exactly the storage's `getSession(key, default)` |
| Sessions.Session.Delete | src/Fluid/Session/Session.php:139-150 | an invalid key raises; otherwise the entry is deleted, and the void result fails the `: bool` return inside the `try`: SessionException |
| Sessions.Session.Invalidate | src/Fluid/Session/Session.php:157-160 | no key check; the storage's map is emptied |
| Sessions.Session.Flush | src/Fluid/Session/Session.php:171-180 | an invalid key raises; otherwise the entry is removed and nothing is returned |
| Sessions.Session.Has | src/Fluid/Session/Session.php:189-194 | an invalid key raises; otherwise whether the storage has the key set |
| Routing.Router.constructor | src/Fluid/Router/Router.php:18-32 | no routes, no parameters, suffix "controller" |
| Routing.Router.Add | src/Fluid/Router/Router.php:37-40 | the route's entry is set to its parameters and the table stays duplicate-free; the parameters field is untouched |
| Routing.AddReplaces | src/Fluid/Router/Router.php:37-40 | the route maps to its parameters; every other route reads as before; an existing route is replaced, not duplicated |
| Routing.Router.GetNameSpace | src/Fluid/Router/Router.php:128-136 | `App\Controller\` plus the `namespace` parameter and a backslash when present, else just the prefix; it always starts with the prefix |
| Routing.NameSpaceIgnoresName | src/Fluid/Router/Router.php:128-136 | the argument plays no part in the result |
| Routing.PipelineIsWalk | src/Fluid/Router/Router.php:104 | `str_replace` / `ucwords` / `str_replace` is one left-to-right walk, from any word state |
| Routing.TransformUpperCamelCase | src/Fluid/Router/Router.php:102-105 | `transformUpperCamelCase` is that walk from the start of a word |
| Routing.WalkKeeps | src/Fluid/Router/Router.php:104 | the walk keeps exactly the non-hyphen, non-space characters in order, each as it was or upper-cased, and the first upper-cased |
| Routing.UpperCamelShape | src/Fluid/Router/Router.php:102-105 | the result has no hyphen and no space; its characters are the others, in order, each as it was or upper-cased; the first one is upper-cased |
| Routing.TransformCamelCase | src/Fluid/Router/Router.php:115-118 | `transformCamelCase` has one character per kept input character; it is `transformUpperCamelCase` with only its first character lower-cased |
| Routing.ThreeWords | src/Fluid/Router/Router.php:102-105 | three hyphen-joined lower-case words become the three words capitalised and joined |
| Routing.UpperDocExample | src/Fluid/Router/Router.php:96 | "my-custom-string" gives "MyCustomString" |
| Routing.CamelDocExample | src/Fluid/Router/Router.php:109 | "my-custom-string" gives "myCustomString" |

## Left out

- The PDO side of DataMapper is I/O and is not modelled: `execute`, `rowsCount`, `result`, `results`, `getLastID` and `DatabaseConnectionInterface::open`. CRUD reads these through `MapperOracle`, whose outcomes are inputs. A connection failure is a constructor parameter of DataMapper.
- `CRUD::lastID` only forwards `getLastID`, which is connection I/O.
- DataMapping.DataMapper.Persist: the `execute` step is never reached, so it is not modelled.
- The statement's `bindValue` calls are modelled as updates of a placeholder table. PDO's own failures inside `bindValue` are not modelled.
- The factories (DataMapperFactory, EntityManagerFactory, DataRepositoryFactory, QueryBuilderFactory, SessionFactory), SessionManager and LiquidORM are not part of this model. They work by class-name strings and reflection.
- EntityManager is not modelled on its own. It only hands out one CRUD, which is the repository's field `crud`.
- The interfaces and the exception classes are signatures and tags only, and are not modelled.
- AbstractSessionStorage is not part of this model. That covers `ini_set`, `session_start`, cookie parameters, `$_SERVER` and `php_sapi_name`, which are runtime I/O. The storage constructor takes the map `session_start` loaded.
- SessionStorage.Appended: the key a list gains is computed from its current keys (one past the largest int key, and at least 0). PHP instead keeps a next-free counter with each array, which survives `unset`: after `unset($v[2])` on `[1, 2, 3]`, `$v[] = 4` stores 4 under 3, where the model gives 2. From PHP 8.3 a negative largest key n also gives n + 1, where the model gives 0. An array value here holds its entries only, so it carries no counter.
- SessionStorage.NativeSessionStorage.InvalidateSession: the cookie and `session_destroy` half (NativeSessionStorage.php lines 80-93) is runtime I/O and is left out. Only the clearing of the map is modelled.
- `$_SESSION` is a process-wide superglobal. Here it is the one storage object's field, so two storages sharing it are not modelled.
- The storage methods of the model cannot raise, except for `setSessionArray`. So the `SessionException` rewrap of `set`, `get` and `flush` never fires in the model.
- `Router::dispatch` and `matchRoute` are left out. They run caller-supplied PCRE patterns and instantiate and call classes by name.
- Routing.Router.GetNameSpace is therefore stated for every value of `params`, even though only `matchRoute` writes that field.
- DataMapping.Bind: floats are not modelled. A float-form numeric string such as "1.0" or "1e3" counts as non-numeric, so it is typed PARAM_STR. PHP types it PARAM_INT when its value is integral.
- PhpCompare.LooseEq: float-form numeric strings are compared as plain strings, for the same reason.
- DataMapping.Bind: an integer string beyond the 64-bit range, such as "9223372036854775808", is compared with its saturated `intval` as an exact integer, so it is typed PARAM_STR. PHP reads such a string as a float and compares both sides as doubles, so a string whose double equals PHP_INT_MAX or PHP_INT_MIN as a double is PARAM_INT there. Double rounding is not modelled.
- PhpCompare.LooseEq: integer strings beyond 64 bits are compared as exact integers, where PHP compares them as doubles, for the same reason.
- Objects are not modelled, so `ToText` has no case for them.
- PHP warnings (undefined index, "Array to string conversion") are not modelled; only the value PHP goes on with is.
- The messages of exceptions are not modelled; only their classes are.
- Integers inside values are unbounded. The 64-bit limits are modelled where the code depends on them: array keys, `intval` saturation, and `[]`-append past PHP_INT_MAX.
- `CRUD`'s `options` are stored and never read, as in the source.
