/** The PHP values the data-access pipeline, the session store and the router handle.
    Floats, objects and resources are not modelled. */
module PhpValues {

  /** A PHP array key. PHP stores a string key that spells a canonical decimal integer
      as that integer (see PhpStrings.ArrayKey). */
  datatype Key = KInt(n: int) | KStr(s: string)

  datatype Value =
    | PNull
    | PBool(b: bool)
    | PInt(i: int)
    | PStr(s: string)
    | PList(entries: PArray)

  /** A PHP array: an ordered map, insertion order significant, keys distinct. */
  type PArray = seq<(Key, Value)>

  datatype Option<T> = None | Some(value: T)

  /** The exceptions and engine errors the modelled code raises or passes through. */
  datatype Throwable =
    | TypeError                               // a declared parameter, property or return type is violated
    | Error                                   // any other engine \Error, e.g. `[]` applied to a scalar
    | DataMapperException
    | DataRepositoryInvalidArgumentException
    | SessionInvalidArgumentException
    | SessionException
    | StorageFailure(code: int)               // raised by the connection or the statement layer

  datatype Result<T> = Ok(value: T) | Err(error: Throwable)

  datatype Outcome = Pass | Fail(error: Throwable)

  /** PHP's conversion to bool; `empty($v)` is its negation. */
  predicate ToBool(v: Value)
  {
    match v
    case PNull => false
    case PBool(b) => b
    case PInt(i) => i != 0
    case PStr(s) => s != "" && s != "0"
    case PList(es) => es != []
  }

  /** The value PHP makes of an array key when it is read back (`array_keys`, `foreach`). */
  function KeyValue(k: Key): Value
  {
    match k
    case KInt(n) => PInt(n)
    case KStr(s) => PStr(s)
  }
}
