/** JavaScript values as the untrusted-input code of the repository meets them. */
module Values {

  datatype Number = Finite(r: real) | NaN | PositiveInfinity | NegativeInfinity

  /** `Other` stands for functions, symbols and big integers. */
  datatype Value =
    | Undefined
    | Null
    | Bool(b: bool)
    | Num(n: Number)
    | Str(s: string)
    | Arr(items: seq<Value>)
    | Obj(fields: seq<Field>)
    | Other

  datatype Field = Field(key: string, value: Value)

  /** `fields[key]`, `undefined` for an absent key. */
  function Get(fields: seq<Field>, key: string): Value
  {
    if fields == [] then Undefined
    else if fields[0].key == key then fields[0].value
    else Get(fields[1..], key)
  }

  /** `raw[key]` on something that may not be an object. */
  function Property(value: Value, key: string): Value
  {
    if value.Obj? then Get(value.fields, key) else Undefined
  }

  lemma {:induction false} GetAbsent(fields: seq<Field>, key: string)
    requires forall f :: f in fields ==> f.key != key
    ensures Get(fields, key) == Undefined
  {
    if fields != [] {
      GetAbsent(fields[1..], key);
    }
  }
}
