/** JSON trees. Object members are unordered; integers are 64 bits wide. */
module JsonTree {
  import opened Bytes

  datatype Json =
    | Null
    | Boolean(b: bool)
    | Integer(n: Int64)
    | Real(bits: Bits64)
    | Text(s: string)
    | List(items: seq<Json>)
    | Object(fields: map<string, Json>)

  /** `json_object_get`: absent on a missing key, a non-object or an absent tree. */
  function Get(j: Option<Json>, key: string): Option<Json> {
    if j.Some? && j.value.Object? && key in j.value.fields then Some(j.value.fields[key]) else None
  }

  /** `json_array_get`. */
  function At(j: Option<Json>, i: nat): Option<Json> {
    if j.Some? && j.value.List? && i < |j.value.items| then Some(j.value.items[i]) else None
  }

  /** `json_integer_value`: zero unless the tree is an integer. */
  function IntegerValue(j: Option<Json>): Int64 {
    if j.Some? && j.value.Integer? then j.value.n else 0
  }

  /** `json_real_value`: zero unless the tree is a real. */
  function RealValue(j: Option<Json>): Bits64 {
    if j.Some? && j.value.Real? then j.value.bits else 0
  }

  function Tree(j: Option<Json>): Json {
    if j.Some? then j.value else Null
  }
}
