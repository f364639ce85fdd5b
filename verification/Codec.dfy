/** What both walks share: results, hooks and the state they consult. */
module Codec {
  import opened Bytes
  import opened Types
  import opened Values
  import opened JsonTree

  /** `Nothing` is a null `json_t`; `Aborted` is a failed assertion. */
  datatype SerializeResult = Emitted(json: Json) | Nothing | Aborted

  /**
   * `NoBlock` is a null pointer returned without an error; only the top-level call also returns it
   * with one, for a tree that names no type. `Crashed` is a failed assertion or a copy out of
   * that null pointer. `Diverged` is a recursion that never ends.
   */
  datatype DeserializeResult = Built(value: Value) | NoBlock | Crashed | Diverged

  /** A hook gets its arguments and what its continuation returns on them. */
  type SerializerHook = (RType, Value, SerializeResult) -> SerializeResult
  type DeserializerHook = (RType, Option<Json>, DeserializeResult) -> DeserializeResult

  datatype Hook = Hook(serializer: Option<SerializerHook>, deserializer: Option<DeserializerHook>)

  datatype Context = Context(
    table: TypeTable,
    typeName: RType -> string,
    typesByName: string -> seq<RType>,
    hooks: map<string, Hook>,
    skipUnknown: bool,
    invertable: bool)

  predicate HasSerializer(c: Context, ty: RType) {
    c.typeName(ty) in c.hooks && c.hooks[c.typeName(ty)].serializer.Some?
  }

  predicate HasDeserializer(c: Context, ty: RType) {
    c.typeName(ty) in c.hooks && c.hooks[c.typeName(ty)].deserializer.Some?
  }

  predicate Unhooked(c: Context) {
    c.hooks.Keys == {}
  }

  /** A 64-bit `size_t` product. */
  function SizeProduct(a: nat, b: nat): nat {
    (a * b) % 0x1_0000_0000_0000_0000
  }

  /** The block `json_deserialize_array` asks for passes the allocator's size assertion. */
  predicate ArrayAllocates(t: TypeTable, elem: RType, length: nat) {
    Size(t, Array(elem, length)) <= SizeProduct(length, Size(t, Array(elem, length)))
  }

  /** The product is what a 64-bit register keeps of it. */
  lemma SizeProductBytes(a: nat, b: nat)
    ensures SizeProduct(a, b) == DecodeUnsigned(Encode(a * b, 8))
  {
    DecodeEncode(a * b, 8);
    Pow256Of8();
  }

  /**
   * An array is allocated exactly if its size is at most what 64 bits keep of its length times its
   * size; so always if that product fits.
   */
  lemma AllocatesExactly(t: TypeTable, elem: RType, length: nat)
    ensures var size := Size(t, Array(elem, length));
            && (ArrayAllocates(t, elem, length) <==> size <= DecodeUnsigned(Encode(length * size, 8)))
            && (length * size < 0x1_0000_0000_0000_0000 ==>
                  ArrayAllocates(t, elem, length) && SizeProduct(length, size) == length * size)
  {
    var size := Size(t, Array(elem, length));
    SizeProductBytes(length, size);
    if length * size < 0x1_0000_0000_0000_0000 {
      DivModUnique(length * size, 0x1_0000_0000_0000_0000, 0, length * size);
      AtLeast(length, size);
    }
  }

  lemma AtLeast(length: nat, size: nat)
    requires length == 0 ==> size == 0
    ensures size <= length * size
  {
    if length > 0 {
      assert length * size == size + (length - 1) * size;
    }
  }

  /** The bound matters: the size that is asked for an array of 2^32 chars wraps around to zero. */
  lemma HugeArrayFails(t: TypeTable)
    ensures !ArrayAllocates(t, Builtin(Char), 0x1_0000_0000)
  {
    assert Size(t, Array(Builtin(Char), 0x1_0000_0000)) == 0x1_0000_0000;
  }
}
