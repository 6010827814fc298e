/**
 * The Python values that reach the container codec: the five storable kinds
 * (int, bool, str, bytes, Address), the containers `put_to_db` fans out
 * (dict, and list/tuple/set as a sequence), `None`, and anything else.
 */
module PyValues {
  import opened Utf8

  /**
   * An ICON address, kept opaque: its canonical text is all the codec uses.
   * `str(address)` gives `text` and `Address.from_string(text)` gives the
   * address back; the address module is not part of this model.
   */
  datatype Address = Address(text: string)

  datatype PyValue =
    | PNone
    | PBool(b: bool)
    | PInt(i: int)
    | PStr(s: string)
    | PBytes(data: Bytes)
    | PAddress(address: Address)
    | PList(elems: seq<PyValue>)               // list, tuple or set, in iteration order
    | PDict(items: seq<(PyValue, PyValue)>)    // dict items in insertion order
    | POther                                   // any other object (a float, an object, ...)

  /** The `value_type` a container is declared with. */
  datatype ValueType = IntType | StrType | BoolType | AddressType | BytesType | OtherType

  predicate IsContainer(v: PyValue) {
    v.PList? || v.PDict?
  }
}
