/** The part of the crate's `object` module that the Octet String Value object
    uses: the identifier, the property identifiers and values, the errors and
    the crate's result type. Only the variants the object refers to are
    modelled; every other variant is folded into an `Other` case. */
module Object {

  /** Rust's `u8`. */
  type Byte = bv8

  /** Rust's `u32`. */
  newtype u32 = x: int | 0 <= x < 0x1_0000_0000

  /** `std::result::Result`, usable with `:-` the way Rust uses `?`. */
  datatype Result<+T, +E> = Ok(value: T) | Err(error: E) {
    predicate IsFailure() {
      Err?
    }

    function PropagateFailure<U>(): Result<U, E>
      requires Err?
    {
      Err(error)
    }

    function Extract(): T
      requires Ok?
    {
      value
    }
  }

  /** BACnet object types; only Octet String Value is used by this object. */
  datatype ObjectType = OctetString | OtherObjectType(code: u32)

  /** The numeric code of `ObjectType::OctetString`. Its value is defined by
      the crate's `ObjectType` enumeration, which is not part of this model,
      so it is left unspecified. */
  const OCTET_STRING_TYPE_CODE: u32

  /** An object identifier: the object type and the instance number. */
  datatype ObjectIdentifier = ObjectIdentifier(objectType: ObjectType, instance: u32)

  datatype PropertyIdentifier =
    | ObjectIdentifier
    | ObjectName
    | ObjectType
    | PresentValue
    | Description
    | OtherProperty(code: u32)

  /** Application-tagged property values. */
  datatype PropertyValue =
    | ObjectIdentifier(id: ObjectIdentifier)
    | CharacterString(text: string)
    | Enumerated(enumeration: u32)
    | OctetString(octets: seq<Byte>)
    | OtherValue

  datatype ObjectError =
    | UnknownProperty
    | InvalidPropertyType
    | PropertyNotWritable
    | OtherError
}
