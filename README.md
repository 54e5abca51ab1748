# Octet String Value object (BACnet) in Dafny

A model of the Octet String Value object type of ASHRAE 135 (BACnet), clause 12,
as the `bacnet-rs` crate implements it in `src/object/octet_string.rs`:

- `BoundedVec`, a byte container that can only be built from at most
  `MAX_OCTET_STRING_SIZE` = 900 octets and otherwise reports an
  `OversizeData { len, max_len }` error. The bound keeps the present value small
  enough for an unsegmented 1024-octet APDU.
- The `OctetString` object: identifier, name, description, a present value
  that is written only through `BoundedVec` (all or nothing), and a status byte
  packing in-alarm `0x08`, fault `0x04`, overridden `0x02` and
  out-of-service `0x01`.
- The `BacnetObject` property interface: reading the four catalog properties,
  writing the object name, the writability predicate and the property list.

Files:

- `object.dfy` (module `Object`): the parts of the crate's `object` module the
  object uses (identifier, property identifiers and values, errors, `Result`),
  each cut down to the variants this object refers to plus an `Other` case.
- `octet_string.dfy` (module `OctetStringObject`): the bounded container, the
  status-flag layout, the class `OctetString` with the source's fields and
  operations, and a value-level model of the object's state (`ObjectState`,
  `Operation`, `Apply`, `Run`) that specifies each state-changing method and
  over which the lemmas about whole histories of operations are proved.

The readers (`Identifier`, `GetStatusFlags`, `GetProperty`,
`IsPropertyWritable`, `PropertyList`) are functions of the class that read its
fields; the writers (`SetPresentValue`, `SetStatusFlags`, `SetProperty`) are
methods that modify it, each ensuring `State() == Apply(old(State()), op)` and
listing every field it leaves alone. Because the fields are public in the
source, the class has no invariant; `Wellformed` (Octet String Value type, at
most 900 octets of present value, reserved status bits clear) is established
by the constructor and preserved by every operation instead.

The source has a `description` field (marked optional at
src/object/octet_string.rs:53), but `get_property` (lines 120-135) has no case
for `Description`, so reading it gives `UnknownProperty`, in the model as in
the code.

## Model

| member | source | states |
|---|---|---|
| `OctetStringObject.BoundedVec.New` | src/object/octet_string.rs:25-34 | succeeds iff the input has at most 900 octets, then wraps exactly the input; otherwise fails with `OversizeData` carrying the input length and `max_len` 900 |
| `OctetStringObject.BoundedVec.Len` | src/object/octet_string.rs:41-43 | the length of the wrapped octets, which is never more than 900 |
| `OctetStringObject.EncodeStatusFlags` | src/object/octet_string.rs:99-111 | the packed status byte: bit 3 is in-alarm, bit 2 fault, bit 1 overridden, bit 0 out-of-service, each set iff its flag is, and the reserved high four bits are zero |
| `OctetStringObject.EncodeStatusFlagsInjective` | src/object/octet_string.rs:83-112 | distinct flag combinations pack to distinct bytes, so no information is lost |
| `OctetStringObject.SetPropertyOutcome` | src/object/octet_string.rs:138-150 | a property write succeeds iff the property is `ObjectName` and the value a character string; `ObjectName` with another value gives `InvalidPropertyType`; any other property gives `PropertyNotWritable` |
| `OctetStringObject.Apply` | src/object/octet_string.rs:74-150 | every operation keeps the identifier and description and keeps a well-formed state well-formed; a rejected operation changes nothing; an accepted one replaces exactly the present value, the status byte or the name |
| `OctetStringObject.RunKeepsIdentityAndBounds` | src/object/octet_string.rs:46-150 | after any sequence of operations the identifier and description are those of the start, and a well-formed object stays well-formed (present value at most 900 octets, reserved status bits clear) |
| `OctetStringObject.RejectedOperationsAreInvisible` | src/object/octet_string.rs:74-150 | since writes are all or nothing, dropping the rejected operations from any history leads to the same state |
| `OctetStringObject.RunPresentValue` | src/object/octet_string.rs:74-81 | after any history the present value is the last value whose write was accepted, or the initial one if none was |
| `OctetStringObject.RejectedWritesLeaveStateUnchanged` | src/object/octet_string.rs:74-150 | a history made only of rejected writes, of any kinds, leaves every field as it was |
| `OctetStringObject.SetStatusFlagsOverwrites` | src/object/octet_string.rs:99-111 | the status byte after setting the flags does not depend on the byte before |
| `OctetStringObject.OctetString.constructor` | src/object/octet_string.rs:63-71 | identifier (Octet String Value, instance), the given name, empty description and present value, status byte 0 (all flags false), and a well-formed object |
| `OctetStringObject.OctetString.SetPresentValue` | src/object/octet_string.rs:74-81 | succeeds iff the value has at most 900 octets and then holds exactly it, so reading `PresentValue` returns it; otherwise returns `OversizeData(len, 900)` and keeps the old value; no other field changes |
| `OctetStringObject.OctetString.GetStatusFlags` | src/object/octet_string.rs:83-90 | the four flags are exactly the low four bits of the status byte (their packing equals the byte masked with `0x0F`) |
| `OctetStringObject.OctetString.SetStatusFlags` | src/object/octet_string.rs:92-112 | the byte becomes the packing of the four arguments, reading the flags back returns the arguments for all 16 combinations, reserved bits are clear, and no other field changes |
| `OctetStringObject.OctetString.Identifier` | src/object/octet_string.rs:116-118 | the identifier that reading `ObjectIdentifier` reports, of the Octet String Value type for a well-formed object |
| `OctetStringObject.OctetString.GetProperty` | src/object/octet_string.rs:120-136 | succeeds exactly for the properties in the property list, with the identifier, name, type code or present value; every other property gives `UnknownProperty` |
| `OctetStringObject.OctetString.SetProperty` | src/object/octet_string.rs:138-150 | returns the outcome `SetPropertyOutcome` decides; on success the name is the written string and reads back as it; any error leaves every field unchanged |
| `OctetStringObject.OctetString.IsPropertyWritable` | src/object/octet_string.rs:152-154 | true exactly for the properties a character-string write succeeds on; writable properties are readable; for a non-writable one every write gives `PropertyNotWritable` |
| `OctetStringObject.OctetString.PropertyList` | src/object/octet_string.rs:156-163 | the four catalog properties, each once, in the order ObjectIdentifier, ObjectName, ObjectType, PresentValue |

## Left out

- The numeric value of `ObjectType::OctetString as u32` and `ObjectIdentifier::new` belong to the crate's `object` module, which is not part of this model: the type code is an unspecified constant and the identifier a plain pair, with no check of the 22-bit instance range.
- `PropertyIdentifier`, `PropertyValue` and `ObjectError` carry only the variants this object uses, plus one catch-all each; `PropertyIdentifier` also keeps `Description`, on purpose, so that the model can show that reading the object's description property fails with `UnknownProperty`.
- Direct assignment to the public fields: the 900-octet bound and the clear reserved bits are promised along the object's operations only, so `Wellformed` is not a class invariant.
- The writability of `PresentValue` while out of service is mentioned only in a comment of the source; the code always rejects the write, and so does the model.
- Lengths are unbounded naturals rather than `usize`; no vector can come near `usize::MAX`, so nothing is lost.
- Ownership, moves and `clone`: values are immutable in Dafny, so `get_property` returning a copy and `set_present_value` taking its argument by value need no modelling.
- The BACnet wire encoding of Status_Flags as a bit string; the source keeps only an in-memory byte.
- The `Debug`/`Clone` derives, the `alloc` imports for `no_std` builds and the commented-out `as_slice`, which have no behaviour.
