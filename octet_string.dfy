/** The Octet String Value object type of ASHRAE 135 (BACnet), clause 12:
    a size-checked byte container, the object's state with its status-flag
    byte, and the generic property-access interface every BACnet object
    implements. */
module OctetStringObject {
  import opened Object

  /** The largest present value, in octets. The bound lets an unsegmented
      1024-octet APDU carry the whole value. */
  const MAX_OCTET_STRING_SIZE: nat := 900

  /** Octet strings no longer than the bound. */
  type BoundedBytes = s: seq<Byte> | |s| <= MAX_OCTET_STRING_SIZE

  datatype BoundedVecError = OversizeData(len: nat, maxLen: nat)

  /** A byte vector that was checked against the bound when it was built.
      Its field is private in the source, so `New` is the only way to get one. */
  datatype BoundedVec = BoundedVec(inner: BoundedBytes) {

    /** Wraps `data` if it fits, and otherwise reports its length and the bound. */
    static function New(data: seq<Byte>): (r: Result<BoundedVec, BoundedVecError>)
      ensures r.Ok? <==> |data| <= MAX_OCTET_STRING_SIZE
      ensures r.Ok? ==> r.value.inner == data
      ensures r.Err? ==> r.error.len == |data| > r.error.maxLen == MAX_OCTET_STRING_SIZE
    {
      if |data| > MAX_OCTET_STRING_SIZE then
        Err(OversizeData(len := |data|, maxLen := MAX_OCTET_STRING_SIZE))
      else
        Ok(BoundedVec(data))
    }

    /** The number of octets held, which never exceeds the bound. */
    function Len(): (n: nat)
      ensures n == |inner| <= MAX_OCTET_STRING_SIZE
    {
      |inner|
    }
  }

  /** The four status flags: in-alarm, fault, overridden, out-of-service. */
  type StatusFlags = (bool, bool, bool, bool)

  const IN_ALARM: Byte := 0x08
  const FAULT: Byte := 0x04
  const OVERRIDDEN: Byte := 0x02
  const OUT_OF_SERVICE: Byte := 0x01

  /** The status byte that holds exactly the flags in `f`, one bit each,
      with the four reserved high bits clear. */
  function EncodeStatusFlags(f: StatusFlags): (b: Byte)
    ensures b & 0xF0 == 0
    ensures (b & IN_ALARM != 0) == f.0
    ensures (b & FAULT != 0) == f.1
    ensures (b & OVERRIDDEN != 0) == f.2
    ensures (b & OUT_OF_SERVICE != 0) == f.3
  {
    (if f.0 then IN_ALARM else 0) | (if f.1 then FAULT else 0)
      | (if f.2 then OVERRIDDEN else 0) | (if f.3 then OUT_OF_SERVICE else 0)
  }

  /** Different flag combinations give different status bytes. */
  lemma EncodeStatusFlagsInjective(f: StatusFlags, g: StatusFlags)
    ensures EncodeStatusFlags(f) == EncodeStatusFlags(g) ==> f == g
  {
  }

  /** The object's fields as one value. */
  datatype ObjectState = ObjectState(
    identifier: ObjectIdentifier,
    objectName: string,
    description: string,
    presentValue: seq<Byte>,
    statusFlags: Byte)

  /** What the object's public operations keep: it stays an Octet String
      Value object, its present value fits the bound and the reserved bits of
      its status byte stay clear. Writing the fields directly can break it. */
  ghost predicate Wellformed(s: ObjectState) {
    && s.identifier.objectType == ObjectType.OctetString
    && |s.presentValue| <= MAX_OCTET_STRING_SIZE
    && s.statusFlags & 0xF0 == 0
  }

  /** The operations that change an object. */
  datatype Operation =
    | SetPresentValue(value: seq<Byte>)
    | SetStatusFlags(flags: StatusFlags)
    | SetProperty(property: PropertyIdentifier, propertyValue: PropertyValue)

  /** The outcome of writing `value` to `property`: only the object name is
      writable, and only with a character string. */
  function SetPropertyOutcome(property: PropertyIdentifier, value: PropertyValue): (r: Result<(), ObjectError>)
    ensures r.Ok? <==> property == PropertyIdentifier.ObjectName && value.CharacterString?
    ensures r == Err(InvalidPropertyType) <==> property == PropertyIdentifier.ObjectName && !value.CharacterString?
    ensures r == Err(PropertyNotWritable) <==> property != PropertyIdentifier.ObjectName
  {
    match property
    case ObjectName => if value.CharacterString? then Ok(()) else Err(InvalidPropertyType)
    case _ => Err(PropertyNotWritable)
  }

  /** Whether `op` succeeds. It never depends on the object's state. */
  predicate Accepted(op: Operation) {
    match op
    case SetPresentValue(value) => BoundedVec.New(value).Ok?
    case SetStatusFlags(_) => true
    case SetProperty(property, value) => SetPropertyOutcome(property, value).Ok?
  }

  /** The state after `op`. */
  function Apply(s: ObjectState, op: Operation): (r: ObjectState)
    ensures r.identifier == s.identifier && r.description == s.description
    ensures Wellformed(s) ==> Wellformed(r)
    ensures !Accepted(op) ==> r == s
    ensures op.SetPresentValue? && Accepted(op) ==> r == s.(presentValue := op.value)
    ensures op.SetStatusFlags? ==> r == s.(statusFlags := EncodeStatusFlags(op.flags))
    ensures op.SetProperty? && Accepted(op) ==> r == s.(objectName := op.propertyValue.text)
  {
    match op
    case SetPresentValue(value) =>
      (match BoundedVec.New(value)
       case Ok(bounded) => s.(presentValue := bounded.inner)
       case Err(_) => s)
    case SetStatusFlags(flags) => s.(statusFlags := EncodeStatusFlags(flags))
    case SetProperty(property, value) =>
      if SetPropertyOutcome(property, value).Ok? then s.(objectName := value.text) else s
  }

  /** The state after the operations `ops`, in order. */
  function Run(s: ObjectState, ops: seq<Operation>): ObjectState
    decreases |ops|
  {
    if ops == [] then s else Run(Apply(s, ops[0]), ops[1..])
  }

  /** The operations of `ops` that succeed, in their order. */
  function AcceptedOnly(ops: seq<Operation>): (r: seq<Operation>)
    ensures forall i :: 0 <= i < |r| ==> Accepted(r[i])
    ensures |r| <= |ops|
  {
    if ops == [] then []
    else if Accepted(ops[0]) then [ops[0]] + AcceptedOnly(ops[1..])
    else AcceptedOnly(ops[1..])
  }

  /** No sequence of operations changes the identifier or the description,
      and every sequence keeps a well-formed object well-formed. */
  lemma {:induction false} RunKeepsIdentityAndBounds(s: ObjectState, ops: seq<Operation>)
    ensures Run(s, ops).identifier == s.identifier
    ensures Run(s, ops).description == s.description
    ensures Wellformed(s) ==> Wellformed(Run(s, ops))
    decreases |ops|
  {
    if ops != [] {
      RunKeepsIdentityAndBounds(Apply(s, ops[0]), ops[1..]);
    }
  }

  /** Writes are all-or-nothing, so the rejected operations of a history can
      be dropped without changing the state it leads to. */
  lemma {:induction false} RejectedOperationsAreInvisible(s: ObjectState, ops: seq<Operation>)
    ensures Run(s, ops) == Run(s, AcceptedOnly(ops))
    decreases |ops|
  {
    if ops != [] {
      RejectedOperationsAreInvisible(Apply(s, ops[0]), ops[1..]);
      if Accepted(ops[0]) {
        var rest := AcceptedOnly(ops[1..]);
        assert ([ops[0]] + rest)[1..] == rest;
      }
    }
  }

  /** The present value after a history is the last value that was accepted,
      or the starting one when none was. */
  function LastPresentValue(initial: seq<Byte>, ops: seq<Operation>): seq<Byte>
    decreases |ops|
  {
    if ops == [] then initial
    else
      var last := ops[|ops| - 1];
      if last.SetPresentValue? && Accepted(last) then last.value
      else LastPresentValue(initial, ops[..|ops| - 1])
  }

  /** Replaying a history from the front gives the last accepted present value. */
  lemma {:induction false} RunPresentValue(s: ObjectState, ops: seq<Operation>)
    ensures Run(s, ops).presentValue == LastPresentValue(s.presentValue, ops)
    decreases |ops|
  {
    if ops != [] {
      var init := ops[..|ops| - 1];
      RunAppend(s, init, ops[|ops| - 1]);
      assert init + [ops[|ops| - 1]] == ops;
      RunPresentValue(s, init);
    }
  }

  /** Running a history and then one more operation. */
  lemma {:induction false} RunAppend(s: ObjectState, ops: seq<Operation>, op: Operation)
    ensures Run(s, ops + [op]) == Apply(Run(s, ops), op)
    decreases |ops|
  {
    if ops == [] {
      assert [] + [op] == [op];
    } else {
      assert (ops + [op])[1..] == ops[1..] + [op];
      RunAppend(Apply(s, ops[0]), ops[1..], op);
    }
  }

  /** Octet String Value object. The fields are public in the source, so no
      invariant is imposed on them; the operations below keep `Wellformed`. */
  class OctetString {
    var identifier: ObjectIdentifier
    var objectName: string
    var description: string
    var presentValue: seq<Byte>
    var statusFlags: Byte

    /** All fields as one value. */
    function State(): ObjectState
      reads this
    {
      ObjectState(identifier, objectName, description, presentValue, statusFlags)
    }

    /** A new object with the given instance number and name, an empty
        description and present value, and every status flag clear. */
    constructor(instance: u32, objectName: string)
      ensures identifier == ObjectIdentifier.ObjectIdentifier(ObjectType.OctetString, instance)
      ensures this.objectName == objectName
      ensures description == [] && presentValue == [] && statusFlags == 0
      ensures GetStatusFlags() == (false, false, false, false)
      ensures Wellformed(State())
    {
      identifier := ObjectIdentifier.ObjectIdentifier(ObjectType.OctetString, instance);
      this.objectName := objectName;
      description := "";
      presentValue := [];
      statusFlags := 0;
    }

    /** Replaces the present value with `value` if it fits the bound, and
        otherwise reports its length and changes nothing. */
    method SetPresentValue(value: seq<Byte>) returns (r: Result<(), BoundedVecError>)
      modifies this
      ensures r.Ok? <==> |value| <= MAX_OCTET_STRING_SIZE
      ensures r.Err? ==> r.error == OversizeData(|value|, MAX_OCTET_STRING_SIZE)
      ensures r.Ok? ==> presentValue == value && |presentValue| <= MAX_OCTET_STRING_SIZE
      ensures r.Err? ==> presentValue == old(presentValue)
      ensures identifier == old(identifier) && objectName == old(objectName)
      ensures description == old(description) && statusFlags == old(statusFlags)
      ensures State() == Apply(old(State()), Operation.SetPresentValue(value))
      ensures r.Ok? ==> GetProperty(PropertyIdentifier.PresentValue) == Ok(PropertyValue.OctetString(value))
    {
      var bounded :- BoundedVec.New(value);
      presentValue := bounded.inner;
      r := Ok(());
    }

    /** The four flags held in the status byte. */
    function GetStatusFlags(): (f: StatusFlags)
      reads this
      ensures EncodeStatusFlags(f) == statusFlags & 0x0F
    {
      (statusFlags & IN_ALARM != 0,
       statusFlags & FAULT != 0,
       statusFlags & OVERRIDDEN != 0,
       statusFlags & OUT_OF_SERVICE != 0)
    }

    /** Overwrites the status byte so that it holds exactly the given flags;
        the previous byte has no influence on the new one. */
    method SetStatusFlags(inAlarm: bool, fault: bool, overridden: bool, outOfService: bool)
      modifies this
      ensures statusFlags == EncodeStatusFlags((inAlarm, fault, overridden, outOfService))
      ensures GetStatusFlags() == (inAlarm, fault, overridden, outOfService)
      ensures statusFlags & 0xF0 == 0
      ensures identifier == old(identifier) && objectName == old(objectName)
      ensures description == old(description) && presentValue == old(presentValue)
      ensures State() == Apply(old(State()), Operation.SetStatusFlags((inAlarm, fault, overridden, outOfService)))
    {
      statusFlags := 0;
      if inAlarm {
        statusFlags := statusFlags | IN_ALARM;
      }
      if fault {
        statusFlags := statusFlags | FAULT;
      }
      if overridden {
        statusFlags := statusFlags | OVERRIDDEN;
      }
      if outOfService {
        statusFlags := statusFlags | OUT_OF_SERVICE;
      }
    }

    /** The object's identifier. */
    function Identifier(): (id: ObjectIdentifier)
      reads this
      ensures Wellformed(State()) ==> id.objectType == ObjectType.OctetString
      ensures GetProperty(PropertyIdentifier.ObjectIdentifier) == Ok(PropertyValue.ObjectIdentifier(id))
    {
      identifier
    }

    /** Reads a property: the four listed properties succeed with a value of
        their own application type, every other one is unknown. */
    function GetProperty(property: PropertyIdentifier): (r: Result<PropertyValue, ObjectError>)
      reads this
      ensures r.Ok? <==> property in PropertyList()
      ensures r.Err? ==> r.error == UnknownProperty
      ensures property == PropertyIdentifier.ObjectIdentifier ==> r == Ok(PropertyValue.ObjectIdentifier(identifier))
      ensures property == PropertyIdentifier.ObjectName ==> r == Ok(CharacterString(objectName))
      ensures property == PropertyIdentifier.ObjectType ==> r == Ok(Enumerated(OCTET_STRING_TYPE_CODE))
      ensures property == PropertyIdentifier.PresentValue ==> r == Ok(PropertyValue.OctetString(presentValue))
    {
      match property
      case ObjectIdentifier => Ok(PropertyValue.ObjectIdentifier(identifier))
      case ObjectName => Ok(CharacterString(objectName))
      case ObjectType => Ok(Enumerated(OCTET_STRING_TYPE_CODE))
      case PresentValue => Ok(PropertyValue.OctetString(presentValue))
      case _ => Err(UnknownProperty)
    }

    /** Writes a property. Only the object name is writable, and only with a
        character string; a rejected write changes nothing. */
    method SetProperty(property: PropertyIdentifier, value: PropertyValue) returns (r: Result<(), ObjectError>)
      modifies this
      ensures r == SetPropertyOutcome(property, value)
      ensures r.Ok? ==> objectName == value.text
      ensures r.Ok? ==> GetProperty(PropertyIdentifier.ObjectName) == Ok(value)
      ensures r.Err? ==> objectName == old(objectName)
      ensures identifier == old(identifier) && description == old(description)
      ensures presentValue == old(presentValue) && statusFlags == old(statusFlags)
      ensures State() == Apply(old(State()), Operation.SetProperty(property, value))
    {
      match property
      case ObjectName =>
        if value.CharacterString? {
          objectName := value.text;
          r := Ok(());
        } else {
          r := Err(InvalidPropertyType);
        }
      case _ =>
        r := Err(PropertyNotWritable);
    }

    /** Whether `property` is writable: exactly when a write of a value of
        the right type succeeds. */
    function IsPropertyWritable(property: PropertyIdentifier): (w: bool)
      reads this
      ensures forall text :: SetPropertyOutcome(property, CharacterString(text)).Ok? <==> w
      ensures w ==> GetProperty(property).Ok?
      ensures !w ==> forall value :: SetPropertyOutcome(property, value) == Err(PropertyNotWritable)
    {
      property.ObjectName?
    }

    /** The properties this object type exposes, each once, in a fixed order. */
    function PropertyList(): (list: seq<PropertyIdentifier>)
      reads this
      ensures forall i, j :: 0 <= i < j < |list| ==> list[i] != list[j]
      ensures list == [PropertyIdentifier.ObjectIdentifier, PropertyIdentifier.ObjectName,
                       PropertyIdentifier.ObjectType, PropertyIdentifier.PresentValue]
    {
      [PropertyIdentifier.ObjectIdentifier, PropertyIdentifier.ObjectName,
       PropertyIdentifier.ObjectType, PropertyIdentifier.PresentValue]
    }
  }

  /** A history made only of rejected writes leaves every field as it was. */
  lemma {:induction false} RejectedWritesLeaveStateUnchanged(s: ObjectState, ops: seq<Operation>)
    requires forall i :: 0 <= i < |ops| ==> !Accepted(ops[i])
    ensures Run(s, ops) == s
    decreases |ops|
  {
    if ops != [] {
      RejectedWritesLeaveStateUnchanged(Apply(s, ops[0]), ops[1..]);
    }
  }

  /** The status byte after `SetStatusFlags` depends only on the new flags. */
  lemma SetStatusFlagsOverwrites(s: ObjectState, t: ObjectState, f: StatusFlags)
    ensures Apply(s, SetStatusFlags(f)).statusFlags == Apply(t, SetStatusFlags(f)).statusFlags
  {
  }

  /** The creation and the present-value scenarios of the source's tests. */
  method OctetStringScenario() {
    var o := new OctetString(1, "test");
    assert o.objectName == "test" && o.presentValue == [];
    assert o.Identifier() == ObjectIdentifier.ObjectIdentifier(ObjectType.OctetString, 1);
    assert o.GetStatusFlags() == (false, false, false, false);
    assert o.GetProperty(PropertyIdentifier.Description) == Err(UnknownProperty);

    var data: seq<Byte> := [1, 2, 3, 4];
    var r := o.SetPresentValue(data);
    assert r.Ok?;
    assert o.GetProperty(PropertyIdentifier.PresentValue) == Ok(PropertyValue.OctetString(data));

    var oversize := seq(MAX_OCTET_STRING_SIZE + 1, _ => 1 as Byte);
    r := o.SetPresentValue(oversize);
    assert r == Err(OversizeData(901, 900));
    assert o.presentValue == data;
  }
}
