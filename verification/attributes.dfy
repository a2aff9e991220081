/** `Attribute` (an identified, typed, issued set of values describing a
    subject, resource, action or environment) and `AttributeAssignment` (an
    attribute value an obligation asks the enforcement point to assign). */
module Attributes {
  import opened Lang
  import opened Strings

  /** The data type a new attribute starts with. */
  const DT_STRING: string := "http://www.w3.org/2001/XMLSchema#string"

  /** An attribute value; the source holds arbitrary objects, the model strings. */
  type Value = string

  datatype Attribute = Attribute(id: Option<string>, dataType: Option<string>, issuer: Option<string>, values: set<Value>)

  /** Every string field has the shape `safeTrimOrNullString` gives it. */
  predicate Valid(a: Attribute)
  {
    Normal(a.id) && Normal(a.dataType) && Normal(a.issuer)
  }

  /** `new Attribute()`. */
  function NewAttribute(): (a: Attribute)
    ensures a.id.None? && a.issuer.None?
    ensures a.dataType == Some(DT_STRING)
    ensures a.values == {}
    ensures Valid(a)
  {
    assert DT_STRING[0] == 'h' && DT_STRING[|DT_STRING| - 1] == 'g';
    Attribute(None, Some(DT_STRING), None, {})
  }

  /** `setId`: the trimmed id, or null for a null or blank argument. */
  function SetId(a: Attribute, newId: Option<string>): (r: Attribute)
    ensures r.id.None? <==> IsEmpty(newId)
    ensures r.id.Some? ==> r.id.value == Trim(newId.value)
    ensures r.dataType == a.dataType && r.issuer == a.issuer && r.values == a.values
    ensures Valid(a) ==> Valid(r)
  {
    a.(id := SafeTrimOrNull(newId))
  }

  /** `setDataType`: a blank argument gives null, not the string default. */
  function SetDataType(a: Attribute, dataType: Option<string>): (r: Attribute)
    ensures r.dataType.None? <==> IsEmpty(dataType)
    ensures r.dataType.Some? ==> r.dataType.value == Trim(dataType.value)
    ensures r.id == a.id && r.issuer == a.issuer && r.values == a.values
    ensures Valid(a) ==> Valid(r)
  {
    a.(dataType := SafeTrimOrNull(dataType))
  }

  /** `setIssuer`. */
  function SetIssuer(a: Attribute, newIssuer: Option<string>): (r: Attribute)
    ensures r.issuer.None? <==> IsEmpty(newIssuer)
    ensures r.issuer.Some? ==> r.issuer.value == Trim(newIssuer.value)
    ensures r.id == a.id && r.dataType == a.dataType && r.values == a.values
    ensures Valid(a) ==> Valid(r)
  {
    a.(issuer := SafeTrimOrNull(newIssuer))
  }

  /** `getValues().add(v)`. */
  function AddValue(a: Attribute, v: Value): (r: Attribute)
    ensures r.values == a.values + {v}
    ensures r.id == a.id && r.dataType == a.dataType && r.issuer == a.issuer
  {
    a.(values := a.values + {v})
  }

  /** `Attribute.equals`: null-safe equal id, data type and issuer, and equal
      value sets; false for null and for objects of another class. */
  function AttributeEquals(a: Attribute, obj: Obj<Attribute>): (r: bool)
    ensures r <==> obj == Is(a)
  {
    match obj
    case Null => false
    case Foreign => false
    case Is(other) =>
      SafeEquals(a.id, other.id)
      && SafeEquals(a.dataType, other.dataType)
      && SafeEquals(a.issuer, other.issuer)
      && a.values == other.values
  }

  /** An equal copy stops being equal once its issuer changes or it gains a
      value the original lacks. */
  lemma CopyDiverges(original: Attribute, copy: Attribute, issuer: Option<string>, v: Value)
    requires AttributeEquals(copy, Is(original))
    ensures SafeTrimOrNull(issuer) != original.issuer ==> !AttributeEquals(SetIssuer(copy, issuer), Is(original))
    ensures v !in original.values ==> !AttributeEquals(AddValue(copy, v), Is(original))
    ensures AttributeEquals(original, Is(copy))
  {
  }

  /** An attribute assignment object. `ref` is its object identity, which its
      `equals` depends on. */
  datatype AttributeAssignment = AttributeAssignment(ref: nat, attributeId: Option<string>, dataType: Option<string>, value: Option<string>)

  predicate ValidAssignment(a: AttributeAssignment)
  {
    Normal(a.attributeId) && Normal(a.dataType) && Normal(a.value)
  }

  /** `new AttributeAssignment()`, given the identity of the new object. */
  function NewAssignment(ref: nat): (a: AttributeAssignment)
    ensures a.ref == ref
    ensures a.attributeId.None? && a.dataType.None? && a.value.None?
    ensures ValidAssignment(a)
  {
    AttributeAssignment(ref, None, None, None)
  }

  /** `setAttributeId`. */
  function SetAttributeId(a: AttributeAssignment, id: Option<string>): (r: AttributeAssignment)
    ensures r.attributeId.None? <==> IsEmpty(id)
    ensures r.attributeId.Some? ==> r.attributeId.value == Trim(id.value)
    ensures r.ref == a.ref && r.dataType == a.dataType && r.value == a.value
    ensures ValidAssignment(a) ==> ValidAssignment(r)
  {
    a.(attributeId := SafeTrimOrNull(id))
  }

  /** `AttributeAssignment.setDataType`. */
  function SetAssignmentDataType(a: AttributeAssignment, dataType: Option<string>): (r: AttributeAssignment)
    ensures r.dataType.None? <==> IsEmpty(dataType)
    ensures r.dataType.Some? ==> r.dataType.value == Trim(dataType.value)
    ensures r.ref == a.ref && r.attributeId == a.attributeId && r.value == a.value
    ensures ValidAssignment(a) ==> ValidAssignment(r)
  {
    a.(dataType := SafeTrimOrNull(dataType))
  }

  /** `setValue`. */
  function SetValue(a: AttributeAssignment, newValue: Option<string>): (r: AttributeAssignment)
    ensures r.value.None? <==> IsEmpty(newValue)
    ensures r.value.Some? ==> r.value.value == Trim(newValue.value)
    ensures r.ref == a.ref && r.attributeId == a.attributeId && r.dataType == a.dataType
    ensures ValidAssignment(a) ==> ValidAssignment(r)
  {
    a.(value := SafeTrimOrNull(newValue))
  }

  /** `Strings.safeEquals(attributeId, otherAssignment)`: a String, or null,
      against a non-null AttributeAssignment. `null == other` is false, and
      `String.equals` of a non-String is false. */
  function IdEqualsObject(id: Option<string>, other: AttributeAssignment): bool
  {
    match id
    case None => false
    case Some(_) => false
  }

  /** `AttributeAssignment.equals` as written: after the identity check it
      compares the id string with the other object itself, so only the same
      object is equal. */
  function AssignmentEquals(a: AttributeAssignment, obj: Obj<AttributeAssignment>): (r: bool)
    ensures r <==> obj.Is? && obj.value.ref == a.ref
  {
    match obj
    case Null => false
    case Foreign => false
    case Is(other) =>
      other.ref == a.ref
      || (IdEqualsObject(a.attributeId, other)
          && SafeEquals(a.dataType, other.dataType)
          && SafeEquals(a.value, other.value))
  }

  /** Two distinct assignment objects are unequal even with identical fields. */
  lemma DistinctAssignmentsDiffer(a: AttributeAssignment, b: AttributeAssignment)
    requires a.ref != b.ref
    requires a.attributeId == b.attributeId && a.dataType == b.dataType && a.value == b.value
    ensures !AssignmentEquals(a, Is(b))
  {
  }

  /** `AttributeAssignment.equals` as its fields suggest it was meant: the same
      object, or null-safe equal attribute id, data type and value. */
  function AssignmentEqualsIntended(a: AttributeAssignment, obj: Obj<AttributeAssignment>): (r: bool)
    ensures r <==> obj.Is? && (obj.value.ref == a.ref
                               || (obj.value.attributeId == a.attributeId
                                   && obj.value.dataType == a.dataType
                                   && obj.value.value == a.value))
  {
    match obj
    case Null => false
    case Foreign => false
    case Is(other) =>
      other.ref == a.ref
      || (SafeEquals(a.attributeId, other.attributeId)
          && SafeEquals(a.dataType, other.dataType)
          && SafeEquals(a.value, other.value))
  }

  /** Two fresh assignments given the same id, type and value: unequal as
      written, equal as intended. */
  lemma AssignmentEqualsFinding()
    ensures var a := SetValue(SetAttributeId(NewAssignment(1), Some("urn:id")), Some("v"));
            var b := SetValue(SetAttributeId(NewAssignment(2), Some("urn:id")), Some("v"));
            !AssignmentEquals(a, Is(b)) && AssignmentEqualsIntended(a, Is(b))
  {
    var a := SetValue(SetAttributeId(NewAssignment(1), Some("urn:id")), Some("v"));
    var b := SetValue(SetAttributeId(NewAssignment(2), Some("urn:id")), Some("v"));
    assert a.attributeId == b.attributeId;
  }

  /** The intended equality is an equivalence on the field values of distinct
      objects: symmetric, and reflexive. */
  lemma AssignmentEqualsIntendedSymmetric(a: AttributeAssignment, b: AttributeAssignment)
    ensures AssignmentEqualsIntended(a, Is(a))
    ensures AssignmentEqualsIntended(a, Is(b)) <==> AssignmentEqualsIntended(b, Is(a))
  {
  }
}
