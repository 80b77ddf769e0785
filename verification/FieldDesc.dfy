/**
 * Introspection data: the recursive type-description printer and parser, and
 * the registry that lets a peer name a description by id after sending it once.
 */
module FieldDescs {
  import opened Wrappers
  import opened PvData

  const NULL_TYPE_CODE: byte := 0xFF
  const ONLY_ID_TYPE_CODE: byte := 0xFE
  const FULL_WITH_ID_CODE: byte := 0xFD

  datatype ScalarType =
    | Boolean | Byte | Short | Int | Long | UByte | UShort | UInt | ULong | Float | Double | String

  datatype FieldType =
    | Scalar(scalar: ScalarType)
    | ScalarArray(scalar: ScalarType)
    | BoundedString(bound: nat)
    | Structure
    | StructureArray
    | Union
    | UnionArray
    | VariantUnion
    | VariantUnionArray

  datatype FieldDesc = FieldDesc(fieldType: FieldType, typeId: seq<byte>, fields: seq<NamedField>)

  datatype NamedField = NamedField(name: seq<byte>, desc: FieldDesc)

  function Leaf(t: FieldType): FieldDesc {
    FieldDesc(t, [], [])
  }

  // -------------------------------------------------------------------------
  // The type-code table
  // -------------------------------------------------------------------------

  function ScalarToWire(s: ScalarType): (code: byte)
    ensures code < 0x80 && code / 8 % 2 == 0
  {
    match s
    case Boolean => 0x00
    case Byte => 0x20
    case Short => 0x21
    case Int => 0x22
    case Long => 0x23
    case UByte => 0x24
    case UShort => 0x25
    case UInt => 0x26
    case ULong => 0x27
    case Float => 0x42
    case Double => 0x43
    case String => 0x60
  }

  function ScalarOfBase(base: byte): Option<ScalarType> {
    match base
    case 0x00 => Some(Boolean)
    case 0x20 => Some(Byte)
    case 0x21 => Some(Short)
    case 0x22 => Some(Int)
    case 0x23 => Some(Long)
    case 0x24 => Some(UByte)
    case 0x25 => Some(UShort)
    case 0x26 => Some(UInt)
    case 0x27 => Some(ULong)
    case 0x42 => Some(Float)
    case 0x43 => Some(Double)
    case 0x60 => Some(String)
    case _ => None
  }

  /** Code of a type with members; the code alone tells which. */
  function CompositeCode(t: FieldType): Option<byte> {
    match t
    case Structure => Some(0x80)
    case StructureArray => Some(0x88)
    case Union => Some(0x82)
    case UnionArray => Some(0x8A)
    case _ => None
  }

  function CompositeOfCode(code: byte): Option<FieldType> {
    match code
    case 0x80 => Some(Structure)
    case 0x88 => Some(StructureArray)
    case 0x82 => Some(Union)
    case 0x8A => Some(UnionArray)
    case _ => None
  }

  // -------------------------------------------------------------------------
  // Printing
  // -------------------------------------------------------------------------

  function Encode(order: ByteOrder, d: FieldDesc): (bytes: seq<byte>)
    ensures |bytes| > 0
    decreases d, 0
  {
    match d.fieldType
    case Scalar(s) => [ScalarToWire(s)]
    case ScalarArray(s) => [ScalarToWire(s) + 0x08]
    case BoundedString(bound) => [0x86] + SizeBytes(order, bound)
    case VariantUnion => [0x81]
    case VariantUnionArray => [0x83]
    case _ =>
      [CompositeCode(d.fieldType).value] + StringBytes(order, d.typeId) + SizeBytes(order, |d.fields|)
      + EncodeFields(order, d.fields)
  }

  function EncodeFields(order: ByteOrder, fields: seq<NamedField>): seq<byte>
    decreases fields, 1
  {
    if fields == [] then []
    else StringBytes(order, fields[0].name) + Encode(order, fields[0].desc) + EncodeFields(order, fields[1..])
  }

  // -------------------------------------------------------------------------
  // Parsing
  // -------------------------------------------------------------------------

  /** A description nested in another: its id, if it carries one, is read and dropped. */
  function DecodeFull(order: ByteOrder, s: seq<byte>): (p: Parsed<FieldDesc>)
    ensures p.Got? ==> |p.rest| < |s|
    decreases |s|, 2
  {
    var (tag, s1) :- ParseU8(s);
    if tag == NULL_TYPE_CODE then Failed(Protocol(NestedNull))
    else if tag == ONLY_ID_TYPE_CODE then
      var (id, _) :- ParseI16(order, s1);
      Failed(Protocol(NestedOnlyId(id)))
    else if tag == FULL_WITH_ID_CODE then
      var (_, s2) :- ParseI16(order, s1);
      var (code, s3) :- ParseU8(s2);
      DecodeTypeCode(order, code, s3)
    else DecodeTypeCode(order, tag, s1)
  }

  function DecodeTypeCode(order: ByteOrder, code: byte, s: seq<byte>): (p: Parsed<FieldDesc>)
    ensures p.Got? ==> |p.rest| <= |s|
    decreases |s|, 1
  {
    if code >= 0x80 then DecodeComplexType(order, code, s)
    else
      var isArray := code / 8 % 2 != 0;
      var base := if isArray then code - 0x08 else code;
      var scalar := ScalarOfBase(base);
      if scalar.None? then Failed(UnknownTypeCode(code))
      else if isArray then Got(Leaf(ScalarArray(scalar.value)), s)
      else Got(Leaf(Scalar(scalar.value)), s)
  }

  function DecodeComplexType(order: ByteOrder, code: byte, s: seq<byte>): (p: Parsed<FieldDesc>)
    ensures p.Got? ==> |p.rest| <= |s|
    decreases |s|, 0
  {
    var composite := CompositeOfCode(code);
    if composite.Some? then
      var (typeId, s1) :- ParseString(order, s);
      var (count, s2) :- ParseSizeNonNull(order, s1);
      var (fields, s3) :- DecodeFields(order, count, s2);
      Got(FieldDesc(composite.value, typeId, fields), s3)
    else if code == 0x86 then
      var (bound, s1) :- ParseSizeNonNull(order, s);
      Got(Leaf(BoundedString(bound)), s1)
    else if code == 0x81 then Got(Leaf(VariantUnion), s)
    else if code == 0x83 || code == 0x89 then Got(Leaf(VariantUnionArray), s)
    else Failed(UnknownTypeCode(code))
  }

  function DecodeFields(order: ByteOrder, count: nat, s: seq<byte>): (p: Parsed<seq<NamedField>>)
    ensures p.Got? ==> |p.rest| <= |s| && |p.value| == count
    decreases |s|, 3
  {
    if count == 0 then Got([], s)
    else
      var (name, s1) :- ParseString(order, s);
      var (desc, s2) :- DecodeFull(order, s1);
      var (fields, s3) :- DecodeFields(order, count - 1, s2);
      Got([NamedField(name, desc)] + fields, s3)
  }

  // -------------------------------------------------------------------------
  // The descriptions the code can carry
  // -------------------------------------------------------------------------

  predicate IsComposite(t: FieldType) {
    CompositeCode(t).Some?
  }

  predicate WellFormedText(s: seq<byte>) {
    Utf8(s) && |s| < 0x8000_0000
  }

  /** Leaf kinds carry nothing else, texts are UTF-8 and every length fits a signed 32-bit size. */
  predicate WellFormed(d: FieldDesc)
    decreases d, 0
  {
    if IsComposite(d.fieldType) then
      WellFormedText(d.typeId) && |d.fields| < 0x8000_0000 && WellFormedFields(d.fields)
    else
      d.typeId == [] && d.fields == [] && (d.fieldType.BoundedString? ==> d.fieldType.bound < 0x8000_0000)
  }

  predicate WellFormedFields(fields: seq<NamedField>)
    decreases fields, 1
  {
    fields == []
    || (WellFormedText(fields[0].name) && WellFormed(fields[0].desc) && WellFormedFields(fields[1..]))
  }

  lemma DecodeTagged(order: ByteOrder, tag: byte, s: seq<byte>)
    requires tag < FULL_WITH_ID_CODE
    ensures DecodeFull(order, [tag] + s) == DecodeTypeCode(order, tag, s)
  {
    assert ([tag] + s)[1..] == s;
  }

  lemma {:induction false} DecodeComposite(
      order: ByteOrder, d: FieldDesc, s: seq<byte>, s1: seq<byte>, s2: seq<byte>, rest: seq<byte>)
    requires IsComposite(d.fieldType)
    requires ParseString(order, s) == Got(d.typeId, s1)
    requires ParseSizeNonNull(order, s1) == Got(|d.fields|, s2)
    requires DecodeFields(order, |d.fields|, s2) == Got(d.fields, rest)
    ensures DecodeTypeCode(order, CompositeCode(d.fieldType).value, s) == Got(d, rest)
  {
    hide ParseString, ParseSizeNonNull, DecodeFields;
  }

  lemma {:induction false} DecodeField(
      order: ByteOrder, fields: seq<NamedField>, s: seq<byte>, s1: seq<byte>, s2: seq<byte>, rest: seq<byte>)
    requires fields != []
    requires ParseString(order, s) == Got(fields[0].name, s1)
    requires DecodeFull(order, s1) == Got(fields[0].desc, s2)
    requires DecodeFields(order, |fields| - 1, s2) == Got(fields[1..], rest)
    ensures DecodeFields(order, |fields|, s) == Got(fields, rest)
  {
    hide ParseString, DecodeFull;
    assert [fields[0]] + fields[1..] == fields;
  }

  /** The type-code table read both ways. */
  lemma ScalarCodes(s: ScalarType)
    ensures ScalarOfBase(ScalarToWire(s)) == Some(s)
  {
  }

  lemma DecodeScalar(order: ByteOrder, s: ScalarType, rest: seq<byte>)
    ensures DecodeTypeCode(order, ScalarToWire(s), rest) == Got(Leaf(Scalar(s)), rest)
    ensures DecodeTypeCode(order, ScalarToWire(s) + 0x08, rest) == Got(Leaf(ScalarArray(s)), rest)
  {
    hide ScalarToWire, ScalarOfBase;
    ScalarCodes(s);
    var code := ScalarToWire(s);
    assert (code + 0x08) / 8 == code / 8 + 1;
  }

  lemma {:induction false} DecodeEncodedLeaf(order: ByteOrder, d: FieldDesc, rest: seq<byte>)
    requires WellFormed(d) && !IsComposite(d.fieldType)
    ensures DecodeFull(order, Encode(order, d) + rest) == Got(d, rest)
  {
    hide ParseSizeNonNull, SizeBytes, ScalarToWire, DecodeFull, DecodeTypeCode;
    var bytes := Encode(order, d);
    var tail := bytes[1..] + rest;
    assert bytes + rest == [bytes[0]] + tail;
    EncodeTag(order, d);
    DecodeTagged(order, bytes[0], tail);
    if d.fieldType.BoundedString? {
      assert bytes[1..] == SizeBytes(order, d.fieldType.bound);
      SizeRoundTrip(order, d.fieldType.bound, rest);
      DecodeBound(order, d.fieldType.bound, tail, rest);
    } else {
      assert tail == rest;
      if d.fieldType.Scalar? || d.fieldType.ScalarArray? {
        DecodeScalar(order, d.fieldType.scalar, rest);
      } else {
        DecodeVariant(order, rest);
      }
    }
  }

  lemma DecodeBound(order: ByteOrder, bound: nat, s: seq<byte>, rest: seq<byte>)
    requires ParseSizeNonNull(order, s) == Got(bound, rest)
    ensures DecodeTypeCode(order, 0x86, s) == Got(Leaf(BoundedString(bound)), rest)
  {
    hide ParseSizeNonNull;
  }

  lemma DecodeVariant(order: ByteOrder, s: seq<byte>)
    ensures DecodeTypeCode(order, 0x81, s) == Got(Leaf(VariantUnion), s)
    ensures DecodeTypeCode(order, 0x83, s) == Got(Leaf(VariantUnionArray), s)
    ensures DecodeTypeCode(order, 0x89, s) == Got(Leaf(VariantUnionArray), s)
  {
  }

  /** Printing a well-formed description and parsing it back leaves exactly what followed it. */
  lemma {:induction false} DecodeEncoded(order: ByteOrder, d: FieldDesc, rest: seq<byte>)
    requires WellFormed(d)
    ensures DecodeFull(order, Encode(order, d) + rest) == Got(d, rest)
    decreases d, 0
  {
    hide ParseString, ParseSizeNonNull, StringBytes, SizeBytes, Utf8, DecodeFull, DecodeTypeCode, DecodeFields;
    if !IsComposite(d.fieldType) {
      DecodeEncodedLeaf(order, d, rest);
    } else {
      var code := CompositeCode(d.fieldType).value;
      var s3 := EncodeFields(order, d.fields) + rest;
      var s2 := SizeBytes(order, |d.fields|) + s3;
      var s1 := StringBytes(order, d.typeId) + s2;
      assert Encode(order, d) + rest == [code] + s1;
      DecodeTagged(order, code, s1);
      StringRoundTrip(order, d.typeId, s2);
      SizeRoundTrip(order, |d.fields|, s3);
      DecodeEncodedFields(order, d.fields, rest);
      DecodeComposite(order, d, s1, s2, s3, rest);
    }
  }

  lemma {:induction false} DecodeEncodedFields(order: ByteOrder, fields: seq<NamedField>, rest: seq<byte>)
    requires WellFormedFields(fields)
    ensures DecodeFields(order, |fields|, EncodeFields(order, fields) + rest) == Got(fields, rest)
    decreases fields, 1
  {
    hide ParseString, StringBytes, Encode, Utf8, DecodeFull;
    if fields == [] {
      assert EncodeFields(order, fields) + rest == rest;
    } else {
      var f := fields[0];
      var s2 := EncodeFields(order, fields[1..]) + rest;
      var s1 := Encode(order, f.desc) + s2;
      var s := StringBytes(order, f.name) + s1;
      assert EncodeFields(order, fields) + rest == s;
      StringRoundTrip(order, f.name, s1);
      DecodeEncoded(order, f.desc, s2);
      DecodeEncodedFields(order, fields[1..], rest);
      DecodeField(order, fields, s, s1, s2, rest);
    }
  }

  /** Whatever the parser accepts is well-formed. */
  lemma {:induction false} DecodedIsWellFormed(order: ByteOrder, s: seq<byte>)
    ensures var p := DecodeFull(order, s);
      p.Got? ==> WellFormed(p.value)
    decreases |s|, 2
  {
    if |s| > 0 {
      var s1 := s[1..];
      if s[0] != FULL_WITH_ID_CODE {
        DecodedTypeCodeIsWellFormed(order, s[0], s1);
      } else if |s1| > 2 {
        DecodedTypeCodeIsWellFormed(order, s1[2..][0], s1[2..][1..]);
      }
    }
  }

  lemma {:induction false} DecodedTypeCodeIsWellFormed(order: ByteOrder, code: byte, s: seq<byte>)
    ensures var p := DecodeTypeCode(order, code, s);
      p.Got? ==> WellFormed(p.value)
    decreases |s|, 1
  {
    hide ParseString, ParseSizeNonNull, DecodeFields, Utf8;
    if code >= 0x80 && CompositeOfCode(code).Some? {
      var typeId := ParseString(order, s);
      if typeId.Got? {
        var count := ParseSizeNonNull(order, typeId.rest);
        if count.Got? {
          DecodedFieldsAreWellFormed(order, count.value, count.rest);
        }
      }
    }
  }

  lemma {:induction false} DecodedFieldsAreWellFormed(order: ByteOrder, count: nat, s: seq<byte>)
    ensures var p := DecodeFields(order, count, s);
      p.Got? ==> WellFormedFields(p.value)
    decreases |s|, 3
  {
    hide ParseString, DecodeFull, Utf8, WellFormed;
    if count > 0 {
      var name := ParseString(order, s);
      if name.Got? {
        DecodedIsWellFormed(order, name.rest);
        var desc := DecodeFull(order, name.rest);
        if desc.Got? {
          DecodedFieldsAreWellFormed(order, count - 1, desc.rest);
        }
      }
    }
  }

  /** The code is faithful to exactly the well-formed descriptions. */
  lemma RoundTripIffWellFormed(order: ByteOrder, d: FieldDesc, rest: seq<byte>)
    ensures DecodeFull(order, Encode(order, d) + rest) == Got(d, rest) <==> WellFormed(d)
  {
    DecodedIsWellFormed(order, Encode(order, d) + rest);
    if WellFormed(d) {
      DecodeEncoded(order, d, rest);
    }
  }

  /** The code is self-delimiting, hence injective: no encoding is a prefix of another's. */
  lemma SelfDelimiting(order: ByteOrder, d1: FieldDesc, rest1: seq<byte>, d2: FieldDesc, rest2: seq<byte>)
    requires WellFormed(d1) && WellFormed(d2)
    requires Encode(order, d1) + rest1 == Encode(order, d2) + rest2
    ensures d1 == d2 && rest1 == rest2
  {
    DecodeEncoded(order, d1, rest1);
    DecodeEncoded(order, d2, rest2);
  }

  /** Re-encoding an accepted description gives bytes that mean the same description. */
  lemma ReencodingIsStable(order: ByteOrder, s: seq<byte>, rest: seq<byte>)
    ensures var p := DecodeFull(order, s);
      p.Got? ==> DecodeFull(order, Encode(order, p.value) + rest) == Got(p.value, rest)
  {
    DecodedIsWellFormed(order, s);
    var p := DecodeFull(order, s);
    if p.Got? {
      DecodeEncoded(order, p.value, rest);
    }
  }

  // -------------------------------------------------------------------------
  // The registry and the top-level tags
  // -------------------------------------------------------------------------

  type Known = map<i16, FieldDesc>

  /** A full registry drops every registration, even one that would only replace an entry. */
  function Registered(known: Known, maxEntries: nat, id: i16, d: FieldDesc): (known': Known)
    ensures |known| <= maxEntries ==> |known'| <= maxEntries
  {
    if |known| >= maxEntries then known
    else
      assert known[id := d].Keys == known.Keys + {id};
      known[id := d]
  }

  datatype Received = Received(result: Parsed<Option<FieldDesc>>, known: Known)

  /** One top-level description: absent, a reference, a definition or a description in full. */
  function Decode(order: ByteOrder, known: Known, maxEntries: nat, s: seq<byte>): (r: Received)
    ensures r.result.Got? ==> |r.result.rest| < |s|
    ensures |known| <= maxEntries ==> |r.known| <= maxEntries
  {
    match ParseU8(s)
    case Failed(e) => Received(Failed(e), known)
    case Got(tag, s1) =>
      if tag == NULL_TYPE_CODE then Received(Got(None, s1), known)
      else if tag == ONLY_ID_TYPE_CODE then
        match ParseI16(order, s1)
        case Failed(e) => Received(Failed(e), known)
        case Got(id, s2) =>
          Received(if id in known then Got(Some(known[id]), s2) else Failed(Protocol(UnknownId(id))), known)
      else if tag == FULL_WITH_ID_CODE then
        match ParseI16(order, s1)
        case Failed(e) => Received(Failed(e), known)
        case Got(id, s2) =>
          match DecodeFull(order, s2)
          case Failed(e) => Received(Failed(e), known)
          case Got(d, s3) => Received(Got(Some(d), s3), Registered(known, maxEntries, id, d))
      else
        match DecodeTypeCode(order, tag, s1)
        case Failed(e) => Received(Failed(e), known)
        case Got(d, s2) => Received(Got(Some(d), s2), known)
  }

  // -------------------------------------------------------------------------
  // The grammar on raw bytes
  // -------------------------------------------------------------------------

  /** The twelve scalar codes; the array of a scalar has its code and 8 more. */
  lemma ScalarCodesOnBytes(order: ByteOrder, code: byte, s: seq<byte>)
    requires code < 0x80
    ensures var scalars: map<int, ScalarType> :=
        map[0x00 := Boolean, 0x20 := Byte, 0x21 := Short, 0x22 := Int, 0x23 := Long, 0x24 := UByte, 0x25 := UShort,
            0x26 := UInt, 0x27 := ULong, 0x42 := Float, 0x43 := Double, 0x60 := String];
      && (code in scalars ==> DecodeTypeCode(order, code, s) == Got(Leaf(Scalar(scalars[code])), s))
      && (code - 8 in scalars ==> DecodeTypeCode(order, code, s) == Got(Leaf(ScalarArray(scalars[code - 8])), s))
      && (code !in scalars && code - 8 !in scalars ==>
            DecodeTypeCode(order, code, s) == Failed(UnknownTypeCode(code)))
  {
  }

  /** The codes of the other types; 0x83 and 0x89 both mean an array of variant unions, and 0x83 is printed. */
  lemma OtherCodesOnBytes(order: ByteOrder, code: byte, s: seq<byte>, bound: nat, rest: seq<byte>)
    requires code >= 0x80
    ensures code == 0x81 ==> DecodeTypeCode(order, code, s) == Got(Leaf(VariantUnion), s)
    ensures code == 0x83 || code == 0x89 ==> DecodeTypeCode(order, code, s) == Got(Leaf(VariantUnionArray), s)
    ensures code == 0x86 && ParseSizeNonNull(order, s) == Got(bound, rest) ==>
      DecodeTypeCode(order, code, s) == Got(Leaf(BoundedString(bound)), rest)
    ensures code == 0x86 && ParseSizeNonNull(order, s).Failed? ==>
      DecodeTypeCode(order, code, s) == Failed(ParseSizeNonNull(order, s).error)
    ensures code !in {0x80, 0x81, 0x82, 0x83, 0x86, 0x88, 0x89, 0x8A} ==>
      DecodeTypeCode(order, code, s) == Failed(UnknownTypeCode(code))
    ensures Encode(order, Leaf(VariantUnionArray)) == [0x83]
  {
  }

  /** A structure, a union or an array of these: a type id, a count, and as many names and descriptions. */
  lemma CompositesOnBytes(order: ByteOrder, code: byte, s: seq<byte>, typeId: seq<byte>, s1: seq<byte>, count: nat,
                          s2: seq<byte>)
    requires code in {0x80, 0x82, 0x88, 0x8A}
    ensures var fieldType := if code == 0x80 then Structure else if code == 0x82 then Union
                             else if code == 0x88 then StructureArray else UnionArray;
      && (ParseString(order, s).Failed? ==> DecodeTypeCode(order, code, s) == Failed(ParseString(order, s).error))
      && (ParseString(order, s) == Got(typeId, s1) && ParseSizeNonNull(order, s1).Failed? ==>
            DecodeTypeCode(order, code, s) == Failed(ParseSizeNonNull(order, s1).error))
      && (ParseString(order, s) == Got(typeId, s1) && ParseSizeNonNull(order, s1) == Got(count, s2) ==>
            match DecodeFields(order, count, s2)
            case Got(fields, rest) =>
              DecodeTypeCode(order, code, s) == Got(FieldDesc(fieldType, typeId, fields), rest)
            case Failed(e) => DecodeTypeCode(order, code, s) == Failed(e))
  {
  }

  /** Fields are read one after another, a name before its description, and the first error ends it. */
  lemma {:induction false} FieldsInTurn(order: ByteOrder, n: nat, m: nat, s: seq<byte>)
    ensures match DecodeFields(order, n, s)
      case Failed(e) => DecodeFields(order, n + m, s) == Failed(e)
      case Got(first, rest) =>
        match DecodeFields(order, m, rest)
        case Failed(e) => DecodeFields(order, n + m, s) == Failed(e)
        case Got(later, rest') => DecodeFields(order, n + m, s) == Got(first + later, rest')
    decreases n
  {
    hide ParseString, DecodeFull;
    if n == 0 {
      var p := DecodeFields(order, m, s);
      assert p.Got? ==> [] + p.value == p.value;
    } else {
      var name := ParseString(order, s);
      if name.Got? && DecodeFull(order, name.rest).Got? {
        var desc := DecodeFull(order, name.rest);
        FieldsInTurn(order, n - 1, m, desc.rest);
        var f, first := [NamedField(name.value, desc.value)], DecodeFields(order, n - 1, desc.rest);
        if first.Got? && DecodeFields(order, m, first.rest).Got? {
          var later := DecodeFields(order, m, first.rest).value;
          assert f + (first.value + later) == f + first.value + later;
        }
      }
    }
  }

  lemma OneFieldOnBytes(order: ByteOrder, s: seq<byte>, name: seq<byte>, s1: seq<byte>)
    ensures ParseString(order, s).Failed? ==> DecodeFields(order, 1, s) == Failed(ParseString(order, s).error)
    ensures ParseString(order, s) == Got(name, s1) ==>
      match DecodeFull(order, s1)
      case Failed(e) => DecodeFields(order, 1, s) == Failed(e)
      case Got(d, rest) => DecodeFields(order, 1, s) == Got([NamedField(name, d)], rest)
  {
    hide ParseString, DecodeFull;
    assert forall rest :: DecodeFields(order, 0, rest) == Got([], rest);
    assert forall f: NamedField :: [f] + [] == [f];
  }

  /** A nested description: no tag, the null tag and the tag of a reference are errors; any other is a type code. */
  lemma NestedOnBytes(order: ByteOrder, code: byte, a: byte, b: byte, s: seq<byte>)
    ensures DecodeFull(order, []) == Failed(UnexpectedEnd(1, 0))
    ensures DecodeFull(order, [0xFF] + s) == Failed(Protocol(NestedNull))
    ensures DecodeFull(order, [0xFE, a, b] + s) == Failed(Protocol(NestedOnlyId(I16Of(order, [a, b]))))
    ensures |s| < 2 ==> DecodeFull(order, [0xFE] + s) == Failed(UnexpectedEnd(2, |s|))
    ensures code < 0xFD ==> DecodeFull(order, [code] + s) == DecodeTypeCode(order, code, s)
  {
    hide DecodeTypeCode, I16Of;
    assert ([0xFF] + s)[1..] == s && ([0xFE] + s)[1..] == s && ([code] + s)[1..] == s;
    assert ([0xFE, a, b] + s)[1..][..2] == [a, b];
  }

  /**
   * A nested description with an id is the description behind the id, whatever the id; a tag
   * behind the id is an error.
   */
  lemma NestedIdIsDropped(order: ByteOrder, a: byte, b: byte, s: seq<byte>)
    ensures |s| < 2 ==> DecodeFull(order, [0xFD] + s) == Failed(UnexpectedEnd(2, |s|))
    ensures s == [] || s[0] < 0xFD ==> DecodeFull(order, [0xFD, a, b] + s) == DecodeFull(order, s)
    ensures s != [] && s[0] >= 0xFD ==> DecodeFull(order, [0xFD, a, b] + s) == Failed(UnknownTypeCode(s[0]))
  {
    hide DecodeTypeCode, I16Of;
    assert ([0xFD] + s)[1..] == s;
    assert ([0xFD, a, b] + s)[1..][2..] == s;
    if s != [] && s[0] >= 0xFD {
      OtherCodesOnBytes(order, s[0], s[1..], 0, []);
    }
  }

  /** A top-level description by its tag: absent, a reference, a definition, or a description in full. */
  lemma DecodeOnBytes(order: ByteOrder, known: Known, maxEntries: nat, code: byte, a: byte, b: byte, s: seq<byte>)
    ensures Decode(order, known, maxEntries, []) == Received(Failed(UnexpectedEnd(1, 0)), known)
    ensures Decode(order, known, maxEntries, [0xFF] + s) == Received(Got(None, s), known)
    ensures |s| < 2 && code in {0xFD, 0xFE} ==>
      Decode(order, known, maxEntries, [code] + s) == Received(Failed(UnexpectedEnd(2, |s|)), known)
    ensures var id := I16Of(order, [a, b]);
      Decode(order, known, maxEntries, [0xFE, a, b] + s)
        == Received(if id in known then Got(Some(known[id]), s) else Failed(Protocol(UnknownId(id))), known)
    ensures match DecodeFull(order, s)
      case Failed(e) => Decode(order, known, maxEntries, [0xFD, a, b] + s) == Received(Failed(e), known)
      case Got(d, rest) =>
        Decode(order, known, maxEntries, [0xFD, a, b] + s)
          == Received(Got(Some(d), rest), if |known| < maxEntries then known[I16Of(order, [a, b]) := d] else known)
    ensures code < 0xFD ==>
      match DecodeTypeCode(order, code, s)
      case Failed(e) => Decode(order, known, maxEntries, [code] + s) == Received(Failed(e), known)
      case Got(d, rest) => Decode(order, known, maxEntries, [code] + s) == Received(Got(Some(d), rest), known)
  {
    hide DecodeFull, DecodeTypeCode, I16Of;
    assert ([0xFF] + s)[1..] == s && ([code] + s)[1..] == s;
    var reference, definition := [0xFE, a, b] + s, [0xFD, a, b] + s;
    assert reference[1..][..2] == [a, b] && reference[1..][2..] == s;
    assert definition[1..][..2] == [a, b] && definition[1..][2..] == s;
  }

  // -------------------------------------------------------------------------
  // Caching is transparent
  // -------------------------------------------------------------------------

  /** What a peer may send in place of a description. */
  datatype Message = Absent | Reference(id: i16) | Definition(id: i16, desc: FieldDesc) | InFull(desc: FieldDesc)

  function MessageBytes(order: ByteOrder, m: Message): seq<byte> {
    match m
    case Absent => [NULL_TYPE_CODE]
    case Reference(id) => [ONLY_ID_TYPE_CODE] + I16Bytes(order, id)
    case Definition(id, d) => [FULL_WITH_ID_CODE] + I16Bytes(order, id) + Encode(order, d)
    case InFull(d) => Encode(order, d)
  }

  function StreamBytes(order: ByteOrder, ms: seq<Message>): seq<byte> {
    if ms == [] then [] else MessageBytes(order, ms[0]) + StreamBytes(order, ms[1..])
  }

  /** The sender's dictionary, which forgets nothing and replaces freely. */
  function Learned(dict: Known, m: Message): Known {
    if m.Definition? then dict[m.id := m.desc] else dict
  }

  /** Every reference is to an id defined before it, and every description can be written. */
  predicate Lawful(dict: Known, ms: seq<Message>)
    decreases |ms|
  {
    ms != [] ==>
      && (ms[0].Reference? ==> ms[0].id in dict)
      && (ms[0].Definition? || ms[0].InFull? ==> WellFormed(ms[0].desc))
      && Lawful(Learned(dict, ms[0]), ms[1..])
  }

  function Meaning(dict: Known, m: Message): Option<FieldDesc>
    requires m.Reference? ==> m.id in dict
  {
    match m
    case Absent => None
    case Reference(id) => Some(dict[id])
    case Definition(_, d) => Some(d)
    case InFull(d) => Some(d)
  }

  function Meanings(dict: Known, ms: seq<Message>): seq<Option<FieldDesc>>
    requires Lawful(dict, ms)
    decreases |ms|
  {
    if ms == [] then [] else [Meaning(dict, ms[0])] + Meanings(Learned(dict, ms[0]), ms[1..])
  }

  /** The same stream with no ids: every reference and definition written in full. */
  function WithoutIds(dict: Known, ms: seq<Message>): seq<Message>
    requires Lawful(dict, ms)
    decreases |ms|
  {
    if ms == [] then []
    else
      var meaning := Meaning(dict, ms[0]);
      [if meaning.None? then Absent else InFull(meaning.value)] + WithoutIds(Learned(dict, ms[0]), ms[1..])
  }

  function DefinedIds(ms: seq<Message>): set<i16> {
    set m | m in ms && m.Definition? :: m.id
  }

  /** Decode a given number of messages, threading the registry through them. */
  function DecodeStream(order: ByteOrder, known: Known, maxEntries: nat, count: nat, s: seq<byte>)
    : Parsed<seq<Option<FieldDesc>>>
    decreases count
  {
    if count == 0 then Got([], s)
    else
      var first := Decode(order, known, maxEntries, s);
      match first.result
      case Failed(e) => Failed(e)
      case Got(d, s1) =>
        var (ds, s2) :- DecodeStream(order, first.known, maxEntries, count - 1, s1);
        Got([d] + ds, s2)
  }

  lemma {:induction false} DecodeEncodedInFull(
      order: ByteOrder, known: Known, maxEntries: nat, d: FieldDesc, rest: seq<byte>)
    requires WellFormed(d)
    ensures Decode(order, known, maxEntries, Encode(order, d) + rest) == Received(Got(Some(d), rest), known)
  {
    hide Encode, DecodeTypeCode, WellFormed;
    var bytes := Encode(order, d);
    assert bytes[0] < FULL_WITH_ID_CODE by {
      EncodeTag(order, d);
    }
    assert bytes + rest == [bytes[0]] + (bytes[1..] + rest);
    DecodeTagged(order, bytes[0], bytes[1..] + rest);
    DecodeEncoded(order, d, rest);
  }

  lemma EncodeTag(order: ByteOrder, d: FieldDesc)
    ensures Encode(order, d)[0] < FULL_WITH_ID_CODE
  {
  }

  lemma {:induction false} ParseEncodedId(order: ByteOrder, id: i16, rest: seq<byte>)
    ensures ParseI16(order, I16Bytes(order, id) + rest) == Got(id, rest)
  {
    assert (I16Bytes(order, id) + rest)[..2] == I16Bytes(order, id);
    I16RoundTrip(order, id);
  }

  /** One message through the registry: what it means there, and what the registry then knows. */
  lemma {:induction false} DecodeMessage(
      order: ByteOrder, known: Known, maxEntries: nat, m: Message, rest: seq<byte>)
    requires m.Reference? ==> m.id in known
    requires m.Definition? || m.InFull? ==> WellFormed(m.desc)
    ensures Decode(order, known, maxEntries, MessageBytes(order, m) + rest)
         == Received(Got(Meaning(known, m), rest),
                     if m.Definition? then Registered(known, maxEntries, m.id, m.desc) else known)
  {
    hide Encode, DecodeFull, DecodeTypeCode, WellFormed, Registered, I16Bytes, ParseI16;
    var wire := MessageBytes(order, m) + rest;
    match m
    case Absent =>
      assert wire[1..] == rest;
    case Reference(id) =>
      assert wire[1..] == I16Bytes(order, id) + rest;
      ParseEncodedId(order, id, rest);
    case Definition(id, d) =>
      assert wire[1..] == I16Bytes(order, id) + (Encode(order, d) + rest);
      ParseEncodedId(order, id, Encode(order, d) + rest);
      DecodeEncoded(order, d, rest);
    case InFull(d) =>
      DecodeEncodedInFull(order, known, maxEntries, d, rest);
  }

  /** With room for every id that is ever defined, the registry is the sender's dictionary. */
  lemma {:induction false} DecodeStreamMeanings(
      order: ByteOrder, dict: Known, maxEntries: nat, ids: set<i16>, ms: seq<Message>, rest: seq<byte>)
    requires Lawful(dict, ms)
    requires dict.Keys <= ids && DefinedIds(ms) <= ids && |ids| < maxEntries
    ensures DecodeStream(order, dict, maxEntries, |ms|, StreamBytes(order, ms) + rest) == Got(Meanings(dict, ms), rest)
    decreases |ms|
  {
    hide Decode, MessageBytes, WellFormed;
    if ms == [] {
      assert StreamBytes(order, ms) + rest == rest;
    } else {
      var m, later := ms[0], StreamBytes(order, ms[1..]) + rest;
      assert StreamBytes(order, ms) + rest == MessageBytes(order, m) + later;
      DecodeMessage(order, dict, maxEntries, m, later);
      assert m.Definition? ==> m.id in DefinedIds(ms);
      assert |dict| <= |ids| by {
        SubsetCardinality(dict.Keys, ids);
      }
      DecodeStreamMeanings(order, Learned(dict, m), maxEntries, ids, ms[1..], rest);
    }
  }

  lemma SubsetCardinality<T>(a: set<T>, b: set<T>)
    requires a <= b
    ensures |a| <= |b|
  {
    assert b == a + (b - a);
  }

  lemma {:induction false} WithoutIdsMeansTheSame(dict: Known, ms: seq<Message>, dict': Known)
    requires Lawful(dict, ms)
    requires forall id | id in dict :: WellFormed(dict[id])
    ensures var plain := WithoutIds(dict, ms);
      && |plain| == |ms| && DefinedIds(plain) == {}
      && Lawful(dict', plain) && Meanings(dict', plain) == Meanings(dict, ms)
    decreases |ms|
  {
    if ms != [] {
      WithoutIdsMeansTheSame(Learned(dict, ms[0]), ms[1..], dict');
      var plain := WithoutIds(dict, ms);
      assert plain[1..] == WithoutIds(Learned(dict, ms[0]), ms[1..]);
      assert forall m | m in plain :: m == plain[0] || m in plain[1..];
    }
  }

  /**
   * A stream that defines every id before it refers to it, and fewer ids than
   * the registry holds, decodes to the descriptions it means; so does the stream
   * with every reference written in full.
   */
  lemma CachingIsTransparent(order: ByteOrder, maxEntries: nat, ms: seq<Message>, rest: seq<byte>)
    requires Lawful(map[], ms)
    requires |DefinedIds(ms)| < maxEntries
    ensures var plain := WithoutIds(map[], ms);
      && DecodeStream(order, map[], maxEntries, |ms|, StreamBytes(order, ms) + rest) == Got(Meanings(map[], ms), rest)
      && DecodeStream(order, map[], maxEntries, |ms|, StreamBytes(order, plain) + rest) == Got(Meanings(map[], ms), rest)
  {
    DecodeStreamMeanings(order, map[], maxEntries, DefinedIds(ms), ms, rest);
    WithoutIdsMeansTheSame(map[], ms, map[]);
    DecodeStreamMeanings(order, map[], maxEntries, {}, WithoutIds(map[], ms), rest);
  }

  /**
   * Why there must be room to spare: a reference that follows a definition of its
   * id yields that definition exactly when the registry was not full or already
   * held it.
   */
  lemma {:induction false} DefinitionThenReference(
      order: ByteOrder, known: Known, maxEntries: nat, id: i16, d: FieldDesc, rest: seq<byte>)
    requires WellFormed(d)
    ensures DecodeStream(order, known, maxEntries, 2, StreamBytes(order, [Definition(id, d), Reference(id)]) + rest)
            == Got([Some(d), Some(d)], rest)
      <==> |known| < maxEntries || (id in known && known[id] == d)
  {
    hide Decode, MessageBytes, WellFormed, Encode;
    var definition, reference := Definition(id, d), Reference(id);
    TwoMessages(order, definition, reference);
    var tail := MessageBytes(order, reference) + rest;
    assert StreamBytes(order, [definition, reference]) + rest == MessageBytes(order, definition) + tail;
    DecodeMessage(order, known, maxEntries, definition, tail);
    var after := Registered(known, maxEntries, id, d);
    if id in after {
      DecodeMessage(order, after, maxEntries, reference, rest);
      var second: seq<Option<FieldDesc>> := [Some(after[id])];
      assert second + [] == second;
      assert DecodeStream(order, after, maxEntries, 0, rest) == Got([], rest);
      assert DecodeStream(order, after, maxEntries, 1, tail) == Got(second, rest);
      assert [Some(d)] + [Some(after[id])] == [Some(d), Some(after[id])];
    } else {
      UnknownReference(order, after, maxEntries, id, rest);
    }
  }

  /**
   * A redefinition dropped by a registry of one entry: the id is defined as a double and
   * then as an int, and the reference that follows still yields the double.
   */
  lemma RedefinitionDropped(order: ByteOrder, rest: seq<byte>)
    ensures var double, int32 := Leaf(Scalar(Double)), Leaf(Scalar(Int));
      var ms := [Definition(1, double), Definition(1, int32), Reference(1)];
      && Lawful(map[], ms) && Meanings(map[], ms) == [Some(double), Some(int32), Some(int32)]
      && DecodeStream(order, map[], 1, 3, StreamBytes(order, ms) + rest)
        == Got([Some(double), Some(int32), Some(double)], rest)
  {
    hide Decode, MessageBytes, Encode;
    var double, int32 := Leaf(Scalar(Double)), Leaf(Scalar(Int));
    var first, second, third := Definition(1, double), Definition(1, int32), Reference(1);
    var ms: seq<Message> := [first, second, third];
    assert ms[1..] == [second, third] && ms[2..] == [third] && [third][1..] == [] && [second, third][1..] == [third];
    TwoMessages(order, second, third);
    var later, last := StreamBytes(order, [second, third]) + rest, MessageBytes(order, third) + rest;
    assert StreamBytes(order, ms) + rest == MessageBytes(order, first) + later;
    assert later == MessageBytes(order, second) + last;
    var known: Known, dict: Known := map[1 := double], map[1 := int32];
    assert Learned(map[], first) == known && Learned(known, second) == dict;
    assert Lawful(dict, [third]) && Lawful(known, [second, third]);
    assert Meanings(dict, [third]) == [Some(int32)] && Meanings(known, [second, third]) == [Some(int32)] + [Some(int32)];
    DecodeMessage(order, map[], 1, first, later);
    DecodeMessage(order, known, 1, second, last);
    DecodeMessage(order, known, 1, third, rest);
    assert Registered(map[], 1, 1, double) == known && Registered(known, 1, 1, int32) == known;
    var one, two: seq<Option<FieldDesc>> := [Some(double)], [Some(int32), Some(double)];
    assert DecodeStream(order, known, 1, 0, rest) == Got([], rest);
    assert one + [] == one && DecodeStream(order, known, 1, 1, last) == Got(one, rest);
    assert [Some(int32)] + one == two && DecodeStream(order, known, 1, 2, later) == Got(two, rest);
    assert [Some(double)] + two == [Some(double), Some(int32), Some(double)];
  }

  /** Whether some reference to the id comes before the next definition of it. */
  predicate ReferredTo(ms: seq<Message>, id: i16)
    decreases |ms|
  {
    ms != [] && (ms[0] == Reference(id) || (!(ms[0].Definition? && ms[0].id == id) && ReferredTo(ms[1..], id)))
  }

  /** Whether the registry holds this description under the id once the definition is registered. */
  predicate TakesEffect(known: Known, maxEntries: nat, id: i16, d: FieldDesc) {
    |known| < maxEntries || (id in known && known[id] == d)
  }

  /** No definition that is referred to afterwards arrives at a full registry that does not already hold it. */
  predicate NoneLost(known: Known, maxEntries: nat, ms: seq<Message>)
    decreases |ms|
  {
    ms == []
    || if ms[0].Definition?
       then (ReferredTo(ms[1..], ms[0].id) ==> TakesEffect(known, maxEntries, ms[0].id, ms[0].desc))
            && NoneLost(Registered(known, maxEntries, ms[0].id, ms[0].desc), maxEntries, ms[1..])
       else NoneLost(known, maxEntries, ms[1..])
  }

  /** Where the registry has to agree with the sender's dictionary from the start. */
  ghost predicate Agree(known: Known, dict: Known, ms: seq<Message>) {
    forall id | ReferredTo(ms, id) :: id in known && id in dict && known[id] == dict[id]
  }

  /** Agreement and NoneLost, one message on. */
  lemma OneMessageOn(known: Known, dict: Known, maxEntries: nat, ms: seq<Message>)
    requires ms != [] && Lawful(dict, ms)
    ensures var m := ms[0];
      var known' := if m.Definition? then Registered(known, maxEntries, m.id, m.desc) else known;
      Agree(known, dict, ms) && NoneLost(known, maxEntries, ms)
      <==> (m.Reference? ==> m.id in known && known[m.id] == dict[m.id])
           && Agree(known', Learned(dict, m), ms[1..]) && NoneLost(known', maxEntries, ms[1..])
  {
    var m, later := ms[0], ms[1..];
    if m.Definition? {
      assert forall id | id != m.id :: ReferredTo(ms, id) <==> ReferredTo(later, id);
      assert !ReferredTo(ms, m.id);
      assert TakesEffect(known, maxEntries, m.id, m.desc)
        <==> m.id in Registered(known, maxEntries, m.id, m.desc)
             && Registered(known, maxEntries, m.id, m.desc)[m.id] == m.desc;
    } else {
      assert forall id :: ReferredTo(ms, id) <==> m == Reference(id) || ReferredTo(later, id);
    }
  }

  /** A whole stream is understood exactly when every reference finds its latest definition. */
  lemma {:induction false} UnderstoodIffNoneLost(
      order: ByteOrder, known: Known, dict: Known, maxEntries: nat, ms: seq<Message>, rest: seq<byte>)
    requires Lawful(dict, ms)
    ensures DecodeStream(order, known, maxEntries, |ms|, StreamBytes(order, ms) + rest) == Got(Meanings(dict, ms), rest)
      <==> Agree(known, dict, ms) && NoneLost(known, maxEntries, ms)
    decreases |ms|
  {
    hide Decode, MessageBytes, WellFormed, Agree, NoneLost;
    if ms == [] {
      NothingLost(known, dict, maxEntries);
      assert StreamBytes(order, ms) + rest == rest;
    } else {
      var m, later := ms[0], StreamBytes(order, ms[1..]) + rest;
      assert StreamBytes(order, ms) + rest == MessageBytes(order, m) + later;
      OneMessageOn(known, dict, maxEntries, ms);
      if m.Reference? && m.id !in known {
        UnknownReference(order, known, maxEntries, m.id, later);
      } else {
        DecodeMessage(order, known, maxEntries, m, later);
        var known' := if m.Definition? then Registered(known, maxEntries, m.id, m.desc) else known;
        UnderstoodIffNoneLost(order, known', Learned(dict, m), maxEntries, ms[1..], rest);
        SameHeadAndTail(order, known', maxEntries, |ms| - 1, later, Meaning(known, m), Meanings(dict, ms), rest);
      }
    }
  }

  lemma NothingLost(known: Known, dict: Known, maxEntries: nat)
    ensures Agree(known, dict, []) && NoneLost(known, maxEntries, [])
  {
  }

  /** The list [first] + later is decoded exactly when its head and its tail are. */
  lemma SameHeadAndTail(order: ByteOrder, known: Known, maxEntries: nat, count: nat, s: seq<byte>,
                        first: Option<FieldDesc>, all: seq<Option<FieldDesc>>, rest: seq<byte>)
    requires all != []
    ensures var tail := DecodeStream(order, known, maxEntries, count, s);
      tail.Got? && [first] + tail.value == all && tail.rest == rest
      <==> first == all[0] && tail == Got(all[1..], rest)
  {
    hide DecodeStream;
    var tail := DecodeStream(order, known, maxEntries, count, s);
    if tail.Got? {
      assert ([first] + tail.value)[1..] == tail.value;
      assert all == [all[0]] + all[1..];
    }
  }

  /**
   * The exact condition for any lawful stream: caching gives what the stream with
   * every description in full gives if and only if no definition that is referred to
   * afterwards meets a full registry that does not hold it already.
   */
  lemma CachingIsTransparentIff(order: ByteOrder, maxEntries: nat, ms: seq<Message>, rest: seq<byte>)
    requires Lawful(map[], ms)
    ensures var plain := WithoutIds(map[], ms);
      DecodeStream(order, map[], maxEntries, |ms|, StreamBytes(order, ms) + rest)
        == DecodeStream(order, map[], maxEntries, |ms|, StreamBytes(order, plain) + rest)
      <==> NoneLost(map[], maxEntries, ms)
  {
    var plain := WithoutIds(map[], ms);
    WithoutIdsMeansTheSame(map[], ms, map[]);
    NothingIsDefined(map[], ms);
    NothingToLose(map[], map[], maxEntries, plain);
    UnderstoodIffNoneLost(order, map[], map[], maxEntries, plain, rest);
    UnderstoodIffNoneLost(order, map[], map[], maxEntries, ms, rest);
    LawfulAgrees(map[], map[], ms);
  }

  lemma {:induction false} NothingIsDefined(dict: Known, ms: seq<Message>)
    requires Lawful(dict, ms)
    ensures forall m | m in WithoutIds(dict, ms) :: !m.Definition?
    decreases |ms|
  {
    if ms != [] {
      NothingIsDefined(Learned(dict, ms[0]), ms[1..]);
    }
  }

  /** A stream without ids has nothing to lose. */
  lemma {:induction false} NothingToLose(known: Known, dict: Known, maxEntries: nat, ms: seq<Message>)
    requires (forall m | m in ms :: !m.Definition?) && Lawful(dict, ms) && forall id :: id !in dict
    ensures Agree(known, dict, ms) && NoneLost(known, maxEntries, ms)
    decreases |ms|
  {
    if ms != [] {
      assert forall m | m in ms[1..] :: m in ms;
      NothingToLose(known, dict, maxEntries, ms[1..]);
    }
  }

  /** A lawful stream refers to ids of the dictionary only, before it defines them itself. */
  lemma {:induction false} LawfulAgrees(known: Known, dict: Known, ms: seq<Message>)
    requires Lawful(dict, ms) && known == dict
    ensures Agree(known, dict, ms)
    decreases |ms|
  {
    if ms != [] {
      LawfulAgrees(Learned(dict, ms[0]), Learned(dict, ms[0]), ms[1..]);
    }
  }

  lemma TwoMessages(order: ByteOrder, m1: Message, m2: Message)
    ensures StreamBytes(order, [m1, m2]) == MessageBytes(order, m1) + MessageBytes(order, m2)
  {
    hide MessageBytes;
    assert [m1, m2][1..] == [m2] && [m2][1..] == [];
    assert StreamBytes(order, [m2]) == MessageBytes(order, m2) + [];
  }

  lemma {:induction false} UnknownReference(
      order: ByteOrder, known: Known, maxEntries: nat, id: i16, rest: seq<byte>)
    requires id !in known
    ensures Decode(order, known, maxEntries, MessageBytes(order, Reference(id)) + rest)
         == Received(Failed(Protocol(UnknownId(id))), known)
  {
    hide I16Bytes, ParseI16;
    assert (MessageBytes(order, Reference(id)) + rest)[1..] == I16Bytes(order, id) + rest;
    ParseEncodedId(order, id, rest);
  }

  // -------------------------------------------------------------------------
  // The cursor forms
  // -------------------------------------------------------------------------

  class IntrospectionRegistry {
    const maxEntries: nat
    var byId: Known

    constructor (maxEntries: nat)
      ensures this.maxEntries == maxEntries && byId == map[]
    {
      this.maxEntries := maxEntries;
      byId := map[];
    }

    method Register(id: i16, d: FieldDesc) returns (kept: bool)
      modifies this
      ensures byId == Registered(old(byId), maxEntries, id, d)
      ensures kept <==> |old(byId)| < maxEntries
    {
      if |byId| >= maxEntries {
        return false;
      }
      byId := byId[id := d];
      return true;
    }
  }

  function Prepend(fields: seq<NamedField>, p: Parsed<seq<NamedField>>): Parsed<seq<NamedField>> {
    match p
    case Got(later, rest) => Got(fields + later, rest)
    case Failed(e) => Failed(e)
  }

  lemma PrependNothing(p: Parsed<seq<NamedField>>)
    ensures Prepend([], p) == p
  {
    assert p.Got? ==> [] + p.value == p.value;
  }

  lemma PrependField(fields: seq<NamedField>, f: NamedField, p: Parsed<seq<NamedField>>)
    ensures Prepend(fields, Prepend([f], p)) == Prepend(fields + [f], p)
  {
    assert p.Got? ==> fields + ([f] + p.value) == fields + [f] + p.value;
  }

  method ReadFull(reader: PvaReader) returns (r: Result<FieldDesc, DecodeError>)
    requires reader.Valid()
    modifies reader
    ensures reader.Valid() && reader.pos >= old(reader.pos)
    ensures reader.Agrees(DecodeFull(reader.order, old(reader.Rest())), r)
    decreases |reader.buf| - reader.pos, 2
  {
    hide ParseI16;
    var tag :- reader.ReadU8();
    if tag == NULL_TYPE_CODE {
      return Err(Protocol(NestedNull));
    } else if tag == ONLY_ID_TYPE_CODE {
      var id :- reader.ReadI16();
      return Err(Protocol(NestedOnlyId(id)));
    } else if tag == FULL_WITH_ID_CODE {
      var _ :- reader.ReadI16();
      var code :- reader.ReadU8();
      r := ReadTypeCode(code, reader);
    } else {
      r := ReadTypeCode(tag, reader);
    }
  }

  method ReadTypeCode(code: byte, reader: PvaReader) returns (r: Result<FieldDesc, DecodeError>)
    requires reader.Valid()
    modifies reader
    ensures reader.Valid() && reader.pos >= old(reader.pos)
    ensures reader.Agrees(DecodeTypeCode(reader.order, code, old(reader.Rest())), r)
    decreases |reader.buf| - reader.pos, 1
  {
    hide ScalarOfBase, DecodeComplexType;
    if code >= 0x80 {
      r := ReadComplexType(code, reader);
      return;
    }
    var isArray := code / 8 % 2 != 0;
    var base := if isArray then code - 0x08 else code;
    var scalar := ScalarOfBase(base);
    if scalar.None? {
      return Err(UnknownTypeCode(code));
    }
    r := Ok(Leaf(if isArray then ScalarArray(scalar.value) else Scalar(scalar.value)));
  }

  method ReadComplexType(code: byte, reader: PvaReader) returns (r: Result<FieldDesc, DecodeError>)
    requires reader.Valid()
    modifies reader
    ensures reader.Valid() && reader.pos >= old(reader.pos)
    ensures reader.Agrees(DecodeComplexType(reader.order, code, old(reader.Rest())), r)
    decreases |reader.buf| - reader.pos, 0
  {
    hide ParseString, ParseSizeNonNull, DecodeFields, Utf8;
    var composite := CompositeOfCode(code);
    if composite.Some? {
      var typeId :- reader.ReadString();
      var count :- reader.ReadSizeNonNull();
      var fields :- ReadFields(count, reader);
      r := Ok(FieldDesc(composite.value, typeId, fields));
    } else if code == 0x86 {
      var bound :- reader.ReadSizeNonNull();
      r := Ok(Leaf(BoundedString(bound)));
    } else if code == 0x81 {
      r := Ok(Leaf(VariantUnion));
    } else if code == 0x83 || code == 0x89 {
      r := Ok(Leaf(VariantUnionArray));
    } else {
      r := Err(UnknownTypeCode(code));
    }
  }

  method ReadFields(count: nat, reader: PvaReader) returns (r: Result<seq<NamedField>, DecodeError>)
    requires reader.Valid()
    modifies reader
    ensures reader.Valid() && reader.pos >= old(reader.pos)
    ensures reader.Agrees(DecodeFields(reader.order, count, old(reader.Rest())), r)
    decreases |reader.buf| - reader.pos, 3
  {
    hide ParseString, DecodeFull, Utf8;
    ghost var whole := DecodeFields(reader.order, count, reader.Rest());
    var fields: seq<NamedField> := [];
    PrependNothing(whole);
    while |fields| < count
      invariant reader.Valid() && reader.pos >= old(reader.pos) && |fields| <= count
      invariant whole == Prepend(fields, DecodeFields(reader.order, count - |fields|, reader.Rest()))
    {
      ghost var left := count - |fields|;
      var name :- reader.ReadString();
      var desc :- ReadFull(reader);
      PrependField(fields, NamedField(name, desc), DecodeFields(reader.order, left - 1, reader.Rest()));
      fields := fields + [NamedField(name, desc)];
    }
    assert fields + [] == fields;
    r := Ok(fields);
  }

  method ReadDesc(reader: PvaReader, registry: IntrospectionRegistry)
      returns (r: Result<Option<FieldDesc>, DecodeError>)
    requires reader.Valid()
    modifies reader, registry
    ensures reader.Valid() && reader.pos >= old(reader.pos)
    ensures var received := Decode(reader.order, old(registry.byId), registry.maxEntries, old(reader.Rest()));
      reader.Agrees(received.result, r) && registry.byId == received.known
  {
    hide ParseI16, DecodeFull, DecodeTypeCode, Registered;
    var tag :- reader.ReadU8();
    if tag == NULL_TYPE_CODE {
      return Ok(None);
    } else if tag == ONLY_ID_TYPE_CODE {
      var id :- reader.ReadI16();
      return if id in registry.byId then Ok(Some(registry.byId[id])) else Err(Protocol(UnknownId(id)));
    } else if tag == FULL_WITH_ID_CODE {
      var id :- reader.ReadI16();
      var desc :- ReadFull(reader);
      var _ := registry.Register(id, desc);
      return Ok(Some(desc));
    }
    var desc :- ReadTypeCode(tag, reader);
    return Ok(Some(desc));
  }

  method WriteDesc(d: FieldDesc, writer: PvaWriter)
    modifies writer
    ensures writer.buf == old(writer.buf) + Encode(writer.order, d)
    decreases d, 0
  {
    hide StringBytes, SizeBytes, EncodeFields;
    match d.fieldType
    case Scalar(s) =>
      writer.WriteU8(ScalarToWire(s));
    case ScalarArray(s) =>
      writer.WriteU8(ScalarToWire(s) + 0x08);
    case BoundedString(bound) =>
      writer.WriteU8(0x86);
      writer.WriteSize(bound);
    case VariantUnion =>
      writer.WriteU8(0x81);
    case VariantUnionArray =>
      writer.WriteU8(0x83);
    case _ =>
      writer.WriteU8(CompositeCode(d.fieldType).value);
      writer.WriteString(d.typeId);
      writer.WriteSize(|d.fields|);
      WriteFields(d.fields, writer);
  }

  method WriteFields(fields: seq<NamedField>, writer: PvaWriter)
    modifies writer
    ensures writer.buf == old(writer.buf) + EncodeFields(writer.order, fields)
    decreases fields, 1
  {
    hide StringBytes, Encode;
    var i := 0;
    while i < |fields|
      invariant 0 <= i <= |fields|
      invariant writer.buf + EncodeFields(writer.order, fields[i..])
             == old(writer.buf) + EncodeFields(writer.order, fields)
    {
      ghost var later := EncodeFields(writer.order, fields[i + 1..]);
      ghost var name, desc := StringBytes(writer.order, fields[i].name), Encode(writer.order, fields[i].desc);
      assert fields[i..][0] == fields[i] && fields[i..][1..] == fields[i + 1..];
      ghost var before := writer.buf;
      writer.WriteString(fields[i].name);
      WriteDesc(fields[i].desc, writer);
      assert before + (name + desc + later) == before + name + desc + later;
      i := i + 1;
    }
  }
}
