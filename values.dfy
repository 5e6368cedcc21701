/**
  Dynamically typed values: a TypeValue is a type discriminant followed by one
  value of the codec the registry selects for it; a TypedCollection is a type
  discriminant, an 8-bit element count, and that many values of that codec.
 */
module Values {
  import opened Wire
  import opened Registry

  /** A discriminant and the integer value of its codec. */
  datatype TypeValue = TypeValue(typeId: byte, value: nat)

  /** A value fits the codec its discriminant selects. */
  predicate FitsType(typeId: byte, value: nat) {
    typeId in DataTypes && value < Pow256(WidthOf(typeId))
  }

  predicate WellTyped(tv: TypeValue) {
    FitsType(tv.typeId, tv.value)
  }

  /** The codec of a registered type applied to one value. */
  function EncodeValue(typeId: byte, value: nat): (r: seq<byte>)
    requires FitsType(typeId, value)
    ensures |r| == WidthOf(typeId)
  {
    EncodeLE(value, WidthOf(typeId))
  }

  /** One value of a registered type from the front of data. */
  function DecodeValue(typeId: byte, data: seq<byte>): (r: Result<(nat, seq<byte>)>)
    requires typeId in DataTypes
    ensures r.Err? <==> |data| < WidthOf(typeId)
    ensures r.Err? ==> r.error == InsufficientData
    ensures r.Ok? ==> FitsType(typeId, r.value.0)
                      && data == EncodeValue(typeId, r.value.0) + r.value.1
  {
    ReadUInt(data, WidthOf(typeId))
  }

  lemma DecodeValueEncoded(typeId: byte, value: nat, rest: seq<byte>)
    requires FitsType(typeId, value)
    ensures DecodeValue(typeId, EncodeValue(typeId, value) + rest) == Ok((value, rest))
  {
    ReadUIntEncoded(value, WidthOf(typeId), rest);
  }

  /** Discriminant byte, then the value's own encoding. */
  function EncodeTypeValue(tv: TypeValue): (r: seq<byte>)
    requires WellTyped(tv)
    ensures |r| == 1 + WidthOf(tv.typeId) && r[0] == tv.typeId
  {
    [tv.typeId] + EncodeValue(tv.typeId, tv.value)
  }

  /**
    Reads the discriminant, looks it up, and lets the selected codec read the
    value. Fails with UnknownType for an unregistered discriminant and with
    InsufficientData when the buffer ends first; on success the bytes it
    consumed are exactly the encoding of what it returns.
   */
  function DecodeTypeValue(data: seq<byte>): (r: Result<(TypeValue, seq<byte>)>)
    ensures r.Ok? ==> WellTyped(r.value.0) && data == EncodeTypeValue(r.value.0) + r.value.1
    ensures r == Err(UnknownType) <==> |data| > 0 && data[0] !in DataTypes
    ensures r == Err(InsufficientData) <==>
              |data| == 0 || (data[0] in DataTypes && |data| < 1 + WidthOf(data[0]))
  {
    var t :- ReadByte(data);
    if t.0 !in DataTypes then Err(UnknownType)
    else
      var v :- DecodeValue(t.0, t.1);
      Ok((TypeValue(t.0, v.0), v.1))
  }

  /** TypeValue round trip: same type, same value, remainder untouched. */
  lemma TypeValueRoundTrip(tv: TypeValue, rest: seq<byte>)
    requires WellTyped(tv)
    ensures DecodeTypeValue(EncodeTypeValue(tv) + rest) == Ok((tv, rest))
  {
    var data := EncodeTypeValue(tv) + rest;
    assert data[1..] == EncodeValue(tv.typeId, tv.value) + rest;
    DecodeValueEncoded(tv.typeId, tv.value, rest);
  }

  /** `TypeValue(type=0x20, value=uint8 99)` serializes to 20 63 and decodes back with nothing left. */
  lemma Uint8TypeValueExample()
    ensures WellTyped(TypeValue(0x20, 99))
    ensures EncodeTypeValue(TypeValue(0x20, 99)) == [0x20, 99]
    ensures DecodeTypeValue(EncodeTypeValue(TypeValue(0x20, 99))) == Ok((TypeValue(0x20, 99), []))
  {
    Pow256Small();
    TypeValueRoundTrip(TypeValue(0x20, 99), []);
    assert EncodeTypeValue(TypeValue(0x20, 99)) + [] == EncodeTypeValue(TypeValue(0x20, 99));
  }

  /** A list of values all fitting one registered type. */
  predicate AllFit(typeId: byte, values: seq<nat>) {
    typeId in DataTypes && forall i :: 0 <= i < |values| ==> values[i] < Pow256(WidthOf(typeId))
  }

  /** The bytes count elements of a registered type occupy: one width per element. */
  function ItemsSpan(typeId: byte, count: nat): nat
    requires typeId in DataTypes
  {
    if count == 0 then 0 else WidthOf(typeId) + ItemsSpan(typeId, count - 1)
  }

  /** The span is the count times the element width. */
  lemma {:induction false} ItemsSpanProduct(typeId: byte, count: nat)
    requires typeId in DataTypes
    ensures ItemsSpan(typeId, count) == count * WidthOf(typeId)
  {
    if count > 0 {
      ItemsSpanProduct(typeId, count - 1);
      assert count * WidthOf(typeId) == WidthOf(typeId) + (count - 1) * WidthOf(typeId);
    }
  }

  /** The concatenated encodings of the elements, in order. */
  function EncodeItems(typeId: byte, values: seq<nat>): (r: seq<byte>)
    requires AllFit(typeId, values)
    ensures |r| == ItemsSpan(typeId, |values|)
  {
    if values == [] then []
    else EncodeValue(typeId, values[0]) + EncodeItems(typeId, values[1..])
  }

  /** Exactly count values of a registered type, read one after the other. */
  function DecodeItems(typeId: byte, count: nat, data: seq<byte>): (r: Result<(seq<nat>, seq<byte>)>)
    requires typeId in DataTypes
    ensures r.Err? <==> |data| < ItemsSpan(typeId, count)
    ensures r.Err? ==> r.error == InsufficientData
    ensures r.Ok? ==> |r.value.0| == count && AllFit(typeId, r.value.0)
                      && data == EncodeItems(typeId, r.value.0) + r.value.1
    decreases count
  {
    if count == 0 then Ok(([], data))
    else
      match DecodeValue(typeId, data)
      case Err(e) => Err(e)
      case Ok(first) =>
        match DecodeItems(typeId, count - 1, first.1)
        case Err(e) => Err(e)
        case Ok(others) =>
          var values := [first.0] + others.0;
          assert values[1..] == others.0;
          Ok((values, others.1))
  }

  /** Reading back the elements' encodings returns the same ordered list. */
  lemma {:induction false} ItemsRoundTrip(typeId: byte, values: seq<nat>, rest: seq<byte>)
    requires AllFit(typeId, values)
    ensures DecodeItems(typeId, |values|, EncodeItems(typeId, values) + rest) == Ok((values, rest))
    decreases |values|
  {
    if values != [] {
      var head := EncodeValue(typeId, values[0]);
      var tail := EncodeItems(typeId, values[1..]) + rest;
      var data := EncodeItems(typeId, values) + rest;
      assert data == head + tail;
      DecodeValueEncoded(typeId, values[0], tail);
      assert DecodeValue(typeId, data) == Ok((values[0], tail));
      ItemsRoundTrip(typeId, values[1..], rest);
      assert DecodeItems(typeId, |values| - 1, tail) == Ok((values[1..], rest));
      assert [values[0]] + values[1..] == values;
    } else {
      assert EncodeItems(typeId, values) + rest == rest;
    }
  }

  /** A discriminant and the ordered elements of a count-prefixed list of that type. */
  datatype TypedCollection = TypedCollection(typeId: byte, values: seq<nat>)

  /** The count must fit in its single length byte. */
  predicate WellTypedCollection(tc: TypedCollection) {
    AllFit(tc.typeId, tc.values) && |tc.values| < 0x100
  }

  /**
    Type byte, count byte, then the elements: 1 + 1 + count times the
    element width bytes in all.
   */
  function EncodeCollection(tc: TypedCollection): (r: seq<byte>)
    requires WellTypedCollection(tc)
    ensures |r| == 2 + |tc.values| * WidthOf(tc.typeId)
    ensures r[0] == tc.typeId && r[1] == |tc.values|
  {
    var items := EncodeItems(tc.typeId, tc.values);
    var count: byte := |tc.values|;
    ItemsSpanProduct(tc.typeId, count);
    [tc.typeId, count] + items
  }

  /** The count byte, then exactly that many elements of the given type. */
  function DecodeCountedItems(typeId: byte, data: seq<byte>): (r: Result<(seq<nat>, seq<byte>)>)
    requires typeId in DataTypes
    ensures r.Ok? ==> && |r.value.0| < 0x100 && AllFit(typeId, r.value.0)
                      && data == [|r.value.0|] + EncodeItems(typeId, r.value.0) + r.value.1
  {
    var n :- ReadByte(data);
    var items :- DecodeItems(typeId, n.0, n.1);
    Ok(items)
  }

  /**
    Reads the discriminant, the count, then exactly that many elements; the
    bytes it consumed are exactly the encoding of what it returns.
   */
  function DecodeCollection(data: seq<byte>): (r: Result<(TypedCollection, seq<byte>)>)
    ensures r.Ok? ==> WellTypedCollection(r.value.0)
                      && data == EncodeCollection(r.value.0) + r.value.1
    ensures r == Err(UnknownType) <==> |data| > 0 && data[0] !in DataTypes
  {
    var t :- ReadByte(data);
    if t.0 !in DataTypes then Err(UnknownType)
    else
      var items :- DecodeCountedItems(t.0, t.1);
      var tc := TypedCollection(t.0, items.0);
      assert data == [t.0] + ([|items.0|] + EncodeItems(t.0, items.0) + items.1);
      Ok((tc, items.1))
  }

  /** TypedCollection round trip: same type, same ordered elements, remainder untouched. */
  lemma CollectionRoundTrip(tc: TypedCollection, rest: seq<byte>)
    requires WellTypedCollection(tc)
    ensures DecodeCollection(EncodeCollection(tc) + rest) == Ok((tc, rest))
  {
    var data := EncodeCollection(tc) + rest;
    assert data[1..][1..] == EncodeItems(tc.typeId, tc.values) + rest;
    ItemsRoundTrip(tc.typeId, tc.values, rest);
  }

  /** The hundred uint8 values 0..99 take 1 + 1 + 100 bytes and decode back in order. */
  lemma HundredUint8Example()
    ensures var tc := TypedCollection(0x20, seq(100, i => i));
            WellTypedCollection(tc)
            && |EncodeCollection(tc)| == 1 + 1 + 100
            && DecodeCollection(EncodeCollection(tc)) == Ok((tc, []))
  {
    var values := seq(100, i => i);
    var tc := TypedCollection(0x20, values);
    Pow256Small();
    Uint8Registered();
    assert |values| == 100;
    assert forall i :: 0 <= i < |values| ==> values[i] < 0x100;
    assert WellTypedCollection(tc);
    assert |EncodeCollection(tc)| == 2 + 100 * 1;
    CollectionRoundTrip(tc, []);
    assert EncodeCollection(tc) + [] == EncodeCollection(tc);
  }
}
