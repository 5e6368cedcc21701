/**
  The primitive type registry: a fixed table from a one-byte type discriminant
  to the value codec it selects (`DATA_TYPES`), and the reverse index from a
  codec kind back to its discriminant (`DATA_TYPE_IDX`). Only the fixed-width
  unsigned little-endian kinds are registered here (general data, bitmaps,
  unsigned integers, cluster and attribute ids, BACnet object ids); every one
  of them is coded as a w-byte little-endian unsigned integer.
 */
module Registry {
  import opened Wire

  datatype Family = Data | Bitmap | Unsigned | ClusterId | AttributeId | BacnetOid

  /** A value codec: its family and the number of bytes a value occupies. */
  datatype Kind = Kind(family: Family, width: nat)

  /** Whether a reportable change is meaningful for the kind (Analog) or not (Discrete). */
  datatype ValueClass = Analog | Discrete

  datatype TypeInfo = TypeInfo(kind: Kind, valueClass: ValueClass)

  /**
    The registry, written out entry by entry: type discriminant to codec
    description.
   */
  const DataTypeTable: map<byte, TypeInfo> := map[
    0x08 := TypeInfo(Kind(Data, 1), Discrete),
    0x09 := TypeInfo(Kind(Data, 2), Discrete),
    0x0A := TypeInfo(Kind(Data, 3), Discrete),
    0x0B := TypeInfo(Kind(Data, 4), Discrete),
    0x0C := TypeInfo(Kind(Data, 5), Discrete),
    0x0D := TypeInfo(Kind(Data, 6), Discrete),
    0x0E := TypeInfo(Kind(Data, 7), Discrete),
    0x0F := TypeInfo(Kind(Data, 8), Discrete),
    0x18 := TypeInfo(Kind(Bitmap, 1), Discrete),
    0x19 := TypeInfo(Kind(Bitmap, 2), Discrete),
    0x1A := TypeInfo(Kind(Bitmap, 3), Discrete),
    0x1B := TypeInfo(Kind(Bitmap, 4), Discrete),
    0x1C := TypeInfo(Kind(Bitmap, 5), Discrete),
    0x1D := TypeInfo(Kind(Bitmap, 6), Discrete),
    0x1E := TypeInfo(Kind(Bitmap, 7), Discrete),
    0x1F := TypeInfo(Kind(Bitmap, 8), Discrete),
    0x20 := TypeInfo(Kind(Unsigned, 1), Analog),
    0x21 := TypeInfo(Kind(Unsigned, 2), Analog),
    0x22 := TypeInfo(Kind(Unsigned, 3), Analog),
    0x23 := TypeInfo(Kind(Unsigned, 4), Analog),
    0x24 := TypeInfo(Kind(Unsigned, 5), Analog),
    0x25 := TypeInfo(Kind(Unsigned, 6), Analog),
    0x26 := TypeInfo(Kind(Unsigned, 7), Analog),
    0x27 := TypeInfo(Kind(Unsigned, 8), Analog),
    0xE8 := TypeInfo(Kind(ClusterId, 2), Discrete),
    0xE9 := TypeInfo(Kind(AttributeId, 2), Discrete),
    0xEA := TypeInfo(Kind(BacnetOid, 4), Discrete)
  ]

  /** The discriminants the registry knows: the four runs of the table. */
  predicate Registered(d: byte) {
    0x08 <= d <= 0x0F || 0x18 <= d <= 0x27 || 0xE8 <= d <= 0xEA
  }

  /**
    The entry of a registered discriminant, by run: within the general data,
    bitmap and unsigned runs the width counts up from one byte.
   */
  function EntryOf(d: byte): TypeInfo
    requires Registered(d)
  {
    if d <= 0x0F then TypeInfo(Kind(Data, d - 0x07), Discrete)
    else if d <= 0x1F then TypeInfo(Kind(Bitmap, d - 0x17), Discrete)
    else if d <= 0x27 then TypeInfo(Kind(Unsigned, d - 0x1F), Analog)
    else if d == 0xE8 then TypeInfo(Kind(ClusterId, 2), Discrete)
    else if d == 0xE9 then TypeInfo(Kind(AttributeId, 2), Discrete)
    else TypeInfo(Kind(BacnetOid, 4), Discrete)
  }

  /**
    The registry the codecs consult, built run by run; RegistryTable shows it
    is the table above.
   */
  const DataTypes: map<byte, TypeInfo> := map d: byte | 0x08 <= d <= 0xEA && Registered(d) :: EntryOf(d)

  /** The runs cover exactly the discriminants the table lists. */
  lemma RegistryKeys()
    ensures DataTypes.Keys == DataTypeTable.Keys
  {
    forall d: byte
      ensures d in DataTypes <==> d in DataTypeTable
    {
    }
  }

  /** The run-by-run registry is exactly the table, entry for entry. */
  lemma RegistryTable()
    ensures DataTypes == DataTypeTable
  {
    RegistryKeys();
    forall d | d in DataTypeTable
      ensures DataTypes[d] == DataTypeTable[d]
    {
    }
  }

  /** The discriminant the ZCL numbering gives each registered kind. */
  function KindCode(k: Kind): int {
    match k.family
    case Data => 0x07 + k.width
    case Bitmap => 0x17 + k.width
    case Unsigned => 0x1F + k.width
    case ClusterId => 0xE8
    case AttributeId => 0xE9
    case BacnetOid => 0xEA
  }

  /** Every entry's kind determines its discriminant. */
  lemma KindCodeOfEntries()
    ensures forall d :: d in DataTypes ==> KindCode(DataTypes[d].kind) == d
  {
  }

  /** No two discriminants select the same kind. */
  lemma KindsDistinct(d: byte, e: byte)
    requires d in DataTypes && e in DataTypes
    requires DataTypes[d].kind == DataTypes[e].kind
    ensures d == e
  {
    KindCodeOfEntries();
  }

  /**
    The reverse index: codec kind back to its discriminant. Its keys are the
    kinds the registry hands out, and each maps to a discriminant that
    selects it.
   */
  function DataTypeIdx(): (idx: map<Kind, byte>)
    ensures forall d :: d in DataTypes ==> DataTypes[d].kind in idx
    ensures forall k :: k in idx ==> idx[k] in DataTypes && DataTypes[idx[k]].kind == k
  {
    KindCodeOfEntries();
    map d | d in DataTypes :: DataTypes[d].kind := d
  }

  /** The kinds the registry hands out. */
  function RegisteredKinds(keys: set<byte>): set<Kind>
    requires keys <= DataTypes.Keys
  {
    set d | d in keys :: DataTypes[d].kind
  }

  /** Distinct discriminants give distinct kinds, so there are as many kinds as keys. */
  lemma {:induction false} RegisteredKindsCount(keys: set<byte>)
    requires keys <= DataTypes.Keys
    ensures |RegisteredKinds(keys)| == |keys|
  {
    if keys != {} {
      var d :| d in keys;
      var smaller := keys - {d};
      RegisteredKindsCount(smaller);
      var k := DataTypes[d].kind;
      assert RegisteredKinds(keys) == RegisteredKinds(smaller) + {k};
      if k in RegisteredKinds(smaller) {
        var e :| e in smaller && DataTypes[e].kind == k;
        KindsDistinct(d, e);
      }
    }
  }

  /**
    The two tables agree: each is the other's inverse, the set of kinds in
    the registry is exactly the key set of the index, and both have the same
    number of entries.
   */
  lemma RegistryIndexConsistent()
    ensures DataTypeIdx().Keys == RegisteredKinds(DataTypes.Keys)
    ensures |DataTypeIdx()| == |DataTypes|
    ensures forall d :: d in DataTypes ==> DataTypeIdx()[DataTypes[d].kind] == d
    ensures forall k :: k in DataTypeIdx() ==>
              DataTypeIdx()[k] in DataTypes && DataTypes[DataTypeIdx()[k]].kind == k
  {
    var idx := DataTypeIdx();
    assert idx.Keys == RegisteredKinds(DataTypes.Keys);
    RegisteredKindsCount(DataTypes.Keys);
    forall d | d in DataTypes
      ensures idx[DataTypes[d].kind] == d
    {
      var k := DataTypes[d].kind;
      var e := idx[k];
      assert e in DataTypes && DataTypes[e].kind == k;
      KindsDistinct(d, e);
    }
  }

  /** The number of bytes a value of a registered type occupies. */
  function WidthOf(d: byte): nat
    requires d in DataTypes
  {
    DataTypes[d].kind.width
  }

  /** Whether a registered type carries a reportable change. */
  predicate IsAnalog(d: byte)
    requires d in DataTypes
  {
    DataTypes[d].valueClass == Analog
  }

  /** Every registered codec is one to eight bytes wide. */
  lemma CodecWidths()
    ensures forall d :: d in DataTypes ==> 1 <= WidthOf(d) <= 8
  {
  }

  /** The analog types are exactly the unsigned integers 0x20..0x27. */
  lemma AnalogTypes()
    ensures forall d :: d in DataTypes ==> (IsAnalog(d) <==> 0x20 <= d <= 0x27)
  {
  }

  /** A data, bitmap or unsigned type is as wide as the low three bits of its discriminant, plus one. */
  lemma DiscriminantWidths()
    ensures forall d :: d in DataTypes && d < 0xE8 ==> WidthOf(d) == d % 8 + 1
  {
  }

  /** 0x20 is the unsigned 8-bit integer: one byte, analog. */
  lemma Uint8Registered()
    ensures 0x20 in DataTypes && DataTypes[0x20].kind == Kind(Unsigned, 1)
    ensures WidthOf(0x20) == 1 && IsAnalog(0x20)
  {
  }
}
