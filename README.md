# ZCL foundation codec — a Dafny model

This project models the wire codec of zigpy's Zigbee Cluster Library (ZCL)
"foundation" layer. That codec turns the records of the general (profile-wide)
commands into bytes and back. The model covers:

- **Wire** (`wire.dfy`): bytes, the `Result` of a decoder (`value, rest` or an
  error), and fixed-width little-endian unsigned integers, with the 16-bit
  case used for attribute ids, manufacturer codes, intervals and timeouts.
- **Statuses** (`status.dfy`): the one-byte status enumeration. A byte outside
  the named set decodes to an undefined status that keeps the byte, so a
  present status byte never makes decoding fail.
- **Registry** (`registry.dfy`): `DATA_TYPES`, the table from a one-byte type
  discriminant to a value codec. Also `DATA_TYPE_IDX`, its reverse index from
  codec back to discriminant. The two are proved to be mutual inverses of the
  same size. The table is written out entry by entry (`DataTypeTable`). The
  codecs consult an equal map built from its four runs of discriminants
  (`DataTypes`), and `RegistryTable` proves the two equal.
- **Values** (`values.dfy`): `TypeValue` (a discriminant followed by one
  value) and `TypedCollection` (a discriminant, a one-byte count, and the
  values in order).
- **FrameControls** (`frame_control.dfy`): the frame-control byte as a
  `FrameControl` object. Each setter rewrites one bit and keeps the other
  seven. Also the `general`/`cluster` constructors.
- **Headers** (`header.dfy`): the `ZCLHeader` object. It holds the frame
  control, the manufacturer code (on the wire only while the
  manufacturer-specific flag is set), the transaction sequence number and the
  command id.
- **Records** (`records.dfy`):
  - `ReadAttributeRecord`: a value only on SUCCESS;
  - `WriteAttributesStatusRecord`: an attribute id only on failure;
  - `ConfigureReportingResponseRecord`: direction and attribute id only on
    failure;
  - `AttributeReportingConfig`: a send-reports body or a receive-reports body,
    chosen by the direction byte. The reportable change is present only for
    an analog data type.

Every decoder is a function from bytes to `Ok((value, rest))` or an error.
Each one is proved to consume exactly the encoding of what it returns. The
matching encode/decode pair is proved to round-trip with the remainder handed
back untouched. The in-place mutations the library exposes are methods of
classes: the frame-control setters, `hdr.manufacturer = …` and
`rec.status = …`. Their postconditions fix the new byte or state in terms of
the pure codec.

The behaviour modelled is the behaviour the library's test file,
`tests/test_zcl_foundation.py`, pins down; `zigpy/zcl/foundation.py` is not
part of this model. Two choices follow from the tests:

- **Manufacturer code vs. flag.** Assigning `hdr.manufacturer` keeps the
  manufacturer-specific flag in step with the code (lines 284-286 and
  300-302). Lines 264-265 instead clear the flag through `hdr.frame_control`
  and expect the two code bytes to be gone from the serialized header. The
  model's choice for that case is that the header keeps the code it already
  held: the flag and the code are separate state, and
  - `ZCLHeader.Serialize` emits the code only while the flag is set;
  - `ZCLHeader.SetManufacturer` and the constructors set the flag exactly
    when a code is given;
  - the only invariant is "flag set implies a code is present".
- **Frame-type width.** The tests use 00 for a global command and 01 for a
  cluster command (lines 170-179). A two-bit field would read those two bytes
  the same way. The model chooses a one-bit layout and reads the frame type
  from bit 0 alone. Bit 1, which the ZCL standard counts as part of a two-bit
  frame-type field, is kept verbatim as a reserved bit.

## Model

| member | source | states |
|---|---|---|
| Wire.ReadUInt | tests/test_zcl_foundation.py:15-18 | Fails (InsufficientData) exactly when fewer than w bytes remain; otherwise the bytes consumed are the w-byte little-endian encoding of the value read, and the value fits in w bytes |
| Wire.ReadUIntEncoded | tests/test_zcl_foundation.py:15-18 | Reading back the w-byte encoding of any fitting value gives the value and the untouched remainder |
| Wire.DecodeEncodeLE | tests/test_zcl_foundation.py:5-18 | Decoding the w-byte little-endian encoding of any n < 256^w gives n back |
| Wire.EncodeDecodeLE | tests/test_zcl_foundation.py:5-18 | Re-encoding the decoded value of any byte string gives the same bytes: the encoding is onto |
| Wire.EncodeLEInjective | tests/test_zcl_foundation.py:5-18 | Two values with the same w-byte encoding are equal |
| Wire.ReadByte | tests/test_zcl_foundation.py:170-176 | Fails exactly on an empty buffer; otherwise takes the first byte and hands back the rest |
| Wire.EncodeU16 | tests/test_zcl_foundation.py:110-114 | A 16-bit value goes out low byte first (0xAABB as bb aa) |
| Wire.ReadU16 | tests/test_zcl_foundation.py:99-104 | Fails exactly when fewer than 2 bytes remain; otherwise the two bytes consumed are the little-endian encoding of the value (01 00 reads as 0x0001) |
| Wire.ReadU16Encoded | tests/test_zcl_foundation.py:99-114 | Reading back a 16-bit encoding gives the value and the untouched remainder |
| Statuses.CodeOfCodeValue | tests/test_zcl_foundation.py:91-102 | Every named status code is recognised from its own byte |
| Statuses.CodeValueCodeOf | tests/test_zcl_foundation.py:91-102 | A recognised byte is exactly the value of the code it is recognised as |
| Statuses.StatusOf | tests/test_zcl_foundation.py:155-164 | The status of a byte has that byte as its numeric value, never shadows a named code, and is SUCCESS exactly when the byte is 0 |
| Statuses.StatusValueInjective | tests/test_zcl_foundation.py:159-162 | Two well-formed statuses are equal exactly when their numeric values are |
| Statuses.StatusOfValue | tests/test_zcl_foundation.py:155-164 | A well-formed status is the status of its own numeric value |
| Statuses.EncodeStatus | tests/test_zcl_foundation.py:113 | A status is sent as exactly one byte |
| Statuses.DecodeStatus | tests/test_zcl_foundation.py:155-164 | Fails only on an empty buffer; consumes exactly one byte whatever its value, returning a status of that value and the rest untouched |
| Statuses.StatusRoundTrip | tests/test_zcl_foundation.py:155-164 | Decoding the encoding of a well-formed status gives it back with the remainder |
| Statuses.UndefinedStatusTolerated | tests/test_zcl_foundation.py:155-164 | A byte outside the named set decodes to an undefined status keeping that byte, consumes one byte, and re-encodes to the same byte |
| Statuses.UndefinedStatusExample | tests/test_zcl_foundation.py:155-164 | aa followed by "extra" gives the undefined status 0xAA and the rest "extra" |
| Registry.RegistryTable | tests/test_zcl_foundation.py:305-310 | The registry the codecs consult, built run by run, equals the table written out entry by entry |
| Registry.KindCodeOfEntries | tests/test_zcl_foundation.py:305-310 | Each registry entry's codec determines its discriminant |
| Registry.KindsDistinct | tests/test_zcl_foundation.py:305-310 | No two discriminants select the same codec |
| Registry.DataTypeIdx | tests/test_zcl_foundation.py:307-310 | DATA_TYPE_IDX: every kind in DATA_TYPES is a key, and every key maps to a discriminant that selects that kind |
| Registry.RegisteredKindsCount | tests/test_zcl_foundation.py:305-310 | Any set of discriminants selects as many distinct codecs as it has members |
| Registry.RegistryIndexConsistent | tests/test_zcl_foundation.py:305-310 | DATA_TYPE_IDX's keys are exactly the codecs in DATA_TYPES, both tables have the same size, and each is the other's inverse |
| Registry.Uint8Registered | tests/test_zcl_foundation.py:5-8 | 0x20 is the one-byte unsigned integer, an analog type |
| Registry.CodecWidths | tests/test_zcl_foundation.py:307-308 | DATA_TYPES: every registered codec is one to eight bytes wide |
| Registry.AnalogTypes | tests/test_zcl_foundation.py:307-308 | DATA_TYPES: the analog types (those carrying a reportable change) are exactly 0x20..0x27 |
| Registry.DiscriminantWidths | tests/test_zcl_foundation.py:307-308 | DATA_TYPES: a data, bitmap or unsigned type is as wide as the low three bits of its discriminant plus one |
| Values.EncodeValue | tests/test_zcl_foundation.py:5-9 | A value of a registered type takes exactly that type's width |
| Values.DecodeValue | tests/test_zcl_foundation.py:15-18 | Fails exactly when the buffer is shorter than the type's width; otherwise the value fits the type and the bytes consumed are its encoding |
| Values.DecodeValueEncoded | tests/test_zcl_foundation.py:5-18 | Decoding a value's encoding gives it back with the remainder |
| Values.EncodeTypeValue | tests/test_zcl_foundation.py:5-9 | A TypeValue is its discriminant byte followed by width-many value bytes |
| Values.DecodeTypeValue | tests/test_zcl_foundation.py:15-18 | Fails with UnknownType exactly on an unregistered discriminant and with InsufficientData exactly when the buffer is empty or too short for the selected codec; on success the value is well typed and the bytes consumed are its encoding |
| Values.TypeValueRoundTrip | tests/test_zcl_foundation.py:5-18 | A well-typed TypeValue comes back with the same type and value, remainder untouched |
| Values.Uint8TypeValueExample | tests/test_zcl_foundation.py:5-18 | TypeValue(0x20, 99) is 20 63 and decodes back with nothing left |
| Values.ItemsSpanProduct | tests/test_zcl_foundation.py:71-77 | The span of count elements, one width per element, is count times the element width |
| Values.EncodeItems | tests/test_zcl_foundation.py:71-77 | The elements take one element width each, so count times the width in all |
| Values.DecodeItems | tests/test_zcl_foundation.py:79-82 | Fails exactly when the buffer is shorter than count element widths; otherwise returns exactly count fitting values whose encodings, in order, are the bytes consumed |
| Values.ItemsRoundTrip | tests/test_zcl_foundation.py:71-82 | Reading back the elements' encodings gives the same ordered list and the remainder |
| Values.EncodeCollection | tests/test_zcl_foundation.py:75-77 | A collection takes 1 type byte, 1 count byte and count times the element width; bytes 0 and 1 are the type and the count |
| Values.DecodeCollection | tests/test_zcl_foundation.py:79-82 | Fails with UnknownType exactly on an unregistered discriminant; on success the collection is well typed and the bytes consumed are its encoding |
| Values.CollectionRoundTrip | tests/test_zcl_foundation.py:71-82 | A well-typed collection comes back with the same type and ordered elements, remainder untouched |
| Values.HundredUint8Example | tests/test_zcl_foundation.py:71-82 | The uint8 values 0..99 take 1 + 1 + 100 bytes and decode back in order |
| FrameControls.Unpack | tests/test_zcl_foundation.py:167-176 | Every byte splits into sub-fields that pack back to it |
| FrameControls.UnpackPack | tests/test_zcl_foundation.py:187-246 | Packing is injective: unpacking a packed set of sub-fields gives them back |
| FrameControls.PackWithField | tests/test_zcl_foundation.py:194-215 | Changing one flag in the sub-fields removes or adds exactly that flag's mask in the packed byte |
| FrameControls.WithFlag | tests/test_zcl_foundation.py:194-246 | Setting a flag makes it read back as given, keeps the frame type, the other flags and the reserved bits, and changes the byte by exactly that flag's mask (a no-op when the flag already has that value) |
| FrameControls.WithFrameType | tests/test_zcl_foundation.py:178-179 | Setting the frame type makes it read back as given and keeps every flag and reserved bit |
| FrameControls.InitialByte | tests/test_zcl_foundation.py:187-193 | The starting byte has the requested frame type, the reply and disable-default-response flags equal to is_reply, no manufacturer flag and clear reserved bits |
| FrameControls.InitialBytes | tests/test_zcl_foundation.py:187-238 | The starting bytes are 00 and 18 for general, 01 and 19 for cluster |
| FrameControls.FrameTypeBytes | tests/test_zcl_foundation.py:167-176 | 00 reads as a global command and 01 as a cluster command |
| FrameControls.FrameControl.constructor | tests/test_zcl_foundation.py:170-176 | A frame control holding exactly the given byte |
| FrameControls.FrameControl.FrameType | tests/test_zcl_foundation.py:167-179 | `frame_type`: a cluster command exactly when bit 0 of the raw byte is set, otherwise a global command |
| FrameControls.FrameControl.IsGeneral | tests/test_zcl_foundation.py:189-190 | `is_general` holds exactly when bit 0 of the byte is clear |
| FrameControls.FrameControl.IsCluster | tests/test_zcl_foundation.py:220-221 | `is_cluster` holds exactly when bit 0 of the byte is set |
| FrameControls.FrameControl.IsManufacturerSpecific | tests/test_zcl_foundation.py:194-198 | `is_manufacturer_specific` holds exactly when bit 2 (0x04) is set |
| FrameControls.FrameControl.IsReply | tests/test_zcl_foundation.py:201-206 | `is_reply` holds exactly when bit 3 (0x08) is set |
| FrameControls.FrameControl.DisableDefaultResponse | tests/test_zcl_foundation.py:210-215 | `disable_default_response` holds exactly when bit 4 (0x10) is set |
| FrameControls.FrameControl.General | tests/test_zcl_foundation.py:187-193 | A general frame control is general, not cluster, with reply and disable-default-response as requested and no manufacturer flag |
| FrameControls.FrameControl.Cluster | tests/test_zcl_foundation.py:218-224 | A cluster frame control is cluster, not general, with reply and disable-default-response as requested and no manufacturer flag |
| FrameControls.FrameControl.SetFlag | tests/test_zcl_foundation.py:194-246 | The byte becomes WithFlag of the old byte: the flag reads as given, the others and the frame type are unchanged, and rewriting a flag's own value changes nothing |
| FrameControls.FrameControl.SetManufacturerSpecific | tests/test_zcl_foundation.py:194-198 | The manufacturer-specific flag becomes as given; reply, disable-default-response and frame type are unchanged |
| FrameControls.FrameControl.SetReply | tests/test_zcl_foundation.py:201-206 | The reply flag becomes as given; the other flags and the frame type are unchanged |
| FrameControls.FrameControl.SetDisableDefaultResponse | tests/test_zcl_foundation.py:210-215 | The disable-default-response flag becomes as given; the other flags and the frame type are unchanged |
| FrameControls.FrameControl.SetFrameType | tests/test_zcl_foundation.py:178-179 | The frame type becomes as given; every flag is unchanged |
| FrameControls.FrameControl.Serialize | tests/test_zcl_foundation.py:191-193 | The frame control goes out as its single byte, which reads back as itself |
| FrameControls.FrameControl.Deserialize | tests/test_zcl_foundation.py:170-176 | Fails exactly on an empty buffer; otherwise a fresh frame control holding the first byte and the rest untouched |
| Headers.EncodeHeader | tests/test_zcl_foundation.py:249-265 | The header is 5 bytes with the manufacturer flag set and 3 without; the frame control is first, tsn and command id last |
| Headers.DecodeHeader | tests/test_zcl_foundation.py:253-259 | Reads a manufacturer code exactly when the first byte's flag is set; fails (InsufficientData) exactly when the buffer is too short for that; on success the header is canonical and the bytes consumed are its encoding |
| Headers.Normalized | tests/test_zcl_foundation.py:264-265 | Dropping a manufacturer code the flag does not announce gives a canonical header |
| Headers.HeaderRoundTrip | tests/test_zcl_foundation.py:253-265 | Decoding a header's encoding gives the same frame control, tsn and command id, the manufacturer code exactly when the flag is set, and the remainder |
| Headers.ManufacturerCodeLength | tests/test_zcl_foundation.py:261-265 | With the manufacturer flag set the header is two bytes longer than with it clear |
| Headers.ManufacturerHeaderExample | tests/test_zcl_foundation.py:249-265 | 1c 5f 11 c0 0a is a reply with manufacturer 0x115F, tsn 0xC0, command 0x0A and re-encodes to itself; with the flag cleared it encodes as 18 c0 0a |
| Headers.ZCLHeader.constructor | tests/test_zcl_foundation.py:253-259 | A header around a given frame control, whose manufacturer-specific flag becomes set exactly when a code is given and whose other bits are kept |
| Headers.ZCLHeader.General | tests/test_zcl_foundation.py:273-282 | A global-command header with the given tsn, command id and manufacturer; its frame-control byte is the general starting byte with the manufacturer flag set exactly when a code is given |
| Headers.ZCLHeader.Cluster | tests/test_zcl_foundation.py:289-298 | A cluster-command header with the given tsn, command id and manufacturer; its frame-control byte is the cluster starting byte with the manufacturer flag set exactly when a code is given |
| Headers.ZCLHeader.IsReply | tests/test_zcl_foundation.py:257 | `hdr.is_reply` holds exactly when bit 3 (0x08) of the frame-control byte is set |
| Headers.ZCLHeader.SetManufacturer | tests/test_zcl_foundation.py:284-286 | The code is stored and the flag set exactly when there is one; other bits, tsn and command id are unchanged |
| Headers.ZCLHeader.Serialize | tests/test_zcl_foundation.py:261-265 | The bytes are the encoding of the header's current state (manufacturer only while flagged) and decode back to its canonical form |
| Headers.ZCLHeader.Deserialize | tests/test_zcl_foundation.py:253-259 | Fails exactly when DecodeHeader does; otherwise a fresh header (and fresh frame control) holding what was decoded |
| Records.DecodeDirection | tests/test_zcl_foundation.py:133-139 | Fails exactly on an empty buffer or a byte above 1; otherwise consumes exactly the direction's byte |
| Records.DecodeDirectionEncoded | tests/test_zcl_foundation.py:38-68 | A direction's byte decodes back to it |
| Records.EncodeReadAttributeRecord | tests/test_zcl_foundation.py:34-35 | attrid low byte first, then the status byte, then (only on SUCCESS) the TypeValue starting with its type byte; 3 bytes, or 4 plus the value width on SUCCESS |
| Records.DecodeReadAttributeRecord | tests/test_zcl_foundation.py:21-28 | attrid, status, then a TypeValue exactly on SUCCESS; the result is canonical and the bytes consumed are its encoding |
| Records.ReadAttributeRecordRoundTrip | tests/test_zcl_foundation.py:21-35 | A canonical read attribute record comes back unchanged with the remainder |
| Records.ReadAttributeRecordExample | tests/test_zcl_foundation.py:21-35 | 00 00 00 20 99 is attribute 0, SUCCESS, uint8 0x99, nothing left, and re-encodes to the same bytes |
| Records.EncodeWriteStatus | tests/test_zcl_foundation.py:110-114 | One byte (the status) on SUCCESS, three (status, attribute id) otherwise |
| Records.DecodeWriteStatus | tests/test_zcl_foundation.py:85-104 | Status, then the attribute id exactly when it is not SUCCESS; the result is canonical and the bytes consumed are its encoding |
| Records.WriteStatusRoundTrip | tests/test_zcl_foundation.py:85-104 | A canonical write status record comes back unchanged with the remainder |
| Records.WriteStatusGating | tests/test_zcl_foundation.py:85-104 | After a 00 byte the attribute id bytes stay in the remainder; after any other status byte they are read as the attribute id |
| Records.WriteStatusEncodeGating | tests/test_zcl_foundation.py:110-114 | A SUCCESS record goes out as 00 whatever id it holds; a failed one as its status byte and the id low byte first |
| Records.WriteStatusExample | tests/test_zcl_foundation.py:85-114 | 00 01 00 + extra gives SUCCESS with 01 00 + extra left; 87 01 00 + extra gives INVALID_VALUE, attribute 1, extra left; the 0xAABB record sends 00, then 86 bb aa |
| Records.WriteAttributesStatusRecord.constructor | tests/test_zcl_foundation.py:110 | A record holding the given status and attribute id |
| Records.WriteAttributesStatusRecord.SetStatus | tests/test_zcl_foundation.py:112 | The status is replaced and the attribute id kept |
| Records.WriteAttributesStatusRecord.Serialize | tests/test_zcl_foundation.py:110-114 | The bytes are the encoding of the record's current state: 00 on SUCCESS, else the status byte then the id |
| Records.EncodeReportingResponse | tests/test_zcl_foundation.py:146-152 | One byte (the status) on SUCCESS, four (status, direction, attribute id) otherwise |
| Records.DecodeReportingResponse | tests/test_zcl_foundation.py:117-139 | Status, then direction and attribute id exactly when it is not SUCCESS; the result is canonical and the bytes consumed are its encoding |
| Records.ReportingResponseRoundTrip | tests/test_zcl_foundation.py:117-139 | A canonical configure reporting response record comes back unchanged with the remainder |
| Records.ReportingResponseGating | tests/test_zcl_foundation.py:117-139 | After a 00 byte direction and id stay in the remainder; after any other status byte they are read |
| Records.ReportingResponseExample | tests/test_zcl_foundation.py:117-152 | 00 00 01 10 + extra gives SUCCESS with three bytes left; 8c 00 01 10 + extra gives UNREPORTABLE_ATTRIBUTE, send direction, attribute 0x1001; the 0xAABB record sends 00, then 8c 00 bb aa |
| Records.ConfigureReportingResponseRecord.constructor | tests/test_zcl_foundation.py:146-148 | A record holding the given status, direction and attribute id |
| Records.ConfigureReportingResponseRecord.SetStatus | tests/test_zcl_foundation.py:150 | The status is replaced; direction and attribute id are kept |
| Records.ConfigureReportingResponseRecord.Serialize | tests/test_zcl_foundation.py:146-152 | The bytes are the encoding of the record's current state: 00 on SUCCESS, else status, direction, id |
| Records.DecodeChange | tests/test_zcl_foundation.py:45-55 | For an analog type reads one value of its codec (failing only when too short), for a discrete type reads nothing |
| Records.ChangeRoundTrip | tests/test_zcl_foundation.py:45-55 | A reportable change present exactly for an analog type comes back with the remainder |
| Records.EncodeChange | tests/test_zcl_foundation.py:45-46 | The reportable change takes the type's width for a registered analog type and no bytes otherwise |
| Records.EncodeConfigBody | tests/test_zcl_foundation.py:41-63 | Direction 1: the timeout low byte first; direction 0: the data type byte, the minimum and maximum interval low byte first, then the reportable change |
| Records.EncodeReportingConfig | tests/test_zcl_foundation.py:38-46 | A configuration starts with its direction byte, then the attribute id low byte first |
| Records.DecodeSentHead | tests/test_zcl_foundation.py:48-54 | Fails exactly when fewer than 5 bytes remain; otherwise consumes the data type byte and the two intervals |
| Records.SentHeadRoundTrip | tests/test_zcl_foundation.py:48-54 | Data type and intervals come back with the remainder |
| Records.DecodeSentBody | tests/test_zcl_foundation.py:48-55 | Fails with UnknownType exactly when a full head names an unregistered type; on success a send-reports configuration for the given attribute whose encoding is the bytes consumed |
| Records.DecodeReceivedBody | tests/test_zcl_foundation.py:65-68 | Fails exactly when fewer than 2 bytes remain; otherwise a receive-reports configuration for the given attribute whose encoding is the bytes consumed |
| Records.SentBodyRoundTrip | tests/test_zcl_foundation.py:38-55 | A canonical send-reports body comes back unchanged with the remainder |
| Records.ConfigBodyRoundTrip | tests/test_zcl_foundation.py:38-68 | Either direction's body comes back unchanged with the remainder |
| Records.DecodeReportingConfig | tests/test_zcl_foundation.py:38-68 | A direction byte other than 0 or 1 fails with InvalidEnum; on success the configuration is canonical and the bytes consumed are its encoding |
| Records.ReportingConfigRoundTrip | tests/test_zcl_foundation.py:38-68 | A canonical configuration of either direction comes back field for field with the remainder; the tests check direction, attrid, datatype, intervals and timeout, while the reportable change coming back follows from the model's analog-type layout (line 55 compares `arc` with itself) |
| Records.ReportingConfigExamples | tests/test_zcl_foundation.py:38-68 | Direction 0 (attribute 99, type 0x20, intervals 10 and 20, change 30) and direction 1 (attribute 99, timeout 0x7E) both come back with nothing left; the change of 30 coming back is the model's, not something line 55 checks |

The scenario methods `FrameControls.GeneralFlagsScenario`,
`FrameControls.GeneralDefaultResponseScenario`,
`FrameControls.ClusterFlagsScenario`,
`FrameControls.ClusterDefaultResponseScenario`, `FrameControls.FrameTypeScenario`,
`Headers.HeaderScenario`, `Headers.ManufacturerScenario`,
`Records.WriteStatusRecordScenario` and
`Records.ReportingResponseRecordScenario` replay the test sequences
(tests/test_zcl_foundation.py:167-302, 110-114, 146-152) on the objects.
They assert each intermediate byte.

## Left out

- `repr` output (tests/test_zcl_foundation.py:10-13, 30-32, 94-97, 106-108, 127-131, 141-144, 181-184, 267-270): diagnostic text, not wire format.
- The `undefined_0x..` name of an undefined status (line 163): only the fact that the raw byte is kept is modelled.
- The copy constructor of `AttributeReportingConfig` (lines 313-321): configurations are immutable values here, so a copy is the same value.
- The full catalogue of Zigbee primitive types. The registry holds only the fixed-width unsigned little-endian kinds: general data, bitmaps, unsigned integers, cluster and attribute ids, and BACnet object ids. Any other discriminant decodes to UnknownType in this model.
- Python value classes such as `t.uint8_t` are represented by the discriminant and a natural number, so `isinstance` checks (lines 26-27) reduce to the discriminant.
- Records.DecodeReadAttributeRecord, Records.DecodeWriteStatus, Records.DecodeReportingResponse: they do not pin down which error a truncated buffer produces; only the success cases are characterised.
- ReadAttributeRecord and AttributeReportingConfig are values rather than mutable objects. The tests only build them field by field before serializing, and the model builds the value directly.
- Encoders take a `requires` for fields the wire format needs (a value on SUCCESS, an attribute id on failure, a code behind a set manufacturer flag, a reportable change for an analog type). The model does not define serialization of a record that lacks one.
- Records.DecodeReportingResponse, Records.DecodeReportingConfig: a direction byte other than 0 or 1 is rejected with InvalidEnum. The direction is modelled as a closed two-valued enumeration (send reports, receive reports), because the reporting configuration chooses its body by it and has no body for any other value. Unlike the status byte, an unknown direction is not kept as a raw value; the tests only exercise 0 and 1.
- Values.EncodeCollection: its count is a single byte, so the model does not define serialization of a collection of 256 or more elements (`WellTypedCollection` requires fewer). What the library does with such a list is not modelled.
- The two-bit frame-type field of the ZCL standard: frame types 2 and 3 are not represented; bit 1 is kept as a reserved bit.
- Command schemas, cluster-specific commands, transport and device behaviour: `zigpy/zcl/foundation.py` and the rest of zigpy are not part of this model.
