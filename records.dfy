/**
  Foundation records whose later fields are present or absent depending on a
  field read earlier in the same record: a status code (read attributes
  response, write attributes response, configure reporting response) or a
  reporting direction (attribute reporting configuration). An absent field
  takes no bytes at all; it is never zero-filled. Section numbers below are
  those of the Zigbee Cluster Library Specification (07-5123).
 */
module Records {
  import opened Wire
  import opened Statuses
  import opened Registry
  import opened Values

  /** The reporting direction byte of section 2.5.7: 0 send reports, 1 receive reports. */
  datatype Direction = SendReports | ReceiveReports

  function DirectionValue(d: Direction): byte {
    match d
    case SendReports => 0x00
    case ReceiveReports => 0x01
  }

  /** A direction byte; any value other than 0 and 1 is rejected. */
  function DecodeDirection(data: seq<byte>): (r: Result<(Direction, seq<byte>)>)
    ensures r.Err? <==> data == [] || data[0] > 0x01
    ensures r.Ok? ==> data == [DirectionValue(r.value.0)] + r.value.1
  {
    var b :- ReadByte(data);
    if b.0 == 0x00 then Ok((SendReports, b.1))
    else if b.0 == 0x01 then Ok((ReceiveReports, b.1))
    else Err(InvalidEnum)
  }

  lemma DecodeDirectionEncoded(d: Direction, rest: seq<byte>)
    ensures DecodeDirection([DirectionValue(d)] + rest) == Ok((d, rest))
  {
    assert ([DirectionValue(d)] + rest)[1..] == rest;
  }

  // ---------------------------------------------------------------------
  // Read attributes status record (section 2.5.2):
  //   attrid, status, and a TypeValue only when the status is SUCCESS.

  datatype ReadAttributeRecord = ReadAttributeRecord(attrid: uint16, status: Status, value: Option<TypeValue>)

  /** A successful record needs a well-typed value to send. */
  predicate ReadAttributeRecordSerializable(r: ReadAttributeRecord) {
    IsSuccess(r.status) ==> r.value.Some? && WellTyped(r.value.value)
  }

  /** The shape decoding produces: a value exactly on SUCCESS. */
  predicate ReadAttributeRecordCanonical(r: ReadAttributeRecord) {
    && ValidStatus(r.status)
    && r.value.Some? == IsSuccess(r.status)
    && (r.value.Some? ==> WellTyped(r.value.value))
  }

  /** attrid low byte first, the status byte, then the TypeValue only on SUCCESS. */
  function EncodeReadAttributeRecord(r: ReadAttributeRecord): (data: seq<byte>)
    requires ReadAttributeRecordSerializable(r)
    ensures |data| == 3 + (if IsSuccess(r.status) then 1 + WidthOf(r.value.value.typeId) else 0)
    ensures data[..3] == EncodeU16(r.attrid) + [StatusValue(r.status)]
    ensures IsSuccess(r.status) ==> data[3] == r.value.value.typeId
  {
    EncodeU16(r.attrid) + EncodeStatus(r.status)
    + (if IsSuccess(r.status) then EncodeTypeValue(r.value.value) else [])
  }

  /**
    attrid, then status, then a TypeValue only on SUCCESS; the bytes consumed
    are exactly the encoding of the record returned.
   */
  function DecodeReadAttributeRecord(data: seq<byte>): (r: Result<(ReadAttributeRecord, seq<byte>)>)
    ensures r.Ok? ==> ReadAttributeRecordCanonical(r.value.0)
                      && data == EncodeReadAttributeRecord(r.value.0) + r.value.1
  {
    var a :- ReadU16(data);
    var s :- DecodeStatus(a.1);
    assert a.1 == EncodeStatus(s.0) + s.1;
    if IsSuccess(s.0) then
      var v :- DecodeTypeValue(s.1);
      var rec := ReadAttributeRecord(a.0, s.0, Some(v.0));
      assert EncodeReadAttributeRecord(rec)
             == EncodeU16(a.0) + EncodeStatus(s.0) + EncodeTypeValue(v.0);
      assert data == EncodeU16(a.0) + (EncodeStatus(s.0) + (EncodeTypeValue(v.0) + v.1));
      assert data == EncodeReadAttributeRecord(rec) + v.1;
      Ok((rec, v.1))
    else
      var rec := ReadAttributeRecord(a.0, s.0, None);
      assert EncodeReadAttributeRecord(rec) == EncodeU16(a.0) + EncodeStatus(s.0) + [];
      assert data == EncodeReadAttributeRecord(rec) + s.1;
      Ok((rec, s.1))
  }

  /** Read attribute record round trip, remainder untouched. */
  lemma ReadAttributeRecordRoundTrip(r: ReadAttributeRecord, rest: seq<byte>)
    requires ReadAttributeRecordCanonical(r)
    ensures DecodeReadAttributeRecord(EncodeReadAttributeRecord(r) + rest) == Ok((r, rest))
  {
    var tail := if IsSuccess(r.status) then EncodeTypeValue(r.value.value) + rest else rest;
    var afterId := EncodeStatus(r.status) + tail;
    assert EncodeReadAttributeRecord(r) + rest == EncodeU16(r.attrid) + afterId;
    ReadU16Encoded(r.attrid, afterId);
    StatusRoundTrip(r.status, tail);
    if IsSuccess(r.status) {
      TypeValueRoundTrip(r.value.value, rest);
    }
  }

  /** 00 00 00 20 99: attrid 0, SUCCESS, TypeValue(0x20, 0x99), nothing left; it re-encodes to itself. */
  lemma ReadAttributeRecordExample()
    ensures var data := [0x00, 0x00, 0x00, 0x20, 0x99];
            var r := ReadAttributeRecord(0, SUCCESS, Some(TypeValue(0x20, 0x99)));
            && DecodeReadAttributeRecord(data) == Ok((r, []))
            && ReadAttributeRecordSerializable(r)
            && EncodeReadAttributeRecord(r) == data
  {
    var r := ReadAttributeRecord(0, SUCCESS, Some(TypeValue(0x20, 0x99)));
    Pow256Small();
    assert EncodeTypeValue(TypeValue(0x20, 0x99)) == [0x20, 0x99];
    assert EncodeReadAttributeRecord(r) == [0x00, 0x00, 0x00, 0x20, 0x99];
    ReadAttributeRecordRoundTrip(r, []);
    assert EncodeReadAttributeRecord(r) + [] == EncodeReadAttributeRecord(r);
  }

  // ---------------------------------------------------------------------
  // Write attribute status record (section 2.5.5):
  //   status, and the attribute id only when the status is not SUCCESS.

  datatype WriteStatus = WriteStatus(status: Status, attrid: Option<uint16>)

  /** A failed record needs an attribute id to send; a successful one may hold one that is not sent. */
  predicate WriteStatusSerializable(r: WriteStatus) {
    !IsSuccess(r.status) ==> r.attrid.Some?
  }

  predicate WriteStatusCanonical(r: WriteStatus) {
    ValidStatus(r.status) && r.attrid.Some? == !IsSuccess(r.status)
  }

  function EncodeWriteStatus(r: WriteStatus): (data: seq<byte>)
    requires WriteStatusSerializable(r)
    ensures |data| == if IsSuccess(r.status) then 1 else 3
    ensures data[0] == StatusValue(r.status)
  {
    EncodeStatus(r.status) + (if IsSuccess(r.status) then [] else EncodeU16(r.attrid.value))
  }

  /** status, then the attribute id only when it is not SUCCESS. */
  function DecodeWriteStatus(data: seq<byte>): (r: Result<(WriteStatus, seq<byte>)>)
    ensures r.Ok? ==> WriteStatusCanonical(r.value.0)
                      && data == EncodeWriteStatus(r.value.0) + r.value.1
  {
    var s :- DecodeStatus(data);
    assert data == EncodeStatus(s.0) + s.1;
    if IsSuccess(s.0) then Ok((WriteStatus(s.0, None), s.1))
    else
      var a :- ReadU16(s.1);
      Ok((WriteStatus(s.0, Some(a.0)), a.1))
  }

  lemma WriteStatusRoundTrip(r: WriteStatus, rest: seq<byte>)
    requires WriteStatusCanonical(r)
    ensures DecodeWriteStatus(EncodeWriteStatus(r) + rest) == Ok((r, rest))
  {
    var tail := if IsSuccess(r.status) then rest else EncodeU16(r.attrid.value) + rest;
    assert EncodeWriteStatus(r) + rest == EncodeStatus(r.status) + tail;
    StatusRoundTrip(r.status, tail);
    if !IsSuccess(r.status) {
      ReadU16Encoded(r.attrid.value, rest);
    }
  }

  /**
    On SUCCESS decoding takes the status byte only and leaves the following
    bytes (an attribute id or anything else) in the remainder; on any other
    status it also takes the little-endian attribute id.
   */
  lemma WriteStatusGating(s: byte, attrid: uint16, rest: seq<byte>)
    ensures s == 0x00 ==>
              DecodeWriteStatus([s] + EncodeU16(attrid) + rest)
              == Ok((WriteStatus(SUCCESS, None), EncodeU16(attrid) + rest))
    ensures s != 0x00 ==>
              DecodeWriteStatus([s] + EncodeU16(attrid) + rest)
              == Ok((WriteStatus(StatusOf(s), Some(attrid)), rest))
  {
    var data := [s] + EncodeU16(attrid) + rest;
    assert data[1..] == EncodeU16(attrid) + rest;
    if s != 0x00 {
      ReadU16Encoded(attrid, rest);
    }
  }

  /** A SUCCESS record is sent as its status byte alone, whatever attribute id it holds. */
  lemma WriteStatusEncodeGating(status: Status, attrid: uint16)
    ensures IsSuccess(status) ==> EncodeWriteStatus(WriteStatus(status, Some(attrid))) == [0x00]
    ensures !IsSuccess(status) ==>
              EncodeWriteStatus(WriteStatus(status, Some(attrid)))
              == [StatusValue(status), attrid % 0x100, attrid / 0x100]
  {
  }

  /**
    00 01 00 + extra decodes to SUCCESS with the id bytes left over; 87 01 00 +
    extra to INVALID_VALUE, attribute 0x0001; a SUCCESS record holding 0xAABB
    is sent as 00, and as 86 bb aa once its status becomes UNSUPPORTED_ATTRIBUTE.
   */
  lemma WriteStatusExample(extra: seq<byte>)
    ensures DecodeWriteStatus([0x00, 0x01, 0x00] + extra)
            == Ok((WriteStatus(SUCCESS, None), [0x01, 0x00] + extra))
    ensures DecodeWriteStatus([0x87, 0x01, 0x00] + extra)
            == Ok((WriteStatus(Known(StatusCode.InvalidValue), Some(0x0001)), extra))
    ensures EncodeWriteStatus(WriteStatus(SUCCESS, Some(0xAABB))) == [0x00]
    ensures EncodeWriteStatus(WriteStatus(Known(UnsupportedAttribute), Some(0xAABB)))
            == [0x86, 0xBB, 0xAA]
  {
    assert EncodeU16(0x0001) == [0x01, 0x00];
    assert [0x00, 0x01, 0x00] + extra == [0x00] + EncodeU16(0x0001) + extra;
    assert [0x87, 0x01, 0x00] + extra == [0x87] + EncodeU16(0x0001) + extra;
    assert EncodeU16(0x0001) + extra == [0x01, 0x00] + extra;
    WriteStatusGating(0x00, 0x0001, extra);
    WriteStatusGating(0x87, 0x0001, extra);
    WriteStatusEncodeGating(Known(UnsupportedAttribute), 0xAABB);
  }

  /** The write attribute status record as an object whose status is reassigned in place. */
  class WriteAttributesStatusRecord {
    var status: Status
    var attrid: Option<uint16>

    constructor (status: Status, attrid: Option<uint16>)
      ensures this.status == status && this.attrid == attrid
    {
      this.status := status;
      this.attrid := attrid;
    }

    function View(): WriteStatus
      reads this
    {
      WriteStatus(status, attrid)
    }

    /** `rec.status = s`: the attribute id is kept, whether or not it will be sent. */
    method SetStatus(s: Status)
      modifies this
      ensures status == s && attrid == old(attrid)
    {
      status := s;
    }

    /** The status byte, then the attribute id only when the status is not SUCCESS. */
    method Serialize() returns (data: seq<byte>)
      requires WriteStatusSerializable(View())
      ensures data == EncodeWriteStatus(View())
      ensures IsSuccess(status) ==> data == [0x00]
      ensures !IsSuccess(status) ==> data[..1] == EncodeStatus(status) && data[1..] == EncodeU16(attrid.value)
    {
      data := EncodeStatus(status);
      if !IsSuccess(status) {
        data := data + EncodeU16(attrid.value);
      }
    }
  }

  /** A SUCCESS record holding 0xAABB sends 00; after `status = UNSUPPORTED_ATTRIBUTE` it sends 86 bb aa. */
  method WriteStatusRecordScenario() {
    var rec := new WriteAttributesStatusRecord(SUCCESS, Some(0xAABB));
    var data := rec.Serialize();
    assert data == [0x00];
    rec.SetStatus(Known(UnsupportedAttribute));
    data := rec.Serialize();
    assert data[..1] == EncodeStatus(Known(UnsupportedAttribute)) && data[1..] == [0xBB, 0xAA];
  }

  // ---------------------------------------------------------------------
  // Configure reporting response record (section 2.5.8):
  //   status, and direction and attribute id only when it is not SUCCESS.

  datatype ReportingResponse =
    ReportingResponse(status: Status, direction: Option<Direction>, attrid: Option<uint16>)

  predicate ReportingResponseSerializable(r: ReportingResponse) {
    !IsSuccess(r.status) ==> r.direction.Some? && r.attrid.Some?
  }

  predicate ReportingResponseCanonical(r: ReportingResponse) {
    && ValidStatus(r.status)
    && r.direction.Some? == !IsSuccess(r.status)
    && r.attrid.Some? == !IsSuccess(r.status)
  }

  function EncodeReportingResponse(r: ReportingResponse): (data: seq<byte>)
    requires ReportingResponseSerializable(r)
    ensures |data| == if IsSuccess(r.status) then 1 else 4
    ensures data[0] == StatusValue(r.status)
  {
    EncodeStatus(r.status)
    + (if IsSuccess(r.status) then []
       else [DirectionValue(r.direction.value)] + EncodeU16(r.attrid.value))
  }

  /** status, then direction and attribute id only when it is not SUCCESS. */
  function DecodeReportingResponse(data: seq<byte>): (r: Result<(ReportingResponse, seq<byte>)>)
    ensures r.Ok? ==> ReportingResponseCanonical(r.value.0)
                      && data == EncodeReportingResponse(r.value.0) + r.value.1
  {
    var s :- DecodeStatus(data);
    assert data == EncodeStatus(s.0) + s.1;
    if IsSuccess(s.0) then Ok((ReportingResponse(s.0, None, None), s.1))
    else
      var d :- DecodeDirection(s.1);
      var a :- ReadU16(d.1);
      var rec := ReportingResponse(s.0, Some(d.0), Some(a.0));
      assert data == EncodeReportingResponse(rec) + a.1;
      Ok((rec, a.1))
  }

  lemma ReportingResponseRoundTrip(r: ReportingResponse, rest: seq<byte>)
    requires ReportingResponseCanonical(r)
    ensures DecodeReportingResponse(EncodeReportingResponse(r) + rest) == Ok((r, rest))
  {
    if IsSuccess(r.status) {
      assert EncodeReportingResponse(r) + rest == EncodeStatus(r.status) + rest;
      StatusRoundTrip(r.status, rest);
    } else {
      var afterDir := EncodeU16(r.attrid.value) + rest;
      var tail := [DirectionValue(r.direction.value)] + afterDir;
      assert EncodeReportingResponse(r) + rest == EncodeStatus(r.status) + tail;
      StatusRoundTrip(r.status, tail);
      DecodeDirectionEncoded(r.direction.value, afterDir);
      ReadU16Encoded(r.attrid.value, rest);
    }
  }

  /**
    On SUCCESS decoding takes the status byte only and leaves direction and
    attribute id bytes in the remainder; otherwise it also takes the
    direction byte and the little-endian attribute id.
   */
  lemma ReportingResponseGating(s: byte, d: Direction, attrid: uint16, rest: seq<byte>)
    ensures var data := [s, DirectionValue(d)] + EncodeU16(attrid) + rest;
            s == 0x00 ==>
              DecodeReportingResponse(data)
              == Ok((ReportingResponse(SUCCESS, None, None), data[1..]))
    ensures s != 0x00 ==>
              DecodeReportingResponse([s, DirectionValue(d)] + EncodeU16(attrid) + rest)
              == Ok((ReportingResponse(StatusOf(s), Some(d), Some(attrid)), rest))
  {
    var data := [s, DirectionValue(d)] + EncodeU16(attrid) + rest;
    assert data[1..] == [DirectionValue(d)] + (EncodeU16(attrid) + rest);
    if s != 0x00 {
      DecodeDirectionEncoded(d, EncodeU16(attrid) + rest);
      ReadU16Encoded(attrid, rest);
    }
  }

  /**
    00 00 01 10 + extra decodes to SUCCESS with the three bytes left over;
    8c 00 01 10 + extra to UNREPORTABLE_ATTRIBUTE, a direction, attribute
    0x1001; a SUCCESS record holding direction 0 and 0xAABB is sent as 00,
    and as 8c 00 bb aa once its status becomes UNREPORTABLE_ATTRIBUTE.
   */
  lemma ReportingResponseExample(extra: seq<byte>)
    ensures DecodeReportingResponse([0x00, 0x00, 0x01, 0x10] + extra)
            == Ok((ReportingResponse(SUCCESS, None, None), [0x00, 0x01, 0x10] + extra))
    ensures DecodeReportingResponse([0x8C, 0x00, 0x01, 0x10] + extra)
            == Ok((ReportingResponse(Known(UnreportableAttribute), Some(SendReports), Some(0x1001)),
                   extra))
    ensures EncodeReportingResponse(ReportingResponse(SUCCESS, Some(SendReports), Some(0xAABB)))
            == [0x00]
    ensures EncodeReportingResponse(
              ReportingResponse(Known(UnreportableAttribute), Some(SendReports), Some(0xAABB)))
            == [0x8C, 0x00, 0xBB, 0xAA]
  {
    assert EncodeU16(0x1001) == [0x01, 0x10];
    assert [0x00, 0x00, 0x01, 0x10] + extra == [0x00, DirectionValue(SendReports)] + EncodeU16(0x1001) + extra;
    assert [0x8C, 0x00, 0x01, 0x10] + extra == [0x8C, DirectionValue(SendReports)] + EncodeU16(0x1001) + extra;
    assert ([0x00, 0x00, 0x01, 0x10] + extra)[1..] == [0x00, 0x01, 0x10] + extra;
    ReportingResponseGating(0x00, SendReports, 0x1001, extra);
    ReportingResponseGating(0x8C, SendReports, 0x1001, extra);
    assert EncodeU16(0xAABB) == [0xBB, 0xAA];
  }

  /** The configure reporting response record as an object whose status is reassigned in place. */
  class ConfigureReportingResponseRecord {
    var status: Status
    var direction: Option<Direction>
    var attrid: Option<uint16>

    constructor (status: Status, direction: Option<Direction>, attrid: Option<uint16>)
      ensures this.status == status && this.direction == direction && this.attrid == attrid
    {
      this.status := status;
      this.direction := direction;
      this.attrid := attrid;
    }

    function View(): ReportingResponse
      reads this
    {
      ReportingResponse(status, direction, attrid)
    }

    /** `rec.status = s`: direction and attribute id are kept, whether or not they will be sent. */
    method SetStatus(s: Status)
      modifies this
      ensures status == s && direction == old(direction) && attrid == old(attrid)
    {
      status := s;
    }

    /** The status byte, then direction and attribute id only when the status is not SUCCESS. */
    method Serialize() returns (data: seq<byte>)
      requires ReportingResponseSerializable(View())
      ensures data == EncodeReportingResponse(View())
      ensures IsSuccess(status) ==> data == [0x00]
      ensures !IsSuccess(status) ==>
                && data[..1] == EncodeStatus(status)
                && data[1..] == [DirectionValue(direction.value)] + EncodeU16(attrid.value)
    {
      data := EncodeStatus(status);
      if !IsSuccess(status) {
        data := data + [DirectionValue(direction.value)] + EncodeU16(attrid.value);
      }
    }
  }

  /** A SUCCESS record holding direction 0 and 0xAABB sends 00; after `status = UNREPORTABLE_ATTRIBUTE`, 8c 00 bb aa. */
  method ReportingResponseRecordScenario() {
    var rec := new ConfigureReportingResponseRecord(SUCCESS, Some(SendReports), Some(0xAABB));
    var data := rec.Serialize();
    assert data == [0x00];
    rec.SetStatus(Known(UnreportableAttribute));
    data := rec.Serialize();
    assert data[..1] == EncodeStatus(Known(UnreportableAttribute)) && data[1..] == [0x00, 0xBB, 0xAA];
  }

  // ---------------------------------------------------------------------
  // Attribute reporting configuration record (section 2.5.7): direction and
  // attribute id, then either what the sender will report (direction 0) or
  // how long the receiver waits for reports (direction 1).

  datatype AttributeReportingConfig =
    | ReportsSent(attrid: uint16, dataType: byte, minInterval: uint16, maxInterval: uint16,
                  reportableChange: Option<nat>)
    | ReportsReceived(attrid: uint16, timeout: uint16)

  function ConfigDirection(c: AttributeReportingConfig): Direction {
    if c.ReportsSent? then SendReports else ReceiveReports
  }

  /** Whether a reportable change goes on the wire: only for a registered analog type. */
  predicate HasReportableChange(dataType: byte) {
    dataType in DataTypes && IsAnalog(dataType)
  }

  /** A configuration of an analog type needs a reportable change that fits the type. */
  predicate ReportingConfigSerializable(c: AttributeReportingConfig) {
    c.ReportsSent? && HasReportableChange(c.dataType) ==>
      c.reportableChange.Some? && FitsType(c.dataType, c.reportableChange.value)
  }

  /** The shape decoding produces: a registered type, with a change exactly when it is analog. */
  predicate ReportingConfigCanonical(c: AttributeReportingConfig) {
    c.ReportsSent? ==>
      && c.dataType in DataTypes
      && c.reportableChange.Some? == IsAnalog(c.dataType)
      && (c.reportableChange.Some? ==> FitsType(c.dataType, c.reportableChange.value))
  }

  /** The reportable change: the value codec of an analog type, nothing otherwise. */
  function EncodeChange(dataType: byte, change: Option<nat>): (data: seq<byte>)
    requires HasReportableChange(dataType) ==> change.Some? && FitsType(dataType, change.value)
    ensures |data| == if HasReportableChange(dataType) then WidthOf(dataType) else 0
  {
    if HasReportableChange(dataType) then EncodeValue(dataType, change.value) else []
  }

  /**
    The reportable change of a registered type: one value of its codec when
    the type is analog, no bytes at all when it is discrete.
   */
  function DecodeChange(dataType: byte, data: seq<byte>): (r: Result<(Option<nat>, seq<byte>)>)
    requires dataType in DataTypes
    ensures r.Err? <==> IsAnalog(dataType) && |data| < WidthOf(dataType)
    ensures r.Ok? ==> && r.value.0.Some? == IsAnalog(dataType)
                      && (r.value.0.Some? ==> FitsType(dataType, r.value.0.value))
                      && data == EncodeChange(dataType, r.value.0) + r.value.1
  {
    if IsAnalog(dataType) then
      var v :- DecodeValue(dataType, data);
      Ok((Some(v.0), v.1))
    else Ok((None, data))
  }

  lemma ChangeRoundTrip(dataType: byte, change: Option<nat>, rest: seq<byte>)
    requires dataType in DataTypes && change.Some? == IsAnalog(dataType)
    requires change.Some? ==> FitsType(dataType, change.value)
    ensures DecodeChange(dataType, EncodeChange(dataType, change) + rest) == Ok((change, rest))
  {
    if IsAnalog(dataType) {
      DecodeValueEncoded(dataType, change.value, rest);
    } else {
      assert EncodeChange(dataType, change) + rest == rest;
    }
  }

  /** What follows the attribute id: the timeout, or type, intervals and change. */
  function EncodeConfigBody(c: AttributeReportingConfig): (data: seq<byte>)
    requires ReportingConfigSerializable(c)
    ensures c.ReportsReceived? ==> data == EncodeU16(c.timeout)
    ensures c.ReportsSent? ==> && |data| == 5 + |EncodeChange(c.dataType, c.reportableChange)|
                               && data[0] == c.dataType
                               && data[1..3] == EncodeU16(c.minInterval)
                               && data[3..5] == EncodeU16(c.maxInterval)
  {
    match c
    case ReportsReceived(_, timeout) => EncodeU16(timeout)
    case ReportsSent(_, dataType, minInterval, maxInterval, change) =>
      [dataType] + EncodeU16(minInterval) + EncodeU16(maxInterval) + EncodeChange(dataType, change)
  }

  function EncodeReportingConfig(c: AttributeReportingConfig): (data: seq<byte>)
    requires ReportingConfigSerializable(c)
    ensures |data| >= 3 && data[0] == DirectionValue(ConfigDirection(c))
    ensures data[1..3] == EncodeU16(c.attrid)
  {
    [DirectionValue(ConfigDirection(c))] + EncodeU16(c.attrid) + EncodeConfigBody(c)
  }

  /** The fixed part of the direction 0 body: data type byte, minimum and maximum interval. */
  function DecodeSentHead(data: seq<byte>): (r: Result<((byte, uint16, uint16), seq<byte>)>)
    ensures r.Err? <==> |data| < 5
    ensures r.Ok? ==> data == [r.value.0.0] + EncodeU16(r.value.0.1) + EncodeU16(r.value.0.2) + r.value.1
  {
    var ty :- ReadByte(data);
    var lo :- ReadU16(ty.1);
    var hi :- ReadU16(lo.1);
    Ok(((ty.0, lo.0, hi.0), hi.1))
  }

  lemma SentHeadRoundTrip(dataType: byte, minInterval: uint16, maxInterval: uint16, rest: seq<byte>)
    ensures DecodeSentHead([dataType] + EncodeU16(minInterval) + EncodeU16(maxInterval) + rest)
            == Ok(((dataType, minInterval, maxInterval), rest))
  {
    var afterMin := EncodeU16(maxInterval) + rest;
    var afterType := EncodeU16(minInterval) + afterMin;
    var data := [dataType] + afterType;
    assert [dataType] + EncodeU16(minInterval) + EncodeU16(maxInterval) + rest == data;
    assert data[1..] == afterType;
    ReadU16Encoded(minInterval, afterMin);
    ReadU16Encoded(maxInterval, rest);
  }

  /**
    The direction 0 body: data type, minimum and maximum interval, then the
    reportable change; an unregistered data type fails with UnknownType.
   */
  function DecodeSentBody(attrid: uint16, data: seq<byte>): (r: Result<(AttributeReportingConfig, seq<byte>)>)
    ensures r.Ok? ==> && r.value.0.ReportsSent? && r.value.0.attrid == attrid
                      && ReportingConfigCanonical(r.value.0)
                      && data == EncodeConfigBody(r.value.0) + r.value.1
    ensures r == Err(UnknownType) <==> |data| >= 5 && data[0] !in DataTypes
  {
    var h :- DecodeSentHead(data);
    var (dataType, minInterval, maxInterval) := h.0;
    if dataType !in DataTypes then Err(UnknownType)
    else
      var v :- DecodeChange(dataType, h.1);
      var c := ReportsSent(attrid, dataType, minInterval, maxInterval, v.0);
      assert data == [dataType] + EncodeU16(minInterval) + EncodeU16(maxInterval) + EncodeChange(dataType, v.0) + v.1;
      Ok((c, v.1))
  }

  /** The direction 1 body: the timeout. */
  function DecodeReceivedBody(attrid: uint16, data: seq<byte>): (r: Result<(AttributeReportingConfig, seq<byte>)>)
    ensures r.Err? <==> |data| < 2
    ensures r.Ok? ==> && r.value.0.ReportsReceived? && r.value.0.attrid == attrid
                      && data == EncodeConfigBody(r.value.0) + r.value.1
  {
    var t :- ReadU16(data);
    Ok((ReportsReceived(attrid, t.0), t.1))
  }

  /**
    direction, attribute id, then the timeout for direction 1, or the data
    type, minimum and maximum interval and, for an analog type, the
    reportable change for direction 0. A direction other than 0 or 1 fails
    with InvalidEnum; the bytes consumed are exactly the encoding of the
    result, whose direction is the one read.
   */
  function DecodeReportingConfig(data: seq<byte>): (r: Result<(AttributeReportingConfig, seq<byte>)>)
    ensures r.Ok? ==> ReportingConfigCanonical(r.value.0)
                      && data == EncodeReportingConfig(r.value.0) + r.value.1
    ensures |data| > 0 && data[0] > 0x01 ==> r == Err(InvalidEnum)
  {
    var d :- DecodeDirection(data);
    var a :- ReadU16(d.1);
    var c :- if d.0 == SendReports then DecodeSentBody(a.0, a.1) else DecodeReceivedBody(a.0, a.1);
    assert ConfigDirection(c.0) == d.0;
    assert data == [DirectionValue(d.0)] + EncodeU16(a.0) + EncodeConfigBody(c.0) + c.1;
    Ok(c)
  }

  lemma SentBodyRoundTrip(c: AttributeReportingConfig, rest: seq<byte>)
    requires c.ReportsSent? && ReportingConfigCanonical(c)
    ensures DecodeSentBody(c.attrid, EncodeConfigBody(c) + rest) == Ok((c, rest))
  {
    var afterMax := EncodeChange(c.dataType, c.reportableChange) + rest;
    assert EncodeConfigBody(c) + rest
           == [c.dataType] + EncodeU16(c.minInterval) + EncodeU16(c.maxInterval) + afterMax;
    SentHeadRoundTrip(c.dataType, c.minInterval, c.maxInterval, afterMax);
    ChangeRoundTrip(c.dataType, c.reportableChange, rest);
  }

  lemma ConfigBodyRoundTrip(c: AttributeReportingConfig, rest: seq<byte>)
    requires ReportingConfigCanonical(c)
    ensures c.ReportsSent? ==> DecodeSentBody(c.attrid, EncodeConfigBody(c) + rest) == Ok((c, rest))
    ensures c.ReportsReceived? ==> DecodeReceivedBody(c.attrid, EncodeConfigBody(c) + rest) == Ok((c, rest))
  {
    if c.ReportsSent? {
      SentBodyRoundTrip(c, rest);
    } else {
      ReadU16Encoded(c.timeout, rest);
    }
  }

  /** Configuration round trip for either direction, remainder untouched. */
  lemma ReportingConfigRoundTrip(c: AttributeReportingConfig, rest: seq<byte>)
    requires ReportingConfigCanonical(c)
    ensures DecodeReportingConfig(EncodeReportingConfig(c) + rest) == Ok((c, rest))
  {
    var afterId := EncodeConfigBody(c) + rest;
    var afterDir := EncodeU16(c.attrid) + afterId;
    assert EncodeReportingConfig(c) + rest == [DirectionValue(ConfigDirection(c))] + afterDir;
    DecodeDirectionEncoded(ConfigDirection(c), afterDir);
    ReadU16Encoded(c.attrid, afterId);
    ConfigBodyRoundTrip(c, rest);
  }

  /**
    Direction 0 with attribute 99, type 0x20, intervals 10 and 20 and change
    30, and direction 1 with attribute 99 and timeout 0x7E, both come back
    field for field with nothing left over.
   */
  lemma ReportingConfigExamples()
    ensures var c := ReportsSent(99, 0x20, 10, 20, Some(30));
            DecodeReportingConfig(EncodeReportingConfig(c)) == Ok((c, []))
    ensures var c := ReportsReceived(99, 0x7E);
            DecodeReportingConfig(EncodeReportingConfig(c)) == Ok((c, []))
  {
    Pow256Small();
    var sent := ReportsSent(99, 0x20, 10, 20, Some(30));
    var received := ReportsReceived(99, 0x7E);
    ReportingConfigRoundTrip(sent, []);
    ReportingConfigRoundTrip(received, []);
    assert EncodeReportingConfig(sent) + [] == EncodeReportingConfig(sent);
    assert EncodeReportingConfig(received) + [] == EncodeReportingConfig(received);
  }
}
