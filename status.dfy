/**
  The one-byte ZCL status enumeration (section 2.6.3 of the Zigbee Cluster
  Library Specification, 07-5123). The named codes form a closed set, but the
  wire value is open-ended: a byte outside the set decodes to an "undefined"
  status that keeps the raw byte, so decoding a status never fails on a
  present byte.
 */
module Statuses {
  import opened Wire

  /** The named status codes. */
  datatype StatusCode =
    | Success
    | Failure
    | NotAuthorized
    | ReservedFieldNotZero
    | MalformedCommand
    | UnsupClusterCommand
    | UnsupGeneralCommand
    | UnsupManufClusterCommand
    | UnsupManufGeneralCommand
    | InvalidField
    | UnsupportedAttribute
    | InvalidValue
    | ReadOnly
    | InsufficientSpace
    | DuplicateExists
    | NotFound
    | UnreportableAttribute
    | InvalidDataType
    | InvalidSelector
    | WriteOnly
    | InconsistentStartupState
    | DefinedOutOfBand
    | Inconsistent
    | ActionDenied
    | Timeout
    | Abort
    | InvalidImage
    | WaitForData
    | NoImageAvailable
    | RequireMoreImage
    | NotificationPending
    | HardwareFailure
    | SoftwareFailure
    | CalibrationError
    | UnsupportedCluster

  /** The byte a named code is sent as. */
  function CodeValue(c: StatusCode): byte {
    match c
    case Success => 0x00
    case Failure => 0x01
    case NotAuthorized => 0x7E
    case ReservedFieldNotZero => 0x7F
    case MalformedCommand => 0x80
    case UnsupClusterCommand => 0x81
    case UnsupGeneralCommand => 0x82
    case UnsupManufClusterCommand => 0x83
    case UnsupManufGeneralCommand => 0x84
    case InvalidField => 0x85
    case UnsupportedAttribute => 0x86
    case InvalidValue => 0x87
    case ReadOnly => 0x88
    case InsufficientSpace => 0x89
    case DuplicateExists => 0x8A
    case NotFound => 0x8B
    case UnreportableAttribute => 0x8C
    case InvalidDataType => 0x8D
    case InvalidSelector => 0x8E
    case WriteOnly => 0x8F
    case InconsistentStartupState => 0x90
    case DefinedOutOfBand => 0x91
    case Inconsistent => 0x92
    case ActionDenied => 0x93
    case Timeout => 0x94
    case Abort => 0x95
    case InvalidImage => 0x96
    case WaitForData => 0x97
    case NoImageAvailable => 0x98
    case RequireMoreImage => 0x99
    case NotificationPending => 0x9A
    case HardwareFailure => 0xC0
    case SoftwareFailure => 0xC1
    case CalibrationError => 0xC2
    case UnsupportedCluster => 0xC3
  }

  /** The named code a byte stands for, if any. */
  function CodeOf(b: byte): Option<StatusCode> {
    match b
    case 0x00 => Some(Success)
    case 0x01 => Some(Failure)
    case 0x7E => Some(NotAuthorized)
    case 0x7F => Some(ReservedFieldNotZero)
    case 0x80 => Some(MalformedCommand)
    case 0x81 => Some(UnsupClusterCommand)
    case 0x82 => Some(UnsupGeneralCommand)
    case 0x83 => Some(UnsupManufClusterCommand)
    case 0x84 => Some(UnsupManufGeneralCommand)
    case 0x85 => Some(InvalidField)
    case 0x86 => Some(UnsupportedAttribute)
    case 0x87 => Some(InvalidValue)
    case 0x88 => Some(ReadOnly)
    case 0x89 => Some(InsufficientSpace)
    case 0x8A => Some(DuplicateExists)
    case 0x8B => Some(NotFound)
    case 0x8C => Some(UnreportableAttribute)
    case 0x8D => Some(InvalidDataType)
    case 0x8E => Some(InvalidSelector)
    case 0x8F => Some(WriteOnly)
    case 0x90 => Some(InconsistentStartupState)
    case 0x91 => Some(DefinedOutOfBand)
    case 0x92 => Some(Inconsistent)
    case 0x93 => Some(ActionDenied)
    case 0x94 => Some(Timeout)
    case 0x95 => Some(Abort)
    case 0x96 => Some(InvalidImage)
    case 0x97 => Some(WaitForData)
    case 0x98 => Some(NoImageAvailable)
    case 0x99 => Some(RequireMoreImage)
    case 0x9A => Some(NotificationPending)
    case 0xC0 => Some(HardwareFailure)
    case 0xC1 => Some(SoftwareFailure)
    case 0xC2 => Some(CalibrationError)
    case 0xC3 => Some(UnsupportedCluster)
    case _ => None
  }

  /** Every named code is recognised from its own byte. */
  lemma CodeOfCodeValue(c: StatusCode)
    ensures CodeOf(CodeValue(c)) == Some(c)
  {
  }

  /** A byte is recognised only as the code it is the value of. */
  lemma CodeValueCodeOf(b: byte)
    ensures CodeOf(b).Some? ==> CodeValue(CodeOf(b).value) == b
  {
  }

  /**
    A status as it travels: a named code, or an undefined one that keeps the
    raw byte it was read from.
   */
  datatype Status = Known(code: StatusCode) | Undefined(raw: byte)

  const SUCCESS: Status := Known(Success)

  /** An undefined status never shadows a named one. */
  predicate ValidStatus(s: Status) {
    s.Undefined? ==> CodeOf(s.raw) == None
  }

  /** The numeric value of a status, named or not. */
  function StatusValue(s: Status): byte {
    match s
    case Known(c) => CodeValue(c)
    case Undefined(b) => b
  }

  /** Comparison with SUCCESS is by numeric value. */
  predicate IsSuccess(s: Status) {
    StatusValue(s) == 0x00
  }

  /** The status a byte stands for: its named code, or undefined with that byte. */
  function StatusOf(b: byte): (s: Status)
    ensures ValidStatus(s) && StatusValue(s) == b
    ensures IsSuccess(s) <==> s == SUCCESS
  {
    match CodeOf(b)
    case Some(c) => Known(c)
    case None => Undefined(b)
  }

  /** Valid statuses are equal exactly when their numeric values are. */
  lemma StatusValueInjective(s: Status, t: Status)
    requires ValidStatus(s) && ValidStatus(t)
    ensures s == t <==> StatusValue(s) == StatusValue(t)
  {
    if StatusValue(s) == StatusValue(t) {
      match s
      case Known(c) =>
        CodeOfCodeValue(c);
        if t.Known? { CodeOfCodeValue(t.code); }
      case Undefined(b) =>
        if t.Known? { CodeOfCodeValue(t.code); }
    }
  }

  /** A valid status is the status of its own numeric value. */
  lemma StatusOfValue(s: Status)
    requires ValidStatus(s)
    ensures StatusOf(StatusValue(s)) == s
  {
    StatusValueInjective(s, StatusOf(StatusValue(s)));
  }

  /** A status is sent as its single numeric byte. */
  function EncodeStatus(s: Status): (r: seq<byte>)
    ensures |r| == 1
  {
    [StatusValue(s)]
  }

  /**
    Consumes exactly one byte whatever its value: fails only on an empty
    buffer, and hands back everything after the first byte untouched.
   */
  function DecodeStatus(data: seq<byte>): (r: Result<(Status, seq<byte>)>)
    ensures r.Err? <==> data == []
    ensures r.Err? ==> r.error == InsufficientData
    ensures r.Ok? ==> ValidStatus(r.value.0) && StatusValue(r.value.0) == data[0]
                      && r.value.1 == data[1..]
  {
    var p :- ReadByte(data);
    Ok((StatusOf(p.0), p.1))
  }

  /** Status round trip: decoding the encoding of a valid status gives it back. */
  lemma StatusRoundTrip(s: Status, rest: seq<byte>)
    requires ValidStatus(s)
    ensures DecodeStatus(EncodeStatus(s) + rest) == Ok((s, rest))
  {
    StatusOfValue(s);
    assert (EncodeStatus(s) + rest)[1..] == rest;
  }

  /**
    An unrecognised status byte decodes to an undefined status carrying that
    byte, consumes one byte and re-encodes to the same byte.
   */
  lemma UndefinedStatusTolerated(b: byte, rest: seq<byte>)
    requires CodeOf(b) == None
    ensures DecodeStatus([b] + rest) == Ok((Undefined(b), rest))
    ensures EncodeStatus(Undefined(b)) == [b]
  {
    assert ([b] + rest)[1..] == rest;
  }

  /** 0xAA followed by "extra" decodes to an undefined status of value 0xAA. */
  lemma UndefinedStatusExample()
    ensures var extra := [0x65, 0x78, 0x74, 0x72, 0x61];
            DecodeStatus([0xAA] + extra) == Ok((Undefined(0xAA), extra))
  {
    UndefinedStatusTolerated(0xAA, [0x65, 0x78, 0x74, 0x72, 0x61]);
  }
}
