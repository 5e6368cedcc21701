/**
  The frame-control byte that starts every ZCL frame (section 2.4.1.1 of the
  Zigbee Cluster Library Specification, 07-5123):

    bit 0     frame type: 0 global (foundation) command, 1 cluster command
    bit 1     reserved, kept as read
    bit 2     manufacturer-specific (0x04)
    bit 3     direction: set on a reply, server to client (0x08)
    bit 4     disable default response (0x10)
    bits 5-7  reserved, kept as read

  The byte is the only state; every flag is a view of it, and each setter
  rewrites one bit and leaves the other seven as they were.
 */
module FrameControls {
  import opened Wire

  datatype FrameType = GlobalCommand | ClusterCommand

  /** The byte cut into its sub-fields, lowest bit first. */
  datatype Fields = Fields(
    clusterSpecific: bool,
    reserved1: bool,
    manufacturerSpecific: bool,
    isReply: bool,
    disableDefaultResponse: bool,
    reservedHigh: nat)

  predicate ValidFields(f: Fields) {
    f.reservedHigh < 8
  }

  function BitValue(bit: bool): nat {
    if bit then 1 else 0
  }

  /** The byte with the given sub-fields. */
  function Pack(f: Fields): byte
    requires ValidFields(f)
  {
    BitValue(f.clusterSpecific) + 0x02 * BitValue(f.reserved1)
    + 0x04 * BitValue(f.manufacturerSpecific) + 0x08 * BitValue(f.isReply)
    + 0x10 * BitValue(f.disableDefaultResponse) + 0x20 * f.reservedHigh
  }

  /** The sub-fields of a byte, read off by halving it bit by bit. */
  function Unpack(b: byte): (f: Fields)
    ensures ValidFields(f) && Pack(f) == b
  {
    var h1 := b / 2;
    var h2 := h1 / 2;
    var h3 := h2 / 2;
    var h4 := h3 / 2;
    var h5 := h4 / 2;
    Fields(b % 2 == 1, h1 % 2 == 1, h2 % 2 == 1, h3 % 2 == 1, h4 % 2 == 1, h5)
  }

  /** Different sub-fields never pack to the same byte. */
  lemma UnpackPack(f: Fields)
    requires ValidFields(f)
    ensures Unpack(Pack(f)) == f
  {
    var b := Pack(f);
    var h1 := 0x01 * BitValue(f.reserved1) + 0x02 * BitValue(f.manufacturerSpecific)
              + 0x04 * BitValue(f.isReply) + 0x08 * BitValue(f.disableDefaultResponse)
              + 0x10 * f.reservedHigh;
    var h2 := 0x01 * BitValue(f.manufacturerSpecific) + 0x02 * BitValue(f.isReply)
              + 0x04 * BitValue(f.disableDefaultResponse) + 0x08 * f.reservedHigh;
    var h3 := 0x01 * BitValue(f.isReply) + 0x02 * BitValue(f.disableDefaultResponse)
              + 0x04 * f.reservedHigh;
    var h4 := 0x01 * BitValue(f.disableDefaultResponse) + 0x02 * f.reservedHigh;
    assert b / 2 == h1 && b % 2 == BitValue(f.clusterSpecific);
    assert h1 / 2 == h2 && h1 % 2 == BitValue(f.reserved1);
    assert h2 / 2 == h3 && h2 % 2 == BitValue(f.manufacturerSpecific);
    assert h3 / 2 == h4 && h3 % 2 == BitValue(f.isReply);
    assert h4 / 2 == f.reservedHigh && h4 % 2 == BitValue(f.disableDefaultResponse);
  }

  /** The three independently settable flags. */
  datatype Flag = ManufacturerSpecificBit | ReplyBit | DisableDefaultResponseBit

  /** The bit each flag occupies. */
  function Mask(flag: Flag): byte {
    match flag
    case ManufacturerSpecificBit => 0x04
    case ReplyBit => 0x08
    case DisableDefaultResponseBit => 0x10
  }

  function FieldOf(f: Fields, flag: Flag): bool {
    match flag
    case ManufacturerSpecificBit => f.manufacturerSpecific
    case ReplyBit => f.isReply
    case DisableDefaultResponseBit => f.disableDefaultResponse
  }

  /** The sub-fields with one flag replaced and every other field copied. */
  function WithField(f: Fields, flag: Flag, on: bool): Fields {
    match flag
    case ManufacturerSpecificBit => f.(manufacturerSpecific := on)
    case ReplyBit => f.(isReply := on)
    case DisableDefaultResponseBit => f.(disableDefaultResponse := on)
  }

  /** Replacing one flag changes the packed byte by that flag's mask only. */
  lemma PackWithField(f: Fields, flag: Flag, on: bool)
    requires ValidFields(f)
    ensures ValidFields(WithField(f, flag, on))
    ensures Pack(WithField(f, flag, on))
            == Pack(f) - BitValue(FieldOf(f, flag)) * Mask(flag) + BitValue(on) * Mask(flag)
    ensures FieldOf(WithField(f, flag, on), flag) == on
    ensures forall other :: other != flag ==> FieldOf(WithField(f, flag, on), other) == FieldOf(f, other)
  {
    match flag
    case ManufacturerSpecificBit =>
    case ReplyBit =>
    case DisableDefaultResponseBit =>
  }

  /** Whether a flag is set in a frame-control byte. */
  predicate FlagOf(b: byte, flag: Flag) {
    FieldOf(Unpack(b), flag)
  }

  function FrameTypeOf(b: byte): FrameType {
    if Unpack(b).clusterSpecific then ClusterCommand else GlobalCommand
  }

  /** Replacing a flag keeps the frame type. */
  lemma WithFieldFrameType(b: byte, flag: Flag, on: bool)
    ensures ValidFields(WithField(Unpack(b), flag, on))
    ensures FrameTypeOf(Pack(WithField(Unpack(b), flag, on))) == FrameTypeOf(b)
  {
    var fields := Unpack(b);
    var f := WithField(fields, flag, on);
    assert f.clusterSpecific == fields.clusterSpecific && f.reservedHigh == fields.reservedHigh;
    UnpackPack(f);
    assert Unpack(Pack(f)).clusterSpecific == fields.clusterSpecific;
  }

  /**
    The byte with one flag set or cleared: `(b & ~mask) | (on ? mask : 0)`.
    That flag reads back as `on`; the frame type, the other flags and the
    reserved bits are those of b; setting a flag to the value it already has
    leaves the byte as it was, and setting a clear flag adds its mask.
   */
  function WithFlag(b: byte, flag: Flag, on: bool): (r: byte)
    ensures Unpack(r) == WithField(Unpack(b), flag, on)
    ensures FlagOf(r, flag) == on
    ensures forall other :: other != flag ==> FlagOf(r, other) == FlagOf(b, other)
    ensures FrameTypeOf(r) == FrameTypeOf(b)
    ensures r == b - (if FlagOf(b, flag) then Mask(flag) else 0) + (if on then Mask(flag) else 0)
  {
    var fields := Unpack(b);
    var f := WithField(fields, flag, on);
    PackWithField(fields, flag, on);
    UnpackPack(f);
    WithFieldFrameType(b, flag, on);
    Pack(f)
  }

  /** The byte with the frame-type bit replaced and every other bit kept. */
  function WithFrameType(b: byte, ft: FrameType): (r: byte)
    ensures FrameTypeOf(r) == ft
    ensures forall flag :: FlagOf(r, flag) == FlagOf(b, flag)
    ensures Unpack(r) == Unpack(b).(clusterSpecific := ft == ClusterCommand)
  {
    var f := Unpack(b).(clusterSpecific := ft == ClusterCommand);
    UnpackPack(f);
    Pack(f)
  }

  /** The byte `general`/`cluster` start from: reply sets both bits 3 and 4. */
  function InitialByte(ft: FrameType, isReply: bool): (r: byte)
    ensures FrameTypeOf(r) == ft
    ensures FlagOf(r, ReplyBit) == isReply && FlagOf(r, DisableDefaultResponseBit) == isReply
    ensures !FlagOf(r, ManufacturerSpecificBit)
    ensures !Unpack(r).reserved1 && Unpack(r).reservedHigh == 0
  {
    var f := Fields(ft == ClusterCommand, false, false, isReply, isReply, 0);
    UnpackPack(f);
    Pack(f)
  }

  /** The four starting bytes: 00, 18 for general, 01, 19 for cluster. */
  lemma InitialBytes()
    ensures InitialByte(GlobalCommand, false) == 0x00 && InitialByte(GlobalCommand, true) == 0x18
    ensures InitialByte(ClusterCommand, false) == 0x01 && InitialByte(ClusterCommand, true) == 0x19
  {
  }

  /** 0x00 reads as a global command and 0x01 as a cluster command. */
  lemma FrameTypeBytes()
    ensures FrameTypeOf(0x00) == GlobalCommand && FrameTypeOf(0x01) == ClusterCommand
  {
  }

  /** The frame-control byte of a frame, mutated in place through its setters. */
  class FrameControl {
    var value: byte

    /** A frame control holding the given byte, as deserializing builds it. */
    constructor (value: byte)
      ensures this.value == value
    {
      this.value := value;
    }

    /** `FrameControl.general(is_reply)`. */
    constructor General(isReply: bool)
      ensures value == InitialByte(GlobalCommand, isReply)
      ensures IsGeneral() && !IsCluster()
      ensures IsReply() == isReply && DisableDefaultResponse() == isReply
      ensures !IsManufacturerSpecific()
    {
      value := InitialByte(GlobalCommand, isReply);
    }

    /** `FrameControl.cluster(is_reply)`. */
    constructor Cluster(isReply: bool)
      ensures value == InitialByte(ClusterCommand, isReply)
      ensures IsCluster() && !IsGeneral()
      ensures IsReply() == isReply && DisableDefaultResponse() == isReply
      ensures !IsManufacturerSpecific()
    {
      value := InitialByte(ClusterCommand, isReply);
    }

    /** `frc.frame_type`: bit 0 set is a cluster command, clear a global one. */
    function FrameType(): (ft: FrameType)
      reads this
      ensures ft == (if value % 2 == 1 then ClusterCommand else GlobalCommand)
    {
      FrameTypeOf(value)
    }

    /** `frc.is_general`: bit 0 is clear. */
    predicate IsGeneral()
      reads this
      ensures IsGeneral() <==> value % 2 == 0
    {
      FrameType() == GlobalCommand
    }

    /** `frc.is_cluster`: bit 0 is set. */
    predicate IsCluster()
      reads this
      ensures IsCluster() <==> value % 2 == 1
    {
      FrameType() == ClusterCommand
    }

    /** `frc.is_manufacturer_specific`: bit 2 (0x04) is set. */
    predicate IsManufacturerSpecific()
      reads this
      ensures IsManufacturerSpecific() <==> (value / 0x04) % 2 == 1
    {
      FlagOf(value, ManufacturerSpecificBit)
    }

    /** `frc.is_reply`: bit 3 (0x08) is set. */
    predicate IsReply()
      reads this
      ensures IsReply() <==> (value / 0x08) % 2 == 1
    {
      FlagOf(value, ReplyBit)
    }

    /** `frc.disable_default_response`: bit 4 (0x10) is set. */
    predicate DisableDefaultResponse()
      reads this
      ensures DisableDefaultResponse() <==> (value / 0x10) % 2 == 1
    {
      FlagOf(value, DisableDefaultResponseBit)
    }

    /** Sets one flag; see WithFlag for what happens to the rest of the byte. */
    method SetFlag(flag: Flag, on: bool)
      modifies this
      ensures value == WithFlag(old(value), flag, on)
      ensures FlagOf(value, flag) == on
      ensures forall other :: other != flag ==> FlagOf(value, other) == old(FlagOf(value, other))
      ensures FrameType() == old(FrameType())
      ensures on == old(FlagOf(value, flag)) ==> value == old(value)
    {
      value := WithFlag(value, flag, on);
    }

    /** `frc.is_manufacturer_specific = on`. */
    method SetManufacturerSpecific(on: bool)
      modifies this
      ensures value == WithFlag(old(value), ManufacturerSpecificBit, on)
      ensures IsManufacturerSpecific() == on
      ensures IsReply() == old(IsReply()) && DisableDefaultResponse() == old(DisableDefaultResponse())
      ensures FrameType() == old(FrameType())
    {
      SetFlag(ManufacturerSpecificBit, on);
    }

    /** `frc.is_reply = on`. */
    method SetReply(on: bool)
      modifies this
      ensures value == WithFlag(old(value), ReplyBit, on)
      ensures IsReply() == on
      ensures IsManufacturerSpecific() == old(IsManufacturerSpecific())
      ensures DisableDefaultResponse() == old(DisableDefaultResponse())
      ensures FrameType() == old(FrameType())
    {
      SetFlag(ReplyBit, on);
    }

    /** `frc.disable_default_response = on`. */
    method SetDisableDefaultResponse(on: bool)
      modifies this
      ensures value == WithFlag(old(value), DisableDefaultResponseBit, on)
      ensures DisableDefaultResponse() == on
      ensures IsManufacturerSpecific() == old(IsManufacturerSpecific()) && IsReply() == old(IsReply())
      ensures FrameType() == old(FrameType())
    {
      SetFlag(DisableDefaultResponseBit, on);
    }

    /** `frc.frame_type = ft`. */
    method SetFrameType(ft: FrameType)
      modifies this
      ensures value == WithFrameType(old(value), ft)
      ensures FrameType() == ft
      ensures forall flag :: FlagOf(value, flag) == old(FlagOf(value, flag))
    {
      value := WithFrameType(value, ft);
    }

    /** The frame control is sent as its one byte. */
    method Serialize() returns (data: seq<byte>)
      ensures data == [value]
      ensures ReadByte(data) == Ok((value, []))
    {
      data := [value];
    }

    /**
      Consumes exactly one byte and returns the rest untouched; fails only on
      an empty buffer.
     */
    static method Deserialize(data: seq<byte>) returns (r: Result<(FrameControl, seq<byte>)>)
      ensures r.Err? <==> data == []
      ensures r.Ok? ==> fresh(r.value.0) && r.value.0.value == data[0] && r.value.1 == data[1..]
    {
      if data == [] {
        return Err(InsufficientData);
      }
      var frc := new FrameControl(data[0]);
      r := Ok((frc, data[1..]));
    }
  }

  /** The manufacturer and reply flags set on a fresh general frame control from byte 00 give 04 and 08. */
  method GeneralFlagsScenario() {
    var frc := new FrameControl.General(false);
    InitialBytes();
    assert frc.value == 0x00 && frc.IsGeneral() && !frc.IsCluster();
    frc.SetManufacturerSpecific(false);
    assert frc.value == 0x00;
    frc.SetManufacturerSpecific(true);
    assert frc.value == 0x04;

    frc := new FrameControl.General(false);
    frc.SetReply(false);
    assert frc.value == 0x00;
    frc.SetReply(true);
    assert frc.value == 0x08;
  }

  /** Disable-default-response on a fresh general frame control gives 10; a reply starts at 18. */
  method GeneralDefaultResponseScenario() {
    var frc := new FrameControl.General(false);
    InitialBytes();
    frc.SetDisableDefaultResponse(false);
    assert frc.value == 0x00;
    frc.SetDisableDefaultResponse(true);
    assert frc.value == 0x10;

    frc := new FrameControl.General(true);
    assert frc.value == 0x18;
  }

  /** The same on a cluster frame control from byte 01: 05 and 09. */
  method ClusterFlagsScenario() {
    var frc := new FrameControl.Cluster(false);
    InitialBytes();
    assert frc.value == 0x01 && frc.IsCluster() && !frc.IsGeneral();
    frc.SetManufacturerSpecific(false);
    assert frc.value == 0x01;
    frc.SetManufacturerSpecific(true);
    assert frc.value == 0x05;

    frc := new FrameControl.Cluster(false);
    frc.SetReply(false);
    assert frc.value == 0x01;
    frc.SetReply(true);
    assert frc.value == 0x09;
  }

  /** Disable-default-response on a fresh cluster frame control gives 11; a reply starts at 19. */
  method ClusterDefaultResponseScenario() {
    var frc := new FrameControl.Cluster(false);
    InitialBytes();
    frc.SetDisableDefaultResponse(false);
    assert frc.value == 0x01;
    frc.SetDisableDefaultResponse(true);
    assert frc.value == 0x11;

    frc := new FrameControl.Cluster(true);
    assert frc.value == 0x19;
  }

  /** 00 and 01 followed by other bytes: one byte consumed, global then cluster; setting cluster keeps it. */
  method FrameTypeScenario() {
    var extra := [0x61, 0x62, 0x63, 0x64, 0xAA, 0x55];
    FrameTypeBytes();
    var r := FrameControl.Deserialize([0x00] + extra);
    assert r.Ok? && r.value.1 == extra;
    assert r.value.0.FrameType() == GlobalCommand;
    r := FrameControl.Deserialize([0x01] + extra);
    assert r.Ok? && r.value.1 == extra;
    var frc := r.value.0;
    assert frc.FrameType() == ClusterCommand;
    frc.SetFrameType(ClusterCommand);
    assert frc.FrameType() == ClusterCommand && frc.value == 0x01;
  }
}
