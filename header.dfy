/**
  The ZCL frame header (section 2.4.1 of the Zigbee Cluster Library
  Specification, 07-5123): the frame-control byte, a little-endian 16-bit
  manufacturer code that is on the wire only when the frame control's
  manufacturer-specific flag is set, the transaction sequence number, and the
  command id.
 */
module Headers {
  import opened Wire
  import opened FrameControls

  /** The header's contents as a value. */
  datatype Header = Header(frameControl: byte, manufacturer: Option<uint16>, tsn: byte, commandId: byte)

  predicate HasManufacturerFlag(h: Header) {
    FlagOf(h.frameControl, ManufacturerSpecificBit)
  }

  /** A header can be sent when a set manufacturer-specific flag has a code to go with it. */
  predicate Serializable(h: Header) {
    HasManufacturerFlag(h) ==> h.manufacturer.Some?
  }

  /** Exactly the manufacturer code the flag puts on the wire, and nothing when it is clear. */
  predicate Canonical(h: Header) {
    h.manufacturer.Some? == HasManufacturerFlag(h)
  }

  /** Frame control, the manufacturer code only if the flag is set, tsn, command id. */
  function EncodeHeader(h: Header): (r: seq<byte>)
    requires Serializable(h)
    ensures |r| == if HasManufacturerFlag(h) then 5 else 3
    ensures r[0] == h.frameControl && r[|r| - 2] == h.tsn && r[|r| - 1] == h.commandId
  {
    [h.frameControl]
    + (if HasManufacturerFlag(h) then EncodeU16(h.manufacturer.value) else [])
    + [h.tsn, h.commandId]
  }

  /**
    Reads the frame control, then a manufacturer code exactly when its flag
    is set, then tsn and command id; fails only when the buffer is too short,
    and the bytes it consumed are exactly the encoding of what it returns.
   */
  function DecodeHeader(data: seq<byte>): (r: Result<(Header, seq<byte>)>)
    ensures r.Err? <==> |data| < (if |data| > 0 && FlagOf(data[0], ManufacturerSpecificBit) then 5 else 3)
    ensures r.Err? ==> r.error == InsufficientData
    ensures r.Ok? ==> Canonical(r.value.0) && data == EncodeHeader(r.value.0) + r.value.1
  {
    var fc :- ReadByte(data);
    var mfr :- if FlagOf(fc.0, ManufacturerSpecificBit)
               then (match ReadU16(fc.1)
                     case Ok(m) => Ok((Some(m.0), m.1))
                     case Err(e) => Err(e))
               else Ok((None, fc.1));
    var tsn :- ReadByte(mfr.1);
    var cmd :- ReadByte(tsn.1);
    var h := Header(fc.0, mfr.0, tsn.0, cmd.0);
    assert data == EncodeHeader(h) + cmd.1;
    Ok((h, cmd.1))
  }

  /** What decoding gives back: the manufacturer code is dropped when the flag is clear. */
  function Normalized(h: Header): (n: Header)
    requires Serializable(h)
    ensures Canonical(n)
  {
    if HasManufacturerFlag(h) then h else h.(manufacturer := None)
  }

  /**
    Header round trip: decoding the encoding gives the same frame control,
    tsn and command id, the manufacturer code exactly when the flag is set,
    and hands the remainder back untouched.
   */
  lemma HeaderRoundTrip(h: Header, rest: seq<byte>)
    requires Serializable(h)
    ensures DecodeHeader(EncodeHeader(h) + rest) == Ok((Normalized(h), rest))
  {
    var data := EncodeHeader(h) + rest;
    if HasManufacturerFlag(h) {
      assert data[1..] == EncodeU16(h.manufacturer.value) + ([h.tsn, h.commandId] + rest);
      ReadU16Encoded(h.manufacturer.value, [h.tsn, h.commandId] + rest);
    } else {
      assert data[1..] == [h.tsn, h.commandId] + rest;
    }
  }

  /** With the flag set the header carries two more bytes than with it clear. */
  lemma ManufacturerCodeLength(h: Header, code: uint16)
    ensures var on := h.(frameControl := WithFlag(h.frameControl, ManufacturerSpecificBit, true),
                         manufacturer := Some(code));
            var off := h.(frameControl := WithFlag(h.frameControl, ManufacturerSpecificBit, false),
                          manufacturer := None);
            |EncodeHeader(on)| == |EncodeHeader(off)| + 2
  {
  }

  /**
    1c 5f 11 c0 0a: a reply with manufacturer 0x115F, tsn 0xC0, command 0x0A,
    with what follows left untouched; clearing the manufacturer-specific flag
    drops the two manufacturer bytes.
   */
  lemma ManufacturerHeaderExample(extra: seq<byte>)
    ensures var data := [0x1C, 0x5F, 0x11, 0xC0, 0x0A];
            var h := Header(0x1C, Some(0x115F), 0xC0, 0x0A);
            && DecodeHeader(data + extra) == Ok((h, extra))
            && FlagOf(h.frameControl, ReplyBit)
            && EncodeHeader(h) == data
            && EncodeHeader(h.(frameControl := WithFlag(0x1C, ManufacturerSpecificBit, false)))
               == [0x18, 0xC0, 0x0A]
  {
    var h := Header(0x1C, Some(0x115F), 0xC0, 0x0A);
    assert Unpack(0x1C) == Fields(false, false, true, true, true, 0);
    assert FlagOf(0x1C, ManufacturerSpecificBit) && FlagOf(0x1C, ReplyBit);
    assert WithFlag(0x1C, ManufacturerSpecificBit, false) == 0x18;
    assert Unpack(0x18) == Fields(false, false, false, true, true, 0);
    assert EncodeU16(0x115F) == [0x5F, 0x11];
    assert EncodeHeader(h) == [0x1C, 0x5F, 0x11, 0xC0, 0x0A];
    assert EncodeHeader(h.(frameControl := 0x18)) == [0x18, 0xC0, 0x0A];
    HeaderRoundTrip(h, extra);
  }

  /**
    A frame header, whose frame control is its own object that callers may
    also mutate directly.
   */
  class ZCLHeader {
    const frameControl: FrameControl
    var manufacturer: Option<uint16>
    var tsn: byte
    var commandId: byte

    /** A set manufacturer-specific flag always has a manufacturer code to send. */
    ghost predicate Valid()
      reads this, frameControl
    {
      frameControl.IsManufacturerSpecific() ==> manufacturer.Some?
    }

    /** The header's contents. */
    function View(): Header
      reads this, frameControl
    {
      Header(frameControl.value, manufacturer, tsn, commandId)
    }

    /**
      A header around a given frame control: its manufacturer-specific flag is
      set exactly when a code is supplied, and its other bits are kept.
     */
    constructor (frameControl: FrameControl, manufacturer: Option<uint16>, tsn: byte, commandId: byte)
      modifies frameControl
      ensures Valid()
      ensures this.frameControl == frameControl && this.manufacturer == manufacturer
      ensures frameControl.value == WithFlag(old(frameControl.value), ManufacturerSpecificBit, manufacturer.Some?)
      ensures frameControl.IsManufacturerSpecific() == manufacturer.Some?
      ensures this.tsn == tsn && this.commandId == commandId
    {
      frameControl.SetManufacturerSpecific(manufacturer.Some?);
      this.frameControl := frameControl;
      this.manufacturer := manufacturer;
      this.tsn := tsn;
      this.commandId := commandId;
    }

    /**
      `ZCLHeader.general(tsn, command_id, manufacturer, is_reply)`: a global
      command whose manufacturer-specific flag is set exactly when a code is
      supplied.
     */
    constructor General(tsn: byte, commandId: byte, manufacturer: Option<uint16>, isReply: bool)
      ensures Valid() && fresh(frameControl)
      ensures frameControl.value == WithFlag(InitialByte(GlobalCommand, isReply), ManufacturerSpecificBit, manufacturer.Some?)
      ensures frameControl.FrameType() == GlobalCommand && frameControl.IsReply() == isReply
      ensures frameControl.IsManufacturerSpecific() == manufacturer.Some?
      ensures this.manufacturer == manufacturer && this.tsn == tsn && this.commandId == commandId
    {
      var frc := new FrameControl.General(isReply);
      frc.SetManufacturerSpecific(manufacturer.Some?);
      this.frameControl := frc;
      this.manufacturer := manufacturer;
      this.tsn := tsn;
      this.commandId := commandId;
    }

    /** `ZCLHeader.cluster(tsn, command_id, manufacturer, is_reply)`: the same for a cluster command. */
    constructor Cluster(tsn: byte, commandId: byte, manufacturer: Option<uint16>, isReply: bool)
      ensures Valid() && fresh(frameControl)
      ensures frameControl.value == WithFlag(InitialByte(ClusterCommand, isReply), ManufacturerSpecificBit, manufacturer.Some?)
      ensures frameControl.FrameType() == ClusterCommand && frameControl.IsReply() == isReply
      ensures frameControl.IsManufacturerSpecific() == manufacturer.Some?
      ensures this.manufacturer == manufacturer && this.tsn == tsn && this.commandId == commandId
    {
      var frc := new FrameControl.Cluster(isReply);
      frc.SetManufacturerSpecific(manufacturer.Some?);
      this.frameControl := frc;
      this.manufacturer := manufacturer;
      this.tsn := tsn;
      this.commandId := commandId;
    }

    /** `hdr.is_reply`, read through the frame control. */
    predicate IsReply()
      reads this, frameControl
      ensures IsReply() <==> (frameControl.value / 0x08) % 2 == 1
    {
      frameControl.IsReply()
    }

    /**
      `hdr.manufacturer = m`: stores the code and sets the manufacturer-specific
      flag exactly when there is one; every other bit, the tsn and the command
      id stay as they were.
     */
    method SetManufacturer(m: Option<uint16>)
      modifies this, frameControl
      ensures Valid()
      ensures manufacturer == m && frameControl.IsManufacturerSpecific() == m.Some?
      ensures frameControl.value == WithFlag(old(frameControl.value), ManufacturerSpecificBit, m.Some?)
      ensures tsn == old(tsn) && commandId == old(commandId)
    {
      frameControl.SetManufacturerSpecific(m.Some?);
      manufacturer := m;
    }

    /** The header's bytes: the manufacturer code goes out only while the flag is set. */
    method Serialize() returns (data: seq<byte>)
      requires Valid()
      ensures data == EncodeHeader(View())
      ensures DecodeHeader(data) == Ok((Normalized(View()), []))
    {
      var fc := frameControl.value;
      data := [fc];
      if frameControl.IsManufacturerSpecific() {
        data := data + EncodeU16(manufacturer.value);
      }
      data := data + [tsn, commandId];
      HeaderRoundTrip(View(), []);
      assert EncodeHeader(View()) + [] == EncodeHeader(View());
    }

    /** A fresh header (with a fresh frame control) decoded from the front of data. */
    static method Deserialize(data: seq<byte>) returns (r: Result<(ZCLHeader, seq<byte>)>)
      ensures r.Err? <==> DecodeHeader(data).Err?
      ensures r.Ok? ==> var hdr := r.value.0;
                        && fresh(hdr) && fresh(hdr.frameControl) && hdr.Valid()
                        && DecodeHeader(data) == Ok((hdr.View(), r.value.1))
    {
      match DecodeHeader(data)
      case Err(e) =>
        r := Err(e);
      case Ok(p) =>
        var frc := new FrameControl(p.0.frameControl);
        var hdr := new ZCLHeader(frc, p.0.manufacturer, p.0.tsn, p.0.commandId);
        r := Ok((hdr, p.1));
    }
  }

  /** Decoding, re-encoding and clearing the flag through the frame control object. */
  method HeaderScenario() {
    var extra := [0xAA, 0xAA, 0x55, 0x55];
    ManufacturerHeaderExample(extra);
    var r := ZCLHeader.Deserialize([0x1C, 0x5F, 0x11, 0xC0, 0x0A] + extra);
    assert r.Ok?;
    var hdr := r.value.0;
    assert r.value.1 == extra;
    assert hdr.commandId == 0x0A && hdr.tsn == 0xC0 && hdr.manufacturer == Some(0x115F);
    assert hdr.IsReply();
    var data := hdr.Serialize();
    assert data == [0x1C, 0x5F, 0x11, 0xC0, 0x0A];
    hdr.frameControl.SetManufacturerSpecific(false);
    data := hdr.Serialize();
    assert data == [0x18, 0xC0, 0x0A];
  }

  /** `general`/`cluster` with a manufacturer code, then `manufacturer = None`. */
  method ManufacturerScenario() {
    var hdr := new ZCLHeader.General(0x11, 0x15, Some(0x3344), false);
    assert hdr.frameControl.FrameType() == GlobalCommand && hdr.frameControl.IsManufacturerSpecific();
    hdr.SetManufacturer(None);
    assert hdr.manufacturer == None && !hdr.frameControl.IsManufacturerSpecific();

    hdr := new ZCLHeader.Cluster(0x11, 0x16, Some(0x3344), false);
    assert hdr.frameControl.FrameType() == ClusterCommand && hdr.frameControl.IsManufacturerSpecific();
    hdr.SetManufacturer(None);
    assert hdr.manufacturer == None && !hdr.frameControl.IsManufacturerSpecific();
  }
}
