/**
 * The 8-byte pvAccess message header. A flag byte is a number in [0, 256); the
 * masks of the original become the digits they select:
 *   bit 0 control, bits 4-5 segmentation, bit 6 direction, bit 7 byte order.
 */
module Header {
  import opened Wrappers
  import opened PvData

  const PVA_MAGIC: byte := 0xCA
  const HEADER_SIZE: nat := 8

  datatype Segmentation = Whole | First | Last | Middle {
    static function FromFlags(flags: byte): Segmentation {
      match flags / 16 % 4
      case 0 => Whole
      case 1 => First
      case 2 => Last
      case _ => Middle
    }

    function ToBits(): byte {
      match this
      case Whole => 0x00
      case First => 0x10
      case Last => 0x20
      case Middle => 0x30
    }
  }

  function OrderOfFlags(flags: byte): ByteOrder {
    if flags / 128 % 2 != 0 then BigEndian else LittleEndian
  }

  function OrderBits(order: ByteOrder): byte {
    match order
    case LittleEndian => 0x00
    case BigEndian => 0x80
  }

  datatype PvaHeader = PvaHeader(version: byte, flags: byte, command: byte, payloadSize: i32) {
    predicate IsControl() {
      flags % 2 != 0
    }

    predicate IsFromServer() {
      flags / 64 % 2 != 0
    }

    function Order(): ByteOrder {
      OrderOfFlags(flags)
    }

    function Segment(): Segmentation {
      Segmentation.FromFlags(flags)
    }

    /** Clear the segmentation bits, then put in the new ones. */
    function WithSegmentation(seg: Segmentation): PvaHeader {
      this.(flags := flags - flags / 16 % 4 * 16 + seg.ToBits())
    }

    function WithByteOrder(order: ByteOrder): PvaHeader {
      this.(flags := flags % 128 + OrderBits(order))
    }

    function Encode(): (bytes: seq<byte>)
      ensures |bytes| == HEADER_SIZE
    {
      [PVA_MAGIC, version, flags, command] + I32Bytes(Order(), payloadSize)
    }

    static function Decode(bytes: seq<byte>): Option<PvaHeader>
      requires |bytes| == HEADER_SIZE
    {
      if bytes[0] != PVA_MAGIC then None
      else Some(PvaHeader(bytes[1], bytes[2], bytes[3], I32Of(OrderOfFlags(bytes[2]), bytes[4..])))
    }
  }

  /** Encoding then decoding gives the header back, in both byte orders and for negative sizes. */
  lemma HeaderRoundTrip(h: PvaHeader)
    ensures PvaHeader.Decode(h.Encode()) == Some(h)
  {
    assert h.Encode()[4..] == I32Bytes(h.Order(), h.payloadSize);
    I32RoundTrip(h.Order(), h.payloadSize);
  }

  /** Exactly the 8-byte strings that start with the magic byte are headers, each of one header only. */
  lemma HeaderBijection(bytes: seq<byte>)
    requires |bytes| == HEADER_SIZE
    ensures PvaHeader.Decode(bytes).Some? <==> bytes[0] == PVA_MAGIC
    ensures PvaHeader.Decode(bytes).Some? ==> PvaHeader.Decode(bytes).value.Encode() == bytes
  {
    I32Surjective(OrderOfFlags(bytes[2]), bytes[4..]);
  }

  /** The fields of a flag byte are its digits, and they determine it. */
  lemma FlagDigits(order: int, server: int, seg: int, low: int, flags: int)
    requires 0 <= order < 2 && 0 <= server < 2 && 0 <= seg < 4 && 0 <= low < 16
    requires flags == order * 128 + server * 64 + seg * 16 + low
    ensures 0 <= flags < 256
    ensures flags / 128 % 2 == order && flags / 64 % 2 == server && flags / 16 % 4 == seg
    ensures flags % 128 == flags - order * 128 && flags % 16 == low && flags % 2 == low % 2
  {
    assert flags / 16 == order * 8 + server * 4 + seg;
    assert flags / 64 == order * 2 + server;
    assert flags / 128 == order;
  }

  /** What the digits of a flag byte say. */
  lemma FlagReadings(h: PvaHeader, order: int, server: int, seg: int, low: int)
    requires 0 <= order < 2 && 0 <= server < 2 && 0 <= seg < 4 && 0 <= low < 16
    requires h.flags == order * 128 + server * 64 + seg * 16 + low
    ensures h.Order() == if order == 1 then BigEndian else LittleEndian
    ensures h.IsFromServer() <==> server == 1
    ensures h.Segment() == [Whole, First, Last, Middle][seg]
    ensures h.IsControl() <==> low % 2 == 1
  {
    FlagDigits(order, server, seg, low, h.flags);
  }

  /** Where the fields are in the eight bytes; the sign bit of the flag byte says which end of the size comes first. */
  lemma HeaderOnBytes(magic: byte, version: byte, flags: byte, command: byte, a: byte, b: byte, c: byte, d: byte)
    ensures var u: int := a as int + 0x100 * b as int + 0x1_0000 * c as int + 0x100_0000 * d as int;
      var size := if d < 0x80 then u else u - 0x1_0000_0000;
      var bytes := [magic, version, flags, command] + if flags < 0x80 then [a, b, c, d] else [d, c, b, a];
      PvaHeader.Decode(bytes)
        == if magic == 0xCA then Some(PvaHeader(version, flags, command, size)) else None
  {
    hide I32Of, I32Bytes;
    I32ByPosition(a, b, c, d);
    var size := if flags < 0x80 then [a, b, c, d] else [d, c, b, a];
    assert ([magic, version, flags, command] + size)[4..] == size;
  }

  lemma FlagsHaveDigits(flags: byte)
    ensures flags == flags / 128 % 2 * 128 + flags / 64 % 2 * 64 + flags / 16 % 4 * 16 + flags % 16
  {
    assert flags / 64 == flags / 16 / 4 && flags / 128 == flags / 64 / 2;
  }

  /** Setting the segmentation changes that reading of the flags and no other, and can be undone. */
  lemma WithSegmentationSetsOnlySegmentation(h: PvaHeader, seg: Segmentation)
    ensures var r := h.WithSegmentation(seg);
      && r.Segment() == seg && r.Order() == h.Order()
      && r.IsControl() == h.IsControl() && r.IsFromServer() == h.IsFromServer()
      && r.WithSegmentation(h.Segment()) == h
  {
    var f := h.flags;
    FlagsHaveDigits(f);
    FlagDigits(f / 128 % 2, f / 64 % 2, f / 16 % 4, f % 16, f);
    FlagDigits(f / 128 % 2, f / 64 % 2, seg.ToBits() / 16, f % 16, h.WithSegmentation(seg).flags);
  }

  /** Setting the byte order changes how the size is written, not what it is. */
  lemma WithByteOrderSetsOnlyOrder(h: PvaHeader, order: ByteOrder)
    ensures var r := h.WithByteOrder(order);
      && r.Order() == order && r.Segment() == h.Segment()
      && r.IsControl() == h.IsControl() && r.IsFromServer() == h.IsFromServer()
      && PvaHeader.Decode(r.Encode()) == Some(r)
      && r.WithByteOrder(h.Order()) == h
  {
    var f := h.flags;
    FlagsHaveDigits(f);
    FlagDigits(f / 128 % 2, f / 64 % 2, f / 16 % 4, f % 16, f);
    FlagDigits(OrderBits(order) / 128, f / 64 % 2, f / 16 % 4, f % 16, h.WithByteOrder(order).flags);
    HeaderRoundTrip(h.WithByteOrder(order));
  }
}
