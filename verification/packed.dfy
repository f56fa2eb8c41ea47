/**
 * A box before its payload is interpreted (src/boxes/packed.rs): a header
 * paired with its data, and the exact bytes it puts on the wire.
 */
module BoxPacked {
  import opened Endian
  import opened BoxData
  import opened BoxHeader

  datatype BoxPack = BoxPack(header: Header, data: Data)

  /** The header declares exactly the length of the data it travels with. */
  predicate SizeMatches(p: BoxPack) {
    p.header.dataSize == Len(p.data)
  }

  /** `BoxPack::new`: the header is derived from the data it is paired with. */
  function New(data: Data, dataType: uint16, queue: uint8): (p: BoxPack)
    ensures p.data == data
    ensures p.header.dataSize == Len(data) % 0x1_0000_0000
    ensures p.header.dataType == dataType && p.header.queue == queue
    ensures Len(data) < 0x1_0000_0000 <==> SizeMatches(p)
  {
    BoxPack(BuildForData(data, dataType, queue), data)
  }

  /** `box_to_owned`: the header is kept, the data is detached. */
  function BoxToOwned(p: BoxPack): (r: BoxPack)
    ensures r.header == p.header
    ensures r.data.Owned?
    ensures Deref(r.data) == Deref(p.data)
    ensures SizeMatches(r) <==> SizeMatches(p)
  {
    BoxPack(p.header, ToOwned(p.data))
  }

  /** `make_packet`: the header array immediately followed by the data bytes. */
  function MakePacket(p: BoxPack): (packet: seq<uint8>)
    ensures |packet| == SIZE + Len(p.data)
    ensures packet[..SIZE] == IntoArray(p.header)
    ensures packet[SIZE..] == Deref(p.data)
  {
    IntoArray(p.header) + Deref(AsRef(p.data))
  }

  /** The blocking and the suspending write path of the source. */
  datatype WriteMode = Sync | Async

  /**
   * `write_sync` / `write_async` on a sink that has already received
   * `sink`: either mode appends `make_packet()` to what was written.
   */
  function Write(p: BoxPack, mode: WriteMode, sink: seq<uint8>): (r: seq<uint8>)
    ensures |r| == |sink| + SIZE + Len(p.data)
    ensures r[..|sink|] == sink
    ensures r[|sink|..] == MakePacket(p)
  {
    match mode
    case Sync => sink + MakePacket(p)
    case Async => sink + MakePacket(p)
  }

  /**
   * Both write modes emit byte-identical output. In packed.rs:31-40 both
   * paths write `make_packet()`, so this holds by construction; it records
   * that the modes differ only in how they wait.
   */
  lemma WriteModesAgree(p: BoxPack, sink: seq<uint8>)
    ensures Write(p, Sync, sink) == Write(p, Async, sink)
  {
  }

  /** Owning a box does not change the bytes it puts on the wire. */
  lemma BoxToOwnedKeepsPacket(p: BoxPack)
    ensures MakePacket(BoxToOwned(p)) == MakePacket(p)
  {
  }

  /**
   * Framing round trip: a reader that decodes the first SIZE bytes of a
   * packet gets the header back, and the declared size is the number of
   * bytes that follow, provided the data is shorter than 2^32 bytes.
   */
  lemma PacketRoundTrip(data: Data, dataType: uint16, queue: uint8)
    requires Len(data) < 0x1_0000_0000
    ensures var p := New(data, dataType, queue);
            var packet := MakePacket(p);
            && FromArray(packet[..SIZE]) == p.header
            && FromArray(packet[..SIZE]).dataSize == |packet| - SIZE
            && FromArray(packet[..SIZE]).dataType == dataType
            && FromArray(packet[..SIZE]).queue == queue
            && packet[SIZE..] == Deref(data)
  {
    var p := New(data, dataType, queue);
    DecodeEncode(p.header);
  }

  /**
   * The silent narrowing of `build_for_data`: a payload of 2^32 bytes or
   * more is framed with a size that disagrees with the bytes that follow.
   */
  lemma OversizedPayloadDesynchronises(data: Data, dataType: uint16, queue: uint8)
    requires Len(data) >= 0x1_0000_0000
    ensures var packet := MakePacket(New(data, dataType, queue));
            FromArray(packet[..SIZE]).dataSize != |packet| - SIZE
  {
    var p := New(data, dataType, queue);
    DecodeEncode(p.header);
  }

  /** "BQSP" with type 1 and queue 5 (tests/encdec.rs). */
  lemma BoxEncodingExample()
    ensures var p := New(FromSlice([0x42, 0x51, 0x53, 0x50]), 1, 5);
            && p.header.GetDataSize() == 4
            && p.header.GetDataType() == 1
            && p.header.GetDataQueue() == 5
            && MakePacket(p) == [4, 0, 0, 0, 1, 0, 5, 0x42, 0x51, 0x53, 0x50]
  {
    var p := New(FromSlice([0x42, 0x51, 0x53, 0x50]), 1, 5);
    assert LeBytes(4, 4) == [4, 0, 0, 0];
    assert LeBytes(1, 2) == [1, 0];
  }
}
