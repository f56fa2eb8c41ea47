/**
 * The 7-byte header of the 32-bit wire layout (src/syntatic/header.rs):
 * `data_size: u32`, `data_type: u16`, `queue: u8`, each little-endian,
 * packed in that order with no padding.
 */
module BoxHeader {
  import opened Endian
  import opened BoxData

  /** `Header::SIZE`: the sum of the three field widths. */
  const SIZE: nat := U32_BYTES + U16_BYTES + U8_BYTES

  /** `[u8; Header::SIZE]`. */
  type HeaderArray = s: seq<uint8> | |s| == SIZE witness [0, 0, 0, 0, 0, 0, 0]

  datatype Header = Header(dataSize: uint32, dataType: uint16, queue: uint8) {

    function GetDataSize(): (r: uint32)
      ensures r == dataSize
    {
      dataSize
    }

    function GetDataType(): (r: uint16)
      ensures r == dataType
    {
      dataType
    }

    function GetDataQueue(): (r: uint8)
      ensures r == queue
    {
      queue
    }
  }

  lemma SizeIsSeven()
    ensures SIZE == 7
  {
  }

  /**
   * `Header::build_for_data`: the size is the data length cast `as u32`,
   * so lengths of 2^32 and more silently keep only their low 32 bits.
   */
  function BuildForData(data: Data, dataType: uint16, queue: uint8): (h: Header)
    ensures h.dataSize == Len(data) % 0x1_0000_0000
    ensures Len(data) < 0x1_0000_0000 ==> h.dataSize == Len(data)
    ensures h.dataType == dataType && h.queue == queue
  {
    Header(Len(AsRef(data)) % 0x1_0000_0000, dataType, queue)
  }

  // ---------------------------------------------------------------- cursor copies

  /** A destination buffer together with the cursor position after a copy. */
  datatype Copy = Copy(dst: seq<uint8>, cursor: nat)

  /**
   * `copy_bytes_to`: copies the first `count` bytes of `src` into `dst`
   * at `cursor`, then advances the cursor by `count`.
   */
  function CopyBytesTo(src: seq<uint8>, dst: seq<uint8>, count: nat, cursor: nat): (r: Copy)
    requires count <= |src| && cursor + count <= |dst|
    ensures r.cursor == cursor + count
    ensures |r.dst| == |dst| && forall i :: 0 <= i < |dst| ==>
              r.dst[i] == if cursor <= i < cursor + count then src[i - cursor] else dst[i]
  {
    Copy(dst[..cursor] + src[..count] + dst[cursor + count..], cursor + count)
  }

  /**
   * `copy_bytes_from`: copies `count` bytes of `src` starting at `cursor`
   * to the front of `dst`, then advances the cursor by `count`.
   */
  function CopyBytesFrom(src: seq<uint8>, dst: seq<uint8>, count: nat, cursor: nat): (r: Copy)
    requires cursor + count <= |src| && count <= |dst|
    ensures r.cursor == cursor + count
    ensures |r.dst| == |dst| && forall i :: 0 <= i < |dst| ==>
              r.dst[i] == if i < count then src[cursor + i] else dst[i]
  {
    Copy(src[cursor..cursor + count] + dst[count..], cursor + count)
  }

  // ---------------------------------------------------------------- encoding

  /**
   * The three `copy_bytes_to` calls of `Into<[u8; SIZE]>`: they tile the
   * buffer with the three little-endian fields and leave the cursor at SIZE.
   */
  function WriteFields(h: Header): (r: Copy)
    ensures r.cursor == SIZE
    ensures |r.dst| == SIZE
    ensures r.dst[..U32_BYTES] == LeBytes(h.dataSize, U32_BYTES)
    ensures r.dst[U32_BYTES..U32_BYTES + U16_BYTES] == LeBytes(h.dataType, U16_BYTES)
    ensures r.dst[U32_BYTES + U16_BYTES..] == LeBytes(h.queue, U8_BYTES)
  {
    var buffer := Zeros(SIZE);
    var afterSize := CopyBytesTo(LeBytes(h.dataSize, U32_BYTES), buffer, U32_BYTES, 0);
    var afterType := CopyBytesTo(LeBytes(h.dataType, U16_BYTES), afterSize.dst, U16_BYTES, afterSize.cursor);
    CopyBytesTo(LeBytes(h.queue, U8_BYTES), afterType.dst, U8_BYTES, afterType.cursor)
  }

  /** `Header::into_array`. */
  function IntoArray(h: Header): (r: HeaderArray)
    ensures r == LeBytes(h.dataSize, U32_BYTES) + LeBytes(h.dataType, U16_BYTES) + [h.queue]
  {
    var written := WriteFields(h);
    var r := written.dst;
    assert r == r[..U32_BYTES] + r[U32_BYTES..U32_BYTES + U16_BYTES] + r[U32_BYTES + U16_BYTES..];
    r
  }

  // ---------------------------------------------------------------- decoding

  /** The three field buffers filled by `From<[u8; SIZE]>`, and the final cursor. */
  datatype Fields = Fields(size: seq<uint8>, dataType: seq<uint8>, queue: seq<uint8>, cursor: nat)

  /**
   * The three `copy_bytes_from` calls: each field buffer receives the
   * bytes of its own slot, and the cursor ends at SIZE.
   */
  function ReadFields(bytes: HeaderArray): (r: Fields)
    ensures r.cursor == SIZE
    ensures r.size == bytes[..U32_BYTES]
    ensures r.dataType == bytes[U32_BYTES..U32_BYTES + U16_BYTES]
    ensures r.queue == bytes[U32_BYTES + U16_BYTES..]
  {
    var size := CopyBytesFrom(bytes, Zeros(U32_BYTES), U32_BYTES, 0);
    var dataType := CopyBytesFrom(bytes, Zeros(U16_BYTES), U16_BYTES, size.cursor);
    var queue := CopyBytesFrom(bytes, Zeros(U8_BYTES), U8_BYTES, dataType.cursor);
    Fields(size.dst, dataType.dst, queue.dst, queue.cursor)
  }

  /** `Header::from_array`: total, every 7-byte array decodes. */
  function FromArray(bytes: HeaderArray): (h: Header)
    ensures h.dataSize == LeValue(bytes[..4])
    ensures h.dataType == LeValue(bytes[4..6])
    ensures h.queue == bytes[6]
  {
    var fields := ReadFields(bytes);
    Pow256Widths();
    Header(LeValue(fields.size), LeValue(fields.dataType), LeValue(fields.queue))
  }

  /** `decode(encode(h)) == h` for every header. */
  lemma DecodeEncode(h: Header)
    ensures FromArray(IntoArray(h)) == h
  {
    Pow256Widths();
    var bytes := IntoArray(h);
    assert bytes[..4] == LeBytes(h.dataSize, U32_BYTES);
    assert bytes[4..6] == LeBytes(h.dataType, U16_BYTES);
    LeValueOfLeBytes(h.dataSize, U32_BYTES);
    LeValueOfLeBytes(h.dataType, U16_BYTES);
  }

  /** `encode(decode(b)) == b` for every 7-byte array. */
  lemma EncodeDecode(bytes: HeaderArray)
    ensures IntoArray(FromArray(bytes)) == bytes
  {
    LeBytesOfLeValue(bytes[..4]);
    LeBytesOfLeValue(bytes[4..6]);
    assert LeBytes(bytes[6], U8_BYTES) == [bytes[6]];
    assert bytes == bytes[..4] + bytes[4..6] + [bytes[6]];
  }

  /** Decoding is injective on arrays and encoding is injective on headers. */
  lemma EncodingIsBijective(h: Header, bytes: HeaderArray)
    ensures IntoArray(h) == bytes <==> FromArray(bytes) == h
  {
    DecodeEncode(h);
    EncodeDecode(bytes);
  }

  /** A 16-byte payload with type 1 and queue 1 (tests/header.rs). */
  lemma ByteRepresentationExample()
    ensures IntoArray(BuildForData(FromSlice(Zeros(16)), 1, 1)) == [16, 0, 0, 0, 1, 0, 1]
    ensures FromArray([16, 0, 0, 0, 1, 0, 1]) == BuildForData(FromSlice(Zeros(16)), 1, 1)
  {
    var h := BuildForData(FromSlice(Zeros(16)), 1, 1);
    assert h == Header(16, 1, 1);
    assert LeBytes(16, 4) == [16, 0, 0, 0];
    assert LeBytes(1, 2) == [1, 0];
    DecodeEncode(h);
  }
}
