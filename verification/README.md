# BQSP box framing, modelled in Dafny

A Dafny model of the core of `bqsp`, a binary message-framing crate. A
message (a "box") is a 7-byte header followed by a payload. The header
holds `data_size: u32`, `data_type: u16` and `queue: u8`. Each field is
little-endian, and the fields are packed in that order with no padding.
The model covers:

- the header's constructor, getters and the cursor-driven `into_array` /
  `from_array` pair (`BoxHeader`, with the byte-order helpers in `Endian`);
- the copy-on-write payload buffer as a `Borrowed | Owned` datatype over
  the same byte content (`BoxData`);
- `BoxPack`: construction, `box_to_owned`, the wire bytes of
  `make_packet`, and the two write paths (`BoxPacked`);
- the `BoxSerializer` default `serialize_owned_box` and the `Vec<u8>`
  serializer (`Serializer`);
- the `Vec<u8>` deserializer (`Deserializer`) and `BoxDes::try_from`
  (`BoxDeserialized`). A generic payload type's `serialize_box` or
  `deserialize_box` is passed in as a function value;
- the example payload schema of the deserialization tests
  (`ExampleSchema`): tag dispatch, a big-endian `u32`, and NUL-separated
  user records with typed errors. The standard-library pieces this schema
  relies on are written out by hand: `String::from_utf8` in `Utf8`, with
  well-formedness as defined in section 4 of RFC 3629; `u8::from_str` in
  `DecimalU8`; and `<[u8]>::split` on NUL bytes in `NulSplit`.

Integers are unbounded in Dafny. `u8`, `u16` and `u32` are subset types of
`int`, and byte strings are `seq<uint8>`. The one narrowing cast in the
core is `len() as u32` in `build_for_data`. It is written out as
`% 0x1_0000_0000`, so a payload of 2^32 bytes or more gets a header whose
size disagrees with the bytes that follow (`OversizedPayloadDesynchronises`).

Two facts of the code that are easy to miss:
- The `Vec<u8>` deserializer ignores the header completely, type tag
  included, and the model proves that it does.
- The header round trip holds for every header, not only for headers
  built by `build_for_data`, and so does the model's lemma.

## Model

| member | source | states |
|---|---|---|
| Results.Result.MapErr | tests/deserialization.rs:97-107 | `map_err` keeps success and its value, and turns an error `e` into `f(e)` |
| Endian.LeBytes | src/syntatic/header.rs:81-83 | `to_le_bytes`: exactly `width` bytes; `LeBytesDigits` fixes each byte and the round-trip lemmas tie it to `LeValue` |
| Endian.LeBytesDigits | src/syntatic/header.rs:81-83 | byte `i` of the little-endian encoding is `n / 256^i mod 256`, so the least significant byte comes first |
| Endian.LeValue | src/syntatic/header.rs:149-151 | `from_le_bytes`: the value read is below 256 to the number of bytes, so it fits the width it was read from |
| Endian.BeBytes | tests/deserialization.rs:156-172 | `to_be_bytes`: exactly `width` bytes; `BeBytesDigits` fixes each byte and the round-trip lemmas tie it to `BeValue` |
| Endian.BeBytesDigits | tests/deserialization.rs:156-172 | byte `i` of the big-endian encoding is `n / 256^(width-1-i) mod 256`, so the most significant byte comes first |
| Endian.BeValue | tests/deserialization.rs:76 | `from_be_bytes`: the value read is below 256 to the number of bytes |
| Endian.LeValueOfLeBytes | src/syntatic/header.rs:81-83 | reading back the little-endian bytes of a value that fits the width gives the value |
| Endian.LeBytesOfLeValue | src/syntatic/header.rs:149-151 | re-encoding the value read from any byte string gives the same bytes |
| Endian.BeValueOfBeBytes | tests/deserialization.rs:156-172 | `from_be_bytes` inverts `to_be_bytes` for every value that fits |
| Endian.BeBytesOfBeValue | tests/deserialization.rs:74-76 | re-encoding the big-endian value of any byte string gives the same bytes |
| BoxHeader.SizeIsSeven | src/syntatic/header.rs:24 | `Header::SIZE` = 4 + 2 + 1 = 7 |
| BoxHeader.Header.GetDataSize | src/syntatic/header.rs:29-31 | `get_data_size` returns the stored size field |
| BoxHeader.Header.GetDataType | src/syntatic/header.rs:34-36 | `get_data_type` returns the stored type field |
| BoxHeader.Header.GetDataQueue | src/syntatic/header.rs:39-41 | `get_data_queue` returns the stored queue field |
| BoxHeader.BuildForData | src/syntatic/header.rs:48-59 | size = data length mod 2^32 (the exact length when it fits); type and queue are copied unchanged |
| BoxHeader.CopyBytesTo | src/syntatic/header.rs:163-171 | the `count` source bytes land at the cursor; bytes before and after are untouched; the cursor advances by exactly `count` |
| BoxHeader.CopyBytesFrom | src/syntatic/header.rs:180-188 | the destination's first `count` bytes become the source bytes at the cursor; the rest is untouched; the cursor advances by `count` |
| BoxHeader.WriteFields | src/syntatic/header.rs:77-111 | the three copies tile the 7-byte buffer: size LE in bytes 0..4, type LE in 4..6, queue in 6; the final cursor is SIZE |
| BoxHeader.IntoArray | src/syntatic/header.rs:61-64 | the encoding is LE(size, 4) ++ LE(type, 2) ++ [queue] |
| BoxHeader.ReadFields | src/syntatic/header.rs:117-146 | the three field buffers receive slots 0..4, 4..6 and 6..7; the final cursor is SIZE |
| BoxHeader.FromArray | src/syntatic/header.rs:66-72 | total on 7-byte arrays with no validation: size = LE value of bytes 0..4, type = LE value of 4..6, queue = byte 6 |
| BoxHeader.DecodeEncode | src/syntatic/header.rs:76-153 | `from_array(into_array(h)) == h` for every header |
| BoxHeader.EncodeDecode | src/syntatic/header.rs:114-153 | `into_array(from_array(b)) == b` for every 7-byte array |
| BoxHeader.EncodingIsBijective | src/syntatic/header.rs:61-72 | `into_array(h) == b` exactly when `from_array(b) == h` |
| BoxHeader.ByteRepresentationExample | tests/header.rs:4-25 | a 16-byte payload with type 1 and queue 1 encodes as [16,0,0,0,1,0,1], and that array decodes to the same header |
| BoxData.Deref | src/syntatic/data.rs:13-19 | the content is exactly the bytes the variant wraps, whether borrowed or owned |
| BoxData.Len | src/syntatic/data.rs:13-19 | the length is that of the wrapped bytes, whichever variant holds them |
| BoxData.DerefIgnoresOwnership | src/syntatic/data.rs:13-19 | a borrowed and an owned buffer over the same bytes read as the same content and length |
| BoxData.AsRef | src/syntatic/data.rs:21-25 | `as_ref` is the identity |
| BoxData.FromSlice | src/syntatic/data.rs:27-33 | `From<&[u8]>` gives a borrowed buffer whose content is the slice |
| BoxData.FromVec | src/syntatic/data.rs:35-41 | `From<Vec<u8>>` gives an owned buffer whose content is the vector |
| BoxData.FromVecRef | src/syntatic/data.rs:43-49 | `From<&Vec<u8>>` gives a borrowed buffer whose content is the vector's elements |
| BoxData.ToOwned | src/boxes/packed.rs:16 | `data_to_owned` gives an owned buffer with the same content |
| BoxPacked.New | src/boxes/packed.rs:22-27 | data kept; size = length mod 2^32; type and queue as given; size matches the data exactly when the length is below 2^32 |
| BoxPacked.BoxToOwned | src/boxes/packed.rs:13-18 | the header is copied verbatim; the data becomes owned with the same content; size agreement is preserved |
| BoxPacked.MakePacket | src/boxes/packed.rs:42-47 | length is SIZE + data length; the first SIZE bytes are the header array; the rest are exactly the data bytes |
| BoxPacked.Write | src/boxes/packed.rs:31-40 | a write appends the packet to what the sink already holds and changes nothing before it |
| BoxPacked.WriteModesAgree | src/boxes/packed.rs:31-40 | `write_sync` and `write_async` emit byte-identical output |
| BoxPacked.BoxToOwnedKeepsPacket | src/boxes/packed.rs:13-18 | taking ownership does not change the wire bytes |
| BoxPacked.PacketRoundTrip | src/boxes/packed.rs:22-47 | for data under 2^32 bytes, decoding the packet's first SIZE bytes gives the header back, and the declared size is the number of bytes that follow |
| BoxPacked.OversizedPayloadDesynchronises | src/syntatic/header.rs:55 | for data of 2^32 bytes or more, the decoded size differs from the number of bytes that follow |
| BoxPacked.BoxEncodingExample | tests/encdec.rs:11-26 | "BQSP" with type 1 and queue 5 has getters 4, 1, 5 and the packet [4,0,0,0,1,0,5,'B','Q','S','P'] |
| Serializer.SerializeOwnedBox | src/serializer.rs:14-27 | the default fails exactly when `serialize_box` fails, with the same error; otherwise it keeps the header and gives owned data with the same content |
| Serializer.SerializeVec | src/serializer.rs:35-47 | never fails; borrowed data equal to the vector; size = length mod 2^32, the given type, the given queue |
| Serializer.SerializeOwnedVec | src/serializer.rs:49-61 | never fails; owned data equal to the vector; the same header fields as `serialize_box` |
| Serializer.OwnedVecMatchesDefault | src/serializer.rs:14-61 | the `Vec<u8>` override of `serialize_owned_box` equals the trait default applied to `serialize_box`; both forms give the same header and the same wire bytes |
| Deserializer.DeserializeVec | src/deserializer.rs:33-38 | never fails and returns exactly the data bytes |
| Deserializer.DeserializeVecIgnoresHeader | src/deserializer.rs:36-38 | the result depends only on the data bytes, not on the type, queue, size or ownership |
| Deserializer.VecRoundTrip | src/deserializer.rs:36-38 | deserializing the box from either `Vec<u8>` serializer gives back the vector |
| BoxDeserialized.TryFrom | src/boxes/deserialized.rs:14-22 | succeeds exactly when the deserializer does; on failure the error is the deserializer's own; on success the header is the box's header and the data is the deserializer's value |
| BoxDeserialized.TryFromVec | src/boxes/deserialized.rs:17-22 | with `T = Vec<u8>` the conversion never fails and carries the data bytes |
| Utf8.ValidUpTo | tests/deserialization.rs:63-65 | the longest valid prefix: it is valid; it is the whole input exactly when the input is valid; otherwise no well-formed character starts where it ends |
| Utf8.FromUtf8 | tests/deserialization.rs:63-65 | succeeds exactly on well-formed UTF-8 and keeps the bytes; an error keeps the bytes and the valid-prefix length |
| Utf8.AsciiIsValid | tests/deserialization.rs:137-153 | every ASCII byte string is well-formed UTF-8 |
| DecimalU8.ParseU8 | tests/deserialization.rs:106-107 | `Empty` exactly on empty input; success exactly when, after one optional '+', there are only digits, at least one, with a value of at most 255, and then it returns that value; all digits above 255 gives `PosOverflow`; `InvalidDigit` only when a non-digit or no digit is present, and always when the input is not empty but no digit follows the optional sign ("a", "+", "-", "+a") |
| DecimalU8.Accumulate | tests/deserialization.rs:106-107 | the digit loop of `u8::from_str` never reports `Empty`; it fails with `InvalidDigit` on a leading non-digit; a success means every byte was a digit and the result is at least the starting accumulator |
| DecimalU8.AccumulateCorrect | tests/deserialization.rs:106-107 | the digit loop succeeds exactly when every byte is a digit and the folded value fits a `u8` |
| DecimalU8.ParseDecimalDigits | tests/deserialization.rs:106-107 | parsing the decimal form of any `u8` gives it back |
| NulSplit.SplitOnNul | tests/deserialization.rs:80 | one more segment than NUL bytes; no segment contains a NUL |
| NulSplit.JoinSplit | tests/deserialization.rs:80 | joining the segments with NULs restores the input |
| NulSplit.SplitJoin | tests/deserialization.rs:80-95 | splitting NUL-free segments joined with NULs gives the segments back |
| NulSplit.SplitAppend | tests/deserialization.rs:80 | a NUL between two byte strings concatenates their segment lists |
| ExampleSchema.DataTypeTryFrom | tests/deserialization.rs:19-30 | accepts exactly tags 0, 1 and 2, each as the variant with that discriminant; any other tag gives `InvalidType` |
| ExampleSchema.TagRoundTrip | tests/deserialization.rs:9-30 | `try_from(d as u16) == Ok(d)` for every variant |
| ExampleSchema.DeserializeMessage | tests/deserialization.rs:61-67 | succeeds exactly on well-formed UTF-8, with a string of exactly those bytes; otherwise `MessageNotValidUTF8` carrying `from_utf8`'s own error (bytes and valid prefix length) |
| ExampleSchema.DeserializeNumber | tests/deserialization.rs:68-77 | succeeds exactly when the payload has 4 bytes, else `NumberNotValidSize`; the number's big-endian bytes are the payload |
| ExampleSchema.UserField | tests/deserialization.rs:97-104 | succeeds exactly on well-formed UTF-8 with the bytes unchanged; otherwise `UserNotValidUTF8` carrying `from_utf8`'s own error |
| ExampleSchema.DeserializeUser | tests/deserialization.rs:78-114 | `UserInvalidStructure` exactly when there are fewer than two NULs; success exactly when the first three segments are UTF-8 and the third parses as a `u8`, giving name, surname and age from those segments |
| ExampleSchema.UserErrorOrder | tests/deserialization.rs:78-114 | with at least two NULs, the first segment (name, then surname, then age) that is not UTF-8 gives `UserNotValidUTF8` with that segment's own `from_utf8` error; if all three are UTF-8 and the age does not parse, the error is `UserNotValidAge` with the parser's error |
| ExampleSchema.DeserializeBox | tests/deserialization.rs:57-118 | `InvalidType` exactly when the tag is above 2; `UserIO` is never produced; each payload variant comes only from its own tag; tags 0, 1 and 2 hand the data bytes to the message, number and user arm respectively |
| ExampleSchema.InvalidTagIgnoresPayload | tests/deserialization.rs:58 | an unknown tag gives `InvalidType` whatever the payload, also through `BoxDes::try_from` |
| ExampleSchema.NumberRoundTrip | tests/deserialization.rs:68-77 | the big-endian bytes of any `u32` deserialize to that number |
| ExampleSchema.MessageRoundTrip | tests/deserialization.rs:61-67 | the bytes of any string deserialize to that message |
| ExampleSchema.UserRoundTrip | tests/deserialization.rs:78-114 | "name\0surname\0age", with NUL-free name and surname, deserializes to that user |
| ExampleSchema.UserIgnoresTrailingSegments | tests/deserialization.rs:80-95 | segments after the third never change the result |
| ExampleSchema.InvalidTypeExample | tests/deserialization.rs:121-135 | "BQSP" tagged `u16::MAX` fails with `InvalidType` |
| ExampleSchema.MessageExample | tests/deserialization.rs:137-153 | "Hello World!" tagged 0 deserializes to that message |
| ExampleSchema.NumberExample | tests/deserialization.rs:155-172 | 62341 sent as [0,0,0xF3,0x85] and tagged 1 deserializes to 62341 |
| ExampleSchema.UserExample | tests/deserialization.rs:174-198 | "Franek\0Ganek\024" tagged 2 deserializes to Franek, Ganek, 24 |

## Left out

- I/O in `write_sync` / `write_async`: the sink is the sequence of bytes already written. Sink errors, partial writes and async scheduling are not modelled. The two modes differ only in how they wait.
- The legacy 64-bit layout under `src/structure/` is not part of this model. Its encoding reinterprets a packed struct's memory, so its byte order depends on the host, and it is not wire-compatible with the 7-byte layout. The 11-byte sample in `tests/encdec.rs` belongs to that layout and is not used.
- Lifetimes, zero-copy borrowing and allocation counts are not modelled. `Borrowed` and `Owned` are tags over equal content.
- `crate::data_to_owned` is not part of this model. `ToOwned` assumes only that it keeps the content and yields owned data.
- `std::ptr::copy` is replaced by sequence slicing. Its undefined behaviour for out-of-range copies becomes the `requires` of `CopyBytesTo` and `CopyBytesFrom`.
- BoxHeader.WriteFields and BoxHeader.IntoArray assume that the bytes copied are the `to_le_bytes` output. In src/syntatic/header.rs:81-83 each pointer is taken with `.as_ptr()` on a temporary array that is dropped at the end of its `let`. The copies at lines 88-107 then read through dangling pointers, which is undefined behaviour as written. The model states the evidently intended encoding instead of whatever those stack slots hold.
- `impl Into<u16>` arguments are taken as already-converted `u16` values.
- `std::convert::Infallible` has no values, but Dafny has no empty datatypes. It is modelled as a one-value datatype, and the `Vec<u8>` serializer and deserializer state that they never return it.
- Utf8.FromUtf8: the error's `error_len` is not modelled; the error carries only the rejected bytes and `valid_up_to`.
- DecimalU8.ParseU8: `ParseIntError` is modelled by its kind only. The contract fixes the error kind for empty input, for input whose first byte after the optional '+' is not a digit, and for all-digit input. It does not say which error an input with a leading digit and a later non-digit gets, because that depends on whether the overflow comes before the first non-digit. The function itself follows that order.
- `UserIO(std::io::Error)` exists in the error type, but the deserializer never builds it. The I/O error is an opaque value.
