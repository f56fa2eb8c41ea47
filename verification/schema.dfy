/**
 * The example payload schema of the deserialization tests
 * (tests/deserialization.rs): type tag 0 is a UTF-8 message, 1 a
 * big-endian `u32`, 2 a user record "name\0surname\0age".
 */
module ExampleSchema {
  import opened Endian
  import opened Results
  import opened BoxData
  import opened BoxPacked
  import opened BoxDeserialized
  import opened Utf8
  import opened DecimalU8
  import opened NulSplit

  /** `#[repr(u16)] enum DataType`. */
  datatype DataType = MessageType | NumberType | UserType

  /** The `u16` discriminant of each variant (`DataType::X as u16`). */
  function Tag(d: DataType): uint16 {
    match d
    case MessageType => 0
    case NumberType => 1
    case UserType => 2
  }

  datatype Payload =
    | Message(message: Str)
    | User(name: Str, surname: Str, age: uint8)
    | Number(number: uint32)

  /** Opaque `std::io::Error`. */
  datatype IoError = IoError(code: int)

  datatype DesError =
    | InvalidType
    | MessageNotValidUtf8(utf8: FromUtf8Error)
    | NumberNotValidSize
    | UserInvalidStructure
    | UserIo(io: IoError)
    | UserNotValidUtf8(utf8: FromUtf8Error)
    | UserNotValidAge(parse: ParseIntError)

  /** `TryFrom<u16> for DataType`: exactly the three discriminants are accepted. */
  function DataTypeTryFrom(value: uint16): (r: Result<DataType, DesError>)
    ensures r.Ok? <==> value <= 2
    ensures r.Ok? ==> Tag(r.value) == value
    ensures r.Err? ==> r.error == InvalidType
  {
    match value
    case 0 => Ok(MessageType)
    case 1 => Ok(NumberType)
    case 2 => Ok(UserType)
    case _ => Err(InvalidType)
  }

  lemma TagRoundTrip(d: DataType)
    ensures DataTypeTryFrom(Tag(d)) == Ok(d)
  {
  }

  /** The message arm: the bytes must be UTF-8 and become the string as they are. */
  function DeserializeMessage(bytes: seq<uint8>): (r: Result<Payload, DesError>)
    ensures r.Ok? <==> ValidUtf8(bytes)
    ensures r.Ok? ==> r.value == Message(bytes)
    ensures r.Err? ==> r.error == MessageNotValidUtf8(FromUtf8(bytes).error)
  {
    match FromUtf8(bytes)
    case Ok(s) => Ok(Message(s))
    case Err(e) => Err(MessageNotValidUtf8(e))
  }

  /** The number arm: exactly four bytes, read big-endian. */
  function DeserializeNumber(bytes: seq<uint8>): (r: Result<Payload, DesError>)
    ensures r.Ok? <==> |bytes| == U32_BYTES
    ensures r.Err? ==> r.error == NumberNotValidSize
    ensures r.Ok? ==> r.value.Number? && BeBytes(r.value.number, U32_BYTES) == bytes
  {
    if |bytes| != U32_BYTES then Err(NumberNotValidSize)
    else
      var buffer := bytes;
      Pow256Widths();
      BeBytesOfBeValue(buffer);
      Ok(Number(BeValue(buffer)))
  }

  /** `String::from_utf8` with its error wrapped as `UserNotValidUtf8`. */
  function UserField(bytes: seq<uint8>): (r: Result<Str, DesError>)
    ensures r.Ok? <==> ValidUtf8(bytes)
    ensures r.Ok? ==> r.value == bytes
    ensures r.Err? ==> r.error == UserNotValidUtf8(FromUtf8(bytes).error)
  {
    FromUtf8(bytes).MapErr(e => UserNotValidUtf8(e))
  }

  /**
   * The user arm: the first three NUL-separated segments are name, surname
   * and age; any further segments are never looked at.
   */
  function DeserializeUser(bytes: seq<uint8>): (r: Result<Payload, DesError>)
    ensures r == Err(UserInvalidStructure) <==> CountNul(bytes) < 2
    ensures r.Ok? <==> && CountNul(bytes) >= 2
                       && ValidUtf8(SplitOnNul(bytes)[0])
                       && ValidUtf8(SplitOnNul(bytes)[1])
                       && ValidUtf8(SplitOnNul(bytes)[2])
                       && ParseU8(SplitOnNul(bytes)[2]).Ok?
    ensures r.Ok? ==> && r.value.User?
                      && r.value.name == SplitOnNul(bytes)[0]
                      && r.value.surname == SplitOnNul(bytes)[1]
                      && Ok(r.value.age) == ParseU8(SplitOnNul(bytes)[2])
  {
    var split := SplitOnNul(bytes);
    if |split| < 3 then Err(UserInvalidStructure)
    else
      var name :- UserField(split[0]);
      var surname :- UserField(split[1]);
      var age :- UserField(split[2]);
      var age :- ParseU8(age).MapErr(e => UserNotValidAge(e));
      Ok(User(name, surname, age))
  }

  /**
   * A malformed user record fails on its first bad field, in the order
   * name, surname, age text, age value, each with that field's own error.
   */
  lemma UserErrorOrder(bytes: seq<uint8>)
    ensures CountNul(bytes) >= 2 && !ValidUtf8(SplitOnNul(bytes)[0]) ==>
              DeserializeUser(bytes) == Err(UserNotValidUtf8(FromUtf8(SplitOnNul(bytes)[0]).error))
    ensures CountNul(bytes) >= 2 && ValidUtf8(SplitOnNul(bytes)[0])
            && !ValidUtf8(SplitOnNul(bytes)[1]) ==>
              DeserializeUser(bytes) == Err(UserNotValidUtf8(FromUtf8(SplitOnNul(bytes)[1]).error))
    ensures CountNul(bytes) >= 2 && ValidUtf8(SplitOnNul(bytes)[0])
            && ValidUtf8(SplitOnNul(bytes)[1]) && !ValidUtf8(SplitOnNul(bytes)[2]) ==>
              DeserializeUser(bytes) == Err(UserNotValidUtf8(FromUtf8(SplitOnNul(bytes)[2]).error))
    ensures CountNul(bytes) >= 2 && ValidUtf8(SplitOnNul(bytes)[0])
            && ValidUtf8(SplitOnNul(bytes)[1]) && ValidUtf8(SplitOnNul(bytes)[2])
            && ParseU8(SplitOnNul(bytes)[2]).Err? ==>
              DeserializeUser(bytes) == Err(UserNotValidAge(ParseU8(SplitOnNul(bytes)[2]).error))
  {
  }

  /** `Payload::deserialize_box`: the tag is checked before any payload byte. */
  function DeserializeBox(p: BoxPack): (r: Result<Payload, DesError>)
    ensures r == Err(InvalidType) <==> p.header.dataType > 2
    ensures !(r.Err? && r.error.UserIo?)
    ensures r.Ok? && r.value.Message? ==> p.header.dataType == 0
    ensures r.Ok? && r.value.Number? ==> p.header.dataType == 1
    ensures r.Ok? && r.value.User? ==> p.header.dataType == 2
    ensures p.header.dataType == Tag(MessageType) ==> r == DeserializeMessage(Deref(p.data))
    ensures p.header.dataType == Tag(NumberType) ==> r == DeserializeNumber(Deref(p.data))
    ensures p.header.dataType == Tag(UserType) ==> r == DeserializeUser(Deref(p.data))
  {
    var boxType :- DataTypeTryFrom(p.header.GetDataType());
    match boxType
    case MessageType => DeserializeMessage(Deref(p.data))
    case NumberType => DeserializeNumber(Deref(p.data))
    case UserType => DeserializeUser(Deref(p.data))
  }

  /** An unknown tag fails with `InvalidType` whatever the payload bytes are. */
  lemma InvalidTagIgnoresPayload(data: Data, dataType: uint16, queue: uint8)
    requires dataType > 2
    ensures DeserializeBox(New(data, dataType, queue)) == Err(InvalidType)
    ensures TryFrom(DeserializeBox, New(data, dataType, queue)) == Err(InvalidType)
  {
  }

  /** `to_be_bytes` followed by the number arm gives the number back. */
  lemma NumberRoundTrip(n: uint32, queue: uint8)
    ensures DeserializeBox(New(FromSlice(BeBytes(n, U32_BYTES)), Tag(NumberType), queue)) == Ok(Number(n))
  {
    Pow256Widths();
    BeValueOfBeBytes(n, U32_BYTES);
  }

  /** The message arm accepts exactly the well-formed byte strings, unchanged. */
  lemma MessageRoundTrip(s: Str, queue: uint8)
    ensures DeserializeBox(New(FromSlice(s), Tag(MessageType), queue)) == Ok(Message(s))
  {
  }

  /** A user record written as "name\0surname\0age" reads back as that user. */
  lemma UserRoundTrip(name: Str, surname: Str, age: uint8, queue: uint8)
    requires NulFree(name) && NulFree(surname)
    ensures var bytes := name + [NUL] + surname + [NUL] + DecimalDigits(age);
            DeserializeBox(New(FromSlice(bytes), Tag(UserType), queue)) == Ok(User(name, surname, age))
  {
    var digits := DecimalDigits(age);
    DigitsAreAscii(digits);
    AsciiIsValid(digits);
    SplitNulFree(digits);
    SplitNulFree(surname);
    SplitNulFree(name);
    SplitAppend(surname, digits);
    SplitAppend(name, surname + [NUL] + digits);
    assert name + [NUL] + surname + [NUL] + digits == name + [NUL] + (surname + [NUL] + digits);
    ParseDecimalDigits(age);
  }

  lemma DigitsAreAscii(ds: seq<uint8>)
    requires AllDigits(ds)
    ensures NulFree(ds)
    ensures forall i :: 0 <= i < |ds| ==> ds[i] < 0x80
  {
  }

  /** Segments after the third are ignored. */
  lemma UserIgnoresTrailingSegments(name: seq<uint8>, surname: seq<uint8>, age: seq<uint8>, rest: seq<uint8>)
    requires NulFree(name) && NulFree(surname) && NulFree(age)
    ensures DeserializeUser(name + [NUL] + surname + [NUL] + age + [NUL] + rest)
         == DeserializeUser(name + [NUL] + surname + [NUL] + age)
  {
    SplitNulFree(name);
    SplitNulFree(surname);
    SplitNulFree(age);
    SplitAppend(name + [NUL] + surname + [NUL] + age, rest);
    SplitAppend(surname, age);
    SplitAppend(name, surname + [NUL] + age);
    assert name + [NUL] + surname + [NUL] + age == name + [NUL] + (surname + [NUL] + age);
  }

  // ---------------------------------------------------------------- the four tests

  /** The byte strings of the four tests. */
  const BQSP: seq<uint8> := [0x42, 0x51, 0x53, 0x50]
  const HELLO_WORLD: seq<uint8> := [0x48, 0x65, 0x6C, 0x6C, 0x6F, 0x20, 0x57, 0x6F, 0x72, 0x6C, 0x64, 0x21]
  const FRANEK: seq<uint8> := [0x46, 0x72, 0x61, 0x6E, 0x65, 0x6B]
  const GANEK: seq<uint8> := [0x47, 0x61, 0x6E, 0x65, 0x6B]

  /** `invalid_type`: "BQSP" tagged `u16::MAX`. */
  lemma InvalidTypeExample()
    ensures TryFrom(DeserializeBox, New(FromSlice(BQSP), 0xFFFF, 1)) == Err(InvalidType)
  {
    InvalidTagIgnoresPayload(FromSlice(BQSP), 0xFFFF, 1);
  }

  /** `message`: "Hello World!" tagged as a message. */
  lemma MessageExample()
    ensures var des := TryFrom(DeserializeBox, New(FromSlice(HELLO_WORLD), Tag(MessageType), 1));
            des.Ok? && des.value.data.Message? && des.value.data.message == HELLO_WORLD
  {
    AsciiIsValid(HELLO_WORLD);
    MessageRoundTrip(HELLO_WORLD, 1);
  }

  /** `number`: 62341 sent as its big-endian bytes. */
  lemma NumberExample()
    ensures BeBytes(62341, U32_BYTES) == [0x00, 0x00, 0xF3, 0x85]
    ensures var des := TryFrom(DeserializeBox, New(FromSlice([0x00, 0x00, 0xF3, 0x85]), Tag(NumberType), 1));
            des.Ok? && des.value.data == Number(62341)
  {
    NumberRoundTrip(62341, 1);
  }

  /** `user`: "Franek\0Ganek\024" is Franek Ganek, aged 24. */
  lemma UserExample()
    ensures var bytes := FRANEK + [NUL] + GANEK + [NUL] + [0x32, 0x34];
            var des := TryFrom(DeserializeBox, New(FromSlice(bytes), Tag(UserType), 1));
            && des.Ok? && des.value.data.User?
            && des.value.data.name == FRANEK
            && des.value.data.surname == GANEK
            && des.value.data.age == 24
  {
    AsciiIsValid(FRANEK);
    AsciiIsValid(GANEK);
    assert DecimalDigits(24) == [0x32, 0x34];
    var p := New(FromSlice(FRANEK + [NUL] + GANEK + [NUL] + DecimalDigits(24)), Tag(UserType), 1);
    UserRoundTrip(FRANEK, GANEK, 24, 1);
    assert DeserializeBox(p) == Ok(User(FRANEK, GANEK, 24));
  }
}
