/**
 * The `BoxSerializer` contract (src/serializer.rs). A payload type's
 * `serialize_box` is passed in as a function; the `Vec<u8>` instance,
 * whose error type is `Infallible`, is written out.
 */
module Serializer {
  import opened Endian
  import opened Results
  import opened BoxData
  import opened BoxPacked

  /**
   * The default `serialize_owned_box`: `serialize_box`, then
   * `box_to_owned`; an error of `serialize_box` is returned unchanged.
   */
  function SerializeOwnedBox<P, E>(
    serializeBox: (P, uint16, uint8) -> Result<BoxPack, E>,
    payload: P, dataType: uint16, queue: uint8): (r: Result<BoxPack, E>)
    ensures r.Ok? <==> serializeBox(payload, dataType, queue).Ok?
    ensures r.Err? ==> r.error == serializeBox(payload, dataType, queue).error
    ensures r.Ok? ==> && r.value.header == serializeBox(payload, dataType, queue).value.header
                      && r.value.data.Owned?
                      && Deref(r.value.data) == Deref(serializeBox(payload, dataType, queue).value.data)
  {
    var pack :- serializeBox(payload, dataType, queue);
    Ok(BoxToOwned(pack))
  }

  /** `Vec<u8>::serialize_box`: a borrowed view of the vector, never an error. */
  function SerializeVec(v: seq<uint8>, dataType: uint16, queue: uint8): (r: Result<BoxPack, Infallible>)
    ensures r.Ok?
    ensures r.value.data.Borrowed? && Deref(r.value.data) == v
    ensures r.value.header.dataSize == |v| % 0x1_0000_0000
    ensures r.value.header.dataType == dataType && r.value.header.queue == queue
  {
    Ok(New(FromVecRef(v), dataType, queue))
  }

  /** `Vec<u8>::serialize_owned_box`: the vector is moved into owned data, never an error. */
  function SerializeOwnedVec(v: seq<uint8>, dataType: uint16, queue: uint8): (r: Result<BoxPack, Infallible>)
    ensures r.Ok?
    ensures r.value.data.Owned? && Deref(r.value.data) == v
    ensures r.value.header.dataSize == |v| % 0x1_0000_0000
    ensures r.value.header.dataType == dataType && r.value.header.queue == queue
  {
    Ok(New(FromVec(v), dataType, queue))
  }

  /**
   * The `Vec<u8>` override of `serialize_owned_box` gives the same box as
   * the trait's default would, and differs from `serialize_box` only in
   * ownership.
   */
  lemma OwnedVecMatchesDefault(v: seq<uint8>, dataType: uint16, queue: uint8)
    ensures SerializeOwnedVec(v, dataType, queue)
         == SerializeOwnedBox((w, t, q) => SerializeVec(w, t, q), v, dataType, queue)
    ensures SerializeOwnedVec(v, dataType, queue).value.header
         == SerializeVec(v, dataType, queue).value.header
    ensures MakePacket(SerializeOwnedVec(v, dataType, queue).value)
         == MakePacket(SerializeVec(v, dataType, queue).value)
  {
  }
}
