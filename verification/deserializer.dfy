/**
 * The `BoxDeserializer` contract (src/deserializer.rs): a payload type
 * builds itself from a box or reports an error of its own type. The
 * `Vec<u8>` instance copies the data bytes out and never fails.
 */
module Deserializer {
  import opened Endian
  import opened Results
  import opened BoxData
  import opened BoxPacked
  import Serializer

  /** `Vec<u8>::deserialize_box`: the data bytes, whatever the header says. */
  function DeserializeVec(p: BoxPack): (r: Result<seq<uint8>, Infallible>)
    ensures r.Ok?
    ensures r.value == Deref(p.data)
    ensures |r.value| == Len(p.data)
  {
    Ok(Deref(AsRef(p.data))[..])
  }

  /**
   * The result depends on the data bytes alone: not on the header's type,
   * queue or size, nor on whether the data is borrowed or owned.
   */
  lemma DeserializeVecIgnoresHeader(p: BoxPack, q: BoxPack)
    requires Deref(p.data) == Deref(q.data)
    ensures DeserializeVec(p) == DeserializeVec(q)
  {
  }

  /** Serializing a vector and deserializing the box gives the vector back. */
  lemma VecRoundTrip(v: seq<uint8>, dataType: uint16, queue: uint8)
    ensures DeserializeVec(Serializer.SerializeVec(v, dataType, queue).value) == Ok(v)
    ensures DeserializeVec(Serializer.SerializeOwnedVec(v, dataType, queue).value) == Ok(v)
  {
  }
}
