/**
 * A box after its payload is interpreted (src/boxes/deserialized.rs):
 * the header kept beside the value a deserializer produced.
 */
module BoxDeserialized {
  import opened Results
  import opened BoxData
  import opened BoxHeader
  import opened BoxPacked
  import Deserializer

  datatype BoxDes<T> = BoxDes(header: Header, data: T)

  /**
   * `TryFrom<BoxPack> for BoxDes<T>`: fails exactly when `deserialize`
   * fails, with its very error value; otherwise keeps the box's header
   * beside the deserialized value.
   */
  function TryFrom<T, E>(deserialize: BoxPack -> Result<T, E>, p: BoxPack): (r: Result<BoxDes<T>, E>)
    ensures r.Ok? <==> deserialize(p).Ok?
    ensures r.Err? ==> r.error == deserialize(p).error
    ensures r.Ok? ==> r.value.header == p.header && r.value.data == deserialize(p).value
  {
    var header := p.header;
    var data :- deserialize(p);
    Ok(BoxDes(header, data))
  }

  /** With `T = Vec<u8>` the conversion never fails and carries the data bytes. */
  lemma TryFromVec(p: BoxPack)
    ensures TryFrom(Deserializer.DeserializeVec, p) == Ok(BoxDes(p.header, Deref(p.data)))
  {
  }
}
