/**
 * The data part of a box (src/syntatic/data.rs): a copy-on-write byte
 * buffer that either borrows caller memory or owns its bytes. Lifetimes
 * and allocation are not modelled; the variant is a tag over the content.
 */
module BoxData {
  import opened Endian

  datatype Data = Borrowed(borrowed: seq<uint8>) | Owned(owned: seq<uint8>)

  /** `Deref<Target = [u8]>`: the byte content, whichever variant holds it. */
  function Deref(d: Data): (s: seq<uint8>)
    ensures d == Borrowed(s) || d == Owned(s)
  {
    match d
    case Borrowed(s) => s
    case Owned(s) => s
  }

  /** `Data::len` through `Deref`. */
  function Len(d: Data): (n: nat)
    ensures (d.Borrowed? && n == |d.borrowed|) || (d.Owned? && n == |d.owned|)
  {
    |Deref(d)|
  }

  /** Ownership never changes what the buffer reads as. */
  lemma DerefIgnoresOwnership(d: Data, e: Data)
    requires d.Borrowed? && e.Owned?
    requires d.borrowed == e.owned
    ensures Deref(d) == Deref(e)
    ensures Len(d) == Len(e)
  {
  }

  /** `AsRef<Data> for &Data`: the identity. */
  function AsRef(d: Data): (r: Data)
    ensures r == d
  {
    d
  }

  /** `From<&[u8]>`: a zero-copy view of the slice. */
  function FromSlice(bytes: seq<uint8>): (r: Data)
    ensures r.Borrowed?
    ensures Deref(r) == bytes
  {
    Borrowed(bytes)
  }

  /** `From<Vec<u8>>`: the vector is moved in. */
  function FromVec(bytes: seq<uint8>): (r: Data)
    ensures r.Owned?
    ensures Deref(r) == bytes
  {
    Owned(bytes)
  }

  /** `From<&Vec<u8>>`: a zero-copy view of the vector's elements. */
  function FromVecRef(bytes: seq<uint8>): (r: Data)
    ensures r.Borrowed?
    ensures Deref(r) == bytes
  {
    Borrowed(bytes[..])
  }

  /** `crate::data_to_owned`: detaches the buffer from any borrowed source. */
  function ToOwned(d: Data): (r: Data)
    ensures r.Owned?
    ensures Deref(r) == Deref(d)
  {
    Owned(Deref(d))
  }
}
