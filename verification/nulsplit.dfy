/**
 * `<[u8]>::split(|byte| *byte == 0)` (Rust's standard library): the
 * segments between 0x00 bytes. There is always one more segment than
 * there are separators, so an empty slice yields one empty segment.
 */
module NulSplit {
  import opened Endian

  const NUL: uint8 := 0

  predicate NulFree(bs: seq<uint8>) {
    forall i :: 0 <= i < |bs| ==> bs[i] != NUL
  }

  function CountNul(bs: seq<uint8>): nat {
    if |bs| == 0 then 0 else (if bs[0] == NUL then 1 else 0) + CountNul(bs[1..])
  }

  function SplitOnNul(bs: seq<uint8>): (r: seq<seq<uint8>>)
    ensures |r| == CountNul(bs) + 1
    ensures forall i :: 0 <= i < |r| ==> NulFree(r[i])
  {
    if |bs| == 0 then [[]]
    else if bs[0] == NUL then [[]] + SplitOnNul(bs[1..])
    else
      var rest := SplitOnNul(bs[1..]);
      [[bs[0]] + rest[0]] + rest[1..]
  }

  /** The segments glued back together with 0x00 between them. */
  function JoinWithNul(segments: seq<seq<uint8>>): seq<uint8>
    requires |segments| >= 1
  {
    if |segments| == 1 then segments[0] else segments[0] + [NUL] + JoinWithNul(segments[1..])
  }

  /** Splitting loses nothing: joining the segments restores the input. */
  lemma {:induction false} JoinSplit(bs: seq<uint8>)
    ensures JoinWithNul(SplitOnNul(bs)) == bs
  {
    if |bs| > 0 {
      JoinSplit(bs[1..]);
      var rest := SplitOnNul(bs[1..]);
      if bs[0] == NUL {
        assert SplitOnNul(bs)[1..] == rest;
      } else {
        var r := SplitOnNul(bs);
        assert r[0] == [bs[0]] + rest[0];
        if |rest| > 1 {
          assert r[1..] == rest[1..];
        }
      }
    }
  }

  /** A NUL-free run is a single segment. */
  lemma {:induction false} SplitNulFree(bs: seq<uint8>)
    requires NulFree(bs)
    ensures SplitOnNul(bs) == [bs]
  {
    if |bs| > 0 {
      SplitNulFree(bs[1..]);
      assert [bs[0]] + bs[1..] == bs;
    }
  }

  /** A separator splits the segment list in two. */
  lemma {:induction false} SplitAppend(a: seq<uint8>, b: seq<uint8>)
    ensures SplitOnNul(a + [NUL] + b) == SplitOnNul(a) + SplitOnNul(b)
  {
    if |a| == 0 {
      assert a + [NUL] + b == [NUL] + b;
      assert ([NUL] + b)[1..] == b;
    } else {
      assert (a + [NUL] + b)[1..] == a[1..] + [NUL] + b;
      SplitAppend(a[1..], b);
    }
  }

  /** Splitting undoes joining NUL-free segments. */
  lemma {:induction false} SplitJoin(segments: seq<seq<uint8>>)
    requires |segments| >= 1
    requires forall i :: 0 <= i < |segments| ==> NulFree(segments[i])
    ensures SplitOnNul(JoinWithNul(segments)) == segments
    decreases |segments|
  {
    SplitNulFree(segments[0]);
    if |segments| > 1 {
      SplitJoin(segments[1..]);
      SplitAppend(segments[0], JoinWithNul(segments[1..]));
      assert segments == [segments[0]] + segments[1..];
    }
  }
}
