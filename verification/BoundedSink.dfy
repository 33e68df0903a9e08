// The in-memory file a value is serialised into: a write past the limit raises.
module BoundedSink {
  import opened Wrappers
  import opened SnapshotFormat

  function Padded(data: Bytes, length: nat): (r: Bytes)
    ensures |r| >= length && data <= r
    ensures |r| == if |data| >= length then |data| else length
  {
    if |data| >= length then data else data + seq(length - |data|, _ => 0)
  }

  // The contents after chunk is written at position, zero-filling a gap before it.
  function Overwritten(data: Bytes, position: nat, chunk: Bytes): Bytes {
    if chunk == [] then data
    else
      var base := Padded(data, position + |chunk|);
      base[..position] + chunk + base[position + |chunk|..]
  }

  class BoundedBytesIO {
    const limit: nat
    var data: Bytes
    var position: nat

    ghost predicate Valid() reads this { |data| <= limit }

    constructor (limit: nat)
      ensures Valid() && this.limit == limit && data == [] && position == 0
    {
      this.limit := limit;
      data, position := [], 0;
    }

    method Write(chunk: Bytes) returns (ok: bool)
      requires Valid()
      modifies this
      ensures Valid()
      ensures ok <==> old(position) + |chunk| <= limit
      ensures ok ==> data == Overwritten(old(data), old(position), chunk) && position == old(position) + |chunk|
      ensures !ok ==> data == old(data) && position == old(position)
    {
      if |chunk| > limit - position {
        return false;
      }
      data, position := Overwritten(data, position, chunk), position + |chunk|;
      return true;
    }
  }

  function Joined(chunks: seq<Bytes>): Bytes {
    if chunks == [] then [] else Joined(chunks[..|chunks| - 1]) + chunks[|chunks| - 1]
  }

  lemma {:induction false} JoinedGrows(chunks: seq<Bytes>, n: nat)
    requires n <= |chunks|
    ensures |Joined(chunks[..n])| <= |Joined(chunks)|
  {
    if n < |chunks| {
      assert chunks[..|chunks| - 1][..n] == chunks[..n];
      JoinedGrows(chunks[..|chunks| - 1], n);
    } else {
      assert chunks[..n] == chunks;
    }
  }

  // A serialiser that writes its chunks in order yields exactly their concatenation, or
  // runs into the limit, and it does the latter only for a payload that is too long.
  method Dump(chunks: seq<Bytes>, limit: nat) returns (payload: Option<Bytes>)
    ensures payload == if |Joined(chunks)| <= limit then Some(Joined(chunks)) else None
  {
    var sink := new BoundedBytesIO(limit);
    for n := 0 to |chunks|
      invariant sink.Valid() && sink.limit == limit
      invariant sink.data == Joined(chunks[..n]) && sink.position == |sink.data|
    {
      assert chunks[..n + 1][..n] == chunks[..n];
      var ok := sink.Write(chunks[n]);
      if !ok {
        JoinedGrows(chunks, n + 1);
        return None;
      }
    }
    assert chunks[..|chunks|] == chunks;
    return Some(sink.data);
  }
}
