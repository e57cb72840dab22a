/** The cache of a camera or audio feed as the object it is: a byte buffer filled in place. */
module FeedCache {
  import opened Common
  import opened Reassembly

  class FeedCache {
    var data: array<byte>
    var id: int32
    var invalid: bool
    var size: int32
    var lastChunkId: int32

    function Value(): Cache
      reads this, data
    {
      Cache(data[..], id, invalid, size, lastChunkId)
    }

    /** As the feeds create it: no image, and LastChunkId at its zero value. */
    constructor ()
      ensures Value() == START.cache && fresh(data)
    {
      data := new byte[0];
      id, invalid, size, lastChunkId := -1, false, 0, 0;
    }

    method Reset()
      modifies this
      ensures Value() == EMPTY && fresh(data)
    {
      data := new byte[0];
      id, invalid, size, lastChunkId := -1, false, 0, -1;
    }

    /** Copy a payload into the buffer, byte by byte, from `size` on. */
    method CopyIn(payload: Payload, end: int32)
      requires 0 <= size <= end <= data.Length && end == size + |payload|
      modifies data
      ensures data[..] == old(data[..size]) + payload + old(data[end..])
    {
      for i := 0 to |payload|
        invariant data[..size] == old(data[..size])
        invariant data[size..size + i] == payload[..i]
        invariant data[end..] == old(data[end..])
      {
        data[size + i] := payload[i];
        assert data[size..size + i + 1] == data[size..size + i] + [payload[i]];
      }
      assert data[..] == data[..size] + data[size..end] + data[end..];
    }

    /** UnpackCameraImageChunk and UnpackAudioChunk. */
    method UnpackChunk(x: Chunk) returns (o: Outcome)
      modifies this, data
      ensures (o, Value()) == Unpack(old(Value()), x)
      ensures data == old(data) || fresh(data)
    {
      var xid, chunkId := Wrap32(x.id), Wrap32(x.chunkId);
      if id != -1 && chunkId == 0 {
        id := -1;
      }
      if id == -1 {
        if chunkId != 0 {
          invalid := true;
          return NotReady;
        }
        Reset();
        data := new byte[x.bufferSize](_ => 0);
        assert data[..] == Zeros(x.bufferSize);
        id := xid;
      }
      if chunkId != Wrap32(lastChunkId + 1) || xid != id {
        Reset();
        invalid := true;
        return NotReady;
      }
      var end := Wrap32(size + |x.data|);
      if !(0 <= size <= end <= data.Length) {
        return Crash;
      }
      CopyIn(x.data, end);
      size := end;
      lastChunkId := chunkId;
      return if chunkId == Wrap32((x.count - 1) % TWO_32) then Ready else NotReady;
    }
  }

  /** CameraFeed and AudioFeed: unpack every chunk, pass ready frames on, reset after each. The
      frames are those of the value model, and the loop is cut short only by a crash. */
  method FeedLoop(xs: seq<Chunk>) returns (frames: seq<Frame>, crashed: bool)
    ensures frames == Turns(START, xs).frames
    ensures crashed <==> Turns(START, xs).Crashed?
  {
    hide Unpack, Wrap32;
    var cache := new FeedCache();
    frames, crashed := [], false;
    var i := 0;
    assert xs[..0] == [];
    while i < |xs| && !crashed
      invariant i <= |xs|
      invariant fresh(cache) && fresh(cache.data)
      invariant Turns(START, xs[..i]) == if crashed then Crashed(frames) else Live(cache.Value(), frames)
    {
      assert xs[..i + 1][..i] == xs[..i];
      var o := cache.UnpackChunk(xs[i]);
      if o == Ready {
        if 0 <= cache.size <= cache.data.Length {
          frames := frames + [Frame(cache.id % TWO_32, cache.data[..cache.size])];
          cache.Reset();
        } else {
          crashed := true;
        }
      } else if o == Crash {
        crashed := true;
      }
      i := i + 1;
    }
    StaysCrashed(xs, i);
    assert xs[..|xs|] == xs;
  }

  lemma StaysCrashed(xs: seq<Chunk>, i: nat)
    requires i <= |xs|
    ensures Turns(START, xs[..i]).Crashed? ==> Turns(START, xs) == Turns(START, xs[..i])
  {
    if i < |xs| {
      assert xs[..|xs| - 1][..i] == xs[..i];
      StaysCrashed(xs[..|xs| - 1], i);
    } else {
      assert xs[..i] == xs;
    }
  }
}
