/** The listener on the sentinel pipe: 8-byte frames put together from reads of any size. */
module Sentinel {

  newtype Byte = x: int | 0 <= x < 0x100

  const MSG_LEN := 8

  /** "WORT" */
  const MAGIC: seq<Byte> := [87, 79, 82, 84]

  /** The bytes the thread gets to see: everything up to the first read that returns nothing. */
  function Stream(chunks: seq<seq<Byte>>): seq<Byte> {
    if chunks == [] || chunks[0] == [] then [] else chunks[0] + Stream(chunks[1..])
  }

  /** Byte for byte: eight are there, and the first four spell "WORT". */
  predicate FrameAt(s: seq<Byte>, k: nat) {
    && 8 * k + 8 <= |s|
    && s[8 * k] == 87 && s[8 * k + 1] == 79 && s[8 * k + 2] == 82 && s[8 * k + 3] == 84
  }

  lemma {:induction false} StreamSnoc(chunks: seq<seq<Byte>>, chunk: seq<Byte>)
    requires [] !in chunks
    ensures Stream(chunks + [chunk]) == Stream(chunks) + chunk
  {
    if chunks == [] {
      assert chunks + [chunk] == [chunk] && [chunk][1..] == [];
    } else {
      assert (chunks + [chunk])[1..] == chunks[1..] + [chunk];
      assert chunks == [chunks[0]] + chunks[1..];
      StreamSnoc(chunks[1..], chunk);
    }
  }

  /** The stream is what the reads return one after the other, and what follows a read that
      returns nothing is never seen. */
  lemma {:induction false} StreamMeaning(chunks: seq<seq<Byte>>, chunk: seq<Byte>, later: seq<seq<Byte>>)
    requires [] !in chunks
    ensures Stream([]) == []
    ensures Stream(chunks + [chunk]) == Stream(chunks) + chunk
    ensures Stream(chunks + [[]] + later) == Stream(chunks)
  {
    StreamSnoc(chunks, chunk);
    StreamEnds(chunks, later);
  }

  lemma {:induction false} StreamEnds(chunks: seq<seq<Byte>>, later: seq<seq<Byte>>)
    ensures Stream(chunks + [[]] + later) == Stream(chunks)
  {
    var all := chunks + [[]] + later;
    if chunks != [] {
      assert all[0] == chunks[0] && all[1..] == chunks[1..] + [[]] + later;
      StreamEnds(chunks[1..], later);
    }
  }

  /** Some complete frame, counted in whole frames from the start, carries the magic. */
  ghost predicate HasFrame(s: seq<Byte>) {
    exists k: nat :: FrameAt(s, k)
  }

  /** `ReadFile` never returns more than the room it is given, which is what is left of the
      frame being filled. */
  predicate Fits(offset: nat, chunks: seq<seq<Byte>>)
    requires offset < MSG_LEN
    decreases |chunks|
  {
    chunks == [] || chunks[0] == [] || (|chunks[0]| <= MSG_LEN - offset
                    && Fits(if offset + |chunks[0]| == MSG_LEN then 0 else offset + |chunks[0]|, chunks[1..]))
  }

  /** `ReadFile`: copies the bytes of one read to the buffer from `offset` on and leaves the
      rest of the buffer as it was. */
  method ReadFile(buf: array<Byte>, offset: nat, data: seq<Byte>)
    requires offset + |data| <= buf.Length
    modifies buf
    ensures buf[..offset + |data|] == old(buf[..offset]) + data
    ensures buf[offset + |data|..] == old(buf[offset + |data|..])
  {
    forall i | 0 <= i < |data| {
      buf[offset + i] := data[i];
    }
  }

  /** Whether a frame was seen, as far as the thread has read: it changes only when a frame
      is complete, and then by that frame alone. */
  lemma {:induction false} FrameCompleted(s: seq<Byte>, t: seq<Byte>)
    requires |t| < MSG_LEN && |s| % MSG_LEN == 0
    ensures HasFrame(s + t) == HasFrame(s)
  {
    forall k: nat ensures FrameAt(s + t, k) == FrameAt(s, k) {
      if MSG_LEN * k + MSG_LEN <= |s| {
        assert (s + t)[MSG_LEN * k..MSG_LEN * k + 4] == s[MSG_LEN * k..MSG_LEN * k + 4];
      }
    }
  }

  lemma {:induction false} FrameAdded(s: seq<Byte>, frame: seq<Byte>)
    requires |frame| == MSG_LEN && |s| % MSG_LEN == 0
    ensures HasFrame(s + frame) == (HasFrame(s) || frame[..4] == MAGIC)
  {
    var n := |s| / MSG_LEN;
    assert (s + frame)[MSG_LEN * n..MSG_LEN * n + 4] == frame[..4];
    assert FrameAt(s + frame, n) == (frame[..4] == MAGIC);
    forall k: nat | k != n ensures FrameAt(s + frame, k) == FrameAt(s, k) {
      if MSG_LEN * k + MSG_LEN <= |s| {
        assert (s + frame)[MSG_LEN * k..MSG_LEN * k + 4] == s[MSG_LEN * k..MSG_LEN * k + 4];
      }
    }
    assert !FrameAt(s, n);
  }

  /** What is known when some frames are complete and `partial` begins the next one. */
  ghost predicate Framed(seen: seq<Byte>, partial: seq<Byte>, received: bool) {
    && |partial| < MSG_LEN && |partial| <= |seen| && (|seen| - |partial|) % MSG_LEN == 0
    && seen[|seen| - |partial|..] == partial
    && (received <==> HasFrame(seen))
  }

  lemma {:induction false} FrameGrows(seen: seq<Byte>, partial: seq<Byte>, received: bool, data: seq<Byte>)
    requires Framed(seen, partial, received) && |partial| + |data| <= MSG_LEN
    ensures |partial + data| < MSG_LEN ==> Framed(seen + data, partial + data, received)
    ensures |partial + data| == MSG_LEN ==>
      Framed(seen + data, [], received || (partial + data)[..4] == MAGIC)
  {
    var frames := seen[..|seen| - |partial|];
    assert seen == frames + partial && seen + data == frames + (partial + data);
    FrameCompleted(frames, partial);
    if |partial + data| < MSG_LEN {
      FrameCompleted(frames, partial + data);
    } else {
      FrameAdded(frames, partial + data);
    }
  }

  lemma {:induction false} NothingFramed()
    ensures Framed([], [], false)
  {}

  /** One iteration: the read itself and what follows it. */
  method TakeRead(buf: array<Byte>, offset: nat, received: bool, data: seq<Byte>, ghost seen: seq<Byte>)
    returns (newOffset: nat, newReceived: bool)
    requires buf.Length == MSG_LEN && offset < MSG_LEN && |data| <= MSG_LEN - offset
    requires Framed(seen, buf[..offset], received)
    modifies buf
    ensures newOffset == if offset + |data| == MSG_LEN then 0 else offset + |data|
    ensures Framed(seen + data, buf[..newOffset], newReceived)
  {
    FrameGrows(seen, buf[..offset], received, data);
    newReceived := received;
    ReadFile(buf, offset, data);
    newOffset := offset + |data|;
    if newOffset >= MSG_LEN {
      assert buf[0..4] == buf[..newOffset][..4];
      if buf[0..4] == MAGIC {
        newReceived := true;
      }
      newOffset := 0;
      assert buf[..newOffset] == [];
    }
  }

  /** `sentinel_thread`.  `chunks` holds what each successful `ReadFile` returns; after the last
      one the call fails.  The verdict depends on the byte stream alone. */
  method SentinelThread(chunks: seq<seq<Byte>>) returns (received: bool)
    requires Fits(0, chunks)
    ensures received <==> HasFrame(Stream(chunks))
  {
    var buf := new Byte[MSG_LEN](_ => 0);
    var offset := 0;
    received := false;
    ghost var seen: seq<Byte> := [];
    var i := 0;
    assert chunks[0..] == chunks && buf[..0] == [];
    NothingFramed();
    while i < |chunks| && chunks[i] != []
      invariant 0 <= i <= |chunks| && 0 <= offset < MSG_LEN && buf.Length == MSG_LEN
      invariant Fits(offset, chunks[i..])
      invariant seen + Stream(chunks[i..]) == Stream(chunks)
      invariant Framed(seen, buf[..offset], received)
      decreases |chunks| - i
    {
      assert chunks[i..][1..] == chunks[i + 1..];
      assert seen + (chunks[i] + Stream(chunks[i + 1..])) == seen + chunks[i] + Stream(chunks[i + 1..]);
      offset, received := TakeRead(buf, offset, received, chunks[i], seen);
      seen := seen + chunks[i];
      i := i + 1;
    }
    assert seen == Stream(chunks);
  }
}
