/**
 * The strided frame sampler (class `Cap`). The video decoder is abstracted as the finite sequence
 * of frames it would decode from `path`, plus a cursor: a decode succeeds only while the capture is
 * not released and the cursor is below the sequence length, and then advances the cursor by one.
 */
module FrameSource {
  import opened Wrappers

  /** Frames at positions start, start + k, start + 2k, ... that lie below |frames|. */
  function Sampled<Frame>(frames: seq<Frame>, start: nat, k: nat): seq<Frame>
    requires k >= 1
    decreases |frames| - start
  {
    if start >= |frames| then [] else [frames[start]] + Sampled(frames, start + k, k)
  }

  /** Decodes taken per emitted frame by `read_all`: one read plus `range(step_size - 1)` discards. */
  function BulkStride(stepSize: int): (k: nat)
    ensures k >= 1 && (stepSize >= 1 ==> k == stepSize)
  {
    if stepSize >= 1 then stepSize else 1
  }

  /** Frames discarded after each successful `read`: `range(step_size)`. */
  function Discards(stepSize: int): nat
  {
    if stepSize >= 0 then stepSize else 0
  }

  function Min(a: nat, b: nat): nat { if a <= b then a else b }

  /** Frames obtained by calling `read` until it fails, starting at `cursor`. */
  ghost function RepeatedReads<Frame>(frames: seq<Frame>, cursor: nat, stepSize: int): seq<Frame>
    decreases |frames| - cursor
  {
    if cursor >= |frames| then []
    else [frames[cursor]] + RepeatedReads(frames, Min(cursor + 1 + Discards(stepSize), |frames|), stepSize)
  }

  class Cap<Frame> {
    const path: string
    const stepSize: int
    var currFrameNo: int
    /** `__enter__` has opened the capture handle. */
    var entered: bool
    /** `__exit__` has released it. */
    var released: bool
    /** What the codec decodes from `path`, and how many of those frames were consumed. */
    var stream: seq<Frame>
    var cursor: nat

    ghost predicate Valid()
      reads this
    {
      cursor <= |stream|
    }

    constructor (path: string, stepSize: int := 1)
      ensures this.path == path && this.stepSize == stepSize && currFrameNo == 0
      ensures !entered && !released && Valid()
    {
      this.path := path;
      this.stepSize := stepSize;
      currFrameNo := 0;
      entered := false;
      released := false;
      stream := [];
      cursor := 0;
    }

    /** `__enter__`: open a fresh capture whose decodable frames are `decoded`. An unopenable
        path decodes nothing. */
    method Enter(decoded: seq<Frame>)
      modifies this
      ensures Valid() && entered && !released && stream == decoded && cursor == 0
      ensures currFrameNo == old(currFrameNo)
    {
      entered := true;
      released := false;
      stream := decoded;
      cursor := 0;
    }

    /** One `self.cap.read()`: the next frame, or failure at end of stream or after release. */
    method Decode() returns (ok: bool, frame: Option<Frame>)
      requires Valid() && entered
      modifies this`cursor
      ensures Valid()
      ensures ok == (!released && old(cursor) < |stream|)
      ensures ok ==> frame == Some(stream[old(cursor)]) && cursor == old(cursor) + 1
      ensures !ok ==> frame == None && cursor == old(cursor)
    {
      if !released && cursor < |stream| {
        ok, frame := true, Some(stream[cursor]);
        cursor := cursor + 1;
      } else {
        ok, frame := false, None;
      }
    }

    /** `read`: one frame, then up to `step_size` frames decoded and discarded. */
    method Read() returns (success: bool, frame: Option<Frame>)
      requires Valid() && entered
      modifies this`cursor
      ensures Valid()
      ensures success == (!released && old(cursor) < |stream|)
      ensures success ==> frame == Some(stream[old(cursor)])
      ensures success ==> cursor == Min(old(cursor) + 1 + Discards(stepSize), |stream|)
      ensures !success ==> frame == None && cursor == old(cursor)
    {
      success, frame := Decode();
      if !success {
        return;
      }
      var j := 0;
      while j < stepSize
        invariant Valid() && 0 <= j <= Discards(stepSize)
        invariant cursor == Min(old(cursor) + 1 + j, |stream|)
      {
        var s, f := Decode();
        if !s {
          assert cursor == |stream|;
          break;
        }
        j := j + 1;
      }
    }

    /** `read_all`: every frame at the bulk stride from the cursor on, until a decode fails. */
    method ReadAll() returns (frames: seq<Frame>)
      requires Valid() && entered
      modifies this`cursor
      ensures Valid()
      ensures frames == if released then [] else Sampled(stream, old(cursor), BulkStride(stepSize))
      ensures cursor == if released then old(cursor) else |stream|
    {
      var k := BulkStride(stepSize);
      frames := [];
      while true
        invariant Valid() && old(cursor) <= cursor
        invariant released ==> frames == [] && cursor == old(cursor)
        invariant !released ==> frames + Sampled(stream, cursor, k) == Sampled(stream, old(cursor), k)
        decreases |stream| - cursor
      {
        ghost var emitted := cursor;
        var success, frame := Decode();
        if !success {
          return;
        }
        frames := frames + [frame.value];
        var j := 0;
        while j < stepSize - 1
          invariant Valid() && 0 <= j && j <= k - 1
          invariant cursor == emitted + 1 + j
        {
          var s, f := Decode();
          if !s {
            assert Sampled(stream, emitted + k, k) == [];
            return;
          }
          j := j + 1;
        }
        assert cursor == emitted + k;
      }
    }

    /** `__exit__`: release the capture handle. */
    method Exit()
      requires entered
      modifies this`released
      ensures released
    {
      released := true;
    }
  }

  /** A caller that calls `read` until it fails collects exactly RepeatedReads. */
  method ReadUntilFailure<Frame>(c: Cap<Frame>) returns (out: seq<Frame>)
    requires c.Valid() && c.entered && !c.released
    modifies c`cursor
    ensures c.Valid() && c.cursor == |c.stream|
    ensures out == RepeatedReads(c.stream, old(c.cursor), c.stepSize)
  {
    out := [];
    while true
      invariant c.Valid() && old(c.cursor) <= c.cursor
      invariant out + RepeatedReads(c.stream, c.cursor, c.stepSize) == RepeatedReads(c.stream, old(c.cursor), c.stepSize)
      decreases |c.stream| - c.cursor
    {
      var success, frame := c.Read();
      if !success {
        return;
      }
      out := out + [frame.value];
    }
  }

  // ---------------------------------------------------------------------------------------
  // Lemmas

  /** The i-th sampled frame is the frame at position start + i * k. */
  lemma {:induction false} SampledAt<Frame>(frames: seq<Frame>, start: nat, k: nat, i: nat)
    requires k >= 1 && i < |Sampled(frames, start, k)|
    ensures start + i * k < |frames| && Sampled(frames, start, k)[i] == frames[start + i * k]
    decreases |frames| - start
  {
    if i > 0 {
      SampledAt(frames, start + k, k, i - 1);
      assert start + k + (i - 1) * k == start + i * k;
    }
  }

  /** Conversely, every position start + i * k below |frames| is emitted, as the i-th frame. */
  lemma {:induction false} SampledCovers<Frame>(frames: seq<Frame>, start: nat, k: nat, i: nat)
    requires k >= 1 && start + i * k < |frames|
    ensures i < |Sampled(frames, start, k)|
    decreases i
  {
    if i > 0 {
      assert start + k + (i - 1) * k == start + i * k;
      SampledCovers(frames, start + k, k, i - 1);
    }
  }

  /** With step size 1 (or less) every remaining frame is emitted, in order. */
  lemma {:induction false} StrideOneEmitsAll<Frame>(frames: seq<Frame>, start: nat)
    requires start <= |frames|
    ensures Sampled(frames, start, 1) == frames[start..]
    decreases |frames| - start
  {
    if start < |frames| {
      StrideOneEmitsAll(frames, start + 1);
      assert frames[start..] == [frames[start]] + frames[start + 1..];
    }
  }

  /** Calling `read` until it fails samples with stride step_size + 1, one more than `read_all`. */
  lemma {:induction false} RepeatedReadsStride<Frame>(frames: seq<Frame>, cursor: nat, stepSize: int)
    ensures RepeatedReads(frames, cursor, stepSize) == Sampled(frames, cursor, Discards(stepSize) + 1)
    decreases |frames| - cursor
  {
    var k := Discards(stepSize) + 1;
    if cursor < |frames| {
      var next := cursor + k;
      RepeatedReadsStride(frames, Min(next, |frames|), stepSize);
      if next > |frames| {
        assert Sampled(frames, next, k) == [];
        assert Sampled(frames, |frames|, k) == [];
      }
    }
  }
}
