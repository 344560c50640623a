/**
 * The frame accumulator: a fixed scratch buffer of twice the frame length and a
 * write offset. Incoming chunks of samples are copied in as far as they fit;
 * whole frames are then cut off the front one at a time and the rest is slid
 * down to index 0.
 */
module Accumulator {

  import opened Buffers

  /** Concatenation of a sequence of frames, in order. */
  function Flatten<T>(frames: seq<seq<T>>): seq<T>
  {
    if frames == [] then [] else frames[0] + Flatten(frames[1..])
  }

  lemma {:induction false} FlattenAppend<T>(a: seq<seq<T>>, b: seq<seq<T>>)
    ensures Flatten(a + b) == Flatten(a) + Flatten(b)
  {
    if a == [] {
      assert a + b == b;
    } else {
      assert (a + b)[1..] == a[1..] + b;
      FlattenAppend(a[1..], b);
    }
  }

  /**
   * Cuts `s` into consecutive frames of `t` samples, front first, and returns
   * them together with the tail that is too short to form another frame.
   */
  function Chop<T>(s: seq<T>, t: nat): (r: (seq<seq<T>>, seq<T>))
    requires t > 0
    ensures |r.1| < t
    decreases |s|
  {
    if |s| < t then ([], s)
    else
      var rest := Chop(s[t..], t);
      ([s[..t]] + rest.0, rest.1)
  }

  lemma MulAtLeast(d: int, t: int)
    requires t > 0
    ensures d >= 1 ==> d * t >= t
  {
    if d >= 1 {
      assert d * t == (d - 1) * t + t;
    }
  }

  /** Euclidean division is determined by its defining equation. */
  lemma DivModUnique(n: nat, t: nat, q: nat, r: nat)
    requires t > 0 && r < t && n == q * t + r
    ensures n / t == q && n % t == r
  {
    var q', r' := n / t, n % t;
    assert (q - q') * t == r' - r;
    MulAtLeast(q - q', t);
    MulAtLeast(q' - q, t);
    assert (q' - q) * t == -((q - q') * t);
  }

  /**
   * Chopping loses and reorders nothing: the frames followed by the leftover
   * give back the input.
   */
  lemma {:induction false} ChopConserves<T>(s: seq<T>, t: nat)
    requires t > 0
    ensures Flatten(Chop(s, t).0) + Chop(s, t).1 == s
    decreases |s|
  {
    if |s| >= t {
      ChopConserves(s[t..], t);
      var (frames', rest') := Chop(s[t..], t);
      var frames := Chop(s, t).0;
      assert frames[0] == s[..t] && frames[1..] == frames';
      assert s == s[..t] + s[t..];
    }
  }

  /** Every frame has exactly `t` samples. */
  lemma {:induction false} ChopFrameSize<T>(s: seq<T>, t: nat)
    requires t > 0
    ensures forall f | f in Chop(s, t).0 :: |f| == t
    decreases |s|
  {
    if |s| >= t {
      ChopFrameSize(s[t..], t);
    }
  }

  /** There are `|s| / t` frames and the leftover holds `|s| % t` samples. */
  lemma {:induction false} ChopCount<T>(s: seq<T>, t: nat)
    requires t > 0
    ensures |Chop(s, t).0| == |s| / t && |Chop(s, t).1| == |s| % t
  {
    ChopLength(s, t);
    DivModUnique(|s|, t, |Chop(s, t).0|, |Chop(s, t).1|);
  }

  lemma {:induction false} ChopLength<T>(s: seq<T>, t: nat)
    requires t > 0
    ensures |Chop(s, t).0| * t + |Chop(s, t).1| == |s|
    decreases |s|
  {
    if |s| >= t {
      ChopLength(s[t..], t);
      var n' := |Chop(s[t..], t).0|;
      assert |Chop(s, t).0| == n' + 1;
      assert (n' + 1) * t == n' * t + t;
    }
  }

  /** Both facts about `Chop` at once. */
  lemma ChopSpec<T>(s: seq<T>, t: nat)
    requires t > 0
    ensures Flatten(Chop(s, t).0) + Chop(s, t).1 == s
    ensures forall f | f in Chop(s, t).0 :: |f| == t
    ensures |Chop(s, t).0| == |s| / t && |Chop(s, t).1| == |s| % t
  {
    ChopConserves(s, t);
    ChopFrameSize(s, t);
    ChopCount(s, t);
  }

  /**
   * Cutting one more frame off `cur` keeps the frames cut so far, followed by
   * the frames of what is left, equal to the frames of the whole.
   */
  lemma ChopStep<T>(all: seq<T>, done: seq<seq<T>>, cur: seq<T>, t: nat)
    requires 0 < t <= |cur|
    requires Chop(all, t) == (done + Chop(cur, t).0, Chop(cur, t).1)
    ensures Chop(all, t) == ((done + [cur[..t]]) + Chop(cur[t..], t).0, Chop(cur[t..], t).1)
  {
    assert Chop(cur, t).0 == [cur[..t]] + Chop(cur[t..], t).0;
    assert done + ([cur[..t]] + Chop(cur[t..], t).0) == (done + [cur[..t]]) + Chop(cur[t..], t).0;
  }

  /** What one call of `addSamples` does, stated on values. */
  datatype Ingested<T> = Ingested(frames: seq<seq<T>>, pending: seq<T>, copied: nat)

  /**
   * The effect of `addSamples` on the buffered prefix `pending`, for a buffer
   * of `2 * t` samples: copy as many of `samples` as fit, then cut frames.
   */
  function Ingest<T>(pending: seq<T>, samples: seq<T>, t: nat): Ingested<T>
    requires 0 < t && |pending| <= 2 * t
  {
    var free := 2 * t - |pending|;
    var toCopy := if |samples| < free then |samples| else free;
    var (frames, rest) := Chop(pending + samples[..toCopy], t);
    Ingested(frames, rest, toCopy)
  }

  /**
   * One call copies exactly `min(|samples|, free)` samples, drops nothing
   * when the chunk fits, conserves the samples in arrival order, returns
   * frames of `t` samples each and leaves fewer than `t` samples buffered.
   */
  lemma IngestConserves<T>(pending: seq<T>, samples: seq<T>, t: nat)
    requires 0 < t && |pending| <= 2 * t
    ensures var r := Ingest(pending, samples, t);
      && r.copied == (if |samples| < 2 * t - |pending| then |samples| else 2 * t - |pending|)
      && (|samples| <= 2 * t - |pending| ==> r.copied == |samples|)
      && pending + samples[..r.copied] == Flatten(r.frames) + r.pending
      && (forall f | f in r.frames :: |f| == t)
      && |r.pending| < t
  {
    var r := Ingest(pending, samples, t);
    ChopConserves(pending + samples[..r.copied], t);
    ChopFrameSize(pending + samples[..r.copied], t);
  }

  /**
   * One call returns `(|pending| + copied) / t` frames, never more than two,
   * and keeps the remainder of that division.
   */
  lemma IngestCount<T>(pending: seq<T>, samples: seq<T>, t: nat)
    requires 0 < t && |pending| <= 2 * t
    ensures var r := Ingest(pending, samples, t);
      && |r.frames| == (|pending| + r.copied) / t
      && |r.pending| == (|pending| + r.copied) % t
      && |r.frames| <= 2
  {
    var r := Ingest(pending, samples, t);
    var all := pending + samples[..r.copied];
    assert |all| == |pending| + r.copied <= 2 * t;
    ChopCount(all, t);
    ChopLength(all, t);
    var n := |r.frames|;
    assert n * t <= 2 * t;
    MulAtLeast(n - 2, t);
    assert (n - 2) * t == n * t - 2 * t;
  }

  lemma IngestSpec<T>(pending: seq<T>, samples: seq<T>, t: nat)
    requires 0 < t && |pending| <= 2 * t
    ensures var r := Ingest(pending, samples, t);
      && r.copied == (if |samples| < 2 * t - |pending| then |samples| else 2 * t - |pending|)
      && pending + samples[..r.copied] == Flatten(r.frames) + r.pending
      && (forall f | f in r.frames :: |f| == t)
      && |r.frames| == (|pending| + r.copied) / t
      && |r.pending| == (|pending| + r.copied) % t
      && |r.frames| <= 2
      && |r.pending| < t
  {
    IngestConserves(pending, samples, t);
    IngestCount(pending, samples, t);
  }

  /** Running a whole stream of chunks through the accumulator, one call per chunk. */
  function IngestAll<T>(pending: seq<T>, chunks: seq<seq<T>>, t: nat): Ingested<T>
    requires 0 < t && |pending| <= 2 * t
    decreases |chunks|
  {
    if chunks == [] then Ingested([], pending, 0)
    else
      var first := Ingest(pending, chunks[0], t);
      var rest := IngestAll(first.pending, chunks[1..], t);
      Ingested(first.frames + rest.frames, rest.pending, first.copied + rest.copied)
  }

  /** The part of each chunk that a stream of calls keeps, in order. */
  function AcceptedAll<T>(pending: seq<T>, chunks: seq<seq<T>>, t: nat): seq<T>
    requires 0 < t && |pending| <= 2 * t
    decreases |chunks|
  {
    if chunks == [] then []
    else
      var first := Ingest(pending, chunks[0], t);
      chunks[0][..first.copied] + AcceptedAll(first.pending, chunks[1..], t)
  }

  /**
   * Over any stream of chunks, the frames emitted in order followed by what is
   * still buffered equal what was buffered at the start followed by every
   * sample that was not dropped for lack of room.
   */
  lemma {:induction false} IngestAllConserves<T>(pending: seq<T>, chunks: seq<seq<T>>, t: nat)
    requires 0 < t && |pending| <= 2 * t
    ensures Flatten(IngestAll(pending, chunks, t).frames) + IngestAll(pending, chunks, t).pending
         == pending + AcceptedAll(pending, chunks, t)
    decreases |chunks|
  {
    if chunks != [] {
      var first := Ingest(pending, chunks[0], t);
      var rest := IngestAll(first.pending, chunks[1..], t);
      ChopConserves(pending + chunks[0][..first.copied], t);
      IngestAllConserves(first.pending, chunks[1..], t);
      FlattenAppend(first.frames, rest.frames);
      Regroup(Flatten(first.frames), first.pending, Flatten(rest.frames), rest.pending,
              pending, chunks[0][..first.copied], AcceptedAll(first.pending, chunks[1..], t));
    }
  }

  lemma Regroup<T>(f1: seq<T>, p1: seq<T>, f2: seq<T>, p2: seq<T>, p: seq<T>, c: seq<T>, a: seq<T>)
    requires f1 + p1 == p + c && f2 + p2 == p1 + a
    ensures (f1 + f2) + p2 == p + (c + a)
  {
    calc {
      (f1 + f2) + p2;
      f1 + (f2 + p2);
      f1 + (p1 + a);
      (f1 + p1) + a;
      (p + c) + a;
    }
  }

  /** Every frame a stream of calls emits has exactly `t` samples. */
  lemma {:induction false} IngestAllFrameSize<T>(pending: seq<T>, chunks: seq<seq<T>>, t: nat)
    requires 0 < t && |pending| <= 2 * t
    ensures forall f | f in IngestAll(pending, chunks, t).frames :: |f| == t
    decreases |chunks|
  {
    if chunks != [] {
      var first := Ingest(pending, chunks[0], t);
      IngestConserves(pending, chunks[0], t);
      IngestAllFrameSize(first.pending, chunks[1..], t);
    }
  }

  /** The accumulator object: `buffer` and `offset` are updated in place by `AddSamples`. */
  class AudioAccumulator<T(0)> {
    const frameSize: nat
    const channels: nat
    const targetSamples: nat
    const buffer: array<T>
    var offset: nat

    ghost predicate Valid()
      reads this
    {
      && targetSamples == frameSize * channels
      && targetSamples > 0
      && buffer.Length == 2 * targetSamples
      && offset <= buffer.Length
    }

    /** The buffered samples of the incomplete frame. */
    ghost function Pending(): seq<T>
      reads this, buffer
      requires Valid()
    {
      buffer[..offset]
    }

    constructor (frameSize: nat, channels: nat)
      requires frameSize * channels > 0
      ensures Valid() && fresh(buffer)
      ensures this.frameSize == frameSize && this.channels == channels
      ensures targetSamples == frameSize * channels
      ensures buffer.Length == 2 * targetSamples
      ensures offset == 0 && Pending() == []
    {
      this.frameSize := frameSize;
      this.channels := channels;
      targetSamples := frameSize * channels;
      buffer := new T[2 * (frameSize * channels)];
      offset := 0;
    }

    /**
     * Copies as much of `samples` as fits at `offset` (dropping the rest) and
     * returns the whole frames that are then complete, leaving the remainder
     * at the start of the buffer.
     */
    method AddSamples(samples: seq<T>) returns (frames: seq<seq<T>>)
      requires Valid()
      modifies this, buffer
      ensures Valid()
      ensures var r := Ingest(old(Pending()), samples, targetSamples);
        frames == r.frames && Pending() == r.pending
      ensures offset < targetSamples
      ensures forall f | f in frames :: |f| == targetSamples
      ensures |frames| <= 2
    {
      ghost var before := Pending();
      ghost var r := Ingest(before, samples, targetSamples);
      var toCopy := if |samples| < buffer.Length - offset then |samples| else buffer.Length - offset;
      SetAt(buffer, samples[..toCopy], offset);
      offset := offset + toCopy;
      ghost var all := buffer[..offset];
      assert all == before + samples[..toCopy];
      assert r == Ingested(Chop(all, targetSamples).0, Chop(all, targetSamples).1, toCopy);
      frames := [];
      assert frames + Chop(all, targetSamples).0 == Chop(all, targetSamples).0;
      while offset >= targetSamples
        invariant Valid()
        invariant Chop(all, targetSamples) == (frames + Chop(buffer[..offset], targetSamples).0, Chop(buffer[..offset], targetSamples).1)
        decreases offset
      {
        ghost var cur := buffer[..offset];
        ChopStep(all, frames, cur, targetSamples);
        var frame := buffer[..targetSamples];
        assert frame == cur[..targetSamples];
        frames := frames + [frame];
        var leftover := buffer[targetSamples..offset];
        assert leftover == cur[targetSamples..];
        SetAt(buffer, leftover, 0);
        offset := offset - targetSamples;
        assert buffer[..offset] == buffer[0..|leftover|] == leftover;
      }
      assert Chop(Pending(), targetSamples) == ([], Pending());
      assert frames + [] == frames;
      assert frames == r.frames && Pending() == r.pending;
      IngestSpec(before, samples, targetSamples);
    }
  }

  /**
   * The worked case of a stereo 960-sample frame: a fresh accumulator fed one
   * chunk of 3840 samples returns two frames that are exactly that chunk and
   * keeps nothing buffered.
   */
  method FeedTwoFrames(samples: seq<int>) returns (frames: seq<seq<int>>, offset: nat)
    requires |samples| == 3840
    ensures |frames| == 2 && offset == 0
    ensures Flatten(frames) == samples
  {
    var acc := new AudioAccumulator<int>(960, 2);
    frames := acc.AddSamples(samples);
    offset := acc.offset;
    ghost var r := Ingest([], samples, 1920);
    assert 3840 / 1920 == 2 && 3840 % 1920 == 0;
    IngestSpec([], samples, 1920);
    assert r.copied == 3840 && samples[..3840] == samples;
    assert |r.pending| == 0;
    assert Flatten(frames) + [] == samples;
  }
}
