/**
 * The audio player's bounded playback queue and the pull rule its output
 * callback follows. The queue holds at most MAX_CHUNKS chunks; appending to a
 * full queue evicts the oldest one.
 */
module Playback {

  /** One block of audio samples, as handed to `play`. */
  type Chunk = seq<real>

  const MAX_CHUNKS: nat := 20

  /** The contents of a `deque(maxlen=20)`. */
  type Queue = q: seq<Chunk> | |q| <= MAX_CHUNKS

  /** The newest MAX_CHUNKS chunks of `s`, oldest first. */
  function Latest(s: seq<Chunk>): (q: Queue)
    ensures |q| == if |s| <= MAX_CHUNKS then |s| else MAX_CHUNKS
    ensures q == s[|s| - |q|..]
  {
    if |s| <= MAX_CHUNKS then s else s[|s| - MAX_CHUNKS..]
  }

  /** `deque.append` on a bounded deque. */
  function Append(q: Queue, chunk: Chunk): (r: Queue)
    ensures r == Latest(q + [chunk])
    ensures |q| < MAX_CHUNKS ==> |r| == |q| + 1
  {
    if |q| < MAX_CHUNKS then q + [chunk] else q[1..] + [chunk]
  }

  /** Appending each chunk of `cs` in turn. */
  function AppendAll(q: Queue, cs: seq<Chunk>): Queue
    decreases |cs|
  {
    if cs == [] then q else AppendAll(Append(q, cs[0]), cs[1..])
  }

  /** Appending a run of chunks one by one keeps exactly the newest MAX_CHUNKS of them all. */
  lemma {:induction false} AppendAllKeepsLatest(q: Queue, cs: seq<Chunk>)
    ensures AppendAll(q, cs) == Latest(q + cs)
    decreases |cs|
  {
    if cs != [] {
      var s, rest := q + [cs[0]], cs[1..];
      var q1 := Append(q, cs[0]);
      calc {
        AppendAll(q, cs);
        AppendAll(q1, rest);
        { AppendAllKeepsLatest(q1, rest); }
        Latest(q1 + rest);
        { LatestOfLatest(s, rest); }
        Latest(s + rest);
        { assert s + rest == q + cs; }
        Latest(q + cs);
      }
    }
  }

  lemma LatestOfLatest(s: seq<Chunk>, t: seq<Chunk>)
    ensures Latest(Latest(s) + t) == Latest(s + t)
  {
    var ls := Latest(s);
    assert ls == s[|s| - |ls|..];
    var a, b := ls + t, s + t;
    assert a == b[|b| - |a|..];
  }

  function Zeros(n: nat): (z: seq<real>)
    ensures |z| == n && forall k :: 0 <= k < n ==> z[k] == 0.0
  {
    seq(n, _ => 0.0)
  }

  /**
   * The output callback: silence when the queue is empty, otherwise the head
   * chunk, zero-padded or cut to exactly `frameCount` samples, removed from the
   * queue.
   */
  function Pull(q: Queue, frameCount: nat): (r: (seq<real>, Queue))
    ensures |r.0| == frameCount
    ensures q == [] ==> r.1 == q
    ensures q != [] ==> r.1 == q[1..]
    ensures forall k :: 0 <= k < frameCount ==>
      r.0[k] == if q != [] && k < |q[0]| then q[0][k] else 0.0
  {
    if q == [] then (Zeros(frameCount), q)
    else
      var chunk := q[0];
      if |chunk| < frameCount then (chunk + Zeros(frameCount - |chunk|), q[1..])
      else (chunk[..frameCount], q[1..])
  }

  /** Chunks come out of the queue in the order they went in. */
  lemma {:induction false} PullAfterAppend(q: Queue, chunk: Chunk, frameCount: nat)
    requires |q| < MAX_CHUNKS
    ensures q == [] ==> Pull(Append(q, chunk), frameCount).1 == []
    ensures q != [] ==> Pull(Append(q, chunk), frameCount).1 == Append(Pull(q, frameCount).1, chunk)
  {
    if q != [] {
      assert (q + [chunk])[1..] == q[1..] + [chunk];
    }
  }

  /** Twenty-five chunks appended to an empty queue leave the last twenty. */
  lemma TwentyFiveKeepTwenty(cs: seq<Chunk>)
    requires |cs| == 25
    ensures AppendAll([], cs) == cs[5..]
  {
    AppendAllKeepsLatest([], cs);
    assert [] + cs == cs;
  }

  class AudioPlayer {
    var running: bool
    var buffer: Queue

    constructor ()
      ensures !running && buffer == []
    {
      running, buffer := false, [];
    }

    /**
     * Starting the output stream as the source writes it. `streamOpened` says
     * whether the device stream could be opened and `streamStarted` whether it
     * then started: the flag is raised after opening, before starting, so a
     * stream that opens but fails to start leaves the player marked running
     * while `start` reports failure.
     */
    method StartAsWritten(streamOpened: bool, streamStarted: bool) returns (ok: bool)
      modifies this
      ensures old(running) ==> !ok && running
      ensures !old(running) ==> running == streamOpened && ok == (streamOpened && streamStarted)
      ensures buffer == old(buffer)
    {
      if running {
        return false;
      }
      if !streamOpened {
        return false;
      }
      running := true;
      ok := streamStarted;
    }

    /**
     * Starting the output stream with the failure path leaving the player as
     * it was: the player is marked running exactly when the stream opened and
     * started.
     */
    method Start(streamOpened: bool, streamStarted: bool) returns (ok: bool)
      modifies this
      ensures old(running) ==> !ok && running
      ensures !old(running) ==> ok == (streamOpened && streamStarted) && running == ok
      ensures buffer == old(buffer)
    {
      if running {
        return false;
      }
      if !streamOpened || !streamStarted {
        return false;
      }
      running := true;
      ok := true;
    }

    method Stop()
      modifies this
      ensures !running && buffer == old(buffer)
    {
      if !running {
        return;
      }
      running := false;
    }

    /** `play`: enqueue one chunk, only while running. */
    method Play(chunk: Chunk)
      modifies this
      ensures running == old(running)
      ensures buffer == if running then Append(old(buffer), chunk) else old(buffer)
    {
      if !running {
        return;
      }
      buffer := Append(buffer, chunk);
    }

    /** The output callback asking for `frameCount` samples. */
    method Callback(frameCount: nat) returns (out: seq<real>)
      modifies this
      ensures running == old(running)
      ensures (out, buffer) == Pull(old(buffer), frameCount)
    {
      if buffer == [] {
        return Zeros(frameCount);
      }
      var chunk := buffer[0];
      buffer := buffer[1..];
      if |chunk| < frameCount {
        out := chunk + Zeros(frameCount - |chunk|);
      } else {
        out := chunk[..frameCount];
      }
    }
  }
}
