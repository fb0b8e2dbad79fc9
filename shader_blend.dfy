/** The per-frame budget of framebuffer copies for blending in the shader
    (ApplyShaderBlending without framebuffer fetch). */
module ShaderBlend {

  /** MAX_REASONABLE_BLITS_PER_FRAME; copies are refused beyond twice this many. */
  const MaxReasonableBlitsPerFrame := 24

  /** The frame of the last copy request (lastFrameBlit) and the number of requests
      counted in it (blitsThisFrame). */
  datatype BlitCounter = BlitCounter(lastFrame: int, count: int)

  /** The counter before the first request. */
  const InitialCounter := BlitCounter(-1, 0)

  /** The counter after one copy request made in frame numFlips, and whether the copy
      may go ahead. */
  datatype BlitDecision = BlitDecision(counter: BlitCounter, allowed: bool)

  /** One request: a new frame restarts the count, every request is counted, and a
      request beyond twice the reasonable number is refused. */
  function CountBlit(c: BlitCounter, numFlips: int): BlitDecision {
    var count := (if c.lastFrame != numFlips then 0 else c.count) + 1;
    BlitDecision(BlitCounter(numFlips, count), count <= 2 * MaxReasonableBlitsPerFrame)
  }

  /** The counter after a sequence of requests, one per entry, made in the frames given. */
  function RunBlits(frames: seq<int>): BlitCounter {
    if |frames| == 0 then InitialCounter
    else CountBlit(RunBlits(frames[..|frames| - 1]), frames[|frames| - 1]).counter
  }

  /** Whether the last request of the sequence may copy. */
  predicate LastBlitAllowed(frames: seq<int>)
    requires |frames| > 0
  {
    CountBlit(RunBlits(frames[..|frames| - 1]), frames[|frames| - 1]).allowed
  }

  /** After any sequence of requests made in real frames (the flip counter is never
      negative), the counter holds the last frame and the length of the run of
      requests at the end of the sequence made in that frame: all of the last `count`
      requests were made in it and the one before them was not. */
  lemma {:induction false} RunBlitsCountsTrailingRun(frames: seq<int>)
    requires |frames| > 0
    requires forall i :: 0 <= i < |frames| ==> frames[i] >= 0
    ensures var c := RunBlits(frames);
      var n := |frames|;
      c.lastFrame == frames[n - 1] && 1 <= c.count <= n &&
      (forall j :: n - c.count <= j < n ==> frames[j] == frames[n - 1]) &&
      (c.count < n ==> frames[n - 1 - c.count] != frames[n - 1])
    decreases |frames|
  {
    var n := |frames|;
    var prefix := frames[..n - 1];
    if n > 1 {
      RunBlitsCountsTrailingRun(prefix);
    }
  }

  /** The budget: a request may copy exactly when it is among the first 48 requests
      of an uninterrupted run of requests in the same frame. */
  lemma LastBlitAllowedWithinBudget(frames: seq<int>, k: nat)
    requires |frames| > 0
    requires forall i :: 0 <= i < |frames| ==> frames[i] >= 0
    requires k <= |frames|
    requires forall j :: |frames| - k <= j < |frames| ==> frames[j] == frames[|frames| - 1]
    requires k < |frames| ==> frames[|frames| - 1 - k] != frames[|frames| - 1]
    ensures LastBlitAllowed(frames) <==> k <= 2 * MaxReasonableBlitsPerFrame
  {
    RunBlitsCountsTrailingRun(frames);
    var c := RunBlits(frames);
    assert c == CountBlit(RunBlits(frames[..|frames| - 1]), frames[|frames| - 1]).counter;
    assert c.count == k;
  }
}
