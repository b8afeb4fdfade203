/**
 * The key-frame sampler of server.js: `createUniformKeyFrames`, and the
 * offset sampler inside `detectMotionChanges`, whose ffprobe call is replaced
 * by its outcome as a parameter. Frames are integers; durations, rates and
 * timestamps are exact reals.
 */
module KeyFrames {
  import opened Wrappers
  import opened Numeric

  /** `numKeyFrames`: the sampler always proposes eight candidates. */
  const SampleCount: nat := 8
  /** The duration assumed when ffprobe fails or reports none, in seconds. */
  const DefaultDuration: real := 30.0
  /** The frame rate assumed when none is known. */
  const DefaultFps: real := 30.0

  datatype KeyFrame = KeyFrame(frameNumber: int, timestamp: real)

  /**
   * The outcome of an ffprobe call: an error passed to its callback, a throw
   * before the callback runs (as when `fluent-ffmpeg` is not loaded because
   * `VERCEL` is set, so `ffmpeg` is undefined), or the container duration
   * (`None` when absent) and the first stream's evaluated frame rate.
   */
  datatype Probe = ProbeFailed | ProbeThrew | Probed(formatDuration: Option<real>, frameRate: Option<real>)

  predicate ValidProbe(p: Probe) {
    p.Probed? ==>
      (p.formatDuration.Some? ==> p.formatDuration.value >= 0.0)
      && (p.frameRate.Some? ==> p.frameRate.value > 0.0)
  }

  /**
   * `x || 30` for a duration: `metadata.format.duration || 30` for the probed
   * one, and `parseFloat(req.body.duration) || 30` for the declared one, with
   * `None` for a missing value or NaN. An absent or zero duration becomes 30 s.
   */
  function DurationOr30(d: Option<real>): (r: real)
    requires d.Some? ==> d.value >= 0.0
    ensures r > 0.0
    ensures d.Some? && d.value != 0.0 ==> r == d.value
    ensures d.None? || d.value == 0.0 ==> r == DefaultDuration
  {
    if d.Some? && d.value != 0.0 then d.value else DefaultDuration
  }

  /** `Math.floor(duration * fps)`: the clip's frame count. */
  function TotalFrames(duration: real, fps: real): int {
    (duration * fps).Floor
  }

  /**
   * `Math.floor((duration * fps) / count)`: the spacing of the grid, the
   * largest `r` whose `count` steps fit in the clip's frame count.
   */
  function FrameInterval(duration: real, fps: real, count: nat): (r: int)
    requires count > 0 && duration >= 0.0 && fps > 0.0
    ensures r >= 0
    ensures r * count <= TotalFrames(duration, fps) < (r + 1) * count
  {
    FloorQuotientTimes(duration * fps, count);
    FloorQuotientAbove(duration * fps, count);
    ((duration * fps) / (count as real)).Floor
  }

  /** Every timestamp is its frame number divided by the frame rate. */
  predicate Consistent(kfs: seq<KeyFrame>, fps: real)
    requires fps > 0.0
  {
    forall i :: 0 <= i < |kfs| ==> kfs[i].timestamp == kfs[i].frameNumber as real / fps
  }

  /** Frame numbers never decrease along the list. */
  predicate Sorted(kfs: seq<KeyFrame>) {
    forall i, j :: 0 <= i < j < |kfs| ==> kfs[i].frameNumber <= kfs[j].frameNumber
  }

  /** Every frame number lies in `[lo, hi]`. */
  predicate FramesWithin(kfs: seq<KeyFrame>, lo: int, hi: int) {
    forall i :: 0 <= i < |kfs| ==> lo <= kfs[i].frameNumber <= hi
  }

  // ---------------------------------------------------------------------
  // createUniformKeyFrames

  /** Frame `i` of the uniform grid: `i * interval`, at `i * interval / fps` seconds. */
  function UniformKeyFrame(fps: real, duration: real, count: nat, i: int): KeyFrame
    requires count > 0 && duration >= 0.0 && fps > 0.0
  {
    var n := i * FrameInterval(duration, fps, count);
    KeyFrame(n, n as real / fps)
  }

  function UniformKeyFrames(fps: real, duration: real, count: nat): (r: seq<KeyFrame>)
    requires duration >= 0.0 && fps > 0.0
  {
    if count == 0 then [] else seq(count, i requires 0 <= i < count => UniformKeyFrame(fps, duration, count, i))
  }

  /**
   * The uniform grid has exactly `count` frames, in order, with consistent
   * timestamps, none past the clip's frame count.
   */
  lemma UniformKeyFramesShape(fps: real, duration: real, count: nat)
    requires fps > 0.0 && duration >= 0.0
    ensures var s := UniformKeyFrames(fps, duration, count);
      && |s| == count
      && Consistent(s, fps) && Sorted(s)
      && FramesWithin(s, 0, TotalFrames(duration, fps))
  {
    var s := UniformKeyFrames(fps, duration, count);
    if count > 0 {
      var interval := FrameInterval(duration, fps, count);
      forall i, j | 0 <= i < j < count
        ensures s[i].frameNumber <= s[j].frameNumber
      {
        MulMonotone(i, j, interval);
      }
      forall i | 0 <= i < count
        ensures 0 <= s[i].frameNumber <= TotalFrames(duration, fps)
      {
        MulMonotone(0, i, interval);
        MulMonotone(i, count, interval);
      }
    }
  }

  /**
   * `createUniformKeyFrames(fps, duration, numFrames)`: exactly `numFrames`
   * frames on the grid `i * floor(duration * fps / numFrames)`, in order,
   * none past the clip's frame count.
   */
  method CreateUniformKeyFrames(fps: real, duration: real, numFrames: nat) returns (frames: seq<KeyFrame>)
    requires fps > 0.0 && duration >= 0.0
    ensures frames == UniformKeyFrames(fps, duration, numFrames)
    ensures |frames| == numFrames
    ensures Consistent(frames, fps) && Sorted(frames)
    ensures FramesWithin(frames, 0, TotalFrames(duration, fps))
  {
    // With no frames requested JavaScript divides by zero; the value is never used.
    var interval := if numFrames > 0 then FrameInterval(duration, fps, numFrames) else 0;
    ghost var grid := UniformKeyFrames(fps, duration, numFrames);
    frames := [];
    var i := 0;
    while i < numFrames
      invariant 0 <= i <= numFrames
      invariant frames == grid[..i]
    {
      var frameNum := i * interval;
      frames := frames + [KeyFrame(frameNum, frameNum as real / fps)];
      i := i + 1;
    }
    UniformKeyFramesShape(fps, duration, numFrames);
  }

  // ---------------------------------------------------------------------
  // The offset sampler of detectMotionChanges

  /**
   * Candidate `i`: the grid point `i * interval` pushed forward by
   * `floor(interval * (0.3 + 0.1 i))`, capped at the clip's last frame.
   */
  function OffsetCandidate(duration: real, fps: real, i: int): int
    requires duration >= 0.0 && fps > 0.0
  {
    var interval := FrameInterval(duration, fps, SampleCount);
    Min(i * interval + SampleOffset(interval, i), TotalFrames(duration, fps) - 1)
  }

  /** `Math.floor(interval * (0.3 + i * 0.1))`: how far candidate `i` moves off its grid point. */
  function SampleOffset(interval: int, i: int): int {
    ((interval as real) * (0.3 + (i as real) * 0.1)).Floor
  }

  /** The frames the loop has pushed after its first `k` rounds (negative candidates are dropped). */
  function SampledUpTo(duration: real, fps: real, k: nat): seq<KeyFrame>
    requires duration >= 0.0 && fps > 0.0
  {
    if k == 0 then []
    else
      var c := OffsetCandidate(duration, fps, k - 1);
      SampledUpTo(duration, fps, k - 1) + (if c >= 0 then [KeyFrame(c, c as real / fps)] else [])
  }

  function SampledKeyFrames(duration: real, fps: real): seq<KeyFrame>
    requires duration >= 0.0 && fps > 0.0
  {
    SampledUpTo(duration, fps, SampleCount)
  }

  /** The loop of `detectMotionChanges` after a successful probe. */
  method SampleKeyFrames(duration: real, fps: real) returns (frames: seq<KeyFrame>)
    requires duration >= 0.0 && fps > 0.0
    ensures frames == SampledKeyFrames(duration, fps)
    ensures |frames| <= SampleCount
    ensures FramesWithin(frames, 0, TotalFrames(duration, fps) - 1)
  {
    var interval := FrameInterval(duration, fps, SampleCount);
    frames := [];
    var i: nat := 0;
    while i < SampleCount
      invariant i <= SampleCount
      invariant frames == SampledUpTo(duration, fps, i)
    {
      var baseFrame := i * interval;
      var offset := SampleOffset(interval, i);
      var frameNum := Min(baseFrame + offset, TotalFrames(duration, fps) - 1);
      if frameNum >= 0 {
        frames := frames + [KeyFrame(frameNum, frameNum as real / fps)];
      }
      i := i + 1;
    }
    SampledUpToShape(duration, fps, SampleCount);
  }

  /** Candidates move forward with the index. */
  lemma CandidateMonotone(duration: real, fps: real, i: nat)
    requires duration >= 0.0 && fps > 0.0
    ensures OffsetCandidate(duration, fps, i) <= OffsetCandidate(duration, fps, i + 1)
  {
    var interval := FrameInterval(duration, fps, SampleCount);
    ScaledFloorMonotone(0.3 + (i as real) * 0.1, 0.3 + ((i + 1) as real) * 0.1, interval as real);
    MulMonotone(i, i + 1, interval);
  }

  /** Before the cap, every candidate is at or after its grid point. */
  lemma CandidateUncappedNonNegative(duration: real, fps: real, i: nat)
    requires duration >= 0.0 && fps > 0.0
    ensures var interval := FrameInterval(duration, fps, SampleCount);
      i * interval + SampleOffset(interval, i) >= i * interval >= 0
  {
    var interval := FrameInterval(duration, fps, SampleCount);
    assert (interval as real) * (0.3 + (i as real) * 0.1) >= 0.0;
  }

  /**
   * The offset sampler's output: eight frames when the clip has at least one
   * frame and none otherwise; frame `i` is candidate `i`; every frame lies in
   * `[0, floor(duration * fps) - 1]`; frames are in order and timestamps agree.
   */
  lemma SampledUpToShape(duration: real, fps: real, k: nat)
    requires duration >= 0.0 && fps > 0.0
    ensures var s := SampledUpTo(duration, fps, k);
      && |s| == (if TotalFrames(duration, fps) >= 1 then k else 0)
      && (TotalFrames(duration, fps) >= 1 ==>
            forall i :: 0 <= i < k ==> s[i].frameNumber == OffsetCandidate(duration, fps, i))
      && FramesWithin(s, 0, TotalFrames(duration, fps) - 1)
      && Consistent(s, fps)
      && Sorted(s)
  {
    SampledUpToFrames(duration, fps, k);
    var s := SampledUpTo(duration, fps, k);
    forall i | 0 <= i < |s|
      ensures 0 <= s[i].frameNumber <= TotalFrames(duration, fps) - 1
    {
      CandidateUncappedNonNegative(duration, fps, i);
    }
    forall i, j | 0 <= i < j < |s|
      ensures s[i].frameNumber <= s[j].frameNumber
    {
      CandidatesOrdered(duration, fps, i, j);
    }
  }

  /** The first `k` rounds push exactly the candidates `0 .. k-1` when the clip has a frame, and nothing otherwise. */
  lemma {:induction false} SampledUpToFrames(duration: real, fps: real, k: nat)
    requires duration >= 0.0 && fps > 0.0
    ensures var s := SampledUpTo(duration, fps, k);
      && |s| == (if TotalFrames(duration, fps) >= 1 then k else 0)
      && (TotalFrames(duration, fps) >= 1 ==>
            forall i :: 0 <= i < k ==> s[i] == KeyFrame(OffsetCandidate(duration, fps, i), OffsetCandidate(duration, fps, i) as real / fps))
  {
    if k > 0 {
      SampledUpToFrames(duration, fps, k - 1);
      CandidateUncappedNonNegative(duration, fps, k - 1);
    }
  }

  /** Candidates never move backwards: candidate `i` is at or before candidate `j` when `i <= j`. */
  lemma {:induction false} CandidatesOrdered(duration: real, fps: real, i: nat, j: nat)
    requires duration >= 0.0 && fps > 0.0
    requires i <= j
    ensures OffsetCandidate(duration, fps, i) <= OffsetCandidate(duration, fps, j)
    decreases j - i
  {
    if i < j {
      CandidateMonotone(duration, fps, i);
      CandidatesOrdered(duration, fps, i + 1, j);
    }
  }

  /** The sampler's frames, all of them inside the clip: `0 <= frame < floor(duration * fps)`. */
  lemma SampledKeyFramesShape(duration: real, fps: real)
    requires duration >= 0.0 && fps > 0.0
    ensures var s := SampledKeyFrames(duration, fps);
      && |s| == (if TotalFrames(duration, fps) >= 1 then SampleCount else 0)
      && (forall i :: 0 <= i < |s| ==> s[i].frameNumber == OffsetCandidate(duration, fps, i))
      && (forall i :: 0 <= i < |s| ==> 0 <= s[i].frameNumber < TotalFrames(duration, fps))
      && (forall i :: 0 <= i < |s| ==> 0.0 <= s[i].timestamp < duration)
      && Consistent(s, fps) && Sorted(s)
  {
    SampledUpToShape(duration, fps, SampleCount);
    var s := SampledKeyFrames(duration, fps);
    forall i | 0 <= i < |s|
      ensures 0.0 <= s[i].timestamp < duration
    {
      FrameBeforeEnd(s[i].frameNumber, duration, fps);
    }
  }

  /** A frame before the clip's frame count is shown before the clip ends. */
  lemma FrameBeforeEnd(n: int, duration: real, fps: real)
    requires duration >= 0.0 && fps > 0.0
    requires 0 <= n < TotalFrames(duration, fps)
    ensures 0.0 <= n as real / fps < duration
  {
    var x := n as real;
    assert x < duration * fps;
    assert (x / fps) * fps == x;
  }

  // ---------------------------------------------------------------------
  // detectMotionChanges

  /**
   * What `detectMotionChanges` settles with: `None` when the ffprobe call
   * throws inside the promise's executor, so the promise rejects; on a probe
   * error, the uniform grid over a default 30 s clip; otherwise the offset
   * sampler over the probed duration (`|| 30`). The probed frame rate is not
   * used: the caller's `fps` is.
   */
  function DetectedKeyFrames(probe: Probe, fps: real): Option<seq<KeyFrame>>
    requires ValidProbe(probe) && fps > 0.0
  {
    match probe
    case ProbeThrew => None
    case ProbeFailed => Some(UniformKeyFrames(fps, DefaultDuration, SampleCount))
    case Probed(d, _) => Some(SampledKeyFrames(DurationOr30(d), fps))
  }

  /**
   * The promise rejects exactly when ffprobe throws; whatever it resolves
   * with is at most eight key frames, in frame order, at non-negative frames,
   * each timestamp its frame divided by the rate.
   */
  lemma DetectedKeyFramesShape(probe: Probe, fps: real)
    requires ValidProbe(probe) && fps > 0.0
    ensures DetectedKeyFrames(probe, fps).None? <==> probe.ProbeThrew?
    ensures DetectedKeyFrames(probe, fps).Some? ==>
      var kfs := DetectedKeyFrames(probe, fps).value;
      && |kfs| <= SampleCount && Consistent(kfs, fps) && Sorted(kfs)
      && forall i :: 0 <= i < |kfs| ==> kfs[i].frameNumber >= 0
  {
    match probe
    case ProbeThrew =>
    case ProbeFailed =>
      UniformKeyFramesShape(fps, DefaultDuration, SampleCount);
    case Probed(d, _) =>
      SampledKeyFramesShape(DurationOr30(d), fps);
  }

  /** `detectMotionChanges(videoPath, fps)`, with the ffprobe outcome in place of the path; `None` is the rejection. */
  method DetectMotionChanges(probe: Probe, fps: real) returns (keyFrames: Option<seq<KeyFrame>>)
    requires ValidProbe(probe) && fps > 0.0
    ensures keyFrames == DetectedKeyFrames(probe, fps)
    ensures keyFrames.None? <==> probe.ProbeThrew?
    ensures probe.ProbeFailed? ==> keyFrames == Some(UniformKeyFrames(fps, DefaultDuration, SampleCount))
    ensures keyFrames.Some? ==> |keyFrames.value| <= SampleCount
    ensures keyFrames.Some? ==> Consistent(keyFrames.value, fps) && Sorted(keyFrames.value)
    ensures keyFrames.Some? ==> forall i :: 0 <= i < |keyFrames.value| ==> keyFrames.value[i].frameNumber >= 0
  {
    match probe
    case ProbeThrew =>
      keyFrames := None;
    case ProbeFailed =>
      var frames := CreateUniformKeyFrames(fps, DefaultDuration, SampleCount);
      keyFrames := Some(frames);
    case Probed(d, _) =>
      var frames := SampleKeyFrames(DurationOr30(d), fps);
      keyFrames := Some(frames);
    DetectedKeyFramesShape(probe, fps);
  }
}
