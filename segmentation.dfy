/**
 * The segmentation engine of server.js: `segmentVideoWithMotion`, which cuts
 * a clip into five segments around the sampler's key frames, its fallback
 * `segmentVideoUniform`, the legacy `segmentVideo`, and the metadata
 * defaults of the upload route that feed them.
 */
module Segmentation {
  import opened Wrappers
  import opened Numeric
  import opened KeyFrames

  /** `numSegments`: every clip is cut into five segments. */
  const NumSegments: nat := 5

  /**
   * One scene: frame indices, and the same three positions in seconds
   * (`freeze_at` in the JSON the server sends).
   */
  datatype Segment = Segment(
    id: int,
    startFrame: int,
    endFrame: int,
    freezeFrame: int,
    start: real,
    end: real,
    freezeAt: real)

  /** Five segments numbered 1 to 5 in order. */
  predicate WellNumbered(segs: seq<Segment>) {
    |segs| == NumSegments && forall i :: 0 <= i < |segs| ==> segs[i].id == i + 1
  }

  /** Each freeze frame lies in its segment and each segment ends where or before the next starts. */
  predicate FrameOrdered(segs: seq<Segment>) {
    && (forall i :: 0 <= i < |segs| ==> segs[i].startFrame <= segs[i].freezeFrame <= segs[i].endFrame)
    && (forall i :: 0 <= i < |segs| - 1 ==> segs[i].endFrame <= segs[i + 1].startFrame)
  }

  /** The same ordering on the positions in seconds. */
  predicate TimeOrdered(segs: seq<Segment>) {
    && (forall i :: 0 <= i < |segs| ==> segs[i].start <= segs[i].freezeAt <= segs[i].end)
    && (forall i :: 0 <= i < |segs| - 1 ==> segs[i].end <= segs[i + 1].start)
  }

  /** The frame fields are the seconds fields times the rate, floored. */
  predicate FramesAgree(seg: Segment, fps: real) {
    && seg.startFrame == FrameAt(seg.start, fps)
    && seg.endFrame == FrameAt(seg.end, fps)
    && seg.freezeFrame == FrameAt(seg.freezeAt, fps)
  }

  /** What every cut the engine produces satisfies. */
  predicate WellFormedCut(segs: seq<Segment>, fps: real) {
    && WellNumbered(segs)
    && segs[0].startFrame == 0
    && FrameOrdered(segs) && TimeOrdered(segs)
    && forall i :: 0 <= i < |segs| ==> FramesAgree(segs[i], fps)
  }

  /** `Math.floor(seconds * fps)`. */
  function FrameAt(seconds: real, fps: real): int {
    (seconds * fps).Floor
  }

  lemma FrameAtMonotone(x: real, y: real, fps: real)
    requires x <= y && fps >= 0.0
    ensures FrameAt(x, fps) <= FrameAt(y, fps)
  {
    ScaledFloorMonotone(x, y, fps);
  }

  // ---------------------------------------------------------------------
  // segmentVideoUniform

  /** Segment `i` of the uniform cut: one-decimal boundaries, an unrounded midpoint freeze. */
  function UniformSegment(duration: real, fps: real, i: int): Segment {
    var start := Boundary(duration, i);
    var end := Boundary(duration, i + 1);
    var freezeAt := (start + end) / 2.0;
    Segment(i + 1, FrameAt(start, fps), FrameAt(end, fps), FrameAt(freezeAt, fps), start, end, freezeAt)
  }

  /** `Math.round(i * segmentDuration * 10) / 10` with `segmentDuration = duration / 5`. */
  function Boundary(duration: real, i: int): real {
    Round1((i as real) * (duration / 5.0))
  }


  function UniformSegments(duration: real, fps: real): seq<Segment> {
    seq(NumSegments, i => UniformSegment(duration, fps, i))
  }

  /** `segmentVideoUniform(duration, fps)`. */
  method SegmentVideoUniform(duration: real, fps: real) returns (segments: seq<Segment>)
    ensures segments == UniformSegments(duration, fps)
  {
    ghost var cut := UniformSegments(duration, fps);
    segments := [];
    var i := 0;
    while i < NumSegments
      invariant 0 <= i <= NumSegments
      invariant segments == cut[..i]
    {
      var start := Boundary(duration, i);
      var end := Boundary(duration, i + 1);
      var freezeAt := (start + end) / 2.0;
      var segment := Segment(i + 1, FrameAt(start, fps), FrameAt(end, fps), FrameAt(freezeAt, fps), start, end, freezeAt);
      assert segment == cut[i];
      segments := segments + [segment];
      i := i + 1;
    }
    assert segments == cut;
  }

  /** One uniform segment: its freeze is the midpoint of its rounded boundaries, and lies between them in seconds and in frames. */
  lemma UniformSegmentOrdered(duration: real, fps: real, i: int)
    requires duration >= 0.0 && fps > 0.0 && i >= 0
    ensures var seg := UniformSegment(duration, fps, i);
      && seg.start == Boundary(duration, i) && seg.end == Boundary(duration, i + 1)
      && seg.freezeAt == (seg.start + seg.end) / 2.0
      && seg.start <= seg.freezeAt <= seg.end
      && seg.startFrame <= seg.freezeFrame <= seg.endFrame
      && FramesAgree(seg, fps)
  {
    var seg := UniformSegment(duration, fps, i);
    BoundaryMonotone(duration, i);
    FrameAtMonotone(seg.start, seg.freezeAt, fps);
    FrameAtMonotone(seg.freezeAt, seg.end, fps);
  }

  /** Consecutive uniform boundaries never decrease. */
  lemma BoundaryMonotone(duration: real, i: int)
    requires duration >= 0.0 && i >= 0
    ensures Boundary(duration, i) <= Boundary(duration, i + 1)
  {
    assert duration / 5.0 >= 0.0;
    assert ((i + 1) as real) * (duration / 5.0) == (i as real) * (duration / 5.0) + duration / 5.0;
    Round1Monotone((i as real) * (duration / 5.0), ((i + 1) as real) * (duration / 5.0));
  }

  /** Each uniform boundary is within 0.05 s of the exact fifth it rounds. */
  lemma BoundaryClose(duration: real, i: int)
    ensures (i as real) * duration / 5.0 - 0.05 < Boundary(duration, i) <= (i as real) * duration / 5.0 + 0.05
  {
    assert (i as real) * (duration / 5.0) == (i as real) * duration / 5.0;
  }

  /**
   * The uniform cut: five segments numbered 1 to 5, the first starting at
   * 0, each ending exactly where the next starts, in seconds and in frames,
   * each freezing at its unrounded midpoint; frame fields are the seconds
   * times the rate, floored.
   */
  lemma UniformSegmentsShape(duration: real, fps: real)
    requires duration > 0.0 && fps > 0.0
    ensures var s := UniformSegments(duration, fps);
      && WellFormedCut(s, fps)
      && s[0].start == 0.0
      && (forall i :: 0 <= i < NumSegments - 1 ==> s[i].end == s[i + 1].start && s[i].endFrame == s[i + 1].startFrame)
      && (forall i :: 0 <= i < NumSegments ==> s[i].freezeAt == (s[i].start + s[i].end) / 2.0)
  {
    UniformSegmentsContiguous(duration, fps);
    UniformSegmentsInside(duration, fps);
  }

  /** The uniform cut is numbered 1 to 5, starts at 0 and its segments meet end to start, in seconds and in frames. */
  lemma UniformSegmentsContiguous(duration: real, fps: real)
    requires duration > 0.0 && fps > 0.0
    ensures var s := UniformSegments(duration, fps);
      && WellNumbered(s) && s[0].start == 0.0 && s[0].startFrame == 0
      && (forall i :: 0 <= i < NumSegments - 1 ==> s[i].end == s[i + 1].start && s[i].endFrame == s[i + 1].startFrame)
  {
    assert Boundary(duration, 0) == 0.0;
  }

  /** Each uniform segment freezes at its midpoint, inside it in seconds and in frames, its frames agreeing with its seconds. */
  lemma UniformSegmentsInside(duration: real, fps: real)
    requires duration > 0.0 && fps > 0.0
    ensures var s := UniformSegments(duration, fps);
      && (forall i :: 0 <= i < NumSegments ==> s[i].freezeAt == (s[i].start + s[i].end) / 2.0)
      && (forall i :: 0 <= i < NumSegments ==> s[i].start <= s[i].freezeAt <= s[i].end)
      && (forall i :: 0 <= i < NumSegments ==> s[i].startFrame <= s[i].freezeFrame <= s[i].endFrame)
      && (forall i :: 0 <= i < NumSegments ==> FramesAgree(s[i], fps))
  {
    var s := UniformSegments(duration, fps);
    forall i | 0 <= i < NumSegments
      ensures s[i].freezeAt == (s[i].start + s[i].end) / 2.0
      ensures s[i].start <= s[i].freezeAt <= s[i].end
      ensures s[i].startFrame <= s[i].freezeFrame <= s[i].endFrame
      ensures FramesAgree(s[i], fps)
    {
      UniformSegmentOrdered(duration, fps, i);
    }
  }

  /**
   * Every uniform boundary is within 0.05 s of the exact fifth of the
   * duration it rounds; the last one within 0.05 s of the duration.
   */
  lemma UniformSegmentsClose(duration: real, fps: real)
    requires duration > 0.0 && fps > 0.0
    ensures var s := UniformSegments(duration, fps);
      && (forall i :: 0 <= i < NumSegments ==>
            (i as real) * duration / 5.0 - 0.05 < s[i].start <= (i as real) * duration / 5.0 + 0.05)
      && duration - 0.05 < s[NumSegments - 1].end <= duration + 0.05
  {
    var s := UniformSegments(duration, fps);
    forall i | 0 <= i < NumSegments
      ensures (i as real) * duration / 5.0 - 0.05 < s[i].start <= (i as real) * duration / 5.0 + 0.05
    {
      BoundaryClose(duration, i);
    }
    BoundaryClose(duration, NumSegments);
  }

  /**
   * The last uniform boundary is `duration` rounded to one decimal, so the
   * last end frame can pass the clip's frame count: a 10.06 s clip at
   * 30 fps has 301 frames, and its last segment ends at frame 303.
   */
  lemma UniformLastEndCanPassFrameCount()
    ensures TotalFrames(10.06, 30.0) == 301
    ensures UniformSegments(10.06, 30.0)[NumSegments - 1].endFrame == 303
  {
    assert 10.06 * 30.0 == 301.8;
    assert 5.0 * (10.06 / 5.0) * 10.0 == 100.6;
  }

  /** A 30 s clip at 30 fps: boundaries every 6 s, freezes at 3, 9, 15, 21 and 27 s. */
  lemma UniformThirtySecondClip()
    ensures var s := UniformSegments(30.0, 30.0);
      && (forall i :: 0 <= i < NumSegments ==> s[i].start == 6.0 * i as real && s[i].end == 6.0 * (i + 1) as real)
      && (forall i :: 0 <= i < NumSegments ==> s[i].freezeAt == 6.0 * i as real + 3.0)
  {
    var s := UniformSegments(30.0, 30.0);
    forall i | 0 <= i < NumSegments
      ensures s[i].start == 6.0 * i as real && s[i].end == 6.0 * (i + 1) as real
    {
      assert (i as real) * (30.0 / 5.0) * 10.0 + 0.5 == (60 * i) as real + 0.5;
      assert ((i + 1) as real) * (30.0 / 5.0) * 10.0 + 0.5 == (60 * (i + 1)) as real + 0.5;
    }
  }

  // ---------------------------------------------------------------------
  // segmentVideoWithMotion

  /** Key frame `kf` falls in ratio window `[i/5, (i+1)/5)` of the clip. */
  predicate InWindow(kf: KeyFrame, duration: real, i: int)
    requires duration > 0.0
  {
    var ratio := kf.timestamp / duration;
    (i as real) / 5.0 <= ratio < ((i + 1) as real) / 5.0
  }

  /** `keyFrames.filter(...)`: the key frames of window `i`, in their original order. */
  function WindowKeyFrames(kfs: seq<KeyFrame>, duration: real, i: int): (w: seq<KeyFrame>)
    requires duration > 0.0
    ensures |w| <= |kfs|
    ensures forall k :: 0 <= k < |w| ==> w[k] in kfs && InWindow(w[k], duration, i)
    ensures forall kf :: kf in kfs && InWindow(kf, duration, i) ==> kf in w
  {
    if kfs == [] then []
    else
      var rest := WindowKeyFrames(kfs[1..], duration, i);
      if InWindow(kfs[0], duration, i) then [kfs[0]] + rest else rest
  }

  /** `i / numSegments * duration * fps`: where window `i` starts, in (fractional) frames. */
  function WindowStart(duration: real, fps: real, i: int): real {
    (i as real) / 5.0 * duration * fps
  }

  /** `Math.floor(i / numSegments * duration * fps)`. */
  function WindowEdge(duration: real, fps: real, i: int): int {
    WindowStart(duration, fps, i).Floor
  }

  /**
   * Segment `i` of the motion cut. Its start (except for the first, which
   * starts at 0) is its window's first key frame, its end (except for the
   * last, which ends at the clip's frame count) its window's last key frame,
   * and its freeze the key frame at position `floor(count / 2)`; a window
   * with no key frames uses the window's edges and their floored midpoint.
   */
  function MotionSegment(duration: real, fps: real, kfs: seq<KeyFrame>, i: int): Segment
    requires duration > 0.0 && fps > 0.0
  {
    CutSegment(i, WindowKeyFrames(kfs, duration, i), WindowEdge(duration, fps, i),
               WindowEdge(duration, fps, i + 1), TotalFrames(duration, fps), fps)
  }

  /**
   * Segment `i` given its window's key frames `w`, the window's edge frames
   * `lo` and `hi`, and the clip's frame count `total`.
   */
  function CutSegment(i: int, w: seq<KeyFrame>, lo: int, hi: int, total: int, fps: real): Segment
    requires fps > 0.0
  {
    var startFrame :=
      if i == 0 then 0
      else if |w| > 0 then w[0].frameNumber
      else lo;
    var endFrame :=
      if i == NumSegments - 1 then total
      else if |w| > 0 then w[|w| - 1].frameNumber
      else hi;
    var freezeFrame :=
      if |w| > 0 then w[|w| / 2].frameNumber
      else (startFrame + endFrame) / 2;
    FramesSegment(i + 1, startFrame, endFrame, freezeFrame, fps)
  }

  /** A segment given by frames, its seconds fields the frames divided by the rate. */
  function FramesSegment(id: int, startFrame: int, endFrame: int, freezeFrame: int, fps: real): Segment
    requires fps > 0.0
  {
    Segment(id, startFrame, endFrame, freezeFrame,
            startFrame as real / fps, endFrame as real / fps, freezeFrame as real / fps)
  }

  /** What `segmentVideoWithMotion` returns for a given key-frame list. */
  function MotionSegments(duration: real, fps: real, kfs: seq<KeyFrame>): seq<Segment>
    requires duration > 0.0 && fps > 0.0
  {
    if |kfs| == 0 then UniformSegments(duration, fps)
    else seq(NumSegments, i => MotionSegment(duration, fps, kfs, i))
  }

  /**
   * The body of `segmentVideoWithMotion` once the key frames are known: no
   * key frames means exactly the uniform cut; otherwise one segment per
   * ratio window.
   */
  method SegmentWithKeyFrames(duration: real, fps: real, keyFrames: seq<KeyFrame>) returns (segments: seq<Segment>)
    requires duration > 0.0 && fps > 0.0
    ensures segments == MotionSegments(duration, fps, keyFrames)
    ensures keyFrames == [] ==> segments == UniformSegments(duration, fps)
    ensures keyFrames != [] ==> forall i :: 0 <= i < |segments| ==> segments[i] == MotionSegment(duration, fps, keyFrames, i)
  {
    if |keyFrames| == 0 {
      segments := SegmentVideoUniform(duration, fps);
      return;
    }
    segments := [];
    var i := 0;
    while i < NumSegments
      invariant 0 <= i <= NumSegments && |segments| == i
      invariant forall k :: 0 <= k < i ==> segments[k] == MotionSegment(duration, fps, keyFrames, k)
    {
      var segment := CutWindow(duration, fps, keyFrames, i);
      segments := segments + [segment];
      i := i + 1;
    }
  }

  /** One pass of the loop in `segmentVideoWithMotion`: segment `i` from the key frames of window `i`. */
  method CutWindow(duration: real, fps: real, keyFrames: seq<KeyFrame>, i: int) returns (segment: Segment)
    requires duration > 0.0 && fps > 0.0
    ensures segment == MotionSegment(duration, fps, keyFrames, i)
  {
    var segmentKeyFrames := WindowKeyFrames(keyFrames, duration, i);
    var startFrame :=
      if i == 0 then 0
      else if |segmentKeyFrames| > 0 then segmentKeyFrames[0].frameNumber
      else WindowEdge(duration, fps, i);
    var endFrame :=
      if i == NumSegments - 1 then TotalFrames(duration, fps)
      else if |segmentKeyFrames| > 0 then segmentKeyFrames[|segmentKeyFrames| - 1].frameNumber
      else WindowEdge(duration, fps, i + 1);
    var freezeFrame :=
      if |segmentKeyFrames| > 0 then segmentKeyFrames[|segmentKeyFrames| / 2].frameNumber
      else (startFrame + endFrame) / 2;
    segment := FramesSegment(i + 1, startFrame, endFrame, freezeFrame, fps);
  }

  /**
   * What `segmentVideoWithMotion` returns for a sampler outcome: when
   * `detectMotionChanges` rejects, its catch falls back to the uniform cut;
   * otherwise the cut over the key frames it resolves with.
   */
  function SamplerCut(samplerProbe: Probe, duration: real, fps: real): seq<Segment>
    requires ValidProbe(samplerProbe) && duration > 0.0 && fps > 0.0
  {
    match DetectedKeyFrames(samplerProbe, fps)
    case None => UniformSegments(duration, fps)
    case Some(kfs) => MotionSegments(duration, fps, kfs)
  }

  /** `segmentVideoWithMotion(videoPath, duration, fps)`, with the sampler's probe outcome in place of the path. */
  method SegmentVideoWithMotion(samplerProbe: Probe, duration: real, fps: real) returns (segments: seq<Segment>)
    requires ValidProbe(samplerProbe) && duration > 0.0 && fps > 0.0
    ensures segments == SamplerCut(samplerProbe, duration, fps)
    ensures samplerProbe.ProbeThrew? ==> segments == UniformSegments(duration, fps)
    ensures !samplerProbe.ProbeThrew? ==> segments == MotionSegments(duration, fps, DetectedKeyFrames(samplerProbe, fps).value)
  {
    var keyFrames := DetectMotionChanges(samplerProbe, fps);
    if keyFrames.None? {
      segments := SegmentVideoUniform(duration, fps);
    } else {
      segments := SegmentWithKeyFrames(duration, fps, keyFrames.value);
    }
  }

  /** `segmentVideo(duration, numSegments)`: the count is ignored; always five uniform segments at 30 fps. */
  method SegmentVideo(duration: real, numSegments: int) returns (segments: seq<Segment>)
    ensures segments == UniformSegments(duration, DefaultFps)
    ensures |segments| == NumSegments
  {
    segments := SegmentVideoUniform(duration, DefaultFps);
  }

  // ---------------------------------------------------------------------
  // Properties of the motion cut

  /** Window `i` is the one holding ratio `r` exactly when `i = floor(5 r)`: windows are disjoint and, over `[0, 1)`, cover every ratio. */
  lemma WindowIsUnique(kf: KeyFrame, duration: real, i: int)
    requires duration > 0.0
    ensures InWindow(kf, duration, i) <==> i == (5.0 * (kf.timestamp / duration)).Floor
  {
  }

  /** No key frame is assigned to two segments. */
  lemma WindowsDisjoint(kfs: seq<KeyFrame>, duration: real, i: int, j: int, kf: KeyFrame)
    requires duration > 0.0
    requires kf in WindowKeyFrames(kfs, duration, i) && kf in WindowKeyFrames(kfs, duration, j)
    ensures i == j
  {
    WindowIsUnique(kf, duration, i);
    WindowIsUnique(kf, duration, j);
  }

  /** The key frames inside the clip, `0 <= timestamp / duration < 1`. */
  function InClip(kfs: seq<KeyFrame>, duration: real): (r: seq<KeyFrame>)
    requires duration > 0.0
    ensures |r| <= |kfs|
  {
    if kfs == [] then []
    else
      var rest := InClip(kfs[1..], duration);
      if 0.0 <= kfs[0].timestamp / duration < 1.0 then [kfs[0]] + rest else rest
  }

  /** The five windows share out the key frames inside the clip: their sizes add up to that count. */
  lemma {:induction false} WindowsPartition(kfs: seq<KeyFrame>, duration: real)
    requires duration > 0.0
    ensures |WindowKeyFrames(kfs, duration, 0)| + |WindowKeyFrames(kfs, duration, 1)|
          + |WindowKeyFrames(kfs, duration, 2)| + |WindowKeyFrames(kfs, duration, 3)|
          + |WindowKeyFrames(kfs, duration, 4)| == |InClip(kfs, duration)|
  {
    if kfs != [] {
      WindowsPartition(kfs[1..], duration);
      var k := (5.0 * (kfs[0].timestamp / duration)).Floor;
      WindowIsUnique(kfs[0], duration, 0);
      WindowIsUnique(kfs[0], duration, 1);
      WindowIsUnique(kfs[0], duration, 2);
      WindowIsUnique(kfs[0], duration, 3);
      WindowIsUnique(kfs[0], duration, 4);
    }
  }

  /** Window edges never decrease; the first is frame 0 and the sixth the clip's frame count. */
  lemma WindowEdges(duration: real, fps: real, i: int)
    requires duration > 0.0 && fps > 0.0
    ensures WindowStart(duration, fps, i) <= WindowStart(duration, fps, i + 1)
    ensures WindowEdge(duration, fps, i) <= WindowEdge(duration, fps, i + 1)
    ensures WindowEdge(duration, fps, 0) == 0
    ensures WindowEdge(duration, fps, NumSegments) == TotalFrames(duration, fps)
  {
    ScaleOrder((i as real) / 5.0, ((i + 1) as real) / 5.0, duration * fps);
    FloorMonotone(WindowStart(duration, fps, i), WindowStart(duration, fps, i + 1));
  }

  /** A key frame's window, restated on its frame number: `i/5 * d * fps <= n < (i+1)/5 * d * fps`. */
  lemma WindowFrameBounds(kf: KeyFrame, duration: real, fps: real, i: int)
    requires duration > 0.0 && fps > 0.0
    requires kf.timestamp == kf.frameNumber as real / fps
    requires InWindow(kf, duration, i)
    ensures WindowStart(duration, fps, i) <= kf.frameNumber as real < WindowStart(duration, fps, i + 1)
    ensures WindowEdge(duration, fps, i) <= kf.frameNumber <= WindowEdge(duration, fps, i + 1)
  {
    var q := kf.timestamp / duration;
    var span := duration * fps;
    var a, b := (i as real) / 5.0, ((i + 1) as real) / 5.0;
    var n := kf.frameNumber as real;
    assert q * span == n by {
      assert q * duration == kf.timestamp;
      assert q * span == (q * duration) * fps;
      assert (n / fps) * fps == n;
    }
    assert WindowStart(duration, fps, i) == a * span by {
      assert a * duration * fps == a * (duration * fps);
    }
    assert WindowStart(duration, fps, i + 1) == b * span by {
      assert b * duration * fps == b * (duration * fps);
    }
    assert a <= q < b;
    ScaleBetween(a, q, b, span, n);
  }

  /** The key frames of a window keep the list's order. */
  lemma {:induction false} WindowKeepsOrder(kfs: seq<KeyFrame>, duration: real, i: int)
    requires duration > 0.0 && Sorted(kfs)
    ensures Sorted(WindowKeyFrames(kfs, duration, i))
  {
    if kfs != [] {
      var tail := kfs[1..];
      assert Sorted(tail);
      WindowKeepsOrder(tail, duration, i);
      var rest := WindowKeyFrames(tail, duration, i);
      if InWindow(kfs[0], duration, i) {
        forall k | 0 <= k < |rest|
          ensures kfs[0].frameNumber <= rest[k].frameNumber
        {
          var j :| 0 <= j < |tail| && tail[j] == rest[k];
          assert kfs[j + 1] == rest[k];
        }
        SortedCons(kfs[0], rest);
      }
    }
  }

  /** A frame no later than every frame of an ordered list keeps it ordered when put in front. */
  lemma SortedCons(kf: KeyFrame, rest: seq<KeyFrame>)
    requires Sorted(rest)
    requires forall k :: 0 <= k < |rest| ==> kf.frameNumber <= rest[k].frameNumber
    ensures Sorted([kf] + rest)
  {
    var s := [kf] + rest;
    forall a, b | 0 <= a < b < |s|
      ensures s[a].frameNumber <= s[b].frameNumber
    {
      if a == 0 {
        assert s[b] == rest[b - 1];
      } else {
        assert s[a] == rest[a - 1] && s[b] == rest[b - 1];
      }
    }
  }

  /** Every key frame of window `i` lies between the window's edges. */
  lemma WindowBetweenEdges(kfs: seq<KeyFrame>, duration: real, fps: real, i: int)
    requires duration > 0.0 && fps > 0.0
    requires Consistent(kfs, fps)
    ensures FramesWithin(WindowKeyFrames(kfs, duration, i), WindowEdge(duration, fps, i), WindowEdge(duration, fps, i + 1))
  {
    var w := WindowKeyFrames(kfs, duration, i);
    forall k | 0 <= k < |w|
      ensures WindowEdge(duration, fps, i) <= w[k].frameNumber <= WindowEdge(duration, fps, i + 1)
    {
      var j :| 0 <= j < |kfs| && kfs[j] == w[k];
      WindowFrameBounds(w[k], duration, fps, i);
    }
  }

  /**
   * Each motion segment lies between its window's edges, and its freeze
   * frame between its start and end.
   */
  lemma MotionSegmentBounds(duration: real, fps: real, kfs: seq<KeyFrame>, i: int)
    requires duration > 0.0 && fps > 0.0 && 0 <= i < NumSegments
    requires Sorted(kfs) && Consistent(kfs, fps)
    ensures var s := MotionSegment(duration, fps, kfs, i);
      WindowEdge(duration, fps, i) <= s.startFrame <= s.freezeFrame <= s.endFrame <= WindowEdge(duration, fps, i + 1)
  {
    var w := WindowKeyFrames(kfs, duration, i);
    var lo, hi := WindowEdge(duration, fps, i), WindowEdge(duration, fps, i + 1);
    WindowEdges(duration, fps, i);
    WindowEdges(duration, fps, NumSegments - 1);
    WindowKeepsOrder(kfs, duration, i);
    WindowBetweenEdges(kfs, duration, fps, i);
    CutSegmentBounds(i, w, lo, hi, TotalFrames(duration, fps), fps);
  }

  /**
   * A segment cut from an ordered window whose key frames lie between its
   * edges stays between those edges, its freeze frame between its start
   * and end.
   */
  lemma CutSegmentBounds(i: int, w: seq<KeyFrame>, lo: int, hi: int, total: int, fps: real)
    requires fps > 0.0 && 0 <= i < NumSegments && lo <= hi
    requires Sorted(w) && FramesWithin(w, lo, hi)
    requires i == 0 ==> lo == 0
    requires i == NumSegments - 1 ==> total == hi
    ensures var s := CutSegment(i, w, lo, hi, total, fps);
      lo <= s.startFrame <= s.freezeFrame <= s.endFrame <= hi
  {
    if |w| > 0 {
      var mid, last := |w| / 2, |w| - 1;
      assert w[0].frameNumber <= w[mid].frameNumber by { if 0 < mid { } }
      assert w[mid].frameNumber <= w[last].frameNumber by { if mid < last { } }
    }
  }

  /** A segment built from ordered frames is ordered in seconds too, and its frames are its seconds times the rate. */
  lemma FramesSegmentAgrees(id: int, startFrame: int, endFrame: int, freezeFrame: int, fps: real)
    requires fps > 0.0 && startFrame <= freezeFrame <= endFrame
    ensures var seg := FramesSegment(id, startFrame, endFrame, freezeFrame, fps);
      seg.start <= seg.freezeAt <= seg.end && FramesAgree(seg, fps)
  {
    DivideOrder(startFrame as real, freezeFrame as real, fps);
    DivideOrder(freezeFrame as real, endFrame as real, fps);
    FrameSecondsRoundTrip(startFrame, fps);
    FrameSecondsRoundTrip(endFrame, fps);
    FrameSecondsRoundTrip(freezeFrame, fps);
  }

  /**
   * The motion cut is ordered: every freeze frame lies in its segment, each
   * segment ends at or before the next one starts, the first starts at
   * frame 0 and the last ends at `floor(duration * fps)`; the seconds fields
   * are the frames divided by the rate, so the same holds in seconds.
   */
  lemma MotionSegmentsOrdered(duration: real, fps: real, kfs: seq<KeyFrame>)
    requires duration > 0.0 && fps > 0.0 && kfs != []
    requires Sorted(kfs) && Consistent(kfs, fps)
    ensures var s := MotionSegments(duration, fps, kfs);
      WellFormedCut(s, fps) && s[NumSegments - 1].endFrame == TotalFrames(duration, fps)
  {
    MotionFramesOrdered(duration, fps, kfs);
    MotionTimesOrdered(duration, fps, kfs);
    MotionSegmentEnds(duration, fps, kfs);
  }

  /** The motion cut's frames: numbered 1 to 5, each freeze inside its segment, no overlap, frames agreeing with seconds. */
  lemma MotionFramesOrdered(duration: real, fps: real, kfs: seq<KeyFrame>)
    requires duration > 0.0 && fps > 0.0 && kfs != []
    requires Sorted(kfs) && Consistent(kfs, fps)
    ensures var s := MotionSegments(duration, fps, kfs);
      WellNumbered(s) && FrameOrdered(s) && forall i :: 0 <= i < |s| ==> FramesAgree(s[i], fps)
  {
    var s := MotionSegments(duration, fps, kfs);
    forall i | 0 <= i < NumSegments
      ensures WindowEdge(duration, fps, i) <= s[i].startFrame <= s[i].freezeFrame <= s[i].endFrame <= WindowEdge(duration, fps, i + 1)
      ensures s[i].id == i + 1 && FramesAgree(s[i], fps)
    {
      MotionSegmentShape(duration, fps, kfs, i);
    }
  }

  /** The motion cut's seconds: each freeze inside its segment, and no overlap. */
  lemma MotionTimesOrdered(duration: real, fps: real, kfs: seq<KeyFrame>)
    requires duration > 0.0 && fps > 0.0 && kfs != []
    requires Sorted(kfs) && Consistent(kfs, fps)
    ensures TimeOrdered(MotionSegments(duration, fps, kfs))
  {
    var s := MotionSegments(duration, fps, kfs);
    forall i | 0 <= i < NumSegments
      ensures WindowEdge(duration, fps, i) <= s[i].startFrame && s[i].endFrame <= WindowEdge(duration, fps, i + 1)
      ensures s[i].start <= s[i].freezeAt <= s[i].end
      ensures s[i].start == s[i].startFrame as real / fps && s[i].end == s[i].endFrame as real / fps
    {
      MotionSegmentShape(duration, fps, kfs, i);
    }
    forall i | 0 <= i < NumSegments - 1
      ensures s[i].end <= s[i + 1].start
    {
      DivideOrder(s[i].endFrame as real, s[i + 1].startFrame as real, fps);
    }
  }

  /** One motion segment: between its window's edges, numbered, ordered in seconds, frames agreeing with seconds. */
  lemma MotionSegmentShape(duration: real, fps: real, kfs: seq<KeyFrame>, i: int)
    requires duration > 0.0 && fps > 0.0 && 0 <= i < NumSegments
    requires Sorted(kfs) && Consistent(kfs, fps)
    ensures var s := MotionSegment(duration, fps, kfs, i);
      && WindowEdge(duration, fps, i) <= s.startFrame <= s.freezeFrame <= s.endFrame <= WindowEdge(duration, fps, i + 1)
      && s.id == i + 1 && s.start <= s.freezeAt <= s.end && FramesAgree(s, fps)
      && s.start == s.startFrame as real / fps && s.end == s.endFrame as real / fps
  {
    var s := MotionSegment(duration, fps, kfs, i);
    MotionSegmentBounds(duration, fps, kfs, i);
    FramesSegmentAgrees(i + 1, s.startFrame, s.endFrame, s.freezeFrame, fps);
  }

  /** The first motion segment starts at frame 0 and the last ends at the clip's frame count. */
  lemma MotionSegmentEnds(duration: real, fps: real, kfs: seq<KeyFrame>)
    requires duration > 0.0 && fps > 0.0 && kfs != []
    ensures var s := MotionSegments(duration, fps, kfs);
      |s| == NumSegments && s[0].startFrame == 0 && s[NumSegments - 1].endFrame == TotalFrames(duration, fps)
  {
  }

  // ---------------------------------------------------------------------
  // The upload route's metadata and the scenes it stores

  /** Duration, rate and frame count as the upload route holds them. */
  datatype Metadata = Metadata(duration: real, fps: real, frameCount: int)

  /**
   * `getVideoMetadata`, and the defaults the upload route uses when it
   * rejects (an ffprobe error or a throw): the declared duration at 30 fps.
   */
  function UploadMetadata(probe: Probe, declared: Option<real>): (m: Metadata)
    requires ValidProbe(probe)
    requires declared.Some? ==> declared.value >= 0.0
    ensures m.duration > 0.0 && m.fps > 0.0
    ensures m.frameCount == TotalFrames(m.duration, m.fps)
    ensures !probe.Probed? ==> m.duration == DurationOr30(declared) && m.fps == DefaultFps
    ensures probe.Probed? ==> m.duration == DurationOr30(probe.formatDuration)
    ensures probe.Probed? ==> m.fps == probe.frameRate.GetOr(DefaultFps)
  {
    if probe.Probed? then
      var duration := DurationOr30(probe.formatDuration);
      var fps := probe.frameRate.GetOr(DefaultFps);
      Metadata(duration, fps, TotalFrames(duration, fps))
    else
      var d := DurationOr30(declared);
      Metadata(d, DefaultFps, TotalFrames(d, DefaultFps))
  }

  /** The scenes the upload route computes. */
  function UploadScenes(metaProbe: Probe, samplerProbe: Probe, declared: Option<real>): seq<Segment>
    requires ValidProbe(metaProbe) && ValidProbe(samplerProbe)
    requires declared.Some? ==> declared.value >= 0.0
  {
    var m := UploadMetadata(metaProbe, declared);
    SamplerCut(samplerProbe, m.duration, m.fps)
  }

  /** The segmentation steps of the upload route: metadata, then `segmentVideoWithMotion`. */
  method SegmentUpload(metaProbe: Probe, samplerProbe: Probe, declared: Option<real>) returns (scenes: seq<Segment>)
    requires ValidProbe(metaProbe) && ValidProbe(samplerProbe)
    requires declared.Some? ==> declared.value >= 0.0
    ensures scenes == UploadScenes(metaProbe, samplerProbe, declared)
  {
    var m := UploadMetadata(metaProbe, declared);
    scenes := SegmentVideoWithMotion(samplerProbe, m.duration, m.fps);
  }

  /**
   * Whatever the two probes report, the upload route gets five ordered
   * segments numbered 1 to 5 starting at frame 0, each freeze inside its
   * segment, in frames and in seconds.
   */
  lemma UploadScenesOrdered(metaProbe: Probe, samplerProbe: Probe, declared: Option<real>)
    requires ValidProbe(metaProbe) && ValidProbe(samplerProbe)
    requires declared.Some? ==> declared.value >= 0.0
    ensures WellFormedCut(UploadScenes(metaProbe, samplerProbe, declared), UploadMetadata(metaProbe, declared).fps)
  {
    var m := UploadMetadata(metaProbe, declared);
    DetectedKeyFramesShape(samplerProbe, m.fps);
    match DetectedKeyFrames(samplerProbe, m.fps)
    case None =>
      UniformSegmentsShape(m.duration, m.fps);
    case Some(kfs) =>
      if kfs == [] {
        UniformSegmentsShape(m.duration, m.fps);
      } else {
        MotionSegmentsOrdered(m.duration, m.fps, kfs);
      }
  }

  /**
   * Where ffmpeg is not loaded (`VERCEL` set), both ffprobe calls throw: the
   * route falls back to the declared duration at 30 fps and the sampler's
   * rejection to the uniform cut. A declared 10 s clip is cut every 2 s,
   * every 60 frames.
   */
  lemma WithoutFfmpegTenSecondUpload()
    ensures var s := UploadScenes(ProbeThrew, ProbeThrew, Some(10.0));
      && s == UniformSegments(10.0, DefaultFps)
      && forall i :: 0 <= i < NumSegments ==> s[i].startFrame == 60 * i && s[i].endFrame == 60 * (i + 1)
  {
    var s := UniformSegments(10.0, DefaultFps);
    forall i | 0 <= i < NumSegments
      ensures s[i].startFrame == 60 * i && s[i].endFrame == 60 * (i + 1)
    {
      assert (i as real) * (10.0 / 5.0) * 10.0 + 0.5 == (20 * i) as real + 0.5;
      assert ((i + 1) as real) * (10.0 / 5.0) * 10.0 + 0.5 == (20 * (i + 1)) as real + 0.5;
    }
  }
}
