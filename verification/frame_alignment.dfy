/** Where on the timeline the overlay image of one pose starts and ends.

    The poses of one hand are given by their timestamps (seconds into the
    reference video); a pose's frame is its timestamp times the frame rate.
    Edge alignment starts a strip at its pose and ends it at the next pose,
    but lasts at most MaxImageStripLengthSecs. Center alignment starts and
    ends it half-way to the neighbouring poses; for every pose but the last,
    each side stays within half of MaxImageStripLengthSecs of the pose's
    frame (both halves rounded, so the whole strip can be a frame longer
    than the edge-aligned cap). Under either alignment the last pose's strip
    ends at most one frame after the reference video's duration.
 */
module FrameAlignment {
  import opened Rounding

  const MaxImageStripLengthSecs: int := 2

  /** The first and the end frame of an image strip. */
  datatype FrameRange = FrameRange(start: int, end: int)

  /** Pose `k`'s exact (unrounded) frame position. */
  function PoseFrame(ts: seq<real>, k: nat, fps: real): real
    requires k < |ts|
  {
    ts[k] * fps
  }

  /** The longest a strip may be, in frames. */
  function MaxStripFrames(fps: real): int {
    Round(MaxImageStripLengthSecs as real * fps)
  }

  /** Half of the longest strip, in frames, for center alignment. */
  function HalfStripFrames(fps: real): int {
    Round((MaxImageStripLengthSecs as real * fps) / 2.0)
  }

  /** Half-way between two frame positions. */
  function Midpoint(a: real, b: real): real {
    (a + b) / 2.0
  }

  /** A strip from pose `k`'s frame to the next pose's frame, shortened to
      the longest strip; the last pose's strip ends at `duration + 1` or
      earlier when the longest strip is shorter. */
  function EdgeAlignedFrames(ts: seq<real>, k: nat, fps: real, duration: int): (r: FrameRange)
    requires k < |ts|
    ensures r.start == Round(PoseFrame(ts, k, fps))
    ensures r.end <= r.start + MaxStripFrames(fps)
    ensures k == |ts| - 1 ==>
              r.end <= duration + 1
              && (r.end == duration + 1 || r.end == r.start + MaxStripFrames(fps))
    ensures k < |ts| - 1 ==>
              r.end <= Round(PoseFrame(ts, k + 1, fps))
              && (r.end == Round(PoseFrame(ts, k + 1, fps)) || r.end == r.start + MaxStripFrames(fps))
  {
    var start := Round(PoseFrame(ts, k, fps));
    var maxEnd := start + MaxStripFrames(fps);
    if k == |ts| - 1 then
      FrameRange(start, Min(maxEnd, duration + 1))
    else
      FrameRange(start, Min(Round(PoseFrame(ts, k + 1, fps)), maxEnd))
  }

  /** A strip from half-way to the previous pose to half-way to the next one.
      Except for the last pose, each side is limited to half the longest
      strip around the pose's own frame; the last pose's strip reaches half
      the longest strip past its frame, but not beyond `duration + 1`. */
  function CenterAlignedFrames(ts: seq<real>, k: nat, fps: real, duration: int): FrameRange
    requires k < |ts|
  {
    var poseFrame := PoseFrame(ts, k, fps);
    var half := HalfStripFrames(fps);
    var start :=
      if k == 0 then Round(poseFrame)
      else Round(Midpoint(poseFrame, PoseFrame(ts, k - 1, fps)));
    if k == |ts| - 1 then
      FrameRange(start, Min(Round(poseFrame + half as real), duration + 1))
    else
      var end := Round(Midpoint(poseFrame, PoseFrame(ts, k + 1, fps)));
      FrameRange(Max(start, Round(poseFrame) - half), Min(end, Round(poseFrame) + half))
  }

  /** The frames of a center-aligned strip. Its unclamped start is the
      pose's own frame for the first pose and the midpoint to the previous
      pose otherwise. A strip of any pose but the last is clamped to half
      the longest strip around its pose on both sides and ends at the
      midpoint to the next pose or at that clamp; the last pose's strip
      keeps the unclamped start and ends half the longest strip past its
      exact frame or one frame after the video, whichever comes first. */
  lemma CenterAlignedFramesValues(ts: seq<real>, k: nat, fps: real, duration: int)
    requires k < |ts|
    ensures var r := CenterAlignedFrames(ts, k, fps, duration);
            var f := Round(PoseFrame(ts, k, fps));
            var h := HalfStripFrames(fps);
            var from := if k == 0 then f else Round(Midpoint(PoseFrame(ts, k - 1, fps), PoseFrame(ts, k, fps)));
            if k < |ts| - 1 then
              var to := Round(Midpoint(PoseFrame(ts, k, fps), PoseFrame(ts, k + 1, fps)));
              && from <= r.start && f - h <= r.start && (r.start == from || r.start == f - h)
              && r.end <= to && r.end <= f + h && (r.end == to || r.end == f + h)
            else
              var to := Round(PoseFrame(ts, k, fps) + h as real);
              && r.start == from
              && r.end <= to && r.end <= duration + 1 && (r.end == to || r.end == duration + 1)
  {
  }

  /** A center-aligned strip of any pose but the last is at most one frame
      longer than the longest edge-aligned strip: each of its halves is
      rounded on its own. */
  lemma CenterAlignedLength(ts: seq<real>, k: nat, fps: real, duration: int)
    requires k + 1 < |ts|
    ensures var r := CenterAlignedFrames(ts, k, fps, duration);
            r.end - r.start <= MaxStripFrames(fps) + 1
  {
    CenterAlignedFramesValues(ts, k, fps, duration);
    var x := MaxImageStripLengthSecs as real * fps;
    assert 2 * HalfStripFrames(fps) <= MaxStripFrames(fps) + 1 by {
      assert (HalfStripFrames(fps) as real) <= x / 2.0 + 0.5;
      assert x - 0.5 <= MaxStripFrames(fps) as real;
    }
  }

  /** The bound is reached: at 1.5 frames per second the longest
      edge-aligned strip is 3 frames, and a middle pose's center-aligned
      strip is 4. */
  lemma CenterAlignedLengthExample()
    ensures MaxStripFrames(1.5) == 3
    ensures CenterAlignedFrames([0.0, 10.0, 20.0], 1, 1.5, 100) == FrameRange(13, 17)
  {
  }

  function Min(a: int, b: int): int {
    if a <= b then a else b
  }

  function Max(a: int, b: int): int {
    if a >= b then a else b
  }

  /** Timestamps in non-decreasing order, as the pose lists are. */
  predicate Ordered(ts: seq<real>) {
    forall i, j :: 0 <= i <= j < |ts| ==> ts[i] <= ts[j]
  }

  /** A later pose never has an earlier frame. */
  lemma PoseFrameMonotone(ts: seq<real>, i: nat, j: nat, fps: real)
    requires Ordered(ts) && fps >= 0.0
    requires i <= j < |ts|
    ensures PoseFrame(ts, i, fps) <= PoseFrame(ts, j, fps)
    ensures Round(PoseFrame(ts, i, fps)) <= Round(PoseFrame(ts, j, fps))
  {
    assert ts[i] * fps <= ts[j] * fps by {
      assert (ts[j] - ts[i]) * fps >= 0.0;
    }
    RoundMonotone(PoseFrame(ts, i, fps), PoseFrame(ts, j, fps));
  }

  lemma StripLengthsNonNegative(fps: real)
    requires fps >= 0.0
    ensures MaxStripFrames(fps) >= 0 && HalfStripFrames(fps) >= 0
  {
    RoundOfInt(0);
    RoundMonotone(0.0, MaxImageStripLengthSecs as real * fps);
    RoundMonotone(0.0, (MaxImageStripLengthSecs as real * fps) / 2.0);
  }

  /** Edge-aligned strips of consecutive poses never overlap: a strip ends
      at or before the frame where the next pose's strip starts. */
  lemma EdgeAlignedNoOverlap(ts: seq<real>, k: nat, fps: real, duration: int)
    requires k + 1 < |ts|
    ensures EdgeAlignedFrames(ts, k, fps, duration).end <= EdgeAlignedFrames(ts, k + 1, fps, duration).start
  {
  }

  /** For ordered poses and a non-negative frame rate, an edge-aligned strip
      of any pose but the last begins at its pose and does not end before it. */
  lemma EdgeAlignedWellFormed(ts: seq<real>, k: nat, fps: real, duration: int)
    requires Ordered(ts) && fps >= 0.0
    requires k + 1 < |ts|
    ensures EdgeAlignedFrames(ts, k, fps, duration).start <= EdgeAlignedFrames(ts, k, fps, duration).end
  {
    PoseFrameMonotone(ts, k, k + 1, fps);
    StripLengthsNonNegative(fps);
  }

  /** Center-aligned strips of consecutive poses never overlap either. */
  lemma CenterAlignedNoOverlap(ts: seq<real>, k: nat, fps: real, duration: int)
    requires k + 1 < |ts|
    ensures CenterAlignedFrames(ts, k, fps, duration).end <= CenterAlignedFrames(ts, k + 1, fps, duration).start
  {
    assert Midpoint(PoseFrame(ts, k, fps), PoseFrame(ts, k + 1, fps))
        == Midpoint(PoseFrame(ts, k + 1, fps), PoseFrame(ts, k, fps));
  }

  /** For ordered poses and a non-negative frame rate, the center-aligned
      strip of any pose but the last covers the pose's own frame; the first
      pose's strip starts exactly there. */
  lemma CenterAlignedCoversPose(ts: seq<real>, k: nat, fps: real, duration: int)
    requires Ordered(ts) && fps >= 0.0
    requires k + 1 < |ts|
    ensures var r := CenterAlignedFrames(ts, k, fps, duration);
            r.start <= Round(PoseFrame(ts, k, fps)) <= r.end
    ensures k == 0 ==> CenterAlignedFrames(ts, k, fps, duration).start == Round(PoseFrame(ts, k, fps))
  {
    var f := PoseFrame(ts, k, fps);
    StripLengthsNonNegative(fps);
    PoseFrameMonotone(ts, k, k + 1, fps);
    RoundMonotone(f, Midpoint(f, PoseFrame(ts, k + 1, fps)));
    if k > 0 {
      PoseFrameMonotone(ts, k - 1, k, fps);
      RoundMonotone(Midpoint(f, PoseFrame(ts, k - 1, fps)), f);
    }
  }

  /** The last pose's center-aligned strip is not kept within half the
      longest strip of its own frame: its end is rounded after adding the
      half, so it can pass that bound by one frame, and its start is not
      limited at all. */
  lemma CenterAlignedLastPoseBounds(ts: seq<real>, fps: real, duration: int)
    requires |ts| > 0
    ensures var k := |ts| - 1;
            CenterAlignedFrames(ts, k, fps, duration).end
              <= Round(PoseFrame(ts, k, fps)) + HalfStripFrames(fps) + 1
  {
    var k := |ts| - 1;
    RoundShiftNear(PoseFrame(ts, k, fps), HalfStripFrames(fps));
  }

  /** Witnesses for the last pose. A single pose at 0.5 s, one frame per
      second: the pose rounds to frame 0 and half the longest strip is one
      frame, yet the strip ends at frame 2. Poses at 0 s and 10 s: the last
      strip starts at frame 5, four frames earlier than half the longest
      strip before its pose. */
  lemma CenterAlignedLastPoseExample()
    ensures Round(PoseFrame([0.5], 0, 1.0)) + HalfStripFrames(1.0) == 1
    ensures CenterAlignedFrames([0.5], 0, 1.0, 100) == FrameRange(0, 2)
    ensures Round(PoseFrame([0.0, 10.0], 1, 1.0)) - HalfStripFrames(1.0) == 9
    ensures CenterAlignedFrames([0.0, 10.0], 1, 1.0, 100) == FrameRange(5, 11)
  {
  }
}
