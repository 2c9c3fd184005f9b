/** The bookkeeping of the hand pose image manager: which poses around the
    current frame get an overlay image strip, the strip's frames, and the
    image file name stamped on each pose so that it is emitted only once.

    Locating the pose that belongs to a timestamp is done by the pose
    loader, which is not part of this model: it enters as the `locate`
    parameter. Rendering the image file is left out; only the file name the
    pose receives is modelled.
 */
module ImageManager {
  import opened HandPoses
  import opened FrameAlignment

  /** What the sequencer needs to add one image strip. */
  datatype ImageStripData = ImageStripData(startFrame: int, endFrame: int, filename: string, handType: HandType)

  /** The scene settings the manager reads: the alignment choice and the
      reference video's duration in frames. */
  datatype SceneSettings = SceneSettings(centerAlign: bool, duration: int)

  /** A half-open index range [lo, hi) of one hand's pose list. */
  datatype Window = Window(lo: nat, hi: nat)

  /** The poses after the images have been named, and the strips produced. */
  datatype Processed = Processed(poses: seq<HandPose>, strips: seq<ImageStripData>)

  /** The state of the manager after a request, and the strips produced. */
  datatype Generated = Generated(table: PoseTable, strips: seq<ImageStripData>)

  /** The pose lookup of the pose loader: the index, in the given hand's
      list, of the pose belonging to a timestamp. */
  type Locate = (real, HandType) -> nat

  ghost predicate ValidLocate(locate: Locate, table: PoseTable) {
    forall t: real :: locate(t, Right) < |table.right| && locate(t, Left) < |table.left|
  }

  /** The lookup fits any table whose lists have the same lengths. */
  lemma ValidLocateSameShape(locate: Locate, table: PoseTable, other: PoseTable)
    requires ValidLocate(locate, table)
    requires |other.right| == |table.right| && |other.left| == |table.left|
    ensures ValidLocate(locate, other)
  {
  }

  /** The time, in seconds into the reference video, of a frame. */
  function FrameTimestamp(frame: int, fps: real): real
    requires fps != 0.0
  {
    frame as real / fps
  }

  /** The poses from `previous` before to `next` after the pose at `index`,
      as a Python slice `[max(0, index - previous) : index + next + 1]`,
      which stops at the end of the list. */
  function AdjacentWindow(count: nat, index: nat, previous: nat, next: nat): (w: Window)
    requires index < count
    ensures w.lo <= index < w.hi <= count
    ensures w.hi - w.lo <= previous + next + 1
    ensures index - previous <= w.lo && (w.lo == 0 || w.lo == index - previous)
    ensures w.hi <= index + next + 1 && (w.hi == count || w.hi == index + next + 1)
  {
    var bottom := if index - previous > 0 then index - previous else 0;
    var top := index + next;
    Window(bottom, if top + 1 <= count then top + 1 else count)
  }

  /** The indices in [lo, hi) of the poses that have no image yet, ascending. */
  function Pending(poses: seq<HandPose>, lo: nat, hi: nat): (s: seq<nat>)
    requires lo <= hi <= |poses|
    ensures forall m :: 0 <= m < |s| ==> lo <= s[m] < hi && poses[s[m]].imageFilename == ""
    ensures forall j :: lo <= j < hi && poses[j].imageFilename == "" ==> j in s
    ensures forall a, b :: 0 <= a < b < |s| ==> s[a] < s[b]
    decreases hi - lo
  {
    if lo == hi then []
    else if poses[lo].imageFilename == "" then [lo] + Pending(poses, lo + 1, hi)
    else Pending(poses, lo + 1, hi)
  }

  /** Which poses are pending depends only on the file names inside the range. */
  lemma {:induction false} PendingSameNames(p: seq<HandPose>, q: seq<HandPose>, lo: nat, hi: nat)
    requires lo <= hi <= |p| && hi <= |q|
    requires forall j :: lo <= j < hi ==> p[j].imageFilename == q[j].imageFilename
    ensures Pending(p, lo, hi) == Pending(q, lo, hi)
    decreases hi - lo
  {
    if lo < hi {
      PendingSameNames(p, q, lo + 1, hi);
    }
  }

  /** Creates the image of pose `k` unless it already has one, and records
      its file name on the pose. */
  function CreateImage(poses: seq<HandPose>, k: nat, hand: HandType): (r: seq<HandPose>)
    requires k < |poses|
    ensures |r| == |poses| && Timestamps(r) == Timestamps(poses)
    ensures poses[k].imageFilename != "" ==> r == poses
    ensures poses[k].imageFilename == "" ==> r[k].imageFilename == ImageFilename(k, hand)
    ensures forall j :: 0 <= j < |poses| && j != k ==> r[j] == poses[j]
  {
    if poses[k].imageFilename == "" then
      poses[k := poses[k].(imageFilename := ImageFilename(k, hand))]
    else
      poses
  }

  /** Creating an image twice is the same as creating it once. */
  lemma CreateImageIdempotent(poses: seq<HandPose>, k: nat, hand: HandType)
    requires k < |poses|
    ensures CreateImage(CreateImage(poses, k, hand), k, hand) == CreateImage(poses, k, hand)
  {
  }

  /** The strip of pose `k`: its file name and hand, and its frames by
      center alignment when the scene asks for it, by edge alignment otherwise. */
  function CreateImageStripData(poses: seq<HandPose>, k: nat, hand: HandType, fps: real,
                                settings: SceneSettings): (s: ImageStripData)
    requires k < |poses|
    ensures s.filename == poses[k].imageFilename && s.handType == hand
    ensures var r := if settings.centerAlign
                     then CenterAlignedFrames(Timestamps(poses), k, fps, settings.duration)
                     else EdgeAlignedFrames(Timestamps(poses), k, fps, settings.duration);
            s.startFrame == r.start && s.endFrame == r.end
  {
    var ts := Timestamps(poses);
    var r := if settings.centerAlign then CenterAlignedFrames(ts, k, fps, settings.duration)
             else EdgeAlignedFrames(ts, k, fps, settings.duration);
    ImageStripData(r.start, r.end, poses[k].imageFilename, hand)
  }

  /** The strip data of a pose reads only the timestamps and that pose's file name. */
  lemma CreateImageStripDataSame(p: seq<HandPose>, q: seq<HandPose>, k: nat, hand: HandType, fps: real,
                                 settings: SceneSettings)
    requires k < |p| && Timestamps(p) == Timestamps(q)
    requires p[k].imageFilename == q[k].imageFilename
    ensures CreateImageStripData(p, k, hand, fps, settings) == CreateImageStripData(q, k, hand, fps, settings)
  {
  }

  /** Walks the window [lo, hi) in order; each pose without an image gets
      one, then yields a strip. Poses that already have an image are skipped. */
  function ProcessWindow(poses: seq<HandPose>, lo: nat, hi: nat, hand: HandType, fps: real,
                         settings: SceneSettings): (r: Processed)
    requires lo <= hi <= |poses|
    ensures |r.poses| == |poses| && Timestamps(r.poses) == Timestamps(poses)
    ensures forall j :: lo <= j < hi && poses[j].imageFilename == "" ==>
              r.poses[j].imageFilename == ImageFilename(j, hand)
    ensures forall j :: 0 <= j < |poses| && !(lo <= j < hi && poses[j].imageFilename == "") ==>
              r.poses[j] == poses[j]
    decreases hi - lo
  {
    if lo == hi then
      Processed(poses, [])
    else if poses[lo].imageFilename != "" then
      ProcessWindow(poses, lo + 1, hi, hand, fps, settings)
    else
      var named := CreateImage(poses, lo, hand);
      var strip := CreateImageStripData(named, lo, hand, fps, settings);
      var rest := ProcessWindow(named, lo + 1, hi, hand, fps, settings);
      Processed(rest.poses, [strip] + rest.strips)
  }

  /** The strips of a window: one per pose that had no image, in index
      order, each the strip data of that pose once it has been named. */
  lemma {:induction false} ProcessWindowPendingStrips(poses: seq<HandPose>, lo: nat, hi: nat, hand: HandType,
                                                      fps: real, settings: SceneSettings)
    requires lo <= hi <= |poses|
    ensures var r := ProcessWindow(poses, lo, hi, hand, fps, settings);
            var p := Pending(poses, lo, hi);
            && |r.strips| == |p|
            && forall m :: 0 <= m < |r.strips| ==>
                 r.strips[m] == CreateImageStripData(r.poses, p[m], hand, fps, settings)
    decreases hi - lo
  {
    if lo < hi {
      var r := ProcessWindow(poses, lo, hi, hand, fps, settings);
      if poses[lo].imageFilename != "" {
        ProcessWindowPendingStrips(poses, lo + 1, hi, hand, fps, settings);
      } else {
        var named := CreateImage(poses, lo, hand);
        var rest := ProcessWindow(named, lo + 1, hi, hand, fps, settings);
        ProcessWindowPendingStrips(named, lo + 1, hi, hand, fps, settings);
        PendingSameNames(poses, named, lo + 1, hi);
        var p := Pending(poses, lo, hi);
        var q := Pending(named, lo + 1, hi);
        assert p == [lo] + q;
        assert r.poses == rest.poses;
        var strip := CreateImageStripData(named, lo, hand, fps, settings);
        CreateImageStripDataSame(named, rest.poses, lo, hand, fps, settings);
        assert r.strips == [strip] + rest.strips;
        StripsCons(strip, rest.strips, lo, q, rest.poses, hand, fps, settings);
      }
    }
  }

  /** Prepending the strip of pose `k` to the strips of poses `q` gives the
      strips of poses `[k] + q`. */
  lemma StripsCons(strip: ImageStripData, strips: seq<ImageStripData>, k: nat, q: seq<nat>,
                   poses: seq<HandPose>, hand: HandType, fps: real, settings: SceneSettings)
    requires k < |poses| && strip == CreateImageStripData(poses, k, hand, fps, settings)
    requires |strips| == |q| && forall m :: 0 <= m < |q| ==> q[m] < |poses|
    requires forall m :: 0 <= m < |q| ==> strips[m] == CreateImageStripData(poses, q[m], hand, fps, settings)
    ensures var all, p := [strip] + strips, [k] + q;
            forall m :: 0 <= m < |all| ==> all[m] == CreateImageStripData(poses, p[m], hand, fps, settings)
  {
    var all, p := [strip] + strips, [k] + q;
    forall m | 0 <= m < |all|
      ensures all[m] == CreateImageStripData(poses, p[m], hand, fps, settings)
    {
      if m > 0 {
        assert all[m] == strips[m - 1] && p[m] == q[m - 1];
      }
    }
  }

  /** `after` is `before` with exactly the poses of the window `w` that had
      no image given their image file names for `hand`. */
  predicate Stamped(before: seq<HandPose>, after: seq<HandPose>, w: Window, hand: HandType) {
    && |after| == |before|
    && forall j :: 0 <= j < |before| ==>
         after[j] == if w.lo <= j < w.hi && before[j].imageFilename == ""
                     then before[j].(imageFilename := ImageFilename(j, hand))
                     else before[j]
  }

  /** Strip `m` is the strip data of pose `p[m]`, taken from `poses`. */
  predicate StripsOfPoses(strips: seq<ImageStripData>, poses: seq<HandPose>, p: seq<nat>, hand: HandType,
                          fps: real, settings: SceneSettings) {
    && |strips| == |p|
    && forall m :: 0 <= m < |p| ==>
         p[m] < |poses| && strips[m] == CreateImageStripData(poses, p[m], hand, fps, settings)
  }

  /** The strips of one hand: the window around the located pose, processed.
      The poses of the window without an image are named, and each yields
      its strip, in index order. */
  function HandPoseStrips(poses: seq<HandPose>, index: nat, hand: HandType, previous: nat, next: nat,
                          fps: real, settings: SceneSettings): (r: Processed)
    requires index < |poses|
    ensures var w := AdjacentWindow(|poses|, index, previous, next);
            && Stamped(poses, r.poses, w, hand)
            && StripsOfPoses(r.strips, r.poses, Pending(poses, w.lo, w.hi), hand, fps, settings)
  {
    var w := AdjacentWindow(|poses|, index, previous, next);
    ProcessWindowPendingStrips(poses, w.lo, w.hi, hand, fps, settings);
    ProcessWindow(poses, w.lo, w.hi, hand, fps, settings)
  }

  /** The strips for the poses around `frame`: the right hand's, then the
      left hand's, each in window order. */
  function FrameImageStripData(table: PoseTable, frame: int, fps: real, previous: nat, next: nat,
                               settings: SceneSettings, locate: Locate): (g: Generated)
    requires fps != 0.0
    requires ValidLocate(locate, table)
    ensures var t := FrameTimestamp(frame, fps);
            var rw := AdjacentWindow(|table.right|, locate(t, Right), previous, next);
            var lw := AdjacentWindow(|table.left|, locate(t, Left), previous, next);
            Stamped(table.right, g.table.right, rw, Right) && Stamped(table.left, g.table.left, lw, Left)
  {
    var timestamp := FrameTimestamp(frame, fps);
    var right := HandPoseStrips(table.right, locate(timestamp, Right), Right, previous, next, fps, settings);
    var left := HandPoseStrips(table.left, locate(timestamp, Left), Left, previous, next, fps, settings);
    Generated(PoseTable(right.poses, left.poses), right.strips + left.strips)
  }

  /** A request returns one strip per pose without an image in the right
      hand's window, in index order, followed by one per such pose in the
      left hand's window, each built from the pose after it was named. */
  lemma FrameImageStripDataWindows(table: PoseTable, frame: int, fps: real, previous: nat, next: nat,
                                   settings: SceneSettings, locate: Locate)
    requires fps != 0.0
    requires ValidLocate(locate, table)
    ensures var g := FrameImageStripData(table, frame, fps, previous, next, settings, locate);
            var t := FrameTimestamp(frame, fps);
            var rw := AdjacentWindow(|table.right|, locate(t, Right), previous, next);
            var lw := AdjacentWindow(|table.left|, locate(t, Left), previous, next);
            var pr, pl := Pending(table.right, rw.lo, rw.hi), Pending(table.left, lw.lo, lw.hi);
            && |g.strips| == |pr| + |pl|
            && StripsOfPoses(g.strips[..|pr|], g.table.right, pr, Right, fps, settings)
            && StripsOfPoses(g.strips[|pr|..], g.table.left, pl, Left, fps, settings)
  {
    var t := FrameTimestamp(frame, fps);
    var right := HandPoseStrips(table.right, locate(t, Right), Right, previous, next, fps, settings);
    var left := HandPoseStrips(table.left, locate(t, Left), Left, previous, next, fps, settings);
    var g := FrameImageStripData(table, frame, fps, previous, next, settings, locate);
    assert g == Generated(PoseTable(right.poses, left.poses), right.strips + left.strips);
    assert g.strips[..|right.strips|] == right.strips;
    assert g.strips[|right.strips|..] == left.strips;
  }

  /** Strip `m` shows the image of pose `p[m]` of `hand`. */
  predicate ShowsImagesOf(strips: seq<ImageStripData>, p: seq<nat>, hand: HandType) {
    && |strips| == |p|
    && forall m :: 0 <= m < |strips| ==>
         strips[m].filename == ImageFilename(p[m], hand) && strips[m].handType == hand
  }

  /** No two strips show the same image. */
  predicate DistinctImages(strips: seq<ImageStripData>) {
    forall a, b :: 0 <= a < b < |strips| ==> strips[a].filename != strips[b].filename
  }

  /** Strips of one window come out once per pose that had no image, in
      index order, each naming the image of its own pose, so no two share a file. */
  lemma ProcessWindowStrips(poses: seq<HandPose>, lo: nat, hi: nat, hand: HandType, fps: real,
                            settings: SceneSettings)
    requires lo <= hi <= |poses|
    ensures var r := ProcessWindow(poses, lo, hi, hand, fps, settings);
            ShowsImagesOf(r.strips, Pending(poses, lo, hi), hand) && DistinctImages(r.strips)
  {
    var r := ProcessWindow(poses, lo, hi, hand, fps, settings);
    var p := Pending(poses, lo, hi);
    ProcessWindowPendingStrips(poses, lo, hi, hand, fps, settings);
    forall a, b | 0 <= a < b < |r.strips|
      ensures r.strips[a].filename != r.strips[b].filename
    {
      if r.strips[a].filename == r.strips[b].filename {
        ImageFilenameInjective(p[a], hand, p[b], hand);
      }
    }
  }

  /** After a window has been processed, every pose in it has an image. */
  lemma ProcessWindowNamesAll(poses: seq<HandPose>, lo: nat, hi: nat, hand: HandType, fps: real,
                              settings: SceneSettings)
    requires lo <= hi <= |poses|
    ensures var r := ProcessWindow(poses, lo, hi, hand, fps, settings);
            forall j :: lo <= j < hi ==> r.poses[j].imageFilename != ""
  {
    var r := ProcessWindow(poses, lo, hi, hand, fps, settings);
    forall j | lo <= j < hi
      ensures r.poses[j].imageFilename != ""
    {
      if poses[j].imageFilename == "" {
        assert r.poses[j].imageFilename == ImageFilename(j, hand);
      } else {
        assert r.poses[j] == poses[j];
      }
    }
  }

  /** A range where every pose has an image has nothing pending. */
  lemma {:induction false} NothingPending(poses: seq<HandPose>, lo: nat, hi: nat)
    requires lo <= hi <= |poses|
    requires forall j :: lo <= j < hi ==> poses[j].imageFilename != ""
    ensures Pending(poses, lo, hi) == []
    decreases hi - lo
  {
    if lo < hi {
      NothingPending(poses, lo + 1, hi);
    }
  }

  /** Processing a window a second time yields no strips and changes nothing. */
  lemma ProcessWindowTwice(poses: seq<HandPose>, lo: nat, hi: nat, hand: HandType, fps: real,
                           settings: SceneSettings)
    requires lo <= hi <= |poses|
    ensures var once := ProcessWindow(poses, lo, hi, hand, fps, settings);
            ProcessWindow(once.poses, lo, hi, hand, fps, settings) == Processed(once.poses, [])
  {
    var once := ProcessWindow(poses, lo, hi, hand, fps, settings);
    ProcessWindowNamesAll(poses, lo, hi, hand, fps, settings);
    NothingPending(once.poses, lo, hi);
    ProcessWindowPendingStrips(once.poses, lo, hi, hand, fps, settings);
    var twice := ProcessWindow(once.poses, lo, hi, hand, fps, settings);
    assert |twice.strips| == 0;
    assert forall j :: 0 <= j < |once.poses| ==> twice.poses[j] == once.poses[j];
  }

  /** Right-hand strips followed by left-hand strips, none naming an image twice. */
  lemma ConcatenatedStrips(right: seq<ImageStripData>, left: seq<ImageStripData>)
    requires forall m :: 0 <= m < |right| ==> right[m].handType == Right
    requires forall m :: 0 <= m < |left| ==> left[m].handType == Left
    requires DistinctImages(right) && DistinctImages(left)
    requires forall a, b :: 0 <= a < |right| && 0 <= b < |left| ==> right[a].filename != left[b].filename
    ensures var all := right + left;
            (forall a, b :: 0 <= a < b < |all| && all[a].handType == Left ==> all[b].handType == Left)
            && DistinctImages(all)
  {
    var all := right + left;
    var n := |right|;
    forall a, b | 0 <= a < b < |all|
      ensures all[a].handType == Left ==> all[b].handType == Left
      ensures all[a].filename != all[b].filename
    {
      if b < n {
        assert all[a] == right[a] && all[b] == right[b];
      } else if a < n {
        assert all[a] == right[a] && all[b] == left[b - n];
      } else {
        assert all[a] == left[a - n] && all[b] == left[b - n];
      }
    }
  }

  /** A right-hand image and a left-hand image never share a file name. */
  lemma HandsNameDifferentImages(right: seq<ImageStripData>, pr: seq<nat>, left: seq<ImageStripData>, pl: seq<nat>)
    requires ShowsImagesOf(right, pr, Right) && ShowsImagesOf(left, pl, Left)
    ensures forall a, b :: 0 <= a < |right| && 0 <= b < |left| ==> right[a].filename != left[b].filename
  {
    forall a, b | 0 <= a < |right| && 0 <= b < |left|
      ensures right[a].filename != left[b].filename
    {
      if right[a].filename == left[b].filename {
        ImageFilenameInjective(pr[a], Right, pl[b], Left);
      }
    }
  }

  /** The result lists every right-hand strip before every left-hand strip,
      and no two strips of one request name the same image. */
  lemma FrameImageStripDataOrder(table: PoseTable, frame: int, fps: real, previous: nat, next: nat,
                                 settings: SceneSettings, locate: Locate)
    requires fps != 0.0
    requires ValidLocate(locate, table)
    ensures var g := FrameImageStripData(table, frame, fps, previous, next, settings, locate);
            forall a, b :: 0 <= a < b < |g.strips| && g.strips[a].handType == Left ==>
              g.strips[b].handType == Left
    ensures DistinctImages(FrameImageStripData(table, frame, fps, previous, next, settings, locate).strips)
  {
    var timestamp := FrameTimestamp(frame, fps);
    var ri, li := locate(timestamp, Right), locate(timestamp, Left);
    var rw := AdjacentWindow(|table.right|, ri, previous, next);
    var lw := AdjacentWindow(|table.left|, li, previous, next);
    var rs := ProcessWindow(table.right, rw.lo, rw.hi, Right, fps, settings).strips;
    var ls := ProcessWindow(table.left, lw.lo, lw.hi, Left, fps, settings).strips;
    var pr, pl := Pending(table.right, rw.lo, rw.hi), Pending(table.left, lw.lo, lw.hi);
    assert ShowsImagesOf(rs, pr, Right) && DistinctImages(rs) by {
      ProcessWindowStrips(table.right, rw.lo, rw.hi, Right, fps, settings);
    }
    assert ShowsImagesOf(ls, pl, Left) && DistinctImages(ls) by {
      ProcessWindowStrips(table.left, lw.lo, lw.hi, Left, fps, settings);
    }
    HandsNameDifferentImages(rs, pr, ls, pl);
    ConcatenatedStrips(rs, ls);
    assert FrameImageStripData(table, frame, fps, previous, next, settings, locate).strips == rs + ls;
  }

  /** A second request for the same frame with the same counts finds every
      pose of both windows already named: it yields no strips and leaves the
      poses as they are. */
  lemma FrameImageStripDataTwice(table: PoseTable, frame: int, fps: real, previous: nat, next: nat,
                                 settings: SceneSettings, locate: Locate)
    requires fps != 0.0
    requires ValidLocate(locate, table)
    ensures ValidLocate(locate, FrameImageStripData(table, frame, fps, previous, next, settings, locate).table)
    ensures var once := FrameImageStripData(table, frame, fps, previous, next, settings, locate);
            var twice := FrameImageStripData(once.table, frame, fps, previous, next, settings, locate);
            twice.strips == [] && twice.table == once.table
  {
    var timestamp := FrameTimestamp(frame, fps);
    var ri, li := locate(timestamp, Right), locate(timestamp, Left);
    var rw := AdjacentWindow(|table.right|, ri, previous, next);
    var lw := AdjacentWindow(|table.left|, li, previous, next);
    ProcessWindowTwice(table.right, rw.lo, rw.hi, Right, fps, settings);
    ProcessWindowTwice(table.left, lw.lo, lw.hi, Left, fps, settings);
  }

  /** When the pose located for the frame has no image yet, the request
      yields at least one strip: the window always holds the located pose. */
  lemma LocatedUnnamedPoseYieldsStrip(table: PoseTable, frame: int, fps: real, previous: nat, next: nat,
                                      settings: SceneSettings, locate: Locate)
    requires fps != 0.0
    requires ValidLocate(locate, table)
    ensures table.right[locate(FrameTimestamp(frame, fps), Right)].imageFilename == "" ==>
              |FrameImageStripData(table, frame, fps, previous, next, settings, locate).strips| >= 1
  {
    var i := locate(FrameTimestamp(frame, fps), Right);
    if table.right[i].imageFilename != "" {
      return;
    }
    var w := AdjacentWindow(|table.right|, i, previous, next);
    var right := ProcessWindow(table.right, w.lo, w.hi, Right, fps, settings);
    assert |right.strips| >= 1 by {
      ProcessWindowPendingStrips(table.right, w.lo, w.hi, Right, fps, settings);
      assert i in Pending(table.right, w.lo, w.hi);
    }
    assert |FrameImageStripData(table, frame, fps, previous, next, settings, locate).strips| >= |right.strips|;
  }
}
