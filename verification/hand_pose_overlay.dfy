/** The modal overlay operator: on each event it may refresh or clear the
    overlay, and otherwise regenerates the hand pose strips whenever the
    current frame has changed since the last generation.

    The host's sequencer operations are not executed here; each shows up as
    an Effect in the order the operator issues it. The scene values the
    operator reads, whether a sequencer area is open, the freshly loaded
    poses and the pose lookup are parameters.
 */
module HandPoseOverlay {
  import opened HandPoses
  import opened ImageManager

  /** Poses requested before and after the pose of the current frame. */
  const PreviousPoseCount: nat := 1
  const NextPoseCount: nat := 3

  /** The frame strips were last generated for. The operator writes the
      integer -1 here when it clears the overlay; that value is also a
      frame the scene can be at, so the corrected model uses NoFrame. */
  datatype LastFrame = NoFrame | Seen(frame: int)

  /** The operator's own state; `poses` is its image manager's pose table. */
  datatype Operator = Operator(latestCurrentFrame: LastFrame, startFrameOffset: int, poses: PoseTable)

  /** The window-manager flags through which the UI talks to the operator. */
  datatype OverlayProperties = OverlayProperties(
    refreshOverlay: bool,
    clearOverlay: bool,
    overlayActive: bool,
    pauseOverlayGeneration: bool)

  /** The scene values the operator reads. `fps` is the frame rate divided
      by its base; `videoStartFrame` is where the reference video starts. */
  datatype Scene = Scene(frameCurrent: int, fps: real, videoStartFrame: int, settings: SceneSettings)

  datatype Status = RunningModal | PassThrough | Cancelled

  /** The sequencer operations the operator issues: deleting every strip
      but the reference video, or adding one image strip. */
  datatype Effect =
    | ClearStrips
    | AddImageStrip(filename: string, frameStart: int, frameEnd: int, channel: int)

  datatype Executed = Executed(op: Operator, effects: seq<Effect>)

  datatype Step = Step(op: Operator, props: OverlayProperties, status: Status, effects: seq<Effect>)

  /** The sequencer channel of a hand's strips. */
  function Channel(hand: HandType): (c: int)
    ensures hand == Right ==> c == 2
    ensures hand == Left ==> c == 3
  {
    if hand == Right then 2 else 3
  }

  /** The hand whose strips sit on channel `c`. */
  function HandOfChannel(c: int): HandType {
    if c == 2 then Right else Left
  }

  /** The two hands never share a channel, and the channel tells the hand. */
  lemma ChannelsSeparateHands(hand: HandType, other: HandType)
    ensures Channel(hand) == Channel(other) <==> hand == other
    ensures HandOfChannel(Channel(hand)) == hand
  {
  }

  /** The sequencer operation adding a strip, moved from video-relative to
      timeline frames by `offset`, on its hand's channel. Taking the offset
      back off gives exactly the manager's strip: frames, file and hand. */
  function AddStrip(strip: ImageStripData, offset: int): (e: Effect)
    ensures e.AddImageStrip? && e.channel == Channel(strip.handType)
    ensures StripOfEffect(e, offset) == strip
  {
    AddImageStrip(strip.filename, strip.startFrame + offset, strip.endFrame + offset, Channel(strip.handType))
  }

  /** Reads an added strip back in video-relative frames. */
  function StripOfEffect(e: Effect, offset: int): ImageStripData
    requires e.AddImageStrip?
  {
    ImageStripData(e.frameStart - offset, e.frameEnd - offset, e.filename, HandOfChannel(e.channel))
  }

  ghost predicate Executable(op: Operator, scene: Scene, locate: Locate) {
    scene.fps != 0.0 && ValidLocate(locate, op.poses)
  }

  /** Requests the strips around the current frame, taken relative to the
      start of the reference video, and adds each to the sequencer in
      timeline frames. */
  function Execute(op: Operator, scene: Scene, locate: Locate): (e: Executed)
    requires Executable(op, scene, locate)
    ensures var g := FrameImageStripData(op.poses, scene.frameCurrent - op.startFrameOffset, scene.fps,
                                         PreviousPoseCount, NextPoseCount, scene.settings, locate);
            && e.op == op.(poses := g.table)
            && |e.effects| == |g.strips|
            && forall i :: 0 <= i < |e.effects| ==>
                 e.effects[i].AddImageStrip?
                 && e.effects[i].channel == Channel(g.strips[i].handType)
                 && StripOfEffect(e.effects[i], op.startFrameOffset) == g.strips[i]
    ensures Executable(e.op, scene, locate)
    ensures var t := FrameTimestamp(scene.frameCurrent - op.startFrameOffset, scene.fps);
            op.poses.right[locate(t, Right)].imageFilename == "" ==> |e.effects| >= 1
  {
    var g := FrameImageStripData(op.poses, scene.frameCurrent - op.startFrameOffset, scene.fps,
                                 PreviousPoseCount, NextPoseCount, scene.settings, locate);
    LocatedUnnamedPoseYieldsStrip(op.poses, scene.frameCurrent - op.startFrameOffset, scene.fps,
                                  PreviousPoseCount, NextPoseCount, scene.settings, locate);
    ValidLocateSameShape(locate, op.poses, g.table);
    Executed(op.(poses := g.table), AddStrips(g.strips, op.startFrameOffset))
  }

  /** The sequencer operations adding each strip in turn. */
  function AddStrips(strips: seq<ImageStripData>, offset: int): (effects: seq<Effect>)
    ensures |effects| == |strips|
    ensures forall i :: 0 <= i < |strips| ==> effects[i] == AddStrip(strips[i], offset)
  {
    if strips == [] then [] else [AddStrip(strips[0], offset)] + AddStrips(strips[1..], offset)
  }

  /** Deletes the overlay strips and forgets the last generated frame;
      `reset` is what is recorded in its place. */
  function ClearOverlay(op: Operator, reset: LastFrame): (r: Operator)
    ensures r.latestCurrentFrame == reset
    ensures r.startFrameOffset == op.startFrameOffset && r.poses == op.poses
  {
    op.(latestCurrentFrame := reset)
  }

  /** Takes the offset from the reference video's first frame and a new
      image manager over the freshly loaded poses. */
  function SetAttributes(op: Operator, scene: Scene, loaded: PoseTable): (r: Operator)
    ensures r.startFrameOffset == scene.videoStartFrame - 1
    ensures r.poses == loaded && r.latestCurrentFrame == op.latestCurrentFrame
  {
    op.(startFrameOffset := scene.videoStartFrame - 1, poses := loaded)
  }

  /** Starting the operator clears the overlay and sets the attributes,
      from the state the constructor leaves (-1, offset 0, no manager). */
  function Invoke(props: OverlayProperties, scene: Scene, loaded: PoseTable, reset: LastFrame): (s: Step)
    ensures s.status == RunningModal && s.effects == [ClearStrips] && s.props == props
    ensures s.op == Operator(reset, scene.videoStartFrame - 1, loaded)
  {
    var constructed := Operator(Seen(-1), 0, PoseTable([], []));
    Step(SetAttributes(ClearOverlay(constructed, reset), scene, loaded), props, RunningModal, [ClearStrips])
  }

  /** Ending the operator clears the overlay and lowers the active and clear flags. */
  function Cancel(op: Operator, props: OverlayProperties, reset: LastFrame): (s: Step)
    ensures s.status == Cancelled && s.effects == [ClearStrips]
    ensures s.op == op.(latestCurrentFrame := reset)
    ensures !s.props.overlayActive && !s.props.clearOverlay
    ensures s.props.refreshOverlay == props.refreshOverlay
    ensures s.props.pauseOverlayGeneration == props.pauseOverlayGeneration
  {
    Step(ClearOverlay(op, reset), props.(overlayActive := false, clearOverlay := false), Cancelled, [ClearStrips])
  }

  /** The lookup fits the pose table the event works on: the freshly
      loaded one when the event refreshes, the operator's own otherwise. */
  ghost predicate ModalReady(op: Operator, props: OverlayProperties, scene: Scene, loaded: PoseTable,
                             locate: Locate) {
    scene.fps != 0.0 && ValidLocate(locate, if props.refreshOverlay then loaded else op.poses)
  }

  /** The first phase of an event: a refresh request clears the overlay,
      reloads the attributes and lowers the refresh flag. */
  function RefreshPhase(op: Operator, props: OverlayProperties, scene: Scene, loaded: PoseTable,
                        reset: LastFrame): (s: Step)
    ensures !s.props.refreshOverlay
    ensures s.props == props.(refreshOverlay := false)
    ensures props.refreshOverlay ==>
              s.op == Operator(reset, scene.videoStartFrame - 1, loaded) && s.effects == [ClearStrips]
    ensures !props.refreshOverlay ==> s.op == op && s.effects == []
  {
    if props.refreshOverlay then
      Step(SetAttributes(ClearOverlay(op, reset), scene, loaded), props.(refreshOverlay := false),
           RunningModal, [ClearStrips])
    else
      Step(op, props, RunningModal, [])
  }

  /** One event of the modal operator. `reset` is the value the operator
      records when it clears the overlay (the integer -1 as written). */
  function ModalWith(reset: LastFrame, op: Operator, props: OverlayProperties, scene: Scene,
                     sequencerOpen: bool, loaded: PoseTable, locate: Locate): (s: Step)
    requires ModalReady(op, props, scene, loaded, locate)
    ensures s.status == Cancelled <==> props.clearOverlay
    ensures s.status != Cancelled ==> s.status == PassThrough
    ensures !s.props.refreshOverlay
    ensures s.props.pauseOverlayGeneration == props.pauseOverlayGeneration
    ensures !props.clearOverlay ==> s.props == props.(refreshOverlay := false)
    ensures props.clearOverlay ==>
              && s.props == props.(refreshOverlay := false, overlayActive := false, clearOverlay := false)
              && s.op == RefreshPhase(op, props, scene, loaded, reset).op.(latestCurrentFrame := reset)
    ensures props.clearOverlay ==>
              !s.props.overlayActive && !s.props.clearOverlay && s.op.latestCurrentFrame == reset
              && s.effects == (if props.refreshOverlay then [ClearStrips, ClearStrips] else [ClearStrips])
    ensures props.refreshOverlay ==> s.op.startFrameOffset == scene.videoStartFrame - 1
    ensures !props.refreshOverlay ==> s.op.startFrameOffset == op.startFrameOffset
    ensures !props.clearOverlay && (props.pauseOverlayGeneration || !sequencerOpen) ==>
              s.op == RefreshPhase(op, props, scene, loaded, reset).op
              && s.effects == RefreshPhase(op, props, scene, loaded, reset).effects
    ensures !props.clearOverlay && !props.pauseOverlayGeneration && sequencerOpen ==>
              s.op.latestCurrentFrame == Seen(scene.frameCurrent)
    ensures var r := RefreshPhase(op, props, scene, loaded, reset);
            !props.clearOverlay && !props.pauseOverlayGeneration && sequencerOpen ==>
              if r.op.latestCurrentFrame != Seen(scene.frameCurrent) then
                var executed := Execute(r.op, scene, locate);
                && s.effects == r.effects + executed.effects
                && s.op == executed.op.(latestCurrentFrame := Seen(scene.frameCurrent))
              else
                s.effects == r.effects && s.op == r.op
    ensures (exists i :: 0 <= i < |s.effects| && s.effects[i].AddImageStrip?) ==>
              !props.clearOverlay && !props.pauseOverlayGeneration && sequencerOpen
              && RefreshPhase(op, props, scene, loaded, reset).op.latestCurrentFrame != Seen(scene.frameCurrent)
    ensures Executable(s.op, scene, locate)
  {
    var refreshed := RefreshPhase(op, props, scene, loaded, reset);
    var op1, props1 := refreshed.op, refreshed.props;
    if props1.clearOverlay then
      var cancelled := Cancel(op1, props1, reset);
      Step(cancelled.op, cancelled.props, Cancelled, refreshed.effects + cancelled.effects)
    else if props1.pauseOverlayGeneration || !sequencerOpen then
      Step(op1, props1, PassThrough, refreshed.effects)
    else if op1.latestCurrentFrame != Seen(scene.frameCurrent) then
      var executed := Execute(op1, scene, locate);
      Step(executed.op.(latestCurrentFrame := Seen(scene.frameCurrent)), props1, PassThrough,
           refreshed.effects + executed.effects)
    else
      Step(op1, props1, PassThrough, refreshed.effects)
  }

  /** The operator as written: clearing records the frame number -1. */
  function ModalAsWritten(op: Operator, props: OverlayProperties, scene: Scene, sequencerOpen: bool,
                          loaded: PoseTable, locate: Locate): (s: Step)
    requires ModalReady(op, props, scene, loaded, locate)
    ensures props.clearOverlay ==> s.op.latestCurrentFrame == Seen(-1)
  {
    ModalWith(Seen(-1), op, props, scene, sequencerOpen, loaded, locate)
  }

  /** The operator with clearing recording that no frame has been generated. */
  function Modal(op: Operator, props: OverlayProperties, scene: Scene, sequencerOpen: bool,
                 loaded: PoseTable, locate: Locate): (s: Step)
    requires ModalReady(op, props, scene, loaded, locate)
    ensures props.clearOverlay ==> s.op.latestCurrentFrame == NoFrame
  {
    ModalWith(NoFrame, op, props, scene, sequencerOpen, loaded, locate)
  }

  /** A second event at the same frame, with no request pending, adds no
      strips and leaves the operator as it was. */
  lemma ModalSameFrameTwice(reset: LastFrame, op: Operator, props: OverlayProperties, scene: Scene,
                            loaded: PoseTable, locate: Locate)
    requires ModalReady(op, props, scene, loaded, locate)
    requires !props.refreshOverlay && !props.clearOverlay && !props.pauseOverlayGeneration
    ensures var first := ModalWith(reset, op, props, scene, true, loaded, locate);
            var second := ModalWith(reset, first.op, first.props, scene, true, loaded, locate);
            second.effects == [] && second.op == first.op && second.status == PassThrough
  {
  }

  /** Corrected operator: after a refresh, an unpaused event with the
      sequencer open always regenerates the strips at the current frame. */
  lemma RefreshRegenerates(op: Operator, props: OverlayProperties, scene: Scene, loaded: PoseTable,
                           locate: Locate)
    requires ModalReady(op, props, scene, loaded, locate)
    requires props.refreshOverlay && !props.clearOverlay && !props.pauseOverlayGeneration
    ensures var s := Modal(op, props, scene, true, loaded, locate);
            var reloaded := Operator(NoFrame, scene.videoStartFrame - 1, loaded);
            s.effects == [ClearStrips] + Execute(reloaded, scene, locate).effects
            && s.op.latestCurrentFrame == Seen(scene.frameCurrent)
  {
    var reloaded := Operator(NoFrame, scene.videoStartFrame - 1, loaded);
    var refreshed := RefreshPhase(op, props, scene, loaded, NoFrame);
    assert refreshed.op == reloaded && refreshed.effects == [ClearStrips];
    assert !refreshed.props.clearOverlay && !refreshed.props.pauseOverlayGeneration;
  }

  /** The operator as written: a refresh at frame -1 clears the overlay and
      does not regenerate it, whatever the poses are. */
  lemma AsWrittenRefreshAtFrameMinusOne(op: Operator, props: OverlayProperties, scene: Scene,
                                        loaded: PoseTable, locate: Locate)
    requires ModalReady(op, props, scene, loaded, locate)
    requires props.refreshOverlay && !props.clearOverlay && !props.pauseOverlayGeneration
    requires scene.frameCurrent == -1
    ensures ModalAsWritten(op, props, scene, true, loaded, locate).effects == [ClearStrips]
  {
  }

  /** A concrete case: one unnamed pose per hand, a refresh at frame -1. As
      written the operator leaves the overlay empty; the corrected operator adds the
      strips of both poses. */
  lemma RefreshAtFrameMinusOneExample()
    ensures var loaded := PoseTable([HandPose(0.0, "")], [HandPose(0.0, "")]);
            var op := Operator(Seen(5), 0, loaded);
            var props := OverlayProperties(true, false, true, false);
            var scene := Scene(-1, 24.0, 1, SceneSettings(false, 100));
            var locate: Locate := (t: real, h: HandType) => 0;
            && ModalReady(op, props, scene, loaded, locate)
            && ModalAsWritten(op, props, scene, true, loaded, locate).effects == [ClearStrips]
            && |Modal(op, props, scene, true, loaded, locate).effects| == 3
  {
    var loaded := PoseTable([HandPose(0.0, "")], [HandPose(0.0, "")]);
    var scene := Scene(-1, 24.0, 1, SceneSettings(false, 100));
    var locate: Locate := (t: real, h: HandType) => 0;
    var reloaded := Operator(NoFrame, 0, loaded);
    var w := AdjacentWindow(1, 0, PreviousPoseCount, NextPoseCount);
    assert w == Window(0, 1);
    assert Pending(loaded.right, 0, 1) == [0];
    assert Pending(loaded.left, 0, 1) == [0];
  }

  /** The operator as written: started while the scene is at frame -1, its
      first eligible event generates nothing, whatever the poses are. */
  lemma AsWrittenStartAtFrameMinusOne(props: OverlayProperties, scene: Scene, loaded: PoseTable,
                                      locate: Locate)
    requires scene.fps != 0.0 && ValidLocate(locate, loaded)
    requires !props.refreshOverlay && !props.clearOverlay && !props.pauseOverlayGeneration
    requires scene.frameCurrent == -1
    ensures var started := Invoke(props, scene, loaded, Seen(-1));
            ModalAsWritten(started.op, started.props, scene, true, loaded, locate).effects == []
  {
  }

  /** Corrected operator: the first eligible event after starting generates
      the strips at the current frame, and at least one strip when the
      right-hand pose of that frame has no image yet. */
  lemma StartGenerates(props: OverlayProperties, scene: Scene, loaded: PoseTable, locate: Locate)
    requires scene.fps != 0.0 && ValidLocate(locate, loaded)
    requires !props.refreshOverlay && !props.clearOverlay && !props.pauseOverlayGeneration
    ensures var started := Invoke(props, scene, loaded, NoFrame);
            var s := Modal(started.op, started.props, scene, true, loaded, locate);
            && s.effects == Execute(started.op, scene, locate).effects
            && s.op.latestCurrentFrame == Seen(scene.frameCurrent)
    ensures var frame := scene.frameCurrent - (scene.videoStartFrame - 1);
            loaded.right[locate(FrameTimestamp(frame, scene.fps), Right)].imageFilename == "" ==>
              var started := Invoke(props, scene, loaded, NoFrame);
              |Modal(started.op, started.props, scene, true, loaded, locate).effects| >= 1
  {
  }
}
