# Hand pose overlay: strip bookkeeping and the modal overlay operator

This project models the core of an add-on that overlays hand pose reference
images on the video sequencer of a 3D content-creation tool. A pose
estimator has already produced, for each hand, a list of poses with
timestamps. While the animator scrubs the timeline, a modal operator asks an
image manager for the poses around the current frame; the manager renders an
image for every pose in that window that has none yet, and returns one image
strip per new image: its start and end frame, the image file and the hand.
The operator moves the strips from video-relative to timeline frames and adds
them to the sequencer, right hand on channel 2, left hand on channel 3.

Modules, one per concern:

- `Rounding` — Python's `round` (ties to even), on exact reals.
- `HandPoses` — hand types, poses, the per-hand pose table, and the image
  file name `"hand_pose" + index + hand name + ".png"`.
- `FrameAlignment` — edge-aligned and center-aligned strip frames.
- `ImageManager` — the pose window, deduplication by image file name, and the
  right-then-left strip list (`hand_pose_image_manager.py`).
- `HandPoseOverlay` — the operator's state machine: `execute`, `modal`,
  `invoke`, `cancel`, refresh and clear (`operators/hand_pose_overlay.py`).

A pose's index is its position in its hand's list and its hand type is the
list's hand, so the model keeps only its timestamp and image file name.
Timestamps and the frame rate are reals, and frames are rounded from them
exactly as the source rounds them, so consecutive poses' strips can be
compared. Host calls are not executed: the sequencer operations are returned
as a list of effects, and the scene values, whether a sequencer area is open,
the freshly loaded poses and the pose lookup are parameters.

The last pose's center-aligned strip ends at `round(frame + half)`, not at
`round(frame) + half`. With ties rounding to even the two can differ by one
frame. `FrameAlignment.CenterAlignedLastPoseBounds` states the bound that does
hold, and `FrameAlignment.CenterAlignedLastPoseExample` shows the one-frame
difference.

## Model

| member | source | states |
|---|---|---|
| Rounding.Round | hand_pose_image_manager.py:83-84 | the result is within one half of the argument, and a half-way argument goes to the even neighbour |
| HandPoses.DecimalString | hand_pose_image_manager.py:120 | Python's `str` of an index: a non-empty run of decimal digits whose first digit is `0` only for the index 0 |
| HandPoses.ParseDecimalString | hand_pose_image_manager.py:120 | the decimal index written into a file name reads back as that index |
| HandPoses.ImageFilenameInjective | hand_pose_image_manager.py:120 | two poses, of the same hand or not, never get the same image file name `ImageFilename(index, hand)`, which is `"hand_pose" + DecimalString(index) + hand.Name() + ".png"` |
| FrameAlignment.EdgeAlignedFrames | hand_pose_image_manager.py:81-92 | the strip starts at the pose's rounded frame and is at most the 2-second length long; it ends at the next pose's frame or at the length cap, whichever comes first; for the last pose it ends at `duration + 1` or at the cap |
| FrameAlignment.EdgeAlignedNoOverlap | hand_pose_image_manager.py:81-92 | an edge-aligned strip ends at or before the start of the next pose's strip |
| FrameAlignment.EdgeAlignedWellFormed | hand_pose_image_manager.py:81-92 | for ordered poses and a non-negative frame rate, a non-last strip does not end before it starts |
| FrameAlignment.CenterAlignedFramesValues | hand_pose_image_manager.py:94-116 | the frames `CenterAlignedFrames` computes: the unclamped start is the rounded frame of the first pose, or the rounded midpoint to the previous pose; a non-last strip starts at the later of that and the rounded frame minus half-length, and ends at the earlier of the rounded midpoint to the next pose and the rounded frame plus half-length; the last strip keeps the unclamped start and ends at the earlier of `round(frame + half-length)` and `duration + 1` |
| FrameAlignment.CenterAlignedNoOverlap | hand_pose_image_manager.py:99-116 | a center-aligned strip ends at or before the start of the next pose's strip |
| FrameAlignment.CenterAlignedCoversPose | hand_pose_image_manager.py:99-116 | for ordered poses and a non-negative frame rate, a non-last strip covers its pose's frame, and the first pose's strip starts exactly at it |
| FrameAlignment.CenterAlignedLastPoseBounds | hand_pose_image_manager.py:106-109 | the last pose's strip ends at most one frame past half the strip length after its rounded frame |
| FrameAlignment.CenterAlignedLength | hand_pose_image_manager.py:99-116 | a non-last center-aligned strip is at most one frame longer than the longest edge-aligned strip, because its two halves are rounded separately |
| FrameAlignment.CenterAlignedLengthExample | hand_pose_image_manager.py:99-116 | at 1.5 frames per second the cap is 3 frames, and a middle pose's center-aligned strip is 4 |
| FrameAlignment.CenterAlignedLastPoseExample | hand_pose_image_manager.py:106-109 | concrete poses where the last strip does pass that half-length bound by one frame, and where its start lies more than half a length before the pose |
| ImageManager.AdjacentWindow | hand_pose_image_manager.py:62-67 | the window contains the located pose, lies inside the list, holds at most `previous + next + 1` poses, and reaches `previous` back and `next` forward unless the list ends first |
| ImageManager.Pending | hand_pose_image_manager.py:55-56 | exactly the window's poses without an image file, each once, in ascending index order |
| ImageManager.CreateImage | hand_pose_image_manager.py:118-123 | a pose that already has an image is left as is; otherwise it gets its `hand_pose<index><HAND>.png` name; no other pose and no timestamp changes |
| ImageManager.CreateImageIdempotent | hand_pose_image_manager.py:118-123 | creating a pose's image a second time changes nothing |
| ImageManager.CreateImageStripData | hand_pose_image_manager.py:69-79 | the strip carries the pose's file name and hand, and center-aligned frames exactly when the scene asks for center alignment, edge-aligned otherwise |
| ImageManager.ProcessWindow | hand_pose_image_manager.py:53-60 | the poses of the window that had no image get their `hand_pose<index><HAND>.png` names; every other pose and every timestamp is unchanged |
| ImageManager.ProcessWindowPendingStrips | hand_pose_image_manager.py:53-60 | one strip per pose of the window that had no image, in window order, each built after its pose was named |
| ImageManager.ProcessWindowStrips | hand_pose_image_manager.py:53-60 | strip m shows the image of the m-th pose that had none, for the window's hand, and no two strips share an image |
| ImageManager.ProcessWindowNamesAll | hand_pose_image_manager.py:53-60 | after processing, every pose of the window has an image file name |
| ImageManager.ProcessWindowTwice | hand_pose_image_manager.py:53-60 | processing the same window again yields no strips and changes no pose |
| ImageManager.HandPoseStrips | hand_pose_image_manager.py:47-49 | exactly the poses of the located pose's window that had no image get their file names, and the strips are those poses' strip data, in index order |
| ImageManager.FrameImageStripData | hand_pose_image_manager.py:35-51 | the request's timestamp is `FrameTimestamp(frame, fps)`, `frame / fps`; for each hand, exactly the poses without an image in the window around that hand's located pose are named; every other pose is unchanged |
| ImageManager.FrameImageStripDataWindows | hand_pose_image_manager.py:44-51 | the result is one strip per unnamed pose of the right hand's window, in index order, followed by one per unnamed pose of the left hand's window, each built from its pose after naming |
| ImageManager.FrameImageStripDataOrder | hand_pose_image_manager.py:44-51 | every right-hand strip comes before every left-hand strip, and no two strips of a request show the same image |
| ImageManager.FrameImageStripDataTwice | hand_pose_image_manager.py:35-51 | a second request for the same frame and counts yields no strips and leaves the poses as the first request left them |
| ImageManager.LocatedUnnamedPoseYieldsStrip | hand_pose_image_manager.py:46-49 | when the pose located for the frame has no image, the request yields at least one strip |
| HandPoseOverlay.Channel | operators/hand_pose_overlay.py:106 | right-hand strips go to channel 2, left-hand strips to channel 3 |
| HandPoseOverlay.ChannelsSeparateHands | operators/hand_pose_overlay.py:106 | the two hands never share a channel, and the channel determines the hand |
| HandPoseOverlay.AddStrip | operators/hand_pose_overlay.py:96-108 | the strip is added on its hand's channel, and taking the offset back off gives exactly the manager's strip: frames, file and hand |
| HandPoseOverlay.AddStrips | operators/hand_pose_overlay.py:31-34 | one added strip per manager strip, in the same order |
| HandPoseOverlay.Execute | operators/hand_pose_overlay.py:24-35 | strips are requested for `frame_current - start_frame_offset` with 1 previous and 3 next poses; one strip is added per returned strip, on its hand's channel, and each reads back as it, shifted by the offset; when the right-hand pose at that frame has no image yet, at least one strip is added |
| HandPoseOverlay.ClearOverlay | operators/hand_pose_overlay.py:88-93 | clearing forgets the last generated frame and keeps the offset and the poses |
| HandPoseOverlay.SetAttributes | operators/hand_pose_overlay.py:76-82 | the offset becomes the reference video's start frame minus one, and the manager works on the freshly loaded poses |
| HandPoseOverlay.Invoke | operators/hand_pose_overlay.py:61-69 | starting clears the overlay, sets the offset and the poses, and keeps running modally |
| HandPoseOverlay.Cancel | operators/hand_pose_overlay.py:71-74 | cancelling clears the overlay, keeps the offset and the poses, lowers `overlay_active` and `clear_overlay`, leaves the other flags, and ends the operator |
| HandPoseOverlay.RefreshPhase | operators/hand_pose_overlay.py:40-43 | a refresh request clears the overlay, resets the offset and poses, and lowers `refresh_overlay`; without one nothing changes |
| HandPoseOverlay.ModalWith | operators/hand_pose_overlay.py:37-59 | only `refresh_overlay` is lowered unless the event cancels; an event is cancelled exactly when a clear is requested, and then `overlay_active` and `clear_overlay` end lowered, the other flags and the refreshed offset and poses are kept, and the last generated frame is reset; paused or without a sequencer it passes through with nothing generated; otherwise the last generated frame becomes the current frame, and the strips are generated (the refresh's effects followed by `execute`'s) exactly when the current frame differs from the last generated one; at an unchanged frame only the refresh's effects remain |
| HandPoseOverlay.ModalAsWritten | operators/hand_pose_overlay.py:37-59 | the operator as written: clearing records frame -1 |
| HandPoseOverlay.Modal | operators/hand_pose_overlay.py:37-59 | the corrected operator: clearing records that no frame has been generated |
| HandPoseOverlay.ModalSameFrameTwice | operators/hand_pose_overlay.py:55-57 | a second event at the same frame with no request pending adds nothing and changes nothing |
| HandPoseOverlay.RefreshRegenerates | operators/hand_pose_overlay.py:40-57 | in the corrected operator, after a refresh, an unpaused event with a sequencer open clears and then regenerates at the current frame |
| HandPoseOverlay.AsWrittenRefreshAtFrameMinusOne | operators/hand_pose_overlay.py:88-93 | as written, a refresh at frame -1 clears the overlay and regenerates nothing |
| HandPoseOverlay.RefreshAtFrameMinusOneExample | operators/hand_pose_overlay.py:55-57 | one unnamed pose per hand and a refresh at frame -1: as written no strip is added, the corrected operator adds both |
| HandPoseOverlay.AsWrittenStartAtFrameMinusOne | operators/hand_pose_overlay.py:61-63 | as written, starting the operator at frame -1 and then handling an eligible event adds nothing, whatever the poses are |
| HandPoseOverlay.StartGenerates | operators/hand_pose_overlay.py:55-63 | in the corrected operator, the first eligible event after starting runs `execute` at the current frame, and adds a strip when the right-hand pose of that frame has no image |

## Left out

- Floating point: timestamps, the frame rate and every product of them are exact reals, so float error in `timestamp * fps` is not modelled.
- The pose loader and `find_hand_pose` are not part of this model. The lookup is the `locate` parameter, a function of the timestamp and the hand, assumed to return an index inside that hand's list for every timestamp, for the table an event works on: the freshly loaded one when the event refreshes, the operator's own otherwise. The model does not cover a pose file with an empty list.
- Rendering the pose image (`create_hand_pose_image`) and the image size it uses are left out; only the file name stamped on the pose is modelled.
- The file-system setup of the manager's constructor (clearing or creating the image directory) is left out.
- Host calls are effects or parameters. The sequencer's select/delete and `image_strip_add` become `ClearStrips` and `AddImageStrip`. The image directory, relative path and fit options of `image_strip_add` are not recorded. `find_area` and `temp_override` become the `sequencerOpen` flag. `report`, `modal_handler_add` and the overlap-mode setting in `invoke` are not modelled.
- `poll` and the defaults of the property group are not modelled; the flags are parameters of each event.
- The frame rate must be non-zero: `frame / fps` divides by it, and the host's frame rate is always positive.
- The previous and next pose counts are natural numbers; the operator passes 1 and 3.
- The side panels and the clear-reference operator are UI and host glue and are not modelled.

## Findings

| source | as written | input that shows it | evidently intended | confidence | as-written member | corrected member |
|---|---|---|---|---|---|---|
| operators/hand_pose_overlay.py:93 | clearing stores -1 as the last generated frame, and `modal` regenerates only when `frame_current` differs from it | refresh while the scene is at frame -1, unpaused, with a sequencer open: the overlay is cleared and nothing is regenerated until the frame changes | after clearing, the next eligible event regenerates at whatever frame the scene is at | low, not executed | HandPoseOverlay.AsWrittenRefreshAtFrameMinusOne | HandPoseOverlay.RefreshRegenerates |
| operators/hand_pose_overlay.py:62 | starting the operator clears the overlay, which stores -1 as the last generated frame | start the operator while the scene is at frame -1, unpaused, with a sequencer open: nothing is generated until the frame changes | the first eligible event after starting generates the strips at the current frame | low, not executed | HandPoseOverlay.AsWrittenStartAtFrameMinusOne | HandPoseOverlay.StartGenerates |
