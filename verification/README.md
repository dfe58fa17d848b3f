# AprilTag detector node — a Dafny model

This project models the `AprilTagDetector` ROS node of `apriltags_ros`: the
component that receives rectified camera images with their camera info,
hands each image to an AprilTag detector, keeps the detections whose id is in
its tag catalog, reconstructs each kept tag's 3-D pose, optionally re-expresses
that pose in a configured output frame, and publishes a detection array, a pose
array, an annotated image, and one named tf frame per kept tag.

The model is functional. Every operation is a pure function over immutable
datatypes.

- `Catalog` builds the id-keyed map of tag descriptions from the
  `tag_descriptions` parameter. When an entry has no `frame_id`, its frame is
  named `"tag_"` followed by the decimal id. That decimal rendering lives in
  `Decimal` and is proved injective through a parse-back round trip.
- `Camera` picks fx, fy, px, py out of K or P.
- `Family` maps a `tag_family` name to a family. Any other name falls back
  to 36h11.
- `Tf` models `getTransform` as an `Option` over a listener snapshot.
- `Detector` holds the node state, the constructor defaults, `enableCb`, and
  the image callback `ImageCb`. `ImageCb` returns either
  `Dropped(cause)` or `Published(records, poseArray, broadcasts, image)`.
- `DetectorProperties` relates several callback runs: order, one-to-one
  alignment, unknown ids, left composition, and publish-exactly-once. It uses
  `Effects`, which renders an outcome as the ordered sequence of
  `sendTransform` and publish calls the callback makes.
- `Session` runs a sequence of callbacks.
- `Scenarios` checks concrete frames.

The geometry is opaque. `Geometry` represents transforms as terms:

- `Relative(corners, size, camera)` is the pose solved from a detection
  (`getRelativeTransform`).
- `Observed(handle)` is a transform supplied by tf.
- `Product(left, right)` is tf multiplication.

So a published pose records exactly which detection, size, camera
parameters and looked-up transform produced it, and in which order they were
multiplied. Nothing is computed numerically.

The tag description record (`AprilTagDescription`) is the datatype
`Catalog.Description(id, size, frameName)`. Its destructors are the accessors
`id()`, `size()` and `frame_name()`, so by construction each one returns what
the constructor was given. The catalog type `Catalog.Descriptions`, the detector's
`descriptions_`, is a `map<int, Description>` and so holds at most one
description per id.

Behaviour of the code worth noting:

- Duplicate ids in `tag_descriptions` keep the FIRST entry, because
  `std::map::insert` does not overwrite (apriltags_ros/src/apriltag_detector.cpp:245).
- The output-frame transform is looked up at `ros::Time(0)`, the latest
  available transform, and not at the image's stamp
  (apriltags_ros/src/apriltag_detector.cpp:254-258). The published stamps are
  still the image's.
- A conversion exception while the catalog is parsed discards the whole
  catalog, not just the offending entry. The map under construction is local
  to `parse_tag_descriptions` (apriltags_ros/src/apriltag_detector.cpp:25-29).
- The annotated image keeps the sensor-resolved frame even when poses are
  rebased into the output frame. Its header is `cv_ptr->header`, which only
  the sensor override changes (apriltags_ros/src/apriltag_detector.cpp:122-133, 217).

## Model

| member | source | states |
|---|---|---|
| Decimal.NatToDecimal | apriltags_ros/src/apriltag_detector.cpp:239-241 | the digits written for a non-negative id are non-empty, all decimal digits, and have no leading zero |
| Decimal.DecimalRoundTrip | apriltags_ros/src/apriltag_detector.cpp:239-241 | reading back the digits written for n gives n, so the rendering loses nothing |
| Decimal.IntToDecimal | apriltags_ros/src/apriltag_detector.cpp:239-241 | `operator<<` on an int writes a leading '-' exactly for negative ids and a digit first otherwise, reading the text back with the independent signed reader `IntValue` ('-' then digits) gives the int, and the text is canonical: no leading zero after the optional '-', and "0" only for zero |
| Decimal.IntToDecimalInjective | apriltags_ros/src/apriltag_detector.cpp:239-241 | two ids written the same way are equal |
| Catalog.DefaultFrameName | apriltags_ros/src/apriltag_detector.cpp:238-242 | the default frame name starts with "tag_", the rest reads back as the id, and it is canonical: no leading zero after the optional '-', so id 5 gives "tag_5" and never "tag_05" |
| Catalog.DefaultFrameNamesDistinct | apriltags_ros/src/apriltag_detector.cpp:238-242 | default frame names "tag_<id>" of different ids never collide |
| Catalog.DefaultFrameNameExample | apriltags_ros/src/apriltag_detector.cpp:238-242 | an entry for id 5 without frame_id is named "tag_5" |
| Catalog.NegativeIdFrameNameExample | apriltags_ros/src/apriltag_detector.cpp:238-242 | an entry for id -12 without frame_id is named "tag_-12" |
| Catalog.ParseTagDescriptions | apriltags_ros/src/apriltag_detector.cpp:221-248 | the keys are exactly the entries' ids; every key maps to a description with that id; each id maps to the description of its FIRST entry (frame_id if given, else "tag_"+id) |
| Catalog.Insert | apriltags_ros/src/apriltag_detector.cpp:245 | `map::insert` adds the entry's id, never changes the value of a key already present, and maps a new id to the entry's description |
| Catalog.LaterDuplicateIgnored | apriltags_ros/src/apriltag_detector.cpp:245 | appending an entry whose id is already present leaves the catalog unchanged (map::insert does not overwrite) |
| Catalog.NewIdAdded | apriltags_ros/src/apriltag_detector.cpp:243-245 | appending an entry with a new id adds exactly that id, mapped to its description, and changes nothing else |
| Catalog.FirstDuplicateWinsExample | apriltags_ros/src/apriltag_detector.cpp:245 | of two entries for id 5, the first one's size and frame are kept |
| Catalog.LoadCatalog | apriltags_ros/src/apriltag_detector.cpp:20-30 | a missing or malformed tag_descriptions parameter leaves the catalog empty; otherwise it is `BuiltFrom` the entries (keys are the ids, each id maps to its first entry's description) |
| Camera.SelectCameraParams | apriltags_ros/src/apriltag_detector.cpp:106-120 | projected mode takes fx, fy from the diagonal of P and (px, py) from P's third column; raw mode takes the same entries of K |
| Camera.SelectionReadsOneMatrix | apriltags_ros/src/apriltag_detector.cpp:106-120 | projected mode ignores K and raw mode ignores P |
| Camera.ModesAgreeWhenProjectionExtendsIntrinsics | apriltags_ros/src/apriltag_detector.cpp:106-120 | when P's left 3x3 block equals K, both modes select the same parameters |
| Family.FamilyFromName | apriltags_ros/src/apriltag_detector.cpp:45-64 | a name some family has selects that family; any name no family has selects 36h11; a result other than 36h11 has the given name |
| Family.FamilyRoundTrip | apriltags_ros/src/apriltag_detector.cpp:46-60 | each of the five families is selected by its own name |
| Family.DefaultFamily | apriltags_ros/src/apriltag_detector.cpp:41 | the default parameter value "36h11" selects 36h11 |
| Tf.GetTransform | apriltags_ros/src/apriltag_detector.cpp:250-270 | a transform is returned exactly when the listener can transform and its lookup does not throw, and it is the lookup's value |
| Detector.NewDetector | apriltags_ros/src/apriltag_detector.cpp:19-66 | the catalog is empty without valid entries and otherwise `BuiltFrom` them; sensor and output frames are the set values, or empty when unset; a set family name selects the family of that name and an unset one 36h11; projected optics and enabled hold only when set to true |
| Detector.EnableCb | apriltags_ros/src/apriltag_detector.cpp:79-81 | the enable flag becomes the message value and nothing else in the node changes |
| Detector.SensorHeader | apriltags_ros/src/apriltag_detector.cpp:122-127 | the header keeps the image stamp; a non-empty sensor override replaces the frame, an empty one leaves the image header unchanged |
| Detector.Rebase | apriltags_ros/src/apriltag_detector.cpp:167-197 | without a transform the pose is unchanged; with one the result is the transform multiplied on the left of the pose |
| Detector.OutputTransform | apriltags_ros/src/apriltag_detector.cpp:128-138 | a rebasing transform exists exactly when an output frame is set and the listener can transform from the sensor-resolved frame to it without throwing, and it is the lookup's value |
| Detector.Retained | apriltags_ros/src/apriltag_detector.cpp:144-149 | a detection is kept exactly when it occurs in the input and its id is in the catalog |
| Detector.Assemble | apriltags_ros/src/apriltag_detector.cpp:144-214 | records, poses and broadcasts are aligned 1:1 with the retained detections and the drawn tags are exactly those; record i has the detection's id, the catalog size and the header; pose i is record i's pose (rebased when a transform is given); broadcast i places the catalog frame name in the header frame at the header stamp |
| Detector.ImageCb | apriltags_ros/src/apriltag_detector.cpp:83-218 | a frame is dropped exactly when disabled, unconvertible, or an output frame is configured and its transform is unavailable; otherwise the header stamp is the image's and its frame is the output frame, else the sensor override, else the image frame; the annotated image keeps the sensor-resolved header; the batch is assembled as above |
| DetectorProperties.RetainedAppend | apriltags_ros/src/apriltag_detector.cpp:144-149 | filtering distributes over concatenation, so retained detections keep their input order |
| DetectorProperties.RetainedMultiplicity | apriltags_ros/src/apriltag_detector.cpp:144-149 | each detection with a cataloged id is kept as many times as it occurs, every other one never |
| DetectorProperties.AssembledUnique | apriltags_ros/src/apriltag_detector.cpp:150-213 | the published batch is determined by the retained detections alone |
| DetectorProperties.UnknownDetectionIgnored | apriltags_ros/src/apriltag_detector.cpp:145-149 | inserting an uncataloged detection anywhere in the input leaves the frame's outcome unchanged |
| DetectorProperties.ListenerIrrelevantWithoutOutputFrame | apriltags_ros/src/apriltag_detector.cpp:128-138 | with no output frame the tf listener is not consulted and no pose is rebased |
| DetectorProperties.RebasedPosesComposeOnLeft | apriltags_ros/src/apriltag_detector.cpp:167-213 | with an output frame every published pose is the looked-up transform multiplied on the left of the tag's camera-relative transform, and the broadcast carries that product |
| DetectorProperties.Effects | apriltags_ros/src/apriltag_detector.cpp:211-217 | a dropped frame has no effect; a published one sends each broadcast in order and then publishes the detection array, the pose array and the image |
| DetectorProperties.PublishersFireOncePerFrame | apriltags_ros/src/apriltag_detector.cpp:211-217 | a dropped frame has no effect; a published frame publishes detections, poses and image exactly once each, even with no retained tag, and sends one transform per retained tag |
| Session.Run | apriltags_ros/src/apriltag_detector.cpp:79-87 | callbacks change nothing but the enable flag, which ends as the value of the last enable message (read from the back by `FinalFlag`), or the initial value when there is none |
| Session.SilentWhileDisabled | apriltags_ros/src/apriltag_detector.cpp:85-87 | a disabled node that never receives enable=true publishes and broadcasts nothing, whatever frames arrive |
| Scenarios.CatalogedTagPublished | apriltags_ros/src/apriltag_detector.cpp:144-217 | tag 5 (size 0.2) seen with K = [600,0,320, 0,600,240, 0,0,1] gives one record, one pose reconstructed with (600, 600, 320, 240), and a "tag_5" broadcast in the camera frame |
| Scenarios.UncatalogedTagSkipped | apriltags_ros/src/apriltag_detector.cpp:145-149 | only tag 9 in view gives empty batches and no broadcast, but the image is still published |
| Scenarios.UnreachableOutputFrameDropsFrame | apriltags_ros/src/apriltag_detector.cpp:130-137 | an output frame the listener cannot reach drops the frame |
| Scenarios.ReachableOutputFrameRelabels | apriltags_ros/src/apriltag_detector.cpp:130-133 | with a reachable output frame the pose array and broadcast parent use it, the pose is the product with the transform on the left, and the image keeps the camera frame |

## Left out

- Node entry point (apriltags_ros/src/apriltag_detector_node.cpp). It is only ROS init and spin. Callback order is modelled by `Session.Run` as one event after another.
- ROS plumbing. Subscriptions, advertisements, the transport behind the publishers and `sendTransform`, and the destructor are left out. The callback's outputs are values instead.
- Logging. `ROS_WARN_THROTTLE`, `ROS_ERROR`, `ROS_INFO_STREAM` and the `ROS_DEBUG` dumps of transforms are left out. They have no effect on outputs.
- Image conversion. `cv_bridge::toCvCopy` and `cvtColor` are left out. The image carries a `convertible` flag, and an exception is the `ConversionFailed` drop.
- The AprilTags library. `extractTags` is a parameter: the callback receives its detections. `getRelativeTransform` and `detection.draw` are symbolic (`Geometry.Relative`, the `drawn` list).
- Floating-point geometry. The Eigen quaternion extraction, the pose/tf message conversions and tf multiplication are term constructors. Because of this, the reprojection round trip of a reconstructed pose, the inverse-composition law and quaternion normalisation are not stated.
- tf listener internals. `canTransform` and `lookupTransform` are uninterpreted functions of the frame pair. The query time is always "latest".
- `ROS_ASSERT` type checks in `parse_tag_descriptions`. Entries are typed (`TagEntry`). A value whose XmlRpc conversion throws is the single `Malformed` parameter, which yields an empty catalog.
- The tag codes handed to the detector. Only the chosen family is recorded.
- Integer and real widths. Ids and stamps are unbounded `int` and sizes and camera entries are `real`. Ids are only compared and printed, so no wrap-around applies.
- The `message_filters` synchronisation members of the header (apriltags_ros/include/apriltags_ros/apriltag_detector.h:23-26, 55-57). They are unused.
