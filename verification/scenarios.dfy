/** Concrete frames: one cataloged tag 5 seen by a 600-pixel camera, and an uncataloged tag 9. */
module Scenarios {
  import opened Wrappers
  import opened Geometry
  import opened Camera
  import opened Catalog
  import opened Tf
  import opened Detector

  const K: Intrinsics := [600.0, 0.0, 320.0, 0.0, 600.0, 240.0, 0.0, 0.0, 1.0]
  const P: Projection := [600.0, 0.0, 320.0, 0.0, 0.0, 600.0, 240.0, 0.0, 0.0, 0.0, 1.0, 0.0]

  /** A node with only tag 5 (size 0.2, no frame given), raw intrinsics, no frame overrides, enabled. */
  function Tag5Node(): Node {
    NewDetector(Params(Entries([TagEntry(5, 0.2, None)]), None, None, None, None, Some(true)))
  }

  lemma Tag5Catalog()
    ensures Tag5Node().catalog == map[5 := Description(5, 0.2, "tag_5")]
    ensures Tag5Node().enabled && !Tag5Node().projectedOptics
    ensures Tag5Node().sensorFrameId == "" && Tag5Node().outputFrameId == ""
  {
    var es := [TagEntry(5, 0.2, None)];
    assert es[..0] == [];
    assert Describe(es[0]).frameName == "tag_5";
  }

  /** Tag 5 in view: one record, one pose, one broadcast "tag_5" in the camera frame. */
  lemma CatalogedTagPublished(corners: Corners, tf: TfListener)
    ensures var r := ImageCb(Tag5Node(), Image(Header(7, "camera"), true), CameraInfo(K, P),
                             [RawDetection(5, corners)], tf);
            var pose := Reconstruct(corners, 0.2, CameraParams(600.0, 600.0, 320.0, 240.0));
            && r.Published?
            && r.detections == [Record(5, 0.2, PoseStamped(Header(7, "camera"), pose))]
            && r.poseArray == PoseArray(Header(7, "camera"), [pose])
            && r.broadcasts == [Broadcast(ToTransform(pose), 7, "camera", "tag_5")]
            && r.image == AnnotatedImage(Header(7, "camera"), [RawDetection(5, corners)])
  {
    Tag5Catalog();
    var dets := [RawDetection(5, corners)];
    assert dets[..0] == [];
    var r := ImageCb(Tag5Node(), Image(Header(7, "camera"), true), CameraInfo(K, P), dets, tf);
    assert Retained(Tag5Node().catalog, dets) == dets;
    assert TagOutput(Tag5Node().catalog, CameraParams(600.0, 600.0, 320.0, 240.0), None, Header(7, "camera"),
                     dets[0], r.detections[0], r.poseArray.poses[0], r.broadcasts[0]);
  }

  /** Only tag 9 in view: empty batches, no broadcast, but the image is still published. */
  lemma UncatalogedTagSkipped(corners: Corners, tf: TfListener)
    ensures var r := ImageCb(Tag5Node(), Image(Header(7, "camera"), true), CameraInfo(K, P),
                             [RawDetection(9, corners)], tf);
            && r.Published?
            && r.detections == []
            && r.poseArray == PoseArray(Header(7, "camera"), [])
            && r.broadcasts == []
            && r.image == AnnotatedImage(Header(7, "camera"), [])
  {
    Tag5Catalog();
    var dets := [RawDetection(9, corners)];
    assert dets[..0] == [];
    assert Retained(Tag5Node().catalog, dets) == [];
  }

  /** With an output frame whose transform is unknown, the whole frame is dropped. */
  lemma UnreachableOutputFrameDropsFrame(corners: Corners)
    ensures var n := Tag5Node().(outputFrameId := "map");
            var tf := TfListener((a, b) => false, (a, b) => Failure("no transform"));
            ImageCb(n, Image(Header(7, "camera"), true), CameraInfo(K, P), [RawDetection(5, corners)], tf)
              == Dropped(TransformUnavailable)
  {
  }

  /** With an output frame that resolves, the header and broadcast parent become the output frame. */
  lemma ReachableOutputFrameRelabels(corners: Corners)
    ensures var n := Tag5Node().(outputFrameId := "map");
            var t := Observed(1);
            var tf := TfListener((a, b) => true, (a, b) => Success(t));
            var r := ImageCb(n, Image(Header(7, "camera"), true), CameraInfo(K, P), [RawDetection(5, corners)], tf);
            var pose := Compose(t, Reconstruct(corners, 0.2, CameraParams(600.0, 600.0, 320.0, 240.0)));
            && r.Published?
            && r.poseArray == PoseArray(Header(7, "map"), [pose])
            && r.broadcasts == [Broadcast(Product(t, Relative(corners, 0.2, CameraParams(600.0, 600.0, 320.0, 240.0))), 7, "map", "tag_5")]
            && r.image.header == Header(7, "camera")
  {
    Tag5Catalog();
    var n := Tag5Node().(outputFrameId := "map");
    var t := Observed(1);
    var tf := TfListener((a, b) => true, (a, b) => Success(t));
    var image := Image(Header(7, "camera"), true);
    assert OutputTransform(n, image, tf) == Some(t);
    var dets := [RawDetection(5, corners)];
    assert dets[..0] == [];
    var r := ImageCb(n, image, CameraInfo(K, P), dets, tf);
    assert Retained(n.catalog, dets) == dets;
    assert TagOutput(n.catalog, CameraParams(600.0, 600.0, 320.0, 240.0), Some(t), Header(7, "map"),
                     dets[0], r.detections[0], r.poseArray.poses[0], r.broadcasts[0]);
  }
}
