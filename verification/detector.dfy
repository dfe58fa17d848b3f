/**
 * The AprilTag detector node: its configuration, the enable toggle, and the
 * per-frame callback that filters detections against the catalog, turns
 * each known tag into a pose, optionally re-expresses it in an output frame,
 * and publishes the batch.
 */
module Detector {
  import opened Wrappers
  import opened Geometry
  import opened Camera
  import opened Family
  import opened Catalog
  import opened Tf

  /** A message header: a time stamp and the frame its contents are expressed in. */
  datatype Header = Header(stamp: int, frameId: string)

  /** One tag the external detector found in the gray image: its id and corners. */
  datatype RawDetection = RawDetection(id: int, corners: Corners)

  /** An incoming image, reduced to its header and whether it converts to BGR8. */
  datatype Image = Image(header: Header, convertible: bool)

  datatype PoseStamped = PoseStamped(header: Header, pose: Pose)

  /** One entry of the published detection array. */
  datatype Record = Record(id: int, size: real, pose: PoseStamped)

  datatype PoseArray = PoseArray(header: Header, poses: seq<Pose>)

  /** A named frame sent to the transform broadcaster: `child` placed in `parent`. */
  datatype Broadcast = Broadcast(transform: Transform, stamp: int, parent: string, child: string)

  /** The published copy of the image, with the outlines of `drawn` painted on it. */
  datatype AnnotatedImage = AnnotatedImage(header: Header, drawn: seq<RawDetection>)

  datatype DropCause = Disabled | ConversionFailed | TransformUnavailable

  /** What one call of the image callback produces. */
  datatype Outcome =
    | Dropped(cause: DropCause)
    | Published(detections: seq<Record>, poseArray: PoseArray, broadcasts: seq<Broadcast>, image: AnnotatedImage)

  /** The node's private parameters, each None when it is not set. */
  datatype Params = Params(
    tagDescriptions: TagParam,
    sensorFrameId: Option<string>,
    outputFrameId: Option<string>,
    tagFamily: Option<string>,
    projectedOptics: Option<bool>,
    startEnabled: Option<bool>)

  /** The state of a detector node; only `enabled` ever changes after construction. */
  datatype Node = Node(
    catalog: Descriptions,
    sensorFrameId: string,
    outputFrameId: string,
    family: TagFamily,
    projectedOptics: bool,
    enabled: bool)

  /** The node as its constructor leaves it. */
  function NewDetector(p: Params): (n: Node)
    ensures WellKeyed(n.catalog)
    ensures !p.tagDescriptions.Entries? ==> n.catalog == map[]
    ensures p.tagDescriptions.Entries? ==> BuiltFrom(p.tagDescriptions.entries, n.catalog)
    ensures n.sensorFrameId == if p.sensorFrameId.Some? then p.sensorFrameId.value else ""
    ensures n.outputFrameId == if p.outputFrameId.Some? then p.outputFrameId.value else ""
    ensures p.tagFamily.None? ==> n.family == Tag36h11
    ensures p.tagFamily.Some? ==> forall g :: FamilyName(g) == p.tagFamily.value ==> n.family == g
    ensures p.tagFamily.Some? && n.family != Tag36h11 ==> FamilyName(n.family) == p.tagFamily.value
    ensures n.projectedOptics <==> p.projectedOptics == Some(true)
    ensures n.enabled <==> p.startEnabled == Some(true)
  {
    var catalog := LoadCatalog(p.tagDescriptions);
    var family := FamilyFromName(p.tagFamily.GetOr("36h11"));
    assert p.tagFamily.Some? ==> forall g :: FamilyName(g) == p.tagFamily.value ==> family == g;
    Node(catalog, p.sensorFrameId.GetOr(""), p.outputFrameId.GetOr(""), family,
         p.projectedOptics.GetOr(false), p.startEnabled.GetOr(false))
  }

  /** The enable callback: sets the flag and nothing else. */
  function EnableCb(n: Node, flag: bool): (m: Node)
    ensures m.enabled == flag
    ensures m.(enabled := n.enabled) == n
  {
    n.(enabled := flag)
  }

  /** The image header after the sensor-frame override, if one is configured. */
  function SensorHeader(n: Node, image: Image): (h: Header)
    ensures h.stamp == image.header.stamp
    ensures n.sensorFrameId != "" ==> h.frameId == n.sensorFrameId
    ensures n.sensorFrameId == "" ==> h == image.header
  {
    if n.sensorFrameId != "" then image.header.(frameId := n.sensorFrameId) else image.header
  }

  /** A camera-relative pose, re-expressed through `rebase` when there is one. */
  function Rebase(rebase: Option<Transform>, p: Pose): (q: Pose)
    ensures rebase.None? ==> q == p
    ensures rebase.Some? ==> ToTransform(q) == Product(rebase.value, ToTransform(p))
  {
    match rebase
    case None => p
    case Some(t) => Compose(t, p)
  }

  /** The detections whose id the catalog knows, in their original order. */
  function Retained(catalog: Descriptions, dets: seq<RawDetection>): (kept: seq<RawDetection>)
    ensures forall d :: d in kept <==> d in dets && d.id in catalog
    ensures |kept| <= |dets|
    decreases |dets|
  {
    if |dets| == 0 then []
    else
      var pre := dets[..|dets| - 1];
      var d := dets[|dets| - 1];
      assert dets == pre + [d];
      if d.id in catalog then Retained(catalog, pre) + [d] else Retained(catalog, pre)
  }

  /**
   * What the callback emits for one known detection `d`: the record, its
   * pose and the broadcast frame, all under `header`.
   */
  ghost predicate TagOutput(catalog: Descriptions, cam: CameraParams, rebase: Option<Transform>, header: Header,
                            d: RawDetection, rec: Record, pose: Pose, bc: Broadcast)
  {
    && d.id in catalog
    && pose == Rebase(rebase, Reconstruct(d.corners, catalog[d.id].size, cam))
    && rec == Record(d.id, catalog[d.id].size, PoseStamped(header, pose))
    && bc == Broadcast(ToTransform(pose), header.stamp, header.frameId, catalog[d.id].frameName)
  }

  /**
   * The four per-frame outputs are aligned one to one with the retained
   * detections, and entry `i` of each is the output for retained detection `i`.
   */
  ghost predicate Assembled(catalog: Descriptions, cam: CameraParams, rebase: Option<Transform>, header: Header,
                            dets: seq<RawDetection>, records: seq<Record>, poses: seq<Pose>,
                            broadcasts: seq<Broadcast>, drawn: seq<RawDetection>)
  {
    var kept := Retained(catalog, dets);
    && drawn == kept
    && |records| == |kept| && |poses| == |kept| && |broadcasts| == |kept|
    && forall i :: 0 <= i < |kept| ==> TagOutput(catalog, cam, rebase, header, kept[i], records[i], poses[i], broadcasts[i])
  }

  /** The outputs accumulated by the detection loop. */
  datatype Batch = Batch(records: seq<Record>, poses: seq<Pose>, broadcasts: seq<Broadcast>, drawn: seq<RawDetection>)

  /** The detection loop of the callback, run over `dets` in order. */
  function Assemble(catalog: Descriptions, cam: CameraParams, rebase: Option<Transform>, header: Header,
                    dets: seq<RawDetection>): (b: Batch)
    ensures Assembled(catalog, cam, rebase, header, dets, b.records, b.poses, b.broadcasts, b.drawn)
    decreases |dets|
  {
    if |dets| == 0 then Batch([], [], [], [])
    else
      var pre := dets[..|dets| - 1];
      var d := dets[|dets| - 1];
      var b0 := Assemble(catalog, cam, rebase, header, pre);
      if d.id !in catalog then
        b0
      else
        var desc := catalog[d.id];
        var pose := Rebase(rebase, Reconstruct(d.corners, desc.size, cam));
        var rec := Record(d.id, desc.size, PoseStamped(header, pose));
        var bc := Broadcast(ToTransform(pose), header.stamp, header.frameId, desc.frameName);
        Batch(b0.records + [rec], b0.poses + [pose], b0.broadcasts + [bc], b0.drawn + [d])
  }

  /** The transform to rebase with: looked up only when an output frame is configured. */
  function OutputTransform(n: Node, image: Image, tf: TfListener): (r: Option<Transform>)
    ensures var source := SensorHeader(n, image).frameId;
            r.Some? <==> n.outputFrameId != "" && tf.canTransform(n.outputFrameId, source)
                         && tf.lookupTransform(n.outputFrameId, source).Success?
    ensures r.Some? ==> tf.lookupTransform(n.outputFrameId, SensorHeader(n, image).frameId) == Success(r.value)
  {
    if n.outputFrameId == "" then None
    else GetTransform(tf, n.outputFrameId, SensorHeader(n, image).frameId)
  }

  /**
   * The image callback. `dets` is what the external tag detector extracted
   * from the gray image and `tf` the transform listener at this moment.
   */
  function ImageCb(n: Node, image: Image, info: CameraInfo, dets: seq<RawDetection>, tf: TfListener): (r: Outcome)
    ensures r.Dropped? <==>
              || !n.enabled
              || !image.convertible
              || (n.outputFrameId != "" && GetTransform(tf, n.outputFrameId, SensorHeader(n, image).frameId).None?)
    ensures r == Dropped(Disabled) <==> !n.enabled
    ensures r == Dropped(ConversionFailed) <==> n.enabled && !image.convertible
    ensures r.Published? ==>
              && r.poseArray.header.stamp == image.header.stamp
              && r.poseArray.header.frameId ==
                   (if n.outputFrameId != "" then n.outputFrameId
                    else if n.sensorFrameId != "" then n.sensorFrameId
                    else image.header.frameId)
              && r.image.header == SensorHeader(n, image)
    ensures r.Published? ==>
              Assembled(n.catalog, SelectCameraParams(info, n.projectedOptics), OutputTransform(n, image, tf),
                        r.poseArray.header, dets, r.detections, r.poseArray.poses, r.broadcasts, r.image.drawn)
  {
    if !n.enabled then Dropped(Disabled)
    else if !image.convertible then Dropped(ConversionFailed)
    else
      var cam := SelectCameraParams(info, n.projectedOptics);
      var sensor := SensorHeader(n, image);
      var rebase := OutputTransform(n, image, tf);
      if n.outputFrameId != "" && rebase.None? then Dropped(TransformUnavailable)
      else
        var header := if rebase.Some? then sensor.(frameId := n.outputFrameId) else sensor;
        var b := Assemble(n.catalog, cam, rebase, header, dets);
        Published(b.records, PoseArray(header, b.poses), b.broadcasts, AnnotatedImage(sensor, b.drawn))
  }
}
