/** Properties of the detector's per-frame callback, relating several calls or inputs. */
module DetectorProperties {
  import opened Wrappers
  import opened Geometry
  import opened Camera
  import opened Catalog
  import opened Tf
  import opened Detector

  /** Filtering distributes over concatenation, so retained detections keep their input order. */
  lemma {:induction false} RetainedAppend(catalog: Descriptions, a: seq<RawDetection>, b: seq<RawDetection>)
    ensures Retained(catalog, a + b) == Retained(catalog, a) + Retained(catalog, b)
    decreases |b|
  {
    if |b| == 0 {
      assert a + b == a;
    } else {
      var pre := b[..|b| - 1];
      var x := b[|b| - 1];
      assert b == pre + [x];
      assert a + b == (a + pre) + [x];
      assert (a + b)[..|a + b| - 1] == a + pre;
      RetainedAppend(catalog, a, pre);
    }
  }

  /** Each known detection is kept as often as it occurs; each unknown one never. */
  lemma {:induction false} RetainedMultiplicity(catalog: Descriptions, dets: seq<RawDetection>, d: RawDetection)
    ensures multiset(Retained(catalog, dets))[d] == if d.id in catalog then multiset(dets)[d] else 0
    decreases |dets|
  {
    if |dets| > 0 {
      var pre := dets[..|dets| - 1];
      var x := dets[|dets| - 1];
      assert dets == pre + [x];
      RetainedMultiplicity(catalog, pre, d);
    }
  }

  /** The per-frame outputs are determined by the retained detections alone. */
  lemma AssembledUnique(catalog: Descriptions, cam: CameraParams, rebase: Option<Transform>, header: Header,
                        dets1: seq<RawDetection>, dets2: seq<RawDetection>, b1: Batch, b2: Batch)
    requires Retained(catalog, dets1) == Retained(catalog, dets2)
    requires Assembled(catalog, cam, rebase, header, dets1, b1.records, b1.poses, b1.broadcasts, b1.drawn)
    requires Assembled(catalog, cam, rebase, header, dets2, b2.records, b2.poses, b2.broadcasts, b2.drawn)
    ensures b1 == b2
  {
    var kept := Retained(catalog, dets1);
    forall i | 0 <= i < |kept|
      ensures b1.records[i] == b2.records[i] && b1.poses[i] == b2.poses[i] && b1.broadcasts[i] == b2.broadcasts[i]
    {
      assert TagOutput(catalog, cam, rebase, header, kept[i], b1.records[i], b1.poses[i], b1.broadcasts[i]);
      assert TagOutput(catalog, cam, rebase, header, kept[i], b2.records[i], b2.poses[i], b2.broadcasts[i]);
    }
  }

  /**
   * A detection whose id is not in the catalog changes nothing: the frame's
   * outcome is the same as if it had not been detected.
   */
  lemma UnknownDetectionIgnored(n: Node, image: Image, info: CameraInfo, tf: TfListener,
                                a: seq<RawDetection>, u: RawDetection, b: seq<RawDetection>)
    requires u.id !in n.catalog
    ensures ImageCb(n, image, info, a + [u] + b, tf) == ImageCb(n, image, info, a + b, tf)
  {
    RetainedAppend(n.catalog, a + [u], b);
    RetainedAppend(n.catalog, a, [u]);
    RetainedAppend(n.catalog, a, b);
    assert Retained(n.catalog, [u]) == [] by {
      assert [u][..0] == [];
    }
    var r1 := ImageCb(n, image, info, a + [u] + b, tf);
    var r2 := ImageCb(n, image, info, a + b, tf);
    if r1.Published? {
      var cam := SelectCameraParams(info, n.projectedOptics);
      var rebase := OutputTransform(n, image, tf);
      var header := r1.poseArray.header;
      AssembledUnique(n.catalog, cam, rebase, header, a + [u] + b, a + b,
                      Batch(r1.detections, r1.poseArray.poses, r1.broadcasts, r1.image.drawn),
                      Batch(r2.detections, r2.poseArray.poses, r2.broadcasts, r2.image.drawn));
    }
  }

  /** Without an output frame the listener is never consulted and no pose is rebased. */
  lemma ListenerIrrelevantWithoutOutputFrame(n: Node, image: Image, info: CameraInfo, dets: seq<RawDetection>,
                                             tf1: TfListener, tf2: TfListener)
    requires n.outputFrameId == ""
    ensures ImageCb(n, image, info, dets, tf1) == ImageCb(n, image, info, dets, tf2)
    ensures OutputTransform(n, image, tf1) == None
  {
  }

  /**
   * With an output frame, every published pose is the looked-up transform
   * multiplied on the LEFT of the camera-relative tag transform, and each
   * broadcast carries that same product.
   */
  lemma RebasedPosesComposeOnLeft(n: Node, image: Image, info: CameraInfo, dets: seq<RawDetection>, tf: TfListener)
    requires n.outputFrameId != ""
    requires ImageCb(n, image, info, dets, tf).Published?
    ensures var r := ImageCb(n, image, info, dets, tf);
            var t := GetTransform(tf, n.outputFrameId, SensorHeader(n, image).frameId);
            var kept := Retained(n.catalog, dets);
            var cam := SelectCameraParams(info, n.projectedOptics);
            && t.Some?
            && forall i :: 0 <= i < |kept| ==>
                 && ToTransform(r.poseArray.poses[i]) == Product(t.value, Relative(kept[i].corners, n.catalog[kept[i].id].size, cam))
                 && r.broadcasts[i].transform == ToTransform(r.poseArray.poses[i])
  {
    var r := ImageCb(n, image, info, dets, tf);
    var kept := Retained(n.catalog, dets);
    var cam := SelectCameraParams(info, n.projectedOptics);
    forall i | 0 <= i < |kept|
      ensures TagOutput(n.catalog, cam, OutputTransform(n, image, tf), r.poseArray.header,
                        kept[i], r.detections[i], r.poseArray.poses[i], r.broadcasts[i])
    {
    }
  }

  /** The side effects the callback performs, in order. */
  datatype Effect =
    | SendTransform(broadcast: Broadcast)
    | PublishDetections(detections: seq<Record>)
    | PublishPoses(poses: PoseArray)
    | PublishImage(image: AnnotatedImage)

  function Sends(bs: seq<Broadcast>): (es: seq<Effect>)
    ensures |es| == |bs|
    ensures forall i :: 0 <= i < |bs| ==> es[i] == SendTransform(bs[i])
  {
    if |bs| == 0 then [] else [SendTransform(bs[0])] + Sends(bs[1..])
  }

  /**
   * An outcome as effects: one broadcast per retained tag, sent inside the
   * loop, then the detection array, the pose array and the image.
   */
  function Effects(o: Outcome): (effects: seq<Effect>)
    ensures o.Dropped? <==> effects == []
    ensures o.Published? ==>
              && |effects| == |o.broadcasts| + 3
              && (forall i :: 0 <= i < |o.broadcasts| ==> effects[i] == SendTransform(o.broadcasts[i]))
              && effects[|o.broadcasts|..] == [PublishDetections(o.detections), PublishPoses(o.poseArray), PublishImage(o.image)]
  {
    match o
    case Dropped(_) => []
    case Published(records, poses, broadcasts, image) =>
      Sends(broadcasts) + [PublishDetections(records), PublishPoses(poses), PublishImage(image)]
  }

  /** The four kinds of effect, one per publisher. */
  datatype Channel = TfChannel | DetectionsChannel | PosesChannel | ImageChannel

  function ChannelOf(e: Effect): Channel {
    match e
    case SendTransform(_) => TfChannel
    case PublishDetections(_) => DetectionsChannel
    case PublishPoses(_) => PosesChannel
    case PublishImage(_) => ImageChannel
  }

  /** How many of the effects go out on channel `c`. */
  function Count(es: seq<Effect>, c: Channel): nat {
    if |es| == 0 then 0 else (if ChannelOf(es[0]) == c then 1 else 0) + Count(es[1..], c)
  }

  lemma {:induction false} CountAppend(a: seq<Effect>, b: seq<Effect>, c: Channel)
    ensures Count(a + b, c) == Count(a, c) + Count(b, c)
    decreases |a|
  {
    if |a| == 0 {
      assert a + b == b;
    } else {
      assert (a + b)[1..] == a[1..] + b;
      CountAppend(a[1..], b, c);
    }
  }

  lemma {:induction false} CountSends(bs: seq<Broadcast>, c: Channel)
    ensures Count(Sends(bs), c) == if c == TfChannel then |bs| else 0
    decreases |bs|
  {
    if |bs| > 0 {
      assert Sends(bs)[1..] == Sends(bs[1..]);
      CountSends(bs[1..], c);
    }
  }

  /** The three publishes go out once each, on their own channels. */
  lemma CountPublishes(records: seq<Record>, poses: PoseArray, image: AnnotatedImage, c: Channel)
    ensures Count([PublishDetections(records), PublishPoses(poses), PublishImage(image)], c)
            == if c == TfChannel then 0 else 1
  {
    var tail := [PublishDetections(records), PublishPoses(poses), PublishImage(image)];
    var t1, t2 := tail[1..], tail[2..];
    assert t1[1..] == t2 && t2[1..] == [];
    assert Count(t2, c) == (if c == ImageChannel then 1 else 0);
    assert Count(t1, c) == (if c == ImageChannel || c == PosesChannel then 1 else 0);
  }

  /**
   * Once a frame passes its gates, each of the three publishers fires exactly
   * once, after one broadcast per retained detection, even when none was
   * retained; a dropped frame has no effect at all.
   */
  lemma PublishersFireOncePerFrame(n: Node, image: Image, info: CameraInfo, dets: seq<RawDetection>, tf: TfListener)
    ensures var r := ImageCb(n, image, info, dets, tf);
            var effects := Effects(r);
            && (r.Dropped? ==> effects == [])
            && (forall c :: c != TfChannel ==> Count(effects, c) == if r.Published? then 1 else 0)
            && Count(effects, TfChannel) == (if r.Published? then |Retained(n.catalog, dets)| else 0)
  {
    var r := ImageCb(n, image, info, dets, tf);
    if r.Published? {
      var tail := [PublishDetections(r.detections), PublishPoses(r.poseArray), PublishImage(r.image)];
      assert Effects(r) == Sends(r.broadcasts) + tail;
      forall c: Channel ensures Count(Effects(r), c) == (if c == TfChannel then |r.broadcasts| else 1) {
        CountAppend(Sends(r.broadcasts), tail, c);
        CountSends(r.broadcasts, c);
        CountPublishes(r.detections, r.poseArray, r.image, c);
      }
    }
  }
}
