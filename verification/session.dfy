/**
 * A detector node over time: the callbacks it receives, one after another
 * (the node is single-threaded, so each runs to completion before the next).
 */
module Session {
  import opened Camera
  import opened Tf
  import opened Detector
  import opened DetectorProperties

  /** One callback invocation. */
  datatype Event =
    | ImageArrives(image: Image, info: CameraInfo, dets: seq<RawDetection>, tf: TfListener)
    | EnableArrives(flag: bool)

  /** The node after a run of events, and every effect the run performed. */
  datatype Trace = Trace(node: Node, effects: seq<Effect>)

  function Step(n: Node, ev: Event): Trace {
    match ev
    case ImageArrives(image, info, dets, tf) => Trace(n, Effects(ImageCb(n, image, info, dets, tf)))
    case EnableArrives(flag) => Trace(EnableCb(n, flag), [])
  }

  /** The enable flag after `evs`, starting from `init`: the value of the last enable message, if any. */
  function FinalFlag(init: bool, evs: seq<Event>): bool
    decreases |evs|
  {
    if |evs| == 0 then init
    else if evs[|evs| - 1].EnableArrives? then evs[|evs| - 1].flag
    else FinalFlag(init, evs[..|evs| - 1])
  }

  /** Reading the flag from the back agrees with applying the first event and reading the rest. */
  lemma {:induction false} FinalFlagFirst(init: bool, evs: seq<Event>)
    requires |evs| > 0
    ensures FinalFlag(init, evs)
            == FinalFlag(if evs[0].EnableArrives? then evs[0].flag else init, evs[1..])
    decreases |evs|
  {
    if |evs| > 1 {
      var pre := evs[..|evs| - 1];
      assert pre[0] == evs[0];
      assert evs[1..][..|evs[1..]| - 1] == pre[1..];
      FinalFlagFirst(init, pre);
    }
  }

  /**
   * The events handled in order. Only the enable flag is state: the catalog
   * and the configuration are never changed by a frame or a toggle.
   */
  function Run(n: Node, evs: seq<Event>): (t: Trace)
    ensures t.node.(enabled := n.enabled) == n
    ensures (forall i :: 0 <= i < |evs| ==> !evs[i].EnableArrives?) ==> t.node == n
    ensures t.node.enabled == FinalFlag(n.enabled, evs)
    decreases |evs|
  {
    if |evs| == 0 then Trace(n, [])
    else
      var first := Step(n, evs[0]);
      var rest := Run(first.node, evs[1..]);
      FinalFlagFirst(n.enabled, evs);
      assert forall i :: 0 <= i < |evs| - 1 ==> evs[1..][i] == evs[i + 1];
      Trace(rest.node, first.effects + rest.effects)
  }

  /** A node that is disabled and never receives `enable: true` publishes nothing, whatever frames arrive. */
  lemma {:induction false} SilentWhileDisabled(n: Node, evs: seq<Event>)
    requires !n.enabled
    requires forall i :: 0 <= i < |evs| ==> !(evs[i].EnableArrives? && evs[i].flag)
    ensures Run(n, evs).effects == []
    ensures !Run(n, evs).node.enabled
    decreases |evs|
  {
    if |evs| > 0 {
      var first := Step(n, evs[0]);
      assert first.effects == [];
      assert forall i :: 0 <= i < |evs| - 1 ==> evs[1..][i] == evs[i + 1];
      SilentWhileDisabled(first.node, evs[1..]);
    }
  }
}
