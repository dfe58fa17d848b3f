/** The frame-lookup service, as the detector consults it. */
module Tf {
  import opened Wrappers
  import opened Geometry

  /**
   * A snapshot of the transform listener: whether a transform between two
   * frames is known, and the lookup itself, which may throw. Both are asked
   * about the latest available time, never about a particular stamp.
   */
  datatype TfListener = TfListener(
    canTransform: (string, string) -> bool,
    lookupTransform: (string, string) -> Result<Transform, string>)

  /**
   * The transform taking `source` coordinates to `target` coordinates, or
   * None when the listener cannot provide it or its lookup throws.
   */
  function GetTransform(tf: TfListener, target: string, source: string): (r: Option<Transform>)
    ensures r.Some? <==> tf.canTransform(target, source) && tf.lookupTransform(target, source).Success?
    ensures r.Some? ==> tf.lookupTransform(target, source) == Success(r.value)
  {
    if tf.canTransform(target, source) then
      match tf.lookupTransform(target, source)
      case Success(t) => Some(t)
      case Failure(_) => None
    else
      None
  }
}
