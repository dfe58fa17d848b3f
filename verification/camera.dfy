/** Choice of the focal lengths and principal point out of a camera-info record. */
module Camera {
  import opened Geometry

  /** The 3x3 intrinsic matrix K, row-major. */
  type Intrinsics = k: seq<real> | |k| == 9 witness [0.0, 0.0, 0.0, 0.0, 0.0, 0.0, 0.0, 0.0, 0.0]

  /** The 3x4 projection matrix P, row-major. */
  type Projection = p: seq<real> | |p| == 12
    witness [0.0, 0.0, 0.0, 0.0, 0.0, 0.0, 0.0, 0.0, 0.0, 0.0, 0.0, 0.0]

  /** The calibration fields of a camera-info message. */
  datatype CameraInfo = CameraInfo(k: Intrinsics, p: Projection)

  /** The entry at `row`, `col` of a row-major matrix with `cols` columns. */
  function Entry(m: seq<real>, cols: nat, row: nat, col: nat): real
    requires col < cols && row * cols + col < |m|
  {
    m[row * cols + col]
  }

  /**
   * The parameters the detector hands to pose reconstruction: from P when
   * `projected` is set, otherwise from K. Either way fx and fy are the
   * diagonal entries of the first two rows and (px, py) the principal point
   * in the third column.
   */
  function SelectCameraParams(info: CameraInfo, projected: bool): (c: CameraParams)
    ensures projected ==> c == CameraParams(Entry(info.p, 4, 0, 0), Entry(info.p, 4, 1, 1),
                                            Entry(info.p, 4, 0, 2), Entry(info.p, 4, 1, 2))
    ensures !projected ==> c == CameraParams(Entry(info.k, 3, 0, 0), Entry(info.k, 3, 1, 1),
                                             Entry(info.k, 3, 0, 2), Entry(info.k, 3, 1, 2))
  {
    if projected then
      CameraParams(info.p[0], info.p[5], info.p[2], info.p[6])
    else
      CameraParams(info.k[0], info.k[4], info.k[2], info.k[5])
  }

  /** Each mode reads only its own matrix. */
  lemma SelectionReadsOneMatrix(a: CameraInfo, b: CameraInfo, projected: bool)
    requires projected ==> a.p == b.p
    requires !projected ==> a.k == b.k
    ensures SelectCameraParams(a, projected) == SelectCameraParams(b, projected)
  {
  }

  /** When P's left 3x3 block is K, the two modes agree. */
  lemma ModesAgreeWhenProjectionExtendsIntrinsics(info: CameraInfo)
    requires forall r, c :: 0 <= r < 3 && 0 <= c < 3 ==> Entry(info.p, 4, r, c) == Entry(info.k, 3, r, c)
    ensures SelectCameraParams(info, true) == SelectCameraParams(info, false)
  {
    assert Entry(info.p, 4, 0, 0) == Entry(info.k, 3, 0, 0);
    assert Entry(info.p, 4, 1, 1) == Entry(info.k, 3, 1, 1);
    assert Entry(info.p, 4, 0, 2) == Entry(info.k, 3, 0, 2);
    assert Entry(info.p, 4, 1, 2) == Entry(info.k, 3, 1, 2);
  }
}
