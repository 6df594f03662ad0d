/**
 * SpatialContext: the per-frame pose ledger that feeds the high-level policy,
 * and the arithmetic behind its bird's-eye map (keyframe positions relative to
 * the current pose, pixel scale, outlier rejection and keyframe hues).
 */
module Context {
  import opened Wrappers
  import opened Transforms
  import opened Seqs

  /** Joint angles of the arm, handed unchanged to forward kinematics. */
  type RobotState = seq<real>

  /** A keyframe's planar position (x, y) in the frame of the current pose. */
  datatype Point = Point(x: real, y: real)

  /** What _compute_map_layout returns: positions, pixels per metre and outlier ids. */
  datatype Layout = Layout(positions: map<int, Point>, scale: real, outliers: set<int>)

  datatype ContextError = FrameNotFound(frameId: int)

  /** Constructor defaults of the source. */
  const DefaultImageSize: int := 256
  const DefaultBorderSize: int := 8
  const DefaultOutlierStdThreshold: int := 5

  /** Default `margin` of _compute_scale, in pixels. */
  const DefaultMargin: int := 10

  /** The scale used when every point is at the origin, and for an empty map. */
  const DefaultScale: real := 50.0

  /** Distances and deviations below this count as zero. */
  const Epsilon: real := 0.000001

  /** Fewer keyframes than this are never tested for outliers. */
  const MinSamplesForOutlier: int := 5

  /** The selector of the ids other than `id`. */
  function NotId(id: int): int -> bool {
    x => x != id
  }

  /** np.sqrt(x**2 + y**2), with the square root a parameter. */
  function Distance(p: Point, sqrt: real -> real): real {
    sqrt(p.x * p.x + p.y * p.y)
  }

  /** The distance of each id's position, in the order of `ids`. */
  function Distances(ids: seq<int>, positions: map<int, Point>, sqrt: real -> real): (ds: seq<real>)
    requires forall i | 0 <= i < |ids| :: ids[i] in positions
    ensures |ds| == |ids|
    ensures forall i | 0 <= i < |ids| :: ds[i] == Distance(positions[ids[i]], sqrt)
  {
    seq(|ids|, i requires 0 <= i < |ids| => Distance(positions[ids[i]], sqrt))
  }

  /** np.mean. */
  function Mean(ds: seq<real>): real
    requires |ds| > 0
  {
    Sum(ds) / (|ds| as real)
  }

  /** The sum of (d - mean)^2 over ds. */
  function SquaredDeviationSum(ds: seq<real>, mean: real): real {
    if |ds| == 0 then 0.0 else (ds[0] - mean) * (ds[0] - mean) + SquaredDeviationSum(ds[1..], mean)
  }

  /** The population variance, whose square root is np.std. */
  function Variance(ds: seq<real>): real
    requires |ds| > 0
  {
    SquaredDeviationSum(ds, Mean(ds)) / (|ds| as real)
  }

  /** The distances of the ids that are not outliers, in order. */
  function InlierDistances(ids: seq<int>, ds: seq<real>, outliers: set<int>): (r: seq<real>)
    requires |ids| == |ds|
    ensures forall i | 0 <= i < |ids| && ids[i] !in outliers :: ds[i] in r
    ensures forall k | 0 <= k < |r| :: exists i | 0 <= i < |ids| :: ids[i] !in outliers && r[k] == ds[i]
  {
    if |ids| == 0 then []
    else
      var rest := InlierDistances(ids[1..], ds[1..], outliers);
      assert forall k | 0 <= k < |rest| :: exists i | 0 <= i < |ids| :: ids[i] !in outliers && rest[k] == ds[i] by {
        forall k | 0 <= k < |rest|
          ensures exists i | 0 <= i < |ids| :: ids[i] !in outliers && rest[k] == ds[i]
        {
          var i :| 0 <= i < |ids[1..]| && ids[1..][i] !in outliers && rest[k] == ds[1..][i];
          assert ids[i + 1] !in outliers && rest[k] == ds[i + 1];
        }
      }
      if ids[0] !in outliers then [ds[0]] + rest else rest
  }

  /** The id's position relative to `current`: compute_relative_pose, then the x and y of extract_displacement. */
  function RelativePosition(current: Matrix, pose: Mat4): (r: Result<Point, TransformError>)
    ensures r.Err? <==> (ComputeRelativePose(current, pose).Err?
                         || ExtractDisplacement(ComputeRelativePose(current, pose).value).Err?)
    ensures r.Ok? ==> (r.value.x == ComputeRelativePose(current, pose).value[0][3]
                       && r.value.y == ComputeRelativePose(current, pose).value[1][3])
  {
    var rel := ComputeRelativePose(current, pose);
    if rel.Err? then Err(rel.error)
    else
      var d := ExtractDisplacement(rel.value);
      if d.Err? then Err(d.error) else Ok(Point(d.value[0], d.value[1]))
  }

  /**
   * The positions dictionary _compute_map_layout builds by iterating the
   * keyframes in `ids` order, placing each pose with `place`; the first
   * failure raises.
   */
  function Positions<E>(ids: seq<int>, poses: map<int, Mat4>, place: Mat4 -> Result<Point, E>): (r: Result<map<int, Point>, E>)
    requires forall id | id in ids :: id in poses
    ensures r.Ok? ==> forall id :: id in r.value <==> id in ids
    ensures r.Ok? ==> forall id | id in r.value :: place(poses[id]) == Ok(r.value[id])
  {
    if |ids| == 0 then Ok(map[])
    else
      var last := ids[|ids| - 1];
      var front := ids[..|ids| - 1];
      assert forall id | id in front :: id in ids;
      var prefix := Positions(front, poses, place);
      if prefix.Err? then Err(prefix.error)
      else
        var p := place(poses[last]);
        if p.Err? then Err(p.error)
        else
          assert forall id :: id in ids <==> id in front || id == last;
          Ok(prefix.value[last := p.value])
  }

  /** The iteration fails exactly when some keyframe cannot be placed. */
  lemma {:induction false} PositionsFail<E>(ids: seq<int>, poses: map<int, Mat4>, place: Mat4 -> Result<Point, E>)
    requires forall id | id in ids :: id in poses
    ensures Positions(ids, poses, place).Err? <==> exists id | id in ids :: place(poses[id]).Err?
  {
    if |ids| > 0 {
      var front := ids[..|ids| - 1];
      assert forall id | id in front :: id in ids;
      PositionsFail(front, poses, place);
      assert forall id :: id in ids <==> id in front || id == ids[|ids| - 1];
    }
  }

  /** The first failing keyframe decides the error, whatever follows it. */
  lemma {:induction false} PositionsFirstError<E>(ids: seq<int>, n: nat, poses: map<int, Mat4>, place: Mat4 -> Result<Point, E>)
    requires n <= |ids| && forall id | id in ids :: id in poses
    requires forall id | id in ids[..n] :: id in poses
    requires Positions(ids[..n], poses, place).Err?
    ensures Positions(ids, poses, place) == Positions(ids[..n], poses, place)
    decreases |ids| - n
  {
    if n < |ids| {
      var front := ids[..|ids| - 1];
      assert front[..n] == ids[..n];
      assert forall id | id in front :: id in ids;
      PositionsFirstError(front, n, poses, place);
    } else {
      assert ids[..n] == ids;
    }
  }

  /** How _compute_map_layout places a keyframe pose relative to the current pose. */
  function Placement(current: Matrix): Mat4 -> Result<Point, TransformError> {
    (pose: Mat4) => RelativePosition(current, pose)
  }

  class SpatialContext {
    const relocalization: bool
    const imageSize: int
    const borderSize: int
    const outlierStdThreshold: int
    /** RobotArm.forward_kinematics: the end-effector pose in the robot frame. */
    const forwardKinematics: RobotState -> Mat4

    /** keyframe_poses, with the dictionary's insertion order kept in keyframeOrder. */
    var keyframePoses: map<int, Mat4>
    var keyframeOrder: seq<int>
    var allPoses: map<int, Mat4>
    var frameCount: int

    /**
     * Frames are numbered 0 .. frameCount - 1; every keyframe is a frame and
     * holds that frame's pose; keyframeOrder lists each keyframe id once.
     */
    ghost predicate Valid()
      reads this
    {
      && frameCount >= 0
      && (forall id :: id in allPoses <==> 0 <= id < frameCount)
      && (forall id | id in keyframePoses :: id in allPoses && keyframePoses[id] == allPoses[id])
      && Distinct(keyframeOrder)
      && (forall id :: id in keyframePoses <==> id in keyframeOrder)
    }

    constructor (forwardKinematics: RobotState -> Mat4, relocalization: bool := false,
                 imageSize: int := DefaultImageSize, borderSize: int := DefaultBorderSize,
                 outlierStdThreshold: int := DefaultOutlierStdThreshold)
      ensures Valid()
      ensures this.relocalization == relocalization && this.imageSize == imageSize
      ensures this.borderSize == borderSize && this.outlierStdThreshold == outlierStdThreshold
      ensures this.forwardKinematics == forwardKinematics
      ensures keyframePoses == map[] && keyframeOrder == [] && allPoses == map[] && frameCount == 0
    {
      this.relocalization := relocalization;
      this.imageSize := imageSize;
      this.borderSize := borderSize;
      this.outlierStdThreshold := outlierStdThreshold;
      this.forwardKinematics := forwardKinematics;
      keyframePoses := map[];
      keyframeOrder := [];
      allPoses := map[];
      frameCount := 0;
    }

    /** _compute_pose: the base pose (identity when absent) times the forward kinematics. */
    function ComputePose(state: RobotState, robotPose: Option<Mat4>): Mat4 {
      Mul(robotPose.GetOr(Identity), forwardKinematics(state))
    }

    /** Without a base pose from SLAM the camera pose is the forward-kinematics pose itself. */
    lemma ComputePoseWithoutBase(state: RobotState)
      ensures ComputePose(state, None) == forwardKinematics(state)
    {
      MulIdentity(forwardKinematics(state));
    }

    /** add_frame: hands out the next id and records the frame's pose under it. */
    method AddFrame(state: RobotState, robotPose: Option<Mat4>) returns (frameId: int)
      requires Valid()
      modifies this
      ensures Valid()
      ensures frameId == old(frameCount) && frameCount == old(frameCount) + 1
      ensures frameId !in old(allPoses)
      ensures allPoses == old(allPoses)[frameId := ComputePose(state, robotPose)]
      ensures keyframePoses == old(keyframePoses) && keyframeOrder == old(keyframeOrder)
    {
      frameId := frameCount;
      frameCount := frameCount + 1;
      var pose := ComputePose(state, robotPose);
      allPoses := allPoses[frameId := pose];
    }

    /** promote_to_keyframe: raises for an unknown frame, else copies the frame's pose. */
    method PromoteToKeyframe(frameId: int) returns (r: Outcome<ContextError>)
      requires Valid()
      modifies this
      ensures Valid()
      ensures r.Fail? <==> frameId !in allPoses
      ensures r.Fail? ==> r.error == FrameNotFound(frameId)
      ensures allPoses == old(allPoses) && frameCount == old(frameCount)
      ensures keyframePoses == if r.Pass? then old(keyframePoses)[frameId := allPoses[frameId]] else old(keyframePoses)
      ensures keyframeOrder == if r.Pass? && frameId !in old(keyframePoses) then old(keyframeOrder) + [frameId]
                               else old(keyframeOrder)
    {
      if frameId !in allPoses {
        return Fail(FrameNotFound(frameId));
      }
      if frameId !in keyframePoses {
        keyframeOrder := keyframeOrder + [frameId];
      }
      keyframePoses := keyframePoses[frameId := allPoses[frameId]];
      r := Pass;
    }

    /** remove_keyframe: drops the id if present and never raises. */
    method RemoveKeyframe(frameId: int)
      requires Valid()
      modifies this
      ensures Valid()
      ensures keyframePoses == old(keyframePoses) - {frameId}
      ensures keyframeOrder == Filter(old(keyframeOrder), NotId(frameId))
      ensures allPoses == old(allPoses) && frameCount == old(frameCount)
    {
      FilterDistinct(keyframeOrder, NotId(frameId));
      keyframePoses := keyframePoses - {frameId};
      keyframeOrder := Filter(keyframeOrder, NotId(frameId));
    }

    /**
     * get_current_pose: the identity before any frame, else the pose of the
     * largest frame id; ids are handed out densely, so that id is frameCount - 1.
     */
    function GetCurrentPose(): (p: Mat4)
      reads this
      requires Valid()
      ensures allPoses == map[] ==> p == Identity
      ensures allPoses != map[] ==> exists latest | latest in allPoses ::
                p == allPoses[latest] && forall id | id in allPoses :: id <= latest
    {
      if frameCount == 0 then
        assert allPoses == map[] by {
          assert forall id :: id !in allPoses;
        }
        Identity
      else
        assert frameCount - 1 in allPoses;
        allPoses[frameCount - 1]
    }

    /** (image_size - 2 * border_size) / 2 - margin: the usable radius of the canvas in pixels. */
    function UsableRadius(margin: int): real {
      ((imageSize - 2 * borderSize) as real) / 2.0 - (margin as real)
    }

    /** _compute_scale: pixels per metre so that `maxDist` lands on the usable radius. */
    function ComputeScale(maxDist: real, margin: int): (scale: real)
      ensures maxDist < Epsilon ==> scale == DefaultScale
      ensures maxDist >= Epsilon ==> scale * maxDist == UsableRadius(margin)
    {
      if maxDist < Epsilon then DefaultScale else UsableRadius(margin) / maxDist
    }

    /** With the default canvas (256 px, 8 px border, 10 px margin) the usable radius is 110 px. */
    lemma DefaultUsableRadius()
      requires imageSize == DefaultImageSize && borderSize == DefaultBorderSize
      ensures UsableRadius(DefaultMargin) == 110.0
    {
    }

    /** Every distance up to maxDist is drawn within the usable radius. */
    lemma ScaledDistanceFits(maxDist: real, d: real, margin: int)
      requires UsableRadius(margin) >= 0.0 && maxDist >= Epsilon && d <= maxDist
      ensures ComputeScale(maxDist, margin) * d <= UsableRadius(margin)
    {
      ScaleBound(UsableRadius(margin), maxDist, d);
    }

    /** The scale shrinks as the farthest distance grows, and stays positive. */
    lemma ScaleDecreasing(d1: real, d2: real, margin: int)
      requires UsableRadius(margin) > 0.0 && Epsilon <= d1 <= d2
      ensures 0.0 < ComputeScale(d2, margin) <= ComputeScale(d1, margin)
    {
      ScaleAntitone(UsableRadius(margin), d1, d2);
      ScalePositive(UsableRadius(margin), d2);
    }

    /**
     * The layout computed from the keyframe positions: empty without
     * keyframes, otherwise decided by their distances from the current pose.
     */
    function LayoutOf(ids: seq<int>, positions: map<int, Point>, sqrt: real -> real): Layout
      requires forall i | 0 <= i < |ids| :: ids[i] in positions
    {
      if |positions| == 0 then Layout(map[], DefaultScale, {})
      else DistanceLayout(ids, positions, Distances(ids, positions, sqrt), sqrt)
    }

    /**
     * No outlier test below five keyframes or for a near-zero deviation;
     * otherwise the ids farther than mean + k * std are outliers and the scale
     * fits the farthest inlier.
     */
    function DistanceLayout(ids: seq<int>, positions: map<int, Point>, ds: seq<real>, sqrt: real -> real): Layout
      requires |ds| == |ids|
    {
      if |ds| < MinSamplesForOutlier then
        Layout(positions, ComputeScale(if |ds| > 0 then Max(ds) else 1.0, DefaultMargin), {})
      else
        var std := sqrt(Variance(ds));
        if std < Epsilon then Layout(positions, ComputeScale(Max(ds), DefaultMargin), {})
        else OutlierLayout(ids, positions, ds, Mean(ds) + (outlierStdThreshold as real) * std)
    }

    /** The last case of DistanceLayout: reject the ids beyond `threshold` and fit the scale to the rest. */
    function OutlierLayout(ids: seq<int>, positions: map<int, Point>, ds: seq<real>, threshold: real): (l: Layout)
      requires |ds| == |ids| > 0
      ensures l.positions == positions && l.outliers == Outliers(ids, ds, threshold)
    {
      var outliers := Outliers(ids, ds, threshold);
      var inliers := InlierDistances(ids, ds, outliers);
      Layout(positions, ComputeScale(if |inliers| > 0 then Max(inliers) else Max(ds), DefaultMargin), outliers)
    }

    /** Without keyframes the layout is empty at the default scale. */
    lemma MapLayoutEmpty(current: Matrix, sqrt: real -> real)
      requires Valid() && keyframePoses == map[]
      ensures MapLayout(current, sqrt) == Ok(Layout(map[], DefaultScale, {}))
    {
      DistinctCard(keyframeOrder);
      forall x | x in Elements(keyframeOrder)
        ensures x in keyframePoses
      {
        assert x in keyframeOrder;
      }
      assert Elements(keyframeOrder) <= keyframePoses.Keys;
    }

    /** A layout holds exactly the keyframes, each at its position relative to the current pose. */
    lemma MapLayoutPositions(current: Matrix, sqrt: real -> real)
      requires Valid() && MapLayout(current, sqrt).Ok?
      ensures forall id :: id in MapLayout(current, sqrt).value.positions <==> id in keyframePoses
      ensures forall id | id in MapLayout(current, sqrt).value.positions ::
                RelativePosition(current, keyframePoses[id]) == Ok(MapLayout(current, sqrt).value.positions[id])
    {
      var ps := Positions(keyframeOrder, keyframePoses, Placement(current));
      LayoutKeepsPositions(keyframeOrder, ps.value, sqrt);
    }

    /** The layout keeps the positions it is given. */
    lemma LayoutKeepsPositions(ids: seq<int>, positions: map<int, Point>, sqrt: real -> real)
      requires forall i | 0 <= i < |ids| :: ids[i] in positions
      ensures LayoutOf(ids, positions, sqrt).positions == positions
    {
      if |positions| > 0 {
        var ds := Distances(ids, positions, sqrt);
        if |ds| >= MinSamplesForOutlier && sqrt(Variance(ds)) >= Epsilon {
          OutlierCase(ids, positions, ds, sqrt);
        }
      }
    }

    /** Below five keyframes, or with zero spread, nothing is an outlier and every position is kept. */
    lemma NoOutliersWithoutEvidence(ids: seq<int>, positions: map<int, Point>, ds: seq<real>, sqrt: real -> real)
      requires |ds| == |ids|
      requires |ids| < MinSamplesForOutlier || (|ids| > 0 && sqrt(Variance(ds)) < Epsilon)
      ensures DistanceLayout(ids, positions, ds, sqrt).outliers == {}
      ensures DistanceLayout(ids, positions, ds, sqrt).positions == positions
    {
    }

    /** Every outlier is a keyframe id. */
    lemma OutliersAreKeyframes(ids: seq<int>, positions: map<int, Point>, ds: seq<real>, sqrt: real -> real)
      requires |ds| == |ids|
      ensures forall id | id in DistanceLayout(ids, positions, ds, sqrt).outliers :: id in ids
    {
    }

    /**
     * The outlier test never rejects the nearest keyframe when k >= 0: the
     * threshold is at least the mean, which is at least the minimum distance.
     * ScaleFitsFarthestInlier builds on this.
     */
    lemma NearestIsInlier(ids: seq<int>, positions: map<int, Point>, ds: seq<real>, sqrt: real -> real, i: int)
      requires |ds| == |ids| && Consistent(ids, ds)
      requires outlierStdThreshold >= 0
      requires 0 <= i < |ids| && forall j | 0 <= j < |ds| :: ds[i] <= ds[j]
      ensures ids[i] !in DistanceLayout(ids, positions, ds, sqrt).outliers
    {
      if |ds| >= MinSamplesForOutlier && sqrt(Variance(ds)) >= Epsilon {
        MinimumNotOutlier(ids, ds, outlierStdThreshold as real, sqrt(Variance(ds)), i);
        InlierInOutlierCase(ids, positions, ds, sqrt, i);
      } else {
        NoOutliersWithoutEvidence(ids, positions, ds, sqrt);
      }
    }

    /** In the last case the outliers are those beyond mean + k * std. */
    lemma OutlierCase(ids: seq<int>, positions: map<int, Point>, ds: seq<real>, sqrt: real -> real)
      requires |ds| == |ids| >= MinSamplesForOutlier && sqrt(Variance(ds)) >= Epsilon
      ensures DistanceLayout(ids, positions, ds, sqrt).outliers
              == Outliers(ids, ds, Mean(ds) + (outlierStdThreshold as real) * sqrt(Variance(ds)))
    {
    }

    lemma InlierInOutlierCase(ids: seq<int>, positions: map<int, Point>, ds: seq<real>, sqrt: real -> real, i: int)
      requires |ds| == |ids| >= MinSamplesForOutlier && sqrt(Variance(ds)) >= Epsilon
      requires 0 <= i < |ids| && ids[i] !in Outliers(ids, ds, Mean(ds) + (outlierStdThreshold as real) * sqrt(Variance(ds)))
      ensures ids[i] !in DistanceLayout(ids, positions, ds, sqrt).outliers
    {
      OutlierCase(ids, positions, ds, sqrt);
    }

    /** Every outlier lies strictly farther out than every inlier. */
    lemma OutliersFartherThanInliers(ids: seq<int>, positions: map<int, Point>, ds: seq<real>, sqrt: real -> real, i: int, j: int)
      requires |ds| == |ids| && Consistent(ids, ds)
      requires 0 <= i < |ids| && 0 <= j < |ids|
      requires ids[i] in DistanceLayout(ids, positions, ds, sqrt).outliers
      requires ids[j] !in DistanceLayout(ids, positions, ds, sqrt).outliers
      ensures ds[i] > ds[j]
    {
      var threshold := Mean(ds) + (outlierStdThreshold as real) * sqrt(Variance(ds));
      OutlierIff(ids, ds, threshold, i);
      OutlierIff(ids, ds, threshold, j);
    }

    /** The distances LayoutOf hands on give one distance per id. */
    lemma DistancesConsistent(ids: seq<int>, positions: map<int, Point>, sqrt: real -> real)
      requires forall i | 0 <= i < |ids| :: ids[i] in positions
      ensures Consistent(ids, Distances(ids, positions, sqrt))
    {
    }

    /**
     * However the layout is decided, some id is an inlier and the scale is
     * fitted to the farthest inlier distance: the fallback to the farthest
     * distance of all in OutlierLayout is never taken.
     */
    lemma ScaleFitsFarthestInlier(ids: seq<int>, positions: map<int, Point>, ds: seq<real>, sqrt: real -> real)
      requires |ds| == |ids| > 0 && Consistent(ids, ds)
      requires outlierStdThreshold >= 0
      ensures |InlierDistances(ids, ds, DistanceLayout(ids, positions, ds, sqrt).outliers)| > 0
      ensures DistanceLayout(ids, positions, ds, sqrt).scale
              == ComputeScale(Max(InlierDistances(ids, ds, DistanceLayout(ids, positions, ds, sqrt).outliers)), DefaultMargin)
    {
      if |ds| >= MinSamplesForOutlier && sqrt(Variance(ds)) >= Epsilon {
        var threshold := Mean(ds) + (outlierStdThreshold as real) * sqrt(Variance(ds));
        var i := MinIndex(ds);
        NearestIsInlier(ids, positions, ds, sqrt, i);
        OutlierCase(ids, positions, ds, sqrt);
        OutlierLayoutScale(ids, positions, ds, threshold, i);
      } else {
        NoOutliersWithoutEvidence(ids, positions, ds, sqrt);
        InliersWithoutOutliers(ids, ds);
      }
    }

    /** In the last case of DistanceLayout, one inlier suffices for the scale to fit the farthest inlier. */
    lemma OutlierLayoutScale(ids: seq<int>, positions: map<int, Point>, ds: seq<real>, threshold: real, i: int)
      requires |ds| == |ids| > 0 && 0 <= i < |ids| && ids[i] !in Outliers(ids, ds, threshold)
      ensures |InlierDistances(ids, ds, Outliers(ids, ds, threshold))| > 0
      ensures OutlierLayout(ids, positions, ds, threshold).scale
              == ComputeScale(Max(InlierDistances(ids, ds, Outliers(ids, ds, threshold))), DefaultMargin)
    {
      assert ds[i] in InlierDistances(ids, ds, Outliers(ids, ds, threshold));
    }

    /**
     * Every inlier is drawn within the usable radius of the canvas, unless
     * the farthest inlier is at the origin and the default scale is used.
     */
    lemma InliersWithinCanvas(ids: seq<int>, positions: map<int, Point>, ds: seq<real>, sqrt: real -> real)
      requires |ds| == |ids| > 0 && Consistent(ids, ds)
      requires outlierStdThreshold >= 0 && UsableRadius(DefaultMargin) >= 0.0
      ensures var l := DistanceLayout(ids, positions, ds, sqrt);
              var inliers := InlierDistances(ids, ds, l.outliers);
              |inliers| > 0
              && (Max(inliers) >= Epsilon ==> InliersWithin(ids, ds, l.outliers, l.scale, UsableRadius(DefaultMargin)))
    {
      var l := DistanceLayout(ids, positions, ds, sqrt);
      ScaleFitsFarthestInlier(ids, positions, ds, sqrt);
      FarthestInlierFits(ids, ds, l.outliers, l.scale);
    }

    /** A scale fitted to the farthest inlier puts every inlier within the usable radius. */
    lemma FarthestInlierFits(ids: seq<int>, ds: seq<real>, outliers: set<int>, scale: real)
      requires |ids| == |ds| && |InlierDistances(ids, ds, outliers)| > 0 && UsableRadius(DefaultMargin) >= 0.0
      requires scale == ComputeScale(Max(InlierDistances(ids, ds, outliers)), DefaultMargin)
      ensures Max(InlierDistances(ids, ds, outliers)) >= Epsilon ==>
                InliersWithin(ids, ds, outliers, scale, UsableRadius(DefaultMargin))
    {
      var m := Max(InlierDistances(ids, ds, outliers));
      if m >= Epsilon {
        InliersBelowMax(ids, ds, outliers);
        ScaleOnRadius(m);
        InliersFit(ids, ds, outliers, m, UsableRadius(DefaultMargin), scale);
      }
    }

    /** A scale fitted to a distance m >= Epsilon is non-negative and puts m on the usable radius. */
    lemma ScaleOnRadius(m: real)
      requires m >= Epsilon && UsableRadius(DefaultMargin) >= 0.0
      ensures ComputeScale(m, DefaultMargin) >= 0.0 && ComputeScale(m, DefaultMargin) * m == UsableRadius(DefaultMargin)
    {
      NonNegQuotient(UsableRadius(DefaultMargin), m);
    }

    /** _compute_map_layout for the current keyframes. */
    function MapLayout(current: Matrix, sqrt: real -> real): (r: Result<Layout, TransformError>)
      reads this
      requires Valid()
    {
      var ps := Positions(keyframeOrder, keyframePoses, Placement(current));
      if ps.Err? then Err(ps.error) else Ok(LayoutOf(keyframeOrder, ps.value, sqrt))
    }

    /** _compute_map_layout: the positions loop, then the statistics over their distances. */
    method ComputeMapLayout(current: Matrix, sqrt: real -> real) returns (r: Result<Layout, TransformError>)
      requires Valid()
      ensures r == MapLayout(current, sqrt)
    {
      var ids, poses, place := keyframeOrder, keyframePoses, Placement(current);
      assert forall id | id in ids :: id in poses;
      var positions: map<int, Point> := map[];
      var i := 0;
      while i < |ids|
        invariant 0 <= i <= |ids|
        invariant forall id | id in ids[..i] :: id in poses
        invariant Positions(ids[..i], poses, place) == Ok(positions)
      {
        var id := ids[i];
        ghost var next := ids[..i + 1];
        assert next[..i] == ids[..i] && next[i] == id;
        assert forall x | x in next :: x in poses;
        var p := place(poses[id]);
        if p.Err? {
          assert Positions(next, poses, place) == Err(p.error);
          PositionsFirstError(ids, i + 1, poses, place);
          return Err(p.error);
        }
        positions := positions[id := p.value];
        i := i + 1;
      }
      assert ids[..i] == ids;
      r := Ok(LayoutOf(keyframeOrder, positions, sqrt));
    }

    /**
     * _generate_colors' hue schedule: hue i of n is int(180 * i / n), OpenCV's
     * 0..180 hue range split evenly; no hues for n <= 0.
     */
    method GenerateHues(n: int) returns (hues: seq<int>)
      ensures n <= 0 ==> hues == []
      ensures n > 0 ==> |hues| == n && forall i | 0 <= i < n :: hues[i] == Hue(i, n)
    {
      if n == 0 {
        return [];
      }
      hues := [];
      var i := 0;
      while i < n
        invariant n > 0 ==> 0 <= i <= n
        invariant n > 0 ==> |hues| == i && forall k | 0 <= k < i :: hues[k] == Hue(k, n)
        invariant n < 0 ==> i == 0 && hues == []
      {
        hues := hues + [Hue(i, n)];
        i := i + 1;
      }
    }
  }

  /** Equal ids carry equal distances, as when both come from one dictionary. */
  predicate Consistent(ids: seq<int>, ds: seq<real>)
    requires |ids| == |ds|
  {
    forall j, k | 0 <= j < |ids| && 0 <= k < |ids| && ids[j] == ids[k] :: ds[j] == ds[k]
  }

  /** The ids whose distance exceeds the threshold. */
  function Outliers(ids: seq<int>, ds: seq<real>, threshold: real): (r: set<int>)
    requires |ids| == |ds|
    ensures forall id | id in r :: id in ids
  {
    set i | 0 <= i < |ids| && ds[i] > threshold :: ids[i]
  }

  /**
   * When equal ids carry equal distances, an id is an outlier exactly when
   * its distance exceeds the threshold.
   */
  lemma OutlierIff(ids: seq<int>, ds: seq<real>, threshold: real, i: int)
    requires |ids| == |ds| && 0 <= i < |ids| && Consistent(ids, ds)
    ensures ids[i] in Outliers(ids, ds, threshold) <==> ds[i] > threshold
  {
    if ids[i] in Outliers(ids, ds, threshold) {
      var j :| 0 <= j < |ids| && ds[j] > threshold && ids[j] == ids[i];
    }
  }

  /** np.mean is at least np.min. */
  lemma MeanAtLeastMin(ds: seq<real>)
    requires |ds| > 0
    ensures Mean(ds) >= Min(ds)
  {
    MeanAtLeast(ds, Min(ds));
  }

  /** The mean is at least any lower bound of the elements. */
  lemma MeanAtLeast(ds: seq<real>, m: real)
    requires |ds| > 0 && forall i | 0 <= i < |ds| :: m <= ds[i]
    ensures Mean(ds) >= m
  {
    SumAtLeastMin(ds, m);
    DivAtLeast(Sum(ds), |ds| as real, m);
  }

  /** An index of a smallest element. */
  lemma {:induction false} MinIndex(ds: seq<real>) returns (i: int)
    requires |ds| > 0
    ensures 0 <= i < |ds| && forall j | 0 <= j < |ds| :: ds[i] <= ds[j]
  {
    if |ds| == 1 {
      i := 0;
    } else {
      var k := MinIndex(ds[1..]);
      assert forall j | 1 <= j < |ds| :: ds[k + 1] <= ds[j] by {
        forall j | 1 <= j < |ds|
          ensures ds[k + 1] <= ds[j]
        {
          assert ds[1..][j - 1] == ds[j];
        }
      }
      i := if ds[0] <= ds[k + 1] then 0 else k + 1;
    }
  }

  /** With no outliers every distance is an inlier distance, in order. */
  lemma {:induction false} InliersWithoutOutliers(ids: seq<int>, ds: seq<real>)
    requires |ids| == |ds|
    ensures InlierDistances(ids, ds, {}) == ds
  {
    if |ids| > 0 {
      InliersWithoutOutliers(ids[1..], ds[1..]);
    }
  }

  /** Every inlier distance is at most the farthest one. */
  lemma InliersBelowMax(ids: seq<int>, ds: seq<real>, outliers: set<int>)
    requires |ids| == |ds| && |InlierDistances(ids, ds, outliers)| > 0
    ensures forall j | 0 <= j < |ids| && ids[j] !in outliers :: ds[j] <= Max(InlierDistances(ids, ds, outliers))
  {
    var inliers := InlierDistances(ids, ds, outliers);
    forall j | 0 <= j < |ids| && ids[j] !in outliers
      ensures ds[j] <= Max(inliers)
    {
      var k :| 0 <= k < |inliers| && inliers[k] == ds[j];
    }
  }

  /** Every inlier distance, times the scale, is at most r. */
  predicate InliersWithin(ids: seq<int>, ds: seq<real>, outliers: set<int>, scale: real, r: real)
    requires |ids| == |ds|
  {
    forall j | 0 <= j < |ids| && ids[j] !in outliers :: scale * ds[j] <= r
  }

  /** A scale that puts a bound m of the inliers on radius r puts every inlier within r. */
  lemma InliersFit(ids: seq<int>, ds: seq<real>, outliers: set<int>, m: real, r: real, scale: real)
    requires |ids| == |ds| && forall j | 0 <= j < |ids| && ids[j] !in outliers :: ds[j] <= m
    requires scale >= 0.0 && scale * m == r
    ensures InliersWithin(ids, ds, outliers, scale, r)
  {
    forall j | 0 <= j < |ids| && ids[j] !in outliers
      ensures scale * ds[j] <= r
    {
      FitBelow(scale, ds[j], m, r);
    }
  }

  /** Scaling by a non-negative factor keeps a value below the bound's image. */
  lemma FitBelow(s: real, d: real, m: real, r: real)
    requires s >= 0.0 && d <= m && s * m == r
    ensures s * d <= r
  {
  }

  /** The nearest id is below any threshold mean + k * std with k, std >= 0. */
  lemma MinimumNotOutlier(ids: seq<int>, ds: seq<real>, k: real, std: real, i: int)
    requires |ids| == |ds| && 0 <= i < |ids| && Consistent(ids, ds)
    requires forall j | 0 <= j < |ds| :: ds[i] <= ds[j]
    requires k >= 0.0 && std >= 0.0
    ensures ids[i] !in Outliers(ids, ds, Mean(ds) + k * std)
  {
    MeanAtLeast(ds, ds[i]);
    assert k * std >= 0.0;
    OutlierIff(ids, ds, Mean(ds) + k * std, i);
  }

  lemma DivAtLeast(x: real, n: real, m: real)
    requires n > 0.0 && x >= n * m
    ensures x / n >= m
  {
    var q := x / n;
    assert q * n == x;
    if q < m {
      assert q * n < m * n;
    }
  }

  lemma ScalePositive(r: real, m: real)
    requires r > 0.0 && m > 0.0
    ensures r / m > 0.0
  {
    var s := r / m;
    assert s * m == r;
  }

  lemma NonNegQuotient(r: real, m: real)
    requires r >= 0.0 && m > 0.0
    ensures r / m >= 0.0
  {
    var s := r / m;
    assert s * m == r;
  }

  /** A point no farther than maxDist lands within the radius maxDist is scaled to. */
  lemma ScaleBound(r: real, m: real, d: real)
    requires m > 0.0 && d <= m && r >= 0.0
    ensures (r / m) * d <= r
  {
    var s := r / m;
    NonNegQuotient(r, m);
    assert s * m == r;
    assert s * d <= s * m;
  }

  /** A farther maximum gives a smaller scale. */
  lemma ScaleAntitone(r: real, m1: real, m2: real)
    requires 0.0 < m1 <= m2 && r >= 0.0
    ensures r / m2 <= r / m1
  {
    var s1, s2 := r / m1, r / m2;
    NonNegQuotient(r, m2);
    assert s1 * m1 == r && s2 * m2 == r;
    assert s2 * m1 <= s1 * m1;
  }

  /** int(180 * i / n) for 0 <= i and 0 < n: true division truncated, which is floor here. */
  function Hue(i: nat, n: nat): int
    requires n > 0
  {
    (180 * i) / n
  }

  /** Every scheduled hue is a valid OpenCV hue. */
  lemma HueInRange(i: nat, n: nat)
    requires i < n
    ensures 0 <= Hue(i, n) < 180
  {
    assert 180 * i < 180 * n;
  }

  /** Hues never decrease along the schedule, and strictly increase when n <= 180. */
  lemma HueMonotone(i: nat, j: nat, n: nat)
    requires i < j < n
    ensures Hue(i, n) <= Hue(j, n)
    ensures n <= 180 ==> Hue(i, n) < Hue(j, n)
  {
    MonotoneDiv(180 * i, 180 * j, n);
    if n <= 180 {
      MonotoneDiv(180 * i + n, 180 * j, n);
      DivShift(180 * i, n);
    }
  }

  lemma MulCancel(x: int, y: int, n: int)
    requires n > 0 && x * n < y * n
    ensures x < y
  {
  }

  lemma MulAtLeast(d: int, n: int)
    requires d >= 1 && n > 0
    ensures d * n >= n
  {
    assert d * n == (d - 1) * n + n;
    assert (d - 1) * n >= 0;
  }

  lemma MonotoneDiv(a: nat, b: nat, n: nat)
    requires a <= b && n > 0
    ensures a / n <= b / n
  {
    var qa, qb := a / n, b / n;
    assert qa * n <= a;
    assert b < (qb + 1) * n;
    MulCancel(qa, qb + 1, n);
  }

  /** Euclidean division has one quotient for each remainder in range. */
  lemma DivUnique(a: int, n: int, q: int, r: int)
    requires n > 0 && 0 <= r < n && a == q * n + r
    ensures a / n == q
  {
    var q', r' := a / n, a % n;
    var d := q - q';
    assert d * n == r' - r by {
      assert q * n + r == q' * n + r';
      assert d * n == q * n - q' * n;
    }
    if d >= 1 {
      MulAtLeast(d, n);
    } else if d <= -1 {
      MulAtLeast(-d, n);
    }
  }

  lemma DivShift(a: nat, n: nat)
    requires n > 0
    ensures (a + n) / n == a / n + 1
  {
    var q, r := a / n, a % n;
    assert a + n == (q + 1) * n + r;
    DivUnique(a + n, n, q + 1, r);
  }
}
