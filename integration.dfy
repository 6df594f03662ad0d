/**
 * MockMemERHighLevel: a stand-in for MemER's high-level policy that selects
 * keyframes either by spatial deduplication against a SpatialMemoryModule or,
 * without one, by the visual-only "every fifth keyframe" rule.
 */
module Integration {
  import opened Wrappers
  import opened Memory

  /** A visual-only keyframe, the {"image", "pose"} record. */
  datatype VisualKeyframe = VisualKeyframe(image: Image, pose: Pose2)

  /** The radius has_visited_location is asked with in spatial mode. */
  const SpatialThreshold: real := 1.5

  /** The visual-only rule selects whenever the keyframe count is a multiple of five. */
  const VisualPeriod: nat := 5

  /** Some recorded pose is within `threshold` of p in x, the distance get_nearby_keyframes measures. */
  predicate Visited(recorded: seq<Pose2>, p: Pose2, threshold: real) {
    exists i | 0 <= i < |recorded| :: Abs(p.x - recorded[i].x) <= threshold
  }

  /** Spatial mode's verdict on one pose: record it unless it was visited. */
  function SpatialStep(recorded: seq<Pose2>, p: Pose2): seq<Pose2> {
    if Visited(recorded, p, SpatialThreshold) then recorded else recorded + [p]
  }

  /** The poses spatial mode records for a trajectory, starting from `recorded`. */
  function SpatialRun(recorded: seq<Pose2>, trajectory: seq<Pose2>): seq<Pose2> {
    if |trajectory| == 0 then recorded
    else SpatialStep(SpatialRun(recorded, trajectory[..|trajectory| - 1]), trajectory[|trajectory| - 1])
  }

  /** Visual mode's keyframe count after one frame. */
  function VisualStep(count: nat): nat {
    if count % VisualPeriod == 0 then count + 1 else count
  }

  /** Visual mode's keyframe count after `frames` frames, starting from `count`. */
  function VisualRun(count: nat, frames: nat): nat {
    if frames == 0 then count else VisualStep(VisualRun(count, frames - 1))
  }

  /** Every two recorded poses lie more than the spatial threshold apart in x. */
  predicate Spread(recorded: seq<Pose2>) {
    forall i, j | 0 <= i < j < |recorded| :: Abs(recorded[i].x - recorded[j].x) > SpatialThreshold
  }

  /** The poses of a list of spatial keyframes, in order. */
  function PosesOf(kfs: seq<SpatialKeyframe>): (r: seq<Pose2>)
    ensures |r| == |kfs| && forall i | 0 <= i < |kfs| :: r[i] == kfs[i].pose
  {
    seq(|kfs|, i requires 0 <= i < |kfs| => kfs[i].pose)
  }

  lemma AbsSymmetric(a: real, b: real)
    ensures Abs(a - b) == Abs(b - a)
  {
  }

  /** A spatial step keeps the recorded poses spread and records at most one pose. */
  lemma SpatialStepSpread(recorded: seq<Pose2>, p: Pose2)
    requires Spread(recorded)
    ensures Spread(SpatialStep(recorded, p))
    ensures SpatialStep(recorded, p) == recorded || SpatialStep(recorded, p) == recorded + [p]
  {
    if !Visited(recorded, p, SpatialThreshold) {
      var r := recorded + [p];
      forall i, j | 0 <= i < j < |r|
        ensures Abs(r[i].x - r[j].x) > SpatialThreshold
      {
        if j == |recorded| {
          assert !(Abs(p.x - recorded[i].x) <= SpatialThreshold);
          AbsSymmetric(p.x, recorded[i].x);
        }
      }
    }
  }

  /** Starting spread, spatial mode's recorded poses stay pairwise more than 1.5 apart in x. */
  lemma {:induction false} SpatialRunSpread(recorded: seq<Pose2>, trajectory: seq<Pose2>)
    requires Spread(recorded)
    ensures Spread(SpatialRun(recorded, trajectory))
    ensures |SpatialRun(recorded, trajectory)| <= |recorded| + |trajectory|
  {
    if |trajectory| > 0 {
      var prefix := trajectory[..|trajectory| - 1];
      SpatialRunSpread(recorded, prefix);
      SpatialStepSpread(SpatialRun(recorded, prefix), trajectory[|trajectory| - 1]);
    }
  }

  /** Once the count is not a multiple of five, the visual rule never selects again. */
  lemma {:induction false} VisualRunStuck(count: nat, frames: nat)
    requires count % VisualPeriod != 0
    ensures VisualRun(count, frames) == count
  {
    if frames > 0 {
      VisualRunStuck(count, frames - 1);
    }
  }

  /** Starting empty, visual mode selects exactly one keyframe for any non-empty trajectory. */
  lemma {:induction false} VisualRunFromEmpty(frames: nat)
    ensures VisualRun(0, frames) == if frames == 0 then 0 else 1
  {
    if frames > 0 {
      if frames == 1 {
        assert VisualRun(0, 0) == 0;
      } else {
        VisualRunFromEmpty(frames - 1);
        assert VisualRun(0, frames - 1) == 1;
      }
    }
  }

  /** The trajectory compare_spatial_vs_visual drives both policies with. */
  function DemoTrajectory(): seq<Pose2> {
    [Pose2(0.0, 0.0, 0.0), Pose2(0.1, 0.0, 0.0), Pose2(5.0, 0.0, 1.57), Pose2(5.1, 0.0, 1.57),
     Pose2(0.0, 5.0, 3.14), Pose2(0.0, 5.1, 3.14), Pose2(0.2, 0.1, 0.0), Pose2(5.0, 0.1, 1.57)]
  }

  /**
   * On the demo trajectory spatial mode records only the first and third poses
   * (t[0] and t[2]): each other pose lies within the threshold in x of one of
   * them, and the fifth, (0.0, 5.0), differs from the first only in y, which
   * the x-only distance of get_nearby_keyframes does not see.
   */
  lemma {:induction false} DemoSpatialRun()
    ensures SpatialRun([], DemoTrajectory()) == [DemoTrajectory()[0], DemoTrajectory()[2]]
  {
    var t := DemoTrajectory();
    var a := [t[0]];
    var b := [t[0], t[2]];
    assert SpatialRun([], t[..1]) == a by {
      assert t[..1][..0] == [];
      assert !Visited([], t[0], SpatialThreshold);
    }
    assert SpatialRun([], t[..2]) == a by {
      assert t[..2][..1] == t[..1];
      assert Abs(t[1].x - a[0].x) <= SpatialThreshold;
    }
    assert SpatialRun([], t[..3]) == b by {
      assert t[..3][..2] == t[..2];
      assert !Visited(a, t[2], SpatialThreshold);
    }
    forall k | 3 <= k < 8
      ensures Visited(b, t[k], SpatialThreshold)
    {
      if t[k].x < 2.5 {
        assert Abs(t[k].x - b[0].x) <= SpatialThreshold;
      } else {
        assert Abs(t[k].x - b[1].x) <= SpatialThreshold;
      }
    }
    DemoTail(t, b, 3);
    assert t[..8] == t;
  }

  /** Once every remaining pose is visited, the recorded poses no longer change. */
  lemma {:induction false} DemoTail(t: seq<Pose2>, b: seq<Pose2>, n: nat)
    requires n <= |t|
    requires SpatialRun([], t[..n]) == b
    requires forall k | n <= k < |t| :: Visited(b, t[k], SpatialThreshold)
    ensures SpatialRun([], t[..|t|]) == b
    decreases |t| - n
  {
    if n < |t| {
      assert t[..n + 1][..n] == t[..n];
      DemoTail(t, b, n + 1);
    }
  }

  /** Visual mode keeps one keyframe of the eight demo poses. */
  lemma DemoVisualRun()
    ensures VisualRun(0, |DemoTrajectory()|) == 1
  {
    VisualRunFromEmpty(|DemoTrajectory()|);
  }

  class MockMemERHighLevel {
    /** The spatial memory in spatial mode, null in visual-only mode. */
    const spatialMem: SpatialMemoryModule?
    /** The visual-only keyframes. */
    var keyframes: seq<VisualKeyframe>

    ghost predicate Valid()
      reads this, spatialMem
    {
      spatialMem != null ==> spatialMem.Valid()
    }

    /** __init__: a fresh spatial memory with the default room threshold in spatial mode, and no keyframes. */
    constructor (useSpatial: bool)
      ensures Valid()
      ensures useSpatial <==> spatialMem != null
      ensures spatialMem != null ==> fresh(spatialMem) && spatialMem.keyframes == []
                                     && spatialMem.roomThreshold == DefaultRoomThreshold
      ensures keyframes == []
    {
      if useSpatial {
        spatialMem := new SpatialMemoryModule(DefaultRoomThreshold);
      } else {
        spatialMem := null;
      }
      keyframes := [];
    }

    /**
     * should_select_keyframe: in spatial mode, select unless a stored keyframe
     * is within 1.5 (in x); otherwise select when the keyframe count is a
     * multiple of five.
     */
    method ShouldSelectKeyframe(image: Image, pose: Pose2) returns (select: bool)
      ensures spatialMem != null ==>
                (select <==> !Visited(PosesOf(spatialMem.keyframes), pose, SpatialThreshold))
      ensures spatialMem == null ==> (select <==> |keyframes| % VisualPeriod == 0)
    {
      if spatialMem != null {
        var visited := spatialMem.HasVisitedLocation(pose, SpatialThreshold);
        var recorded := PosesOf(spatialMem.keyframes);
        if visited {
          var i :| 0 <= i < |spatialMem.keyframes| && IsNear(pose, spatialMem.keyframes[i], SpatialThreshold);
          assert Abs(pose.x - recorded[i].x) <= SpatialThreshold;
        }
        select := !visited;
      } else {
        select := |keyframes| % VisualPeriod == 0;
      }
    }

    /**
     * process_frame: at most one keyframe per call, stored in the spatial
     * memory in spatial mode and in the visual list otherwise, never both.
     * The spatial memory's clock reading is the parameter `timestamp`.
     */
    method ProcessFrame(image: Image, pose: Pose2, timestamp: real)
      requires Valid()
      modifies this, spatialMem
      ensures Valid()
      ensures spatialMem != null ==>
                keyframes == old(keyframes) && spatialMem.poseHistory == old(spatialMem.poseHistory)
                && PosesOf(spatialMem.keyframes) == SpatialStep(old(PosesOf(spatialMem.keyframes)), pose)
      ensures spatialMem != null && old(Visited(PosesOf(spatialMem.keyframes), pose, SpatialThreshold)) ==>
                spatialMem.keyframes == old(spatialMem.keyframes)
                && spatialMem.roomCenters == old(spatialMem.roomCenters)
                && spatialMem.roomCounter == old(spatialMem.roomCounter)
      ensures spatialMem != null && !old(Visited(PosesOf(spatialMem.keyframes), pose, SpatialThreshold)) ==>
                |spatialMem.keyframes| == old(|spatialMem.keyframes|) + 1
                && var kf := spatialMem.keyframes[old(|spatialMem.keyframes|)];
                   && spatialMem.keyframes == old(spatialMem.keyframes) + [kf]
                   && kf == SpatialKeyframe(timestamp, image, pose, kf.roomId, None)
                   && (old(spatialMem.FirstRoomWithin(pose.x, pose.y, 0)).Some? ==>
                         kf.roomId == old(spatialMem.FirstRoomWithin(pose.x, pose.y, 0)).value
                         && spatialMem.roomCenters == old(spatialMem.roomCenters)
                         && spatialMem.roomCounter == old(spatialMem.roomCounter))
                   && (old(spatialMem.FirstRoomWithin(pose.x, pose.y, 0)).None? ==>
                         kf.roomId == old(spatialMem.roomCounter)
                         && spatialMem.roomCenters == old(spatialMem.roomCenters)[kf.roomId := Center(pose.x, pose.y)]
                         && spatialMem.roomCounter == old(spatialMem.roomCounter) + 1)
      ensures spatialMem == null ==>
                keyframes == (if old(|keyframes|) % VisualPeriod == 0
                              then old(keyframes) + [VisualKeyframe(image, pose)]
                              else old(keyframes))
    {
      var select := ShouldSelectKeyframe(image, pose);
      if select {
        if spatialMem != null {
          ghost var before := spatialMem.keyframes;
          var kf := spatialMem.AddKeyframe(image, pose, None, timestamp);
          assert spatialMem.keyframes == before + [kf];
          assert PosesOf(spatialMem.keyframes) == PosesOf(before) + [pose];
        } else {
          keyframes := keyframes + [VisualKeyframe(image, pose)];
        }
      }
    }

    /**
     * The loops of compare_spatial_vs_visual: every pose of the trajectory
     * with the same image; `clock(i)` is the time of the i-th frame.
     */
    method ProcessTrajectory(trajectory: seq<Pose2>, image: Image, clock: nat -> real)
      requires Valid()
      modifies this, spatialMem
      ensures Valid()
      ensures spatialMem != null ==>
                keyframes == old(keyframes)
                && PosesOf(spatialMem.keyframes) == SpatialRun(old(PosesOf(spatialMem.keyframes)), trajectory)
      ensures spatialMem == null ==> |keyframes| == VisualRun(old(|keyframes|), |trajectory|)
    {
      var i := 0;
      while i < |trajectory|
        invariant 0 <= i <= |trajectory|
        invariant Valid()
        invariant spatialMem != null ==>
                    keyframes == old(keyframes)
                    && PosesOf(spatialMem.keyframes) == SpatialRun(old(PosesOf(spatialMem.keyframes)), trajectory[..i])
        invariant spatialMem == null ==> |keyframes| == VisualRun(old(|keyframes|), i)
      {
        ProcessFrame(image, trajectory[i], clock(i));
        assert trajectory[..i + 1][..i] == trajectory[..i];
        i := i + 1;
      }
      assert trajectory[..i] == trajectory;
    }
  }

  /** Spatial mode keeps its keyframes more than 1.5 apart in x over a whole trajectory. */
  method SpatialPolicyRun(trajectory: seq<Pose2>, image: Image, clock: nat -> real)
    returns (recorded: seq<Pose2>)
    ensures recorded == SpatialRun([], trajectory)
    ensures Spread(recorded) && |recorded| <= |trajectory|
  {
    var policy := new MockMemERHighLevel(true);
    policy.ProcessTrajectory(trajectory, image, clock);
    recorded := PosesOf(policy.spatialMem.keyframes);
    SpatialRunSpread([], trajectory);
  }

  /** Visual mode ends with one keyframe for any non-empty trajectory. */
  method VisualPolicyRun(trajectory: seq<Pose2>, image: Image, clock: nat -> real)
    returns (count: nat)
    ensures count == if |trajectory| == 0 then 0 else 1
  {
    var policy := new MockMemERHighLevel(false);
    policy.ProcessTrajectory(trajectory, image, clock);
    count := |policy.keyframes|;
    VisualRunFromEmpty(|trajectory|);
  }
}
