/**
 * SpatialMemoryModule: keyframes tagged with the room they were captured in,
 * rooms found by first-fit clustering of planar positions, and the spatial
 * queries the high-level policy asks of them.
 */
module Memory {
  import opened Wrappers
  import opened Seqs

  /** Pixel data, carried along and never inspected. */
  type Image = seq<real>

  /** A CLIP embedding, carried along and never inspected. */
  type Embedding = seq<real>

  /** A planar robot pose (x, y, theta). */
  datatype Pose2 = Pose2(x: real, y: real, theta: real)

  /** A room centre (cx, cy). */
  datatype Center = Center(x: real, y: real)

  /** A stored keyframe: capture time, image, pose, room and optional embedding. */
  datatype SpatialKeyframe = SpatialKeyframe(
    timestamp: real,
    image: Image,
    pose: Pose2,
    roomId: int,
    embedding: Option<Embedding>)

  /** What get_spatial_coverage reports. */
  datatype Coverage = Coverage(numKeyframes: int, numRooms: int, avgKeyframesPerRoom: real)

  const DefaultRoomThreshold: real := 2.0
  const DefaultNearbyRadius: real := 3.0
  const DefaultVisitedThreshold: real := 1.0

  function Square(a: real): real {
    a * a
  }

  /**
   * sqrt((x - cx)^2 + (y - cy)^2) < threshold, stated on squared distances:
   * a square root is below t exactly when t is positive and the radicand is
   * below t * t.
   */
  predicate InRoomRadius(x: real, y: real, c: Center, threshold: real) {
    threshold > 0.0 && Square(x - c.x) + Square(y - c.y) < Square(threshold)
  }

  /**
   * get_nearby_keyframes' distance test. The source computes
   * sqrt((qx - kx)^2 + (qy - qy)^2): the y term is always zero, so the
   * distance is |qx - kx|.
   */
  predicate IsNear(query: Pose2, kf: SpatialKeyframe, radius: real) {
    Abs(query.x - kf.pose.x) <= radius
  }

  function Abs(a: real): real {
    if a < 0.0 then -a else a
  }

  function Near(query: Pose2, radius: real): SpatialKeyframe -> bool {
    (kf: SpatialKeyframe) => IsNear(query, kf, radius)
  }

  function InRoom(roomId: int): SpatialKeyframe -> bool {
    (kf: SpatialKeyframe) => kf.roomId == roomId
  }

  /** The rooms that hold at least one keyframe. */
  function VisitedRooms(kfs: seq<SpatialKeyframe>): set<int> {
    set i | 0 <= i < |kfs| :: kfs[i].roomId
  }

  /** The room id of each keyframe, in order. */
  function RoomIds(kfs: seq<SpatialKeyframe>): (r: seq<int>)
    ensures |r| == |kfs| && forall i | 0 <= i < |kfs| :: r[i] == kfs[i].roomId
  {
    seq(|kfs|, i requires 0 <= i < |kfs| => kfs[i].roomId)
  }

  /** There are never more visited rooms than keyframes, and at least one when there is a keyframe. */
  lemma VisitedRoomsBounds(kfs: seq<SpatialKeyframe>)
    ensures |VisitedRooms(kfs)| <= |kfs|
    ensures |kfs| > 0 ==> |VisitedRooms(kfs)| >= 1
  {
    var ids := RoomIds(kfs);
    assert VisitedRooms(kfs) == Elements(ids) by {
      forall r | r in Elements(ids)
        ensures r in VisitedRooms(kfs)
      {
        var i :| 0 <= i < |ids| && ids[i] == r;
      }
    }
    ElementsCard(ids);
    if |kfs| > 0 {
      assert kfs[0].roomId in VisitedRooms(kfs);
    }
  }

  /** A room holds no keyframe exactly when get_keyframes_in_room finds none for it. */
  lemma UnvisitedIffNoKeyframes(kfs: seq<SpatialKeyframe>, roomId: int)
    ensures roomId !in VisitedRooms(kfs) <==> Filter(kfs, InRoom(roomId)) == []
  {
    var r := Filter(kfs, InRoom(roomId));
    if roomId in VisitedRooms(kfs) {
      var i :| 0 <= i < |kfs| && kfs[i].roomId == roomId;
      assert kfs[i] in r;
    }
  }

  /** The nearby test ignores the query's y: two queries with the same x find the same keyframes. */
  lemma NearbyIgnoresY(kfs: seq<SpatialKeyframe>, a: Pose2, b: Pose2, radius: real)
    requires a.x == b.x
    ensures Filter(kfs, Near(a, radius)) == Filter(kfs, Near(b, radius))
  {
    FilterAgree(kfs, Near(a, radius), Near(b, radius));
  }

  /** The coverage metrics of a keyframe list. */
  function CoverageOf(kfs: seq<SpatialKeyframe>): Coverage {
    if |kfs| == 0 then Coverage(0, 0, 0.0)
    else
      VisitedRoomsBounds(kfs);
      var rooms := |VisitedRooms(kfs)|;
      Coverage(|kfs|, rooms, (|kfs| as real) / (rooms as real))
  }

  /** Empty memory reports zeros; otherwise 1 <= rooms <= keyframes and the average is at least one. */
  lemma CoverageBounds(kfs: seq<SpatialKeyframe>)
    ensures |kfs| == 0 ==> CoverageOf(kfs) == Coverage(0, 0, 0.0)
    ensures |kfs| > 0 ==> (CoverageOf(kfs).numKeyframes == |kfs|
                           && 1 <= CoverageOf(kfs).numRooms <= CoverageOf(kfs).numKeyframes
                           && CoverageOf(kfs).avgKeyframesPerRoom >= 1.0)
  {
    VisitedRoomsBounds(kfs);
    if |kfs| > 0 {
      var n, rooms := |kfs| as real, |VisitedRooms(kfs)| as real;
      QuotientAtLeastOne(n, rooms);
    }
  }

  lemma QuotientAtLeastOne(n: real, d: real)
    requires 0.0 < d <= n
    ensures n / d >= 1.0
  {
    var q := n / d;
    assert q * d == n;
    assert q * d >= 1.0 * d;
  }

  class SpatialMemoryModule {
    var keyframes: seq<SpatialKeyframe>
    /** pose_history, keyed by the time.time() of each update call. */
    var poseHistory: map<real, Pose2>
    const roomThreshold: real
    var roomCounter: int
    var roomCenters: map<int, Center>

    /**
     * Rooms are numbered 0 .. roomCounter - 1 and, being inserted in that
     * order and never removed, are iterated in that order; every keyframe
     * belongs to one of them.
     */
    ghost predicate Valid()
      reads this
    {
      && roomCounter >= 0
      && (forall id :: id in roomCenters <==> 0 <= id < roomCounter)
      && (forall i | 0 <= i < |keyframes| :: keyframes[i].roomId in roomCenters)
    }

    constructor (roomThreshold: real := DefaultRoomThreshold)
      ensures Valid()
      ensures this.roomThreshold == roomThreshold
      ensures keyframes == [] && poseHistory == map[] && roomCounter == 0 && roomCenters == map[]
    {
      this.roomThreshold := roomThreshold;
      keyframes := [];
      poseHistory := map[];
      roomCounter := 0;
      roomCenters := map[];
    }

    /** update: records the pose under the current time. */
    method Update(image: Image, pose: Pose2, timestamp: real)
      requires Valid()
      modifies this
      ensures Valid()
      ensures poseHistory == old(poseHistory)[timestamp := pose]
      ensures keyframes == old(keyframes) && roomCenters == old(roomCenters) && roomCounter == old(roomCounter)
    {
      poseHistory := poseHistory[timestamp := pose];
    }

    /** The first room, from `from` on, whose centre is within the room threshold of (x, y). */
    function FirstRoomWithin(x: real, y: real, from: nat): (r: Option<int>)
      reads this
      requires Valid()
      ensures r.Some? ==> (from <= r.value < roomCounter
                           && InRoomRadius(x, y, roomCenters[r.value], roomThreshold)
                           && forall id | from <= id < r.value :: !InRoomRadius(x, y, roomCenters[id], roomThreshold))
      ensures r.None? ==> forall id | from <= id < roomCounter :: !InRoomRadius(x, y, roomCenters[id], roomThreshold)
      decreases roomCounter - from
    {
      if from >= roomCounter then None
      else if InRoomRadius(x, y, roomCenters[from], roomThreshold) then Some(from)
      else FirstRoomWithin(x, y, from + 1)
    }

    /**
     * _get_or_create_room: the first room in insertion order whose centre is
     * strictly within the threshold; else a new room centred at (x, y).
     */
    method GetOrCreateRoom(pose: Pose2) returns (roomId: int)
      requires Valid()
      modifies this
      ensures Valid()
      ensures old(FirstRoomWithin(pose.x, pose.y, 0)).Some? ==>
                roomId == old(FirstRoomWithin(pose.x, pose.y, 0)).value
                && roomCenters == old(roomCenters) && roomCounter == old(roomCounter)
      ensures old(FirstRoomWithin(pose.x, pose.y, 0)).None? ==>
                roomId == old(roomCounter) && roomId !in old(roomCenters)
                && roomCenters == old(roomCenters)[roomId := Center(pose.x, pose.y)]
                && roomCounter == old(roomCounter) + 1
      ensures roomId in roomCenters
      ensures keyframes == old(keyframes) && poseHistory == old(poseHistory)
    {
      var id := 0;
      while id < roomCounter
        invariant 0 <= id <= roomCounter
        invariant FirstRoomWithin(pose.x, pose.y, id) == FirstRoomWithin(pose.x, pose.y, 0)
      {
        if InRoomRadius(pose.x, pose.y, roomCenters[id], roomThreshold) {
          return id;
        }
        id := id + 1;
      }
      roomId := roomCounter;
      roomCenters := roomCenters[roomId := Center(pose.x, pose.y)];
      roomCounter := roomCounter + 1;
    }

    /** add_keyframe: assigns a room and appends exactly one keyframe. */
    method AddKeyframe(image: Image, pose: Pose2, embedding: Option<Embedding>, timestamp: real)
      returns (kf: SpatialKeyframe)
      requires Valid()
      modifies this
      ensures Valid()
      ensures kf == SpatialKeyframe(timestamp, image, pose, kf.roomId, embedding)
      ensures keyframes == old(keyframes) + [kf]
      ensures kf.roomId in roomCenters
      ensures old(FirstRoomWithin(pose.x, pose.y, 0)).Some? ==>
                kf.roomId == old(FirstRoomWithin(pose.x, pose.y, 0)).value
                && roomCenters == old(roomCenters) && roomCounter == old(roomCounter)
      ensures old(FirstRoomWithin(pose.x, pose.y, 0)).None? ==>
                kf.roomId == old(roomCounter) && roomCenters == old(roomCenters)[kf.roomId := Center(pose.x, pose.y)]
                && roomCounter == old(roomCounter) + 1
      ensures poseHistory == old(poseHistory)
    {
      var roomId := GetOrCreateRoom(pose);
      kf := SpatialKeyframe(timestamp, image, pose, roomId, embedding);
      keyframes := keyframes + [kf];
    }

    /** get_nearby_keyframes: the stored keyframes within `radius`, in stored order. */
    method GetNearbyKeyframes(query: Pose2, radius: real := DefaultNearbyRadius) returns (nearby: seq<SpatialKeyframe>)
      ensures nearby == Filter(keyframes, Near(query, radius))
    {
      var near := Near(query, radius);
      nearby := [];
      var i := 0;
      while i < |keyframes|
        invariant 0 <= i <= |keyframes|
        invariant nearby == Filter(keyframes[..i], near)
      {
        var kf := keyframes[i];
        FilterStep(keyframes, i, near);
        if Abs(query.x - kf.pose.x) <= radius {
          nearby := nearby + [kf];
        }
        i := i + 1;
      }
      assert keyframes[..i] == keyframes;
    }

    /** has_visited_location: some stored keyframe lies within `threshold`. */
    method HasVisitedLocation(query: Pose2, threshold: real := DefaultVisitedThreshold) returns (visited: bool)
      ensures visited <==> exists i | 0 <= i < |keyframes| :: IsNear(query, keyframes[i], threshold)
    {
      var nearby := GetNearbyKeyframes(query, threshold);
      visited := |nearby| > 0;
      if visited {
        assert IsNear(query, nearby[0], threshold);
      }
    }

    /** get_keyframes_in_room: the keyframes of one room, in stored order. */
    function GetKeyframesInRoom(roomId: int): (r: seq<SpatialKeyframe>)
      reads this
      ensures |r| <= |keyframes|
      ensures forall i | 0 <= i < |r| :: r[i] in keyframes && r[i].roomId == roomId
      ensures forall i | 0 <= i < |keyframes| && keyframes[i].roomId == roomId :: keyframes[i] in r
    {
      Filter(keyframes, InRoom(roomId))
    }

    /**
     * get_unvisited_rooms: every known room, plus the room of the current pose
     * (created if new), minus the rooms that hold a keyframe. The source turns
     * the set into a list in unspecified order; the model keeps the set.
     */
    method GetUnvisitedRooms(currentPose: Pose2) returns (unvisited: set<int>)
      requires Valid()
      modifies this
      ensures Valid()
      ensures old(FirstRoomWithin(currentPose.x, currentPose.y, 0)).Some? ==>
                roomCenters == old(roomCenters) && roomCounter == old(roomCounter)
      ensures old(FirstRoomWithin(currentPose.x, currentPose.y, 0)).None? ==>
                roomCenters == old(roomCenters)[old(roomCounter) := Center(currentPose.x, currentPose.y)]
                && roomCounter == old(roomCounter) + 1
      ensures unvisited == roomCenters.Keys - VisitedRooms(keyframes)
      ensures forall id | id in unvisited :: forall i | 0 <= i < |keyframes| :: keyframes[i].roomId != id
      ensures old(FirstRoomWithin(currentPose.x, currentPose.y, 0)).Some? ==>
                (old(FirstRoomWithin(currentPose.x, currentPose.y, 0)).value in unvisited
                 <==> old(FirstRoomWithin(currentPose.x, currentPose.y, 0)).value !in VisitedRooms(keyframes))
      ensures old(FirstRoomWithin(currentPose.x, currentPose.y, 0)).None? ==> old(roomCounter) in unvisited
      ensures keyframes == old(keyframes) && poseHistory == old(poseHistory)
    {
      var visited := VisitedRooms(keyframes);
      var allRooms := roomCenters.Keys;
      var currentRoom := GetOrCreateRoom(currentPose);
      allRooms := allRooms + {currentRoom};
      assert allRooms == roomCenters.Keys;
      unvisited := allRooms - visited;
      if old(FirstRoomWithin(currentPose.x, currentPose.y, 0)).None? {
        assert old(roomCounter) !in visited;
      }
    }

    /** get_spatial_coverage: counts keyframes and the distinct rooms they lie in. */
    method GetSpatialCoverage() returns (c: Coverage)
      ensures c == CoverageOf(keyframes)
    {
      if |keyframes| == 0 {
        return Coverage(0, 0, 0.0);
      }
      var rooms: set<int> := {};
      var i := 0;
      while i < |keyframes|
        invariant 0 <= i <= |keyframes|
        invariant rooms == VisitedRooms(keyframes[..i])
      {
        assert VisitedRooms(keyframes[..i + 1]) == VisitedRooms(keyframes[..i]) + {keyframes[i].roomId} by {
          assert forall j | 0 <= j < i :: keyframes[..i + 1][j] == keyframes[..i][j];
        }
        rooms := rooms + {keyframes[i].roomId};
        i := i + 1;
      }
      assert keyframes[..i] == keyframes;
      VisitedRoomsBounds(keyframes);
      c := Coverage(|keyframes|, |rooms|, (|keyframes| as real) / (|rooms| as real));
    }
  }
}
