# Spatial context for a keyframe-based robot policy: a Dafny model

The repository gives a keyframe-memory robot policy a sense of place. It has four parts:

- **Rigid-transform algebra** (`Transforms`). Camera poses are 4x4 SE(3) matrices. The model covers the validity check, the closed-form inverse, the relative pose aTb from wTa and wTb, extraction of the translation, and building a pose from a translation and a quaternion.
- **Pose ledger** (`Context`). `SpatialContext` records a pose for every frame and promotes some frames to keyframes. For the bird's-eye map it computes several things: where each keyframe lies relative to the current pose, a pixel scale, which keyframes are outliers by mean and standard deviation, and a hue for each keyframe.
- **Room memory** (`Memory`). `SpatialMemoryModule` tags each stored keyframe with a room. Rooms come from first-fit clustering of planar positions. The memory answers spatial queries: nearby keyframes, visited locations, keyframes per room, unvisited rooms and coverage.
- **Drivers**:
  - `Integration` is the mock high-level policy. It picks keyframes either by spatial deduplication or by a visual-only "every fifth" rule.
  - `Approach` models the test script. It covers "MM:SS" keyframe timestamps, the line filter of the pose-file loader, and the frame loop that promotes one keyframe per configured second. Its `int()` follows CPython's default limit of 4300 digits.

Numbers are exact `real`s. Square roots, float parsing and forward kinematics are function parameters: the model uses them but never evaluates them. `Wrappers` holds `Option`/`Result`/`Outcome`. `Seqs` holds the sequence helpers (`Filter`, `Elements`, `Sum`, `Max`, `Min`) that the modules share.

Python exceptions become `Err`/`Fail` values: `TransformError`, `ContextError.FrameNotFound`, `TimestampError`, `LoadError` and `RunError`. Each constructor carries what the source's message names. `TransformError` has three: `InvalidTransform(T)` for extract_displacement, `InvalidPose(a or b)` for compute_relative_pose, and `NotATransform` for transform_inverse, whose message names no matrix.

## Model

| member | source | states |
|---|---|---|
| Transforms.TransformIsValid | src/transforms.py:78-111 | the definition of transform_is_valid: a 4x4 shape, R R^T and R^T R close to I, det R close to 1 and a bottom row close to [0,0,0,1], each by numpy's isclose; WrongShapeIsInvalid and RigidIsValid state what it accepts and rejects |
| Transforms.IsClose | src/transforms.py:103-109 | the definition of numpy.isclose as the checks use it: abs(a - b) <= atol + 1e-5 * abs(b), with numpy's default relative tolerance; NearRotation applies it and OrthonormalIsNear states that an exact rotation passes |
| Transforms.Det3 | src/transforms.py:106 | the definition of np.linalg.det on the rotation block, as the cofactor expansion along the first row; DetProduct states det(XY) = det X * det Y for it |
| Transforms.WrongShapeIsInvalid | src/transforms.py:92-93 | an array that is not 4x4 is never a valid transform, for any tolerance |
| Transforms.RigidIsValid | src/transforms.py:96-111 | an exact SE(3) pose (R^T R = R R^T = I, det R = 1, bottom row [0,0,0,1]) passes the isclose-based check for every tolerance >= 0 |
| Transforms.TransformInverse | src/transforms.py:125-139 | errs, with the message-free NotATransform, exactly when the input fails the check; otherwise the rotation block is R^T, the translation is -R^T p and the bottom row is exactly [0,0,0,1] |
| Transforms.InverseOf | src/transforms.py:128-139 | the closed form [R^T, -R^T p; 0 0 0 1] of transform_inverse; InverseProperties proves it a two-sided inverse of any exact SE(3) pose |
| Transforms.InverseProperties | src/transforms.py:113-139 | for an exact SE(3) pose the inverse succeeds, is a two-sided inverse (inv(T) T = T inv(T) = I) and inverting twice gives T back |
| Transforms.Mul | src/transforms.py:76 | entry (i, j) of a @ b is the dot product of row i of a with column j of b |
| Transforms.MulIdentity | src/spatial_context.py:34-38 | the identity is a left and right unit of @, so a base pose of np.eye(4) changes nothing |
| Transforms.MulAssoc | src/transforms.py:76 | @ is associative on 4x4 matrices |
| Transforms.ComputeRelativePose | src/transforms.py:68-76 | errs exactly when either pose fails the check, naming a when a fails and else b; otherwise the result is inverse(a) @ b |
| Transforms.RelativePoseToSelf | src/transforms.py:57-76 | the pose of an exact SE(3) pose relative to itself is the identity |
| Transforms.RelativePoseComposes | src/transforms.py:57-76 | a @ compute_relative_pose(a, b) == b, so the result is aTb for wTa and wTb |
| Transforms.RelativePoseInverse | src/transforms.py:57-76 | for exact SE(3) poses a and b both relative poses succeed and transform_inverse(compute_relative_pose(b, a)) == compute_relative_pose(a, b) |
| Transforms.ProductIsRigid | src/transforms.py:76 | the product of two exact SE(3) poses is one, so it passes the check at every tolerance |
| Transforms.ProductOrthonormal | src/transforms.py:76 | the rotation block of a product of rotations is orthonormal with determinant 1 |
| Transforms.RotationPreservesDot | src/transforms.py:98-103 | a rotation preserves dot products: (R u) . (R v) == u . v |
| Transforms.DetProduct | src/transforms.py:104-105 | det(X Y) == det X det Y for 3x3 blocks |
| Transforms.ExtractDisplacement | src/transforms.py:52-55 | errs exactly when the input fails the check, naming that matrix; otherwise the result is the three entries above the bottom of the last column |
| Transforms.UnitQuaternionMatrix | src/transforms.py:19-23 | the quaternion formula yields a 3x3 matrix |
| Transforms.QuaternionToRotationMatrix | src/transforms.py:15-25 | the quaternion divided by its norm yields a 3x3 matrix |
| Transforms.PoseFromTranslationQuaternion | src/transforms.py:40-44 | the rotation block is the quaternion's matrix, column 3 holds (tx, ty, tz) and the bottom row is [0,0,0,1] |
| Transforms.IdentityQuaternion | src/transforms.py:19-23 | the identity quaternion (0,0,0,1) gives the pure translation with the identity rotation |
| Transforms.UnitQuaternionIsRotation | src/transforms.py:19-23 | the rotation formula of a unit quaternion is orthonormal with determinant 1 |
| Transforms.UnitQuaternionMatrixIsRotation | src/transforms.py:19-23 | the matrix display of the unit quaternion formula is in SO(3) |
| Transforms.PoseFromQuaternionRoundTrip | src/transforms.py:40-55 | a pose built from a translation and a (normalised) unit quaternion is an exact SE(3) pose, and extract_displacement gives the translation back |
| Context.RelativePosition | src/spatial_context.py:113-115 | a keyframe's planar position fails exactly when compute_relative_pose or extract_displacement raises; otherwise it is the x and y of the relative pose's translation |
| Context.Positions | src/spatial_context.py:110-115 | the positions dictionary has exactly the keyframe ids as keys, each mapped to that keyframe's placement |
| Context.PositionsFail | src/spatial_context.py:112-115 | building the positions raises exactly when some keyframe cannot be placed |
| Context.PositionsFirstError | src/spatial_context.py:112-115 | the first keyframe that raises decides the error, whatever follows it |
| Context.Distances | src/spatial_context.py:121-122 | one distance per keyframe id, in dictionary order, each the norm of its position |
| Context.Distance | src/spatial_context.py:121 | the definition of one keyframe's distance, np.sqrt(x**2 + y**2), with the square root as a parameter; Distances states that each entry is this value |
| Context.InlierDistances | src/spatial_context.py:146 | the inlier distances are exactly the distances of ids outside the outlier set |
| Context.Outliers | src/spatial_context.py:143 | every outlier is one of the keyframe ids |
| Context.OutlierIff | src/spatial_context.py:143 | an id is an outlier exactly when its distance exceeds the threshold |
| Context.MeanAtLeastMin | src/spatial_context.py:132 | np.mean of the distances is at least their minimum |
| Context.Mean | src/spatial_context.py:132 | the definition of np.mean of a non-empty list, its sum over its length; MeanAtLeastMin states its lower bound |
| Context.Variance | src/spatial_context.py:133 | the definition of the population variance (numpy's ddof 0), whose square root is np.std; the outlier threshold is built from it |
| Context.MeanAtLeast | src/spatial_context.py:132 | np.mean of the distances is at least any lower bound of them |
| Context.MinimumNotOutlier | src/spatial_context.py:140-143 | the nearest keyframe lies within mean + k * std for k, std >= 0 |
| Context.ScaleBound | src/spatial_context.py:99 | a distance no greater than max_dist is scaled to at most the usable radius |
| Context.ScaleAntitone | src/spatial_context.py:99 | a farther maximum distance gives a smaller scale |
| Context.HueInRange | src/spatial_context.py:161-162 | every scheduled hue int(180 * i / n) lies in OpenCV's range 0..179 |
| Context.Hue | src/spatial_context.py:162 | the definition of int(180 * i / n) on naturals, floor division being truncation there; HueInRange and HueMonotone state its range and order |
| Context.HueMonotone | src/spatial_context.py:161-162 | hues never decrease along the schedule, and they strictly increase when n <= 180, so the hues are then distinct |
| Context.SpatialContext.constructor | src/spatial_context.py:16-27 | stores the configuration, defaulting to no relocalization, a 256-pixel image, an 8-pixel border and an outlier threshold of 5 standard deviations; there are no frames, no keyframes and the frame counter is 0 |
| Context.SpatialContext.ComputePose | src/spatial_context.py:30-40 | the definition of _compute_pose: the base pose, np.eye(4) when absent, times forward_kinematics(state); ComputePoseWithoutBase states the no-base case |
| Context.SpatialContext.ComputePoseWithoutBase | src/spatial_context.py:34-40 | without a SLAM base pose the camera pose is the forward-kinematics pose itself |
| Context.SpatialContext.AddFrame | src/spatial_context.py:53-59 | returns the old frame count, which is a fresh id, and increments the count; adds exactly that id with pose base @ FK(state) to all_poses and leaves the keyframes unchanged; keyframes stay a subset of frames |
| Context.SpatialContext.PromoteToKeyframe | src/spatial_context.py:63-65 | fails with FrameNotFound exactly for an unknown frame; otherwise keyframe_poses[id] = all_poses[id] and nothing else changes |
| Context.SpatialContext.RemoveKeyframe | src/spatial_context.py:69 | never fails; removes only that id from the keyframes (so it is idempotent) and leaves all_poses alone |
| Context.SpatialContext.GetCurrentPose | src/spatial_context.py:73-76 | the identity before any frame, otherwise the pose stored under the largest frame id |
| Context.SpatialContext.ComputeScale | src/spatial_context.py:93-99 | 50.0 below 1e-6; otherwise scale * max_dist equals the usable radius (image_size - 2 * border_size) / 2 - margin |
| Context.SpatialContext.DefaultUsableRadius | src/spatial_context.py:82-94 | with the default 256 px image, 8 px border and 10 px margin the usable radius is 110 px |
| Context.SpatialContext.ScaledDistanceFits | src/spatial_context.py:93-99 | every distance up to max_dist is drawn within the usable radius |
| Context.SpatialContext.ScaleDecreasing | src/spatial_context.py:93-99 | the scale is positive and shrinks as the farthest distance grows |
| Context.SpatialContext.LayoutOf | src/spatial_context.py:117-151 | the definition of the layout after the positions loop: ({}, 50.0, {}) without keyframes, else the distance-based layout; LayoutKeepsPositions and MapLayoutEmpty state its cases |
| Context.SpatialContext.LayoutKeepsPositions | src/spatial_context.py:117-151 | every branch of the layout keeps the positions dictionary unchanged |
| Context.SpatialContext.DistanceLayout | src/spatial_context.py:124-151 | the definition of the three branches after the distances: fewer than five samples, a deviation below 1e-6, or the outlier test; NoOutliersWithoutEvidence, OutlierCase and ScaleFitsFarthestInlier state them |
| Context.SpatialContext.OutlierLayout | src/spatial_context.py:140-151 | keeps every position, and the outliers are exactly the ids beyond the threshold |
| Context.SpatialContext.MapLayoutEmpty | src/spatial_context.py:117-118 | without keyframes the layout is ({}, 50.0, {}) |
| Context.SpatialContext.MapLayoutPositions | src/spatial_context.py:110-115 | a computed layout holds exactly the keyframe ids, each at its position relative to the current pose |
| Context.SpatialContext.NoOutliersWithoutEvidence | src/spatial_context.py:124-137 | with fewer than five keyframes, or a standard deviation below 1e-6, there are no outliers and every position is kept |
| Context.SpatialContext.OutliersAreKeyframes | src/spatial_context.py:143 | every outlier id is a keyframe id |
| Context.SpatialContext.OutlierCase | src/spatial_context.py:140-143 | in the statistical case the outliers are exactly the ids with d > mean + k * std |
| Context.SpatialContext.NearestIsInlier | src/spatial_context.py:140-146 | with k >= 0 the nearest keyframe is never an outlier |
| Context.SpatialContext.ScaleFitsFarthestInlier | src/spatial_context.py:124-149 | with k >= 0, in every branch the inlier distances are non-empty and the scale is _compute_scale of their maximum, so the fallback to max(dist_values) at line 147 is never taken |
| Context.SpatialContext.OutlierLayoutScale | src/spatial_context.py:145-149 | once one id is an inlier, the scale is _compute_scale of the farthest inlier distance |
| Context.SpatialContext.InliersWithinCanvas | src/spatial_context.py:145-149 | with k >= 0 and a non-negative usable radius, when the farthest inlier is at least 1e-6 away every inlier distance times the scale is at most the usable radius, so every inlier is drawn on the canvas |
| Context.SpatialContext.FarthestInlierFits | src/spatial_context.py:145-149 | a scale computed from the farthest inlier distance m >= 1e-6 puts every inlier within the usable radius |
| Context.SpatialContext.ScaleOnRadius | src/spatial_context.py:93-99 | for max_dist >= 1e-6 the scale is non-negative and scale * max_dist is the usable radius |
| Context.InliersBelowMax | src/spatial_context.py:146-147 | every inlier distance is at most max(inlier_distances) |
| Context.InliersWithoutOutliers | src/spatial_context.py:146 | with no outliers the inlier distances are all the distances, in order |
| Context.InliersFit | src/spatial_context.py:145-149 | a non-negative scale that maps a bound of the inlier distances onto r maps every inlier within r |
| Context.MinIndex | src/spatial_context.py:140-143 | some index holds a smallest distance |
| Context.SpatialContext.OutliersFartherThanInliers | src/spatial_context.py:143-146 | every outlier lies strictly farther out than every inlier |
| Context.SpatialContext.DistancesConsistent | src/spatial_context.py:121-122 | equal ids carry equal distances, as they do coming from one dictionary |
| Context.SpatialContext.MapLayout | src/spatial_context.py:101-151 | the definition of _compute_map_layout's result: the error of the first keyframe that cannot be placed, else the layout of the computed positions; MapLayoutEmpty and MapLayoutPositions state its contents |
| Context.SpatialContext.ComputeMapLayout | src/spatial_context.py:101-151 | the positions loop followed by the statistics is exactly the layout of the current keyframes, or the error of the first keyframe that cannot be placed |
| Context.SpatialContext.GenerateHues | src/spatial_context.py:157-162 | no hues for n <= 0; otherwise n hues with hue i = int(180 * i / n) |
| Memory.RoomIds | filippo/spatial_memory.py:106 | the room id of every keyframe, in order |
| Memory.VisitedRooms | filippo/spatial_memory.py:106 | the definition of the set of room ids of the keyframes; VisitedRoomsBounds and UnvisitedIffNoKeyframes state its size and meaning |
| Memory.InRoomRadius | filippo/spatial_memory.py:146-147 | the definition of the room test sqrt((x - cx)^2 + (y - cy)^2) < room_threshold, compared on squares for a positive threshold |
| Memory.IsNear | filippo/spatial_memory.py:89-93 | the definition of the nearby test as written: the distance keeps the (qy - qy) term, so only abs(qx - kx) <= radius decides; NearbyIgnoresY states the consequence |
| Memory.CoverageOf | filippo/spatial_memory.py:124-134 | the definition of the coverage summary: zeros for no keyframes, else their count, the number of visited rooms and keyframes per room; CoverageBounds states its bounds |
| Memory.VisitedRoomsBounds | filippo/spatial_memory.py:106-133 | there are never more visited rooms than keyframes, and at least one when a keyframe exists |
| Memory.UnvisitedIffNoKeyframes | filippo/spatial_memory.py:98-113 | a room is unvisited exactly when get_keyframes_in_room finds nothing for it |
| Memory.NearbyIgnoresY | filippo/spatial_memory.py:91 | two queries with the same x find the same nearby keyframes, because the y term (qy - qy) is always zero |
| Memory.CoverageBounds | filippo/spatial_memory.py:124-135 | all zeros when empty; otherwise num_keyframes = len(keyframes), 1 <= num_rooms <= num_keyframes and the average number of keyframes per room is at least 1 |
| Memory.SpatialMemoryModule.constructor | filippo/spatial_memory.py:42-51 | stores the room threshold, 2.0 by default, with no keyframes, no pose history, no rooms and a room counter of 0 |
| Memory.SpatialMemoryModule.Update | filippo/spatial_memory.py:53-56 | records the pose under the given time and changes nothing else |
| Memory.SpatialMemoryModule.FirstRoomWithin | filippo/spatial_memory.py:145-148 | the first room in insertion order whose centre is strictly within the threshold, or none when no room is |
| Memory.SpatialMemoryModule.GetOrCreateRoom | filippo/spatial_memory.py:137-155 | returns the first room within the threshold and changes nothing; else creates room room_counter centred at (x, y) and increments the counter; room ids stay exactly 0..room_counter-1 |
| Memory.SpatialMemoryModule.AddKeyframe | filippo/spatial_memory.py:58-80 | appends exactly one keyframe carrying the given time, image, pose and embedding, whose room is that of _get_or_create_room and is a known room; the room map and counter change as _get_or_create_room's do |
| Memory.SpatialMemoryModule.GetNearbyKeyframes | filippo/spatial_memory.py:82-96 | the stored keyframes with \|qx - kx\| <= radius (3.0 by default), in stored order |
| Memory.SpatialMemoryModule.HasVisitedLocation | filippo/spatial_memory.py:115-120 | true exactly when some stored keyframe is within the threshold (1.0 by default) |
| Memory.SpatialMemoryModule.GetKeyframesInRoom | filippo/spatial_memory.py:98-100 | exactly the stored keyframes of that room, in stored order |
| Memory.SpatialMemoryModule.GetUnvisitedRooms | filippo/spatial_memory.py:102-113 | the room map and counter change exactly as in _get_or_create_room (unchanged when a room is within the threshold, else one new room centred at the pose); the result is all rooms, the current pose's room included, minus the rooms of stored keyframes; the current pose's room is in it exactly when no keyframe has that room, which always holds for a new room |
| Memory.SpatialMemoryModule.GetSpatialCoverage | filippo/spatial_memory.py:122-135 | the loop's counts are the coverage metrics of the stored keyframes, which CoverageBounds bounds |
| Integration.SpatialStep | filippo/test_integration.py:23-36 | the definition of one spatial-mode frame on the recorded poses: record the pose unless a recorded one lies within 1.5 in x; SpatialStepSpread states its properties |
| Integration.SpatialRun | filippo/test_integration.py:72-74 | the definition of the recorded poses after a trajectory, one SpatialStep per pose; SpatialRunSpread states its properties |
| Integration.VisualStep | filippo/test_integration.py:28-42 | the definition of one visual-mode frame on the keyframe count: one more when the count is a multiple of 5 |
| Integration.VisualRun | filippo/test_integration.py:72-79 | the definition of the count after a number of frames; VisualRunStuck and VisualRunFromEmpty state its properties |
| Integration.SpatialStepSpread | filippo/test_integration.py:23-36 | one spatial step records at most one pose and keeps the recorded poses pairwise more than 1.5 apart in x |
| Integration.SpatialRunSpread | filippo/test_integration.py:72-74 | over a whole trajectory the recorded poses stay pairwise more than 1.5 apart in x, and there are no more of them than poses |
| Integration.VisualRunStuck | filippo/test_integration.py:28-42 | once the keyframe count is not a multiple of 5, the visual rule never selects again |
| Integration.VisualRunFromEmpty | filippo/test_integration.py:28-42 | starting empty, any non-empty trajectory ends with exactly one visual keyframe |
| Integration.DemoSpatialRun | filippo/test_integration.py:56-74 | on the demo trajectory spatial mode keeps only the first and third poses: location 3 differs from location 1 only in y, which the nearby test ignores |
| Integration.DemoVisualRun | filippo/test_integration.py:56-79 | on the demo trajectory visual mode keeps one keyframe |
| Integration.PosesOf | filippo/spatial_memory.py:71-79 | the poses of the stored keyframes, in order |
| Integration.MockMemERHighLevel.constructor | filippo/test_integration.py:13-15 | spatial mode exactly when asked, with a fresh, empty spatial memory using the default 2.0 m room threshold, and no visual keyframes |
| Integration.MockMemERHighLevel.ShouldSelectKeyframe | filippo/test_integration.py:17-28 | in spatial mode, select exactly when no stored keyframe lies within 1.5 in x; in visual mode, select exactly when the keyframe count is a multiple of 5 |
| Integration.MockMemERHighLevel.ProcessFrame | filippo/test_integration.py:30-43 | in spatial mode: when the pose is near a stored keyframe, the keyframes, rooms and counter are unchanged; otherwise exactly one keyframe (time, image, pose, no embedding, the room of _get_or_create_room) is appended, with the rooms changed as that call changes them; pose_history and the visual list never change. In visual mode the visual list grows by the frame exactly when its length is a multiple of 5 |
| Integration.MockMemERHighLevel.ProcessTrajectory | filippo/test_integration.py:72-79 | after a whole trajectory the spatial memory's poses are the spatial run, and the visual count is the visual run |
| Integration.SpatialPolicyRun | filippo/test_integration.py:68-74 | a fresh spatial policy records the spatial run of the trajectory, pairwise spread and no longer than the trajectory |
| Integration.VisualPolicyRun | filippo/test_integration.py:69-79 | a fresh visual policy ends with 0 keyframes for an empty trajectory and 1 otherwise |
| Approach.SplitBy | scripts/test_approach.py:73 | splitting gives at least one piece, and no piece contains a separator |
| Approach.Split | scripts/test_approach.py:51 | the definition of str.split(":") as SplitBy on one character; JoinSplit states that joining the pieces gives back the string |
| Approach.SplitCount | scripts/test_approach.py:51-53 | str.split(c) gives one more part than there are c's, so "exactly two parts" means "exactly one colon" |
| Approach.JoinSplit | scripts/test_approach.py:51 | joining the parts of str.split(c) with c gives the string back |
| Approach.SplitJoin | scripts/test_approach.py:51 | splitting what was joined from separator-free parts gives the parts back |
| Approach.Words | scripts/test_approach.py:73 | str.split() yields non-empty pieces without whitespace |
| Approach.WordsOfJoin | scripts/test_approach.py:73 | words joined by single spaces split back into those words |
| Approach.StripLeftSpec | scripts/test_approach.py:73 | the leading run of whitespace is dropped, and only that |
| Approach.StripRightSpec | scripts/test_approach.py:73 | the trailing run of whitespace is dropped, and only that |
| Approach.StripSpec | scripts/test_approach.py:73 | str.strip() keeps a slice that neither starts nor ends with whitespace, and drops only whitespace |
| Approach.Strip | scripts/test_approach.py:73 | the definition of str.strip(), removing leading then trailing whitespace; StripSpec states what it keeps |
| Approach.ParseIntRejects | scripts/test_approach.py:54 | int() raises on "", " ", "-", "_1", "1_", "1__0" and "- 1" |
| Approach.ParseIntAccepts | scripts/test_approach.py:54 | int() accepts " 7\n", "+12" and "-1_0" (-10) |
| Approach.ParseSignedBody | scripts/test_approach.py:54 | a sign followed by a digit body of at most 4300 digits parses to the body's value, negated for '-' |
| Approach.TwoDigitValue | scripts/test_approach.py:54 | two plain digits spell ten times the first plus the second |
| Approach.ParseDigits | scripts/test_approach.py:54 | a non-empty run of plain digits parses to the number it spells, leading zeros included, when it has at most 4300 digits; a longer run is rejected |
| Approach.NatToString | scripts/test_approach.py:54 | str(n) is a non-empty run of digits without a leading zero |
| Approach.NatToStringValue | scripts/test_approach.py:54 | the digits of str(n) spell n |
| Approach.ParseIntRoundTrip | scripts/test_approach.py:54 | int(str(n)) == n and int("-" + str(n)) == -n when str(n) has at most 4300 digits; above that int() rejects both |
| Approach.ParseNegatedDigits | scripts/test_approach.py:54 | "-" followed by a non-empty run of plain digits parses to minus its value, when the run has at most 4300 digits; a longer run is rejected |
| Approach.DigitCountOfDigits | scripts/test_approach.py:54 | the digit count that the 4300-digit limit measures is the length of a plain digit string |
| Approach.NatToStringLength | scripts/test_approach.py:54 | str(n) has at most k digits exactly when n < 10^k, so the 4300-digit limit admits exactly n < 10^4300 |
| Approach.ParseInt | scripts/test_approach.py:54 | the definition of int() on a string: strip, then an optional sign and digits with single underscores between digits, and at most 4300 digits; ParseIntRejects, ParseIntAccepts, ParseDigits and ParseIntRoundTrip state what it accepts |
| Approach.ParseSigned | scripts/test_approach.py:54 | the definition of int() after stripping: an optional + or - sign, a digit body with single underscores and at most 4300 digits, negated for -; ParseSignedBody and ParseSignedMinus state its value on signed digits |
| Approach.ParseTimestamp | scripts/test_approach.py:49-55 | the definition of parse_timestamp: the format error unless there are exactly two parts, else each part's int() error, else minutes * 60 + seconds; ParseTimestampSpec states it |
| Approach.ParseTimestampSpec | scripts/test_approach.py:49-55 | raises the format error exactly when the string does not hold exactly one colon; otherwise it raises for the first part int() rejects, and else returns minutes * 60 + seconds |
| Approach.SplitTimestamp | scripts/test_approach.py:51 | "MM:SS" with colon-free parts splits into exactly [MM, SS] |
| Approach.ParseTimestampDigits | scripts/test_approach.py:49-55 | two plain digit strings around a colon give minutes * 60 + seconds; a part longer than 4300 digits raises that part's int() error, minutes first |
| Approach.ParseTimestampRoundTrip | scripts/test_approach.py:49-55 | str(minutes) + ":" + str(seconds) parses back to minutes * 60 + seconds, unless a part exceeds 4300 digits, when that part's int() error is raised, minutes first |
| Approach.SecondsNotRangeChecked | scripts/test_approach.py:54-55 | seconds are not range-checked: "00:75" is 75 |
| Approach.WrongPartCounts | scripts/test_approach.py:51-53 | "90" and "01:02:03" raise the format error |
| Approach.KitchenFirstKeyframe | scripts/test_approach.py:34 | the kitchen test's "00:23" is second 23 |
| Approach.KitchenSecondKeyframe | scripts/test_approach.py:34 | the kitchen test's "01:04" is second 64 |
| Approach.KitchenThirdKeyframe | scripts/test_approach.py:34 | the kitchen test's "01:30" is second 90 |
| Approach.ParseAll | scripts/test_approach.py:101 | succeeds exactly when every timestamp parses, each value being that timestamp's seconds; otherwise the error is that of the first timestamp that fails |
| Approach.MapResults | scripts/test_approach.py:101 | a left-to-right map that stops at the first failure: it succeeds exactly when every element succeeds, with the values in order, and otherwise gives the first failing element's error |
| Approach.KeyframeSeconds | scripts/test_approach.py:101 | the set succeeds exactly when every timestamp parses; it holds each parsed value and nothing else; otherwise the error is that of the first timestamp that fails |
| Approach.KeyframeSecondsOf | scripts/test_approach.py:101 | when every timestamp parses, the keyframe seconds are the set of the parsed values |
| Approach.ParseFloats | scripts/test_approach.py:77-78 | succeeds exactly when float() accepts every token, with a value for each; otherwise the error names the first token float() rejects |
| Approach.ParseLine | scripts/test_approach.py:73-81 | the definition of one kept line: float() of fields 1 to 7, then the pose; ParseLineSpec states it |
| Approach.PoseOfFields | scripts/test_approach.py:79-81 | the definition of the pose of seven fields: pose_from_translation_quaternion, or ZeroQuaternion for a zero norm |
| Approach.ParseLineSpec | scripts/test_approach.py:77-81 | a kept line with a field float() rejects fails with NotAFloat of the first such field; a parsed pose has every field accepted, translation fields 1 to 3 and bottom row [0,0,0,1] |
| Approach.LoadKept | scripts/test_approach.py:71-83 | the definition of the loading loop for a line filter and a parser of the kept lines; LoadKeptAll and LoadKeptFirstFailure state it |
| Approach.LoadKeptAll | scripts/test_approach.py:71-83 | the loop succeeds exactly when every kept line parses, with one value per kept line, in order |
| Approach.LoadKeptFirstFailure | scripts/test_approach.py:71-83 | when the loop fails, the error is that of the first kept line that does not parse |
| Approach.DpvoPoses | scripts/test_approach.py:70-83 | the definition of the loader on the file's lines, as LoadKept with the eight-field filter and ParseLine; DpvoPosesKept and DpvoPosesFirstFailure state it |
| Approach.HasEightFields | scripts/test_approach.py:73-75 | the definition of the line filter: line.strip().split() has exactly eight words |
| Approach.KeptLines | scripts/test_approach.py:73-75 | the definition of the lines the loader keeps, in order, those with eight fields; DpvoPosesKept states the loader parses exactly these |
| Approach.DpvoPosesKept | scripts/test_approach.py:71-83 | exactly the lines with 8 whitespace-separated fields are kept, in file order: loading succeeds exactly when each kept line parses, with one pose per kept line |
| Approach.DpvoPosesFirstFailure | scripts/test_approach.py:71-83 | when loading fails, the error is that of the first kept line that does not parse, every earlier kept line parsing |
| Approach.DpvoPosesFirstError | scripts/test_approach.py:71-83 | an error on some line is the error of the whole file |
| Approach.LoadDpvoPoses | scripts/test_approach.py:58-83 | the loop's result is the loaded poses or the first error, as DpvoPosesKept describes |
| Approach.TokensLineKept | scripts/test_approach.py:73-75 | eight whitespace-free tokens separated by spaces form a kept line and split back into those tokens |
| Approach.JoinEnds | scripts/test_approach.py:73 | a join of non-empty parts starts with the first part's first character and ends with the last part's last |
| Approach.Range | scripts/test_approach.py:144-148 | the frame indices 0..n-1 |
| Approach.SecondsOf | scripts/test_approach.py:158 | the second of each frame, frame // 30 |
| Approach.RunTest | scripts/test_approach.py:143-199 | the frame loop's pose indices, promoted frame ids and promoted seconds are those RunOf describes, and so is its error |
| Approach.PromotionStep | scripts/test_approach.py:158-175 | a frame is promoted exactly when its second is configured and not yet promoted, which is when it is the first frame of that second; the promoted seconds grow by exactly that second |
| Approach.NoPosesOnly | scripts/test_approach.py:162-164 | the pose lookup fails exactly when there are no poses |
| Approach.PoseIndex | scripts/test_approach.py:162-163 | the definition of the pose index: int(frame_idx * poses_per_frame) clamped to num_poses - 1; PoseIndexInRange states its range |
| Approach.Trunc | scripts/test_approach.py:162 | the definition of int() on a float, truncation toward zero; PoseIndexInRange relates the pose index to it |
| Approach.PoseIndexInRange | scripts/test_approach.py:122-164 | with at least one pose, int(frame_idx * poses_per_frame) already lies in [0, num_poses - 1], so the clamp never changes it |
| Approach.PoseIndicesInRange | scripts/test_approach.py:162-164 | every processed frame's pose index lies in [0, num_poses - 1] |
| Approach.FilterIncreasing | scripts/test_approach.py:173 | filtering a strictly increasing list keeps it strictly increasing |
| Approach.PromotedMembership | scripts/test_approach.py:170-173 | a frame is promoted exactly when it is the first frame of a configured second |
| Approach.PromotedOrder | scripts/test_approach.py:167-173 | promoted_frame_ids is strictly increasing, their seconds strictly increase, and every one is configured |
| Approach.PromotedCount | scripts/test_approach.py:170-175 | each configured second is promoted at most once, so there are at most \|keyframe_seconds\| promotions |
| Approach.SecondsIncrease | scripts/test_approach.py:158 | distinct multiples of 30 lie in distinct seconds, in the same order |
| Approach.PromotedSeconds | scripts/test_approach.py:170-175 | promoted_seconds is exactly the set of the promoted frames' seconds |
| Approach.RunOf | scripts/test_approach.py:111-175 | the definition of the frame loop's outcome: ZeroDivisionError for no frames, IndexError when a frame is read with no poses, else the processed frames' indices and promotions; RunOfErrors, RunOfPromotions and RunOfPoseIndices state it |
| Approach.RunOfErrors | scripts/test_approach.py:111-164 | the run raises on a video with no frames, and, once a frame is read, on an empty pose list, and in no other case |
| Approach.RunOfPromotions | scripts/test_approach.py:146-175 | otherwise every frame up to the end of the video or the first failed read is processed; the promotions are the first frames of configured seconds, and the promoted seconds are theirs |
| Approach.RunOfPoseIndices | scripts/test_approach.py:162-164 | every processed frame gets the clamped pose index of its frame index |
| Seqs.Filter | filippo/spatial_memory.py:89-96 | a filtered list holds elements of the list that satisfy the test, and every such element |
| Seqs.Max | src/spatial_context.py:127-147 | Python's max of a non-empty list: an element no smaller than any other |
| Seqs.Min | src/spatial_context.py:140-143 | the smallest element of a non-empty list |
| Seqs.SumAtLeastMin | src/spatial_context.py:132 | the sum is at least the length times any lower bound |

## Left out

- Floating point. All arithmetic is exact over `real`. The model leaves out numpy's rounding, `np.isreal` (every entry is real here), and the NaN and infinity cases.
- `np.sqrt` is a function parameter `sqrt`: in the map distances, in the standard deviation (`sqrt(Variance)`) and in the quaternion norm. The model makes no assumption about it, so properties that need the square root's own laws are stated on what `sqrt` returns.
- Transforms.TransformIsValid: the source's det test uses `np.linalg.det`; the model takes the exact cofactor determinant of the 3x3 block and compares it with numpy's isclose rule (atol plus 1e-5 times |b|).
- Transforms.PoseFromQuaternionRoundTrip: the lemma requires that dividing q by `norm` gives a unit quaternion, rather than deriving it from `norm` being the square root of the squared length. The solver cannot close that nonlinear step.
- Transforms.QuaternionToRotationMatrix: a zero quaternion (norm 0) divides by zero in the source and yields NaN entries. Here the function requires nonzero norm, and the loader reports `ZeroQuaternion` instead.
- `RobotArm.forward_kinematics` is not part of this model. `robot_arm.py` is not available, so forward kinematics is the uninterpreted parameter `forwardKinematics` of `SpatialContext`.
- `SpatialContext.relocalization` is stored but never used by the modelled operations. The `robot_arm` instance enters only through its `forward_kinematics` method, which `_compute_pose` (src/spatial_context.py:34-40) calls and `ComputePose` models with the parameter `forwardKinematics`.
- `generate_map`: the drawing is unfinished (it builds a canvas, prints the colours and returns nothing) and is OpenCV raster work, so it is left out. From `_generate_colors` only the integer hue schedule is kept. The model does not include `cv2.cvtColor` or the saturation and value constants.
- Context.SpatialContext.GetCurrentPose: it picks the frame `frameCount - 1`. The invariant `Valid` says frame ids are exactly `0..frameCount-1`, and under it that frame is the largest id.
- Context.SpatialContext.NearestIsInlier requires that equal ids carry equal distances (`Consistent`). That always holds for the distances `LayoutOf` computes (`DistancesConsistent`). The `else 1.0` at src/spatial_context.py:127 is unreachable in the model too, because it only runs with a keyframe present.
- `keyframe_poses` is a dictionary whose iteration order matters for the colour index. The model keeps that insertion order as the field `keyframeOrder`.
- `time.time()` is a parameter (`timestamp`, `clock`) in `SpatialMemoryModule.Update`, `SpatialMemoryModule.AddKeyframe` and the mock policy.
- `visualize_memory` produces only text, so it is left out, and so are all `print` output and the demo's report lines (filippo/test_integration.py:37-43, 81-91).
- Memory.InRoomRadius: the room test `sqrt(dx^2 + dy^2) < threshold` is stated on squared distances, as `threshold > 0` and `dx^2 + dy^2 < threshold^2`. These two formulations agree for the real square root.
- Memory.SpatialMemoryModule.GetOrCreateRoom does not state that a new room's centre is within its own radius. The solver cannot show that `threshold * threshold > 0` inside this frame.
- `get_unvisited_rooms` returns a Python list built from a set, in unspecified order. The model returns the set.
- Memory.CoverageOf: `np.mean` of the per-room counts is taken as the number of keyframes divided by the number of rooms, which is the same value. The model has no dictionary of counts.
- Embeddings and images are opaque sequences, carried along and never inspected.
- `int()` and `str.split()`/`str.strip()` are modelled for ASCII. Unicode digits and Unicode whitespace, which Python also accepts, are not.
- `float()` on a pose-file token is a parameter `toFloat`. The model does not describe decimal float syntax.
- Approach.DpvoPosesKept and Approach.LoadDpvoPoses: reading the file is left out, so the loader works on the file's lines. A zero-norm quaternion becomes the error `ZeroQuaternion`, whereas the source carries on with NaN entries.
- Approach.ParseLine, Approach.PoseOfFields and Approach.DpvoPoses: for the same reason, a kept line whose quaternion has norm 0 gives `ZeroQuaternion`, which stops the loader; the source divides by zero and keeps a pose of NaN entries.
- Approach.ParseInt: `MaxStrDigits` is CPython's default limit of 4300 digits. The model does not follow the `PYTHONINTMAXSTRDIGITS` variable or `sys.set_int_max_str_digits`, which change the limit, nor Python versions before 3.11, which have none.
- Approach.NatToString: `str(n)` raises ValueError for n >= 10^4300 in the source. The model's `NatToString` still returns the digits; ParseIntRoundTrip states that int() rejects them.
- Approach.RunTest: the video capture is left out. `totalFrames` is what `CAP_PROP_FRAME_COUNT` reports, and `readable` is the first frame index at which `cap.read` fails. The loop's frames are not stored in a `SpatialContext`, because `add_frame_with_pose` (scripts/test_approach.py:167) does not exist in src/spatial_context.py. The model assumes that call hands out frame ids from 0, one per processed frame, as `add_frame` does.
- For the same reason, the model leaves out the tuple-returning `generate_map`, `watermark_keyframes`, the map resizing, the video writer and the keyframe image files (scripts/test_approach.py:174-197).
- Approach.KitchenFirstKeyframe, Approach.KitchenSecondKeyframe and Approach.KitchenThirdKeyframe state the kitchen timestamps one by one; their set {23, 64, 90} follows from KeyframeSecondsOf.
- The rest of the repository is not part of this model: `src/localization.py` (DPVO and GPU inference), `src/pose.py` (a MuJoCo stub) and the demo scripts.
