# Particle Life: a verified model of the simulation core

Particle Life is a desktop particle simulation. Many particles, each of some
*type*, live in the unit square. They attract or repel each other according
to a square *interaction matrix* indexed by their two types. The space is
either periodic ("wrap") or clamped at its edges.

This Dafny project models the part of the program that does not draw
anything:

- **The simulation backend:**
  - the physics object: particle count, matrix size, type repair, the spatial
    grid of containers that particles are sorted into, and connection and
    position rules;
  - the interaction matrix and the physics settings;
  - the periodic/clamped range arithmetic;
  - the frame clock's ring buffer of timings;
  - the even partition of work into batches.
- **The application logic around it:**
  - setting the number of particles of each type;
  - the deterministic matrix generators and the type-setting rules;
  - colour palettes and their file format;
  - the matrix and particle text formats;
  - the settings file mapping and the physics snapshot;
  - the selection manager, the shader list built from its configuration;
  - cursors and their selection;
  - the camera, screen and world coordinate maps.

Every `double` and `float` is a `real`, with exact arithmetic. Randomness and
the clock are parameters or nondeterministic choices. Number printing and parsing are an abstract pair of functions
(`enc`/`fmt` and `dec`). Streams and files are strings.
An exception the source throws, such as the array index that fails on a
particle type outside [0, size), is a `Fail` outcome naming its cause, or a
`None`/null result without a cause where the member's row says so (the file
readers, the selection and shader list factories, the "rotate" type setter
and the as-written palette lookup).

Modules:

- `Wrappers`, `Vectors`, `Particles`, `Transforms`, `Text`, `Histograms`
  and `Buckets` are shared vocabulary:
  - option and outcome types;
  - vectors and the particle class;
  - 4×4 affine matrices;
  - splitting and joining text;
  - type histograms;
  - the stable bucket layout used by the container sort.
- Every other module follows one source file, or one small group of source
  files.

## Model

Paths are relative to the repository root.

| member | source | states |
|---|---|---|
| MathUtils.ClampInt | src/main/java/com/particle_life/app/utils/MathUtils.java:5-13 | for min ≤ max the result lies in [min, max]; a value already inside is returned unchanged; a value below min gives min; the result is always the value, min or max |
| MathUtils.ClampReal | src/main/java/com/particle_life/app/utils/MathUtils.java:15-23 | the same four facts for doubles |
| MathUtils.Modulo | src/main/java/com/particle_life/app/utils/MathUtils.java:25-38 | for b > 0 the repeated add/subtract loop ends with a result in [0, b) that is the Euclidean remainder of a by b; an a already in [0, b) is returned as is |
| MathUtils.Lerp | src/main/java/com/particle_life/app/utils/MathUtils.java:40-42 | the interpolation gives a at f = 0 and b at f = 1 |
| MathUtils.LerpBetween | src/main/java/com/particle_life/app/utils/MathUtils.java:40-42 | for f in [0, 1] the interpolated value lies between a and b, whichever is larger |
| MathUtils.TolerantFloor | src/main/java/com/particle_life/app/utils/MathUtils.java:52-58 | the nearest integer when the value is within the threshold of it, otherwise the floor; so the result is the floor or, only when the value is that close below it, floor + 1; integers are returned unchanged |
| MathUtils.TolerantCeil | src/main/java/com/particle_life/app/utils/MathUtils.java:67-71 | the nearest integer within the threshold, otherwise the ceiling; ceiling − 1 only when that close above it; integers unchanged |
| ArrayUtils.Swap | src/main/java/com/particle_life/app/utils/ArrayUtils.java:5-9 | the two entries trade places, every other entry is unchanged, and the array's contents are a permutation of the old ones |
| ArrayUtils.SwappedIsPermutation | src/main/java/com/particle_life/app/utils/ArrayUtils.java:5-9 | swapping two entries keeps the multiset of the sequence |
| ArrayUtils.SwappedSelfAndTwice | src/main/java/com/particle_life/app/utils/ArrayUtils.java:5-9 | swapping an entry with itself changes nothing, and swapping the same pair twice restores the sequence |
| ArrayUtils.FirstIndexWithLess | src/main/java/com/particle_life/app/utils/ArrayUtils.java:11-23 | the result is −1 exactly when a[k] ≥ b[k] everywhere; otherwise it is an index with a[r] < b[r] and no earlier such index |
| ArrayUtils.FirstIndexWithLessUnique | src/main/java/com/particle_life/app/utils/ArrayUtils.java:11-23 | any value meeting that description equals the specification function, so the search result is determined |
| ArrayUtils.FindFirstIndexWithLess | src/main/java/com/particle_life/app/utils/ArrayUtils.java:15-23 | the scanning loop returns −1 exactly when no a[k] < b[k], else the first index where a[k] < b[k] |
| ArrayUtils.DeficitExists | src/main/java/com/particle_life/app/utils/ArrayUtils.java:15-23 | when sum(a) < sum(b) the search always finds an index |
| Range.Wrapped | src/main/java/com/particle_life/backend/Range.java:46-57 | the wrapped coordinate lies in [0, 1) and differs from the input by a whole number |
| Range.WrapScalar | src/main/java/com/particle_life/backend/Range.java:46-57 | the two do/while loops end with the wrapped coordinate in [0, 1) |
| Range.WrappedFixesUnitInterval | src/main/java/com/particle_life/backend/Range.java:46-57 | values already in [0, 1) are left alone, so wrapping is idempotent |
| Range.WrappedPeriodic | src/main/java/com/particle_life/backend/Range.java:46-57 | wrapping is periodic with period 1: shifting by an integer does not change the result |
| Range.Wrap | src/main/java/com/particle_life/backend/Range.java:40-44 | the given vector is overwritten in place with its wrapped value, so afterwards it lies in the unit square |
| Range.WrappedVector | src/main/java/com/particle_life/backend/Range.java:40-57 | the value `wrap` leaves has both coordinates in [0, 1) and z = 0, and equals the input exactly when the input already lies in the unit square |
| Range.WrapConnectionScalar | src/main/java/com/particle_life/backend/Range.java:74-81 | a difference in (−1, 1) is moved into [−0.5, 0.5) by adding or subtracting at most one period, and a difference already there is kept |
| Range.WrapConnectionShortest | src/main/java/com/particle_life/backend/Range.java:59-81 | for two points in [0, 1) the wrapped connection is the shortest one: it lies in [−0.5, 0.5) and wraps to the same point as the plain difference |
| Range.WrapConnection | src/main/java/com/particle_life/backend/Range.java:68-72 | the given vector is overwritten in place with its folded connection |
| Range.FoldedConnection | src/main/java/com/particle_life/backend/Range.java:68-81 | both components of a connection in (−1, 1) are brought into [−0.5, 0.5), and z becomes 0 |
| Range.ClampScalar | src/main/java/com/particle_life/backend/Range.java:89-96 | the result lies in [0, 1]; values below 0 become 0, above 1 become 1, and values inside are kept |
| Range.Clamp | src/main/java/com/particle_life/backend/Range.java:83-87 | the given vector is overwritten in place with its clamped value |
| Range.Clamped | src/main/java/com/particle_life/backend/Range.java:83-96 | x and y are clamped into [0, 1] and z becomes 0; a point inside the unit square keeps x and y |
| Range.ClampIdempotent | src/main/java/com/particle_life/backend/Range.java:83-96 | clamping twice is clamping once |
| Range.DocumentedExamples | src/main/java/com/particle_life/backend/Range.java:12-27 | the documented examples: wrapping (0.4, −0.3, 2.0) gives (0.4, 0.7, 0); clamping (0.4, −1.3, 2.0) gives z = 0, as the code does |
| Matrices.DefaultMatrix.constructor | src/main/java/com/particle_life/backend/DefaultMatrix.java:8-15 | an n × n matrix of zeros |
| Matrices.DefaultMatrix.Zero | src/main/java/com/particle_life/backend/DefaultMatrix.java:17-23 | every entry becomes 0 |
| Matrices.DefaultMatrix.Randomize | src/main/java/com/particle_life/backend/DefaultMatrix.java:25-31 | every entry becomes some value in [−1, 1) |
| Matrices.DefaultMatrix.Set | src/main/java/com/particle_life/backend/DefaultMatrix.java:43-46 | exactly entry (i, j) changes, to v |
| Matrices.DefaultMatrix.DeepCopy | src/main/java/com/particle_life/backend/DefaultMatrix.java:48-60 | a fresh matrix with its own storage, the same size and the same entries |
| Matrices.DefaultMatrix.Equals | src/main/java/com/particle_life/backend/DefaultMatrix.java:62-83 | true exactly when the other matrix is present, has the same size and has the same entries |
| Settings.PhysicsSettings.constructor | src/main/java/com/particle_life/backend/PhysicsSettings.java:5-41 | the defaults: wrap on, rmax 0.02, friction 0.85, force 1, dt 0.02 as a float, and a 6 × 6 zero matrix |
| Settings.PhysicsSettings.DeepCopy | src/main/java/com/particle_life/backend/PhysicsSettings.java:43-54 | a fresh settings object with a fresh matrix, equal field by field |
| Settings.PhysicsSettings.Equals | src/main/java/com/particle_life/backend/PhysicsSettings.java:56-71 | true exactly when the other object is present and equal field by field, the matrix by its entries |
| PhysicsEngine.Truncate | src/main/java/com/particle_life/backend/Physics.java:363-364 | the Java (int) cast rounds toward zero: it is the floor for non-negative values and the ceiling for negative ones |
| PhysicsEngine.CellsPerSide | src/main/java/com/particle_life/backend/Physics.java:82-85 | the corrected container count per side is at least 1; it equals floor(1 / rmax) whenever rmax ≤ 1 |
| PhysicsEngine.ContainerIndexInRange | src/main/java/com/particle_life/backend/Physics.java:362-375 | with the corrected count, every position in the world square maps to a container index in [0, nx·ny) |
| PhysicsEngine.ContainerIndexNegative | src/main/java/com/particle_life/backend/Physics.java:82-85 | as written, rmax = 2 gives nx = 0, and the centre of the world then gets container index −1 |
| PhysicsEngine.WrapContainer | src/main/java/com/particle_life/backend/Physics.java:377-395 | a neighbour cell index at most one period outside [0, n) is wrapped into [0, n); indices inside are kept |
| PhysicsEngine.WrapContainerRemainder | src/main/java/com/particle_life/backend/Physics.java:377-395 | on that domain the wrap is the Euclidean remainder by n and is idempotent |
| PhysicsEngine.EnsuredFixedPoints | src/main/java/com/particle_life/backend/Physics.java:481-505 | repairing a position puts it in bounds (wrapped or clamped), leaves it alone exactly when it is already in bounds, is idempotent, and lands in the world square |
| PhysicsEngine.ResizedMatrix | src/main/java/com/particle_life/backend/Physics.java:243-253 | the new matrix keeps the old entries in the overlapping block, and every other entry is one the generator could produce |
| PhysicsEngine.Shuffle | src/main/java/com/particle_life/backend/Physics.java:278-280 | shuffling permutes the particles |
| PhysicsEngine.CountPerCell | src/main/java/com/particle_life/backend/Physics.java:328-332 | the histogram loop counts, for each container, the particles whose position falls into it |
| PhysicsEngine.CountsToOffsets | src/main/java/com/particle_life/backend/Physics.java:334-340 | the prefix-sum loop turns counts into exclusive prefix sums |
| PhysicsEngine.OffsetsAreStarts | src/main/java/com/particle_life/backend/Physics.java:334-340 | those prefix sums are exactly the start positions of the containers' runs in the sorted buffer |
| PhysicsEngine.ScatterIntoCells | src/main/java/com/particle_life/backend/Physics.java:342-348 | the scatter loop writes the stable bucket layout into the buffer, and leaves each container counter at the end of its run |
| PhysicsEngine.SortedByCell | src/main/java/com/particle_life/backend/Physics.java:342-348 | that layout is a permutation of the particles with container k occupying exactly the run that ends at the k-th counter |
| PhysicsEngine.SortIntoCells | src/main/java/com/particle_life/backend/Physics.java:328-348 | the whole counting sort: the buffer is a permutation of the particles, grouped by container, and each counter marks the end of its container's run |
| Buckets.LaidIsPermutation | src/main/java/com/particle_life/backend/Physics.java:342-348 | laying out all buckets in order is a permutation of the input |
| Buckets.LaidSorted | src/main/java/com/particle_life/backend/Physics.java:342-348 | in that layout every particle of bucket k sits inside bucket k's run, and the runs follow each other in key order |
| PhysicsEngine.Physics.constructor | src/main/java/com/particle_life/backend/Physics.java:51-80 | the given matrix generator and type setter (the shorthand constructor passes the random one), the default settings, a 6 × 6 matrix filled by the matrix generator, container size 0.065 with 15 × 15 containers, and 10000 freshly spawned particles |
| PhysicsEngine.Physics.GenerateMatrix | src/main/java/com/particle_life/backend/Physics.java:170-176 | a fresh matrix of the same size whose entries the generator could produce; the other settings are unchanged |
| PhysicsEngine.Physics.SetParticleCount | src/main/java/com/particle_life/backend/Physics.java:190-223 | the array gets the requested length: the same array when unchanged, a shuffled selection of the old particles when shrinking, and the old particles followed by freshly spawned ones when growing; growing throws, with the array unchanged, exactly when the type setter throws |
| PhysicsEngine.Physics.ShuffledPrefix | src/main/java/com/particle_life/backend/Physics.java:201-210 | shrinking keeps n distinct particles drawn from the old ones |
| PhysicsEngine.Physics.Extended | src/main/java/com/particle_life/backend/Physics.java:212-219 | growing keeps the old particles at the front and adds freshly spawned, distinct ones, unless the type setter throws |
| PhysicsEngine.Physics.EnsureTypes | src/main/java/com/particle_life/backend/Physics.java:266-272 | exactly the particles whose type is at or above the matrix size get a type the installed type setter gives for their position, velocity and old type; every other type, and every position and velocity, is unchanged; under a range-restoring rule with at least one type the new types are in range; "rotate" with zero types throws exactly when some type is at or above 0, before any type changes |
| PhysicsEngine.Physics.SetMatrixSize | src/main/java/com/particle_life/backend/Physics.java:238-258 | an unchanged size keeps the matrix; otherwise a fresh matrix of the new size keeps the overlapping block and fills the rest from the generator; on shrinking, the out-of-range types are replaced by types the installed type setter gives (in range under a range-restoring rule), and nothing else changes; only "rotate" shrinking to zero types throws, with no type changed |
| PhysicsEngine.Physics.MakeContainers | src/main/java/com/particle_life/backend/Physics.java:309-354 | corrected (see ## Findings): the container size becomes rmax, with floor(1 / rmax) containers per side but at least 1; the particles are permuted into container order, with the counters marking each container's run; the old array becomes the buffer |
| PhysicsEngine.Physics.SortAndSwap | src/main/java/com/particle_life/backend/Physics.java:328-353 | the sorted buffer and the particle array trade places; the new array is a container-ordered permutation of the old one |
| PhysicsEngine.Physics.InitArrays | src/main/java/com/particle_life/backend/Physics.java:319-326 | the container and buffer arrays are reused when their lengths already fit and reallocated otherwise |
| PhysicsEngine.Physics.Connection | src/main/java/com/particle_life/backend/Physics.java:460-470 | without wrap, the plain difference; with wrap and points in the unit square, each component lies in [−0.5, 0.5) and wraps to the plain difference |
| PhysicsEngine.Physics.EnsurePosition | src/main/java/com/particle_life/backend/Physics.java:499-505 | the vector is repaired in place by the wrap or clamp rule, so it is in bounds |
| PhysicsEngine.Physics.SetType | src/main/java/com/particle_life/backend/Physics.java:305-307 | only the type changes, to one the installed type setter gives for the particle's position, velocity and old type; it throws, changing nothing, exactly for "rotate" with zero types |
| PhysicsEngine.Physics.SetPosition | src/main/java/com/particle_life/backend/Physics.java:297-303 | the position becomes an in-bounds position, the velocity becomes zero, and the type is kept |
| PhysicsEngine.Physics.GenerateParticle | src/main/java/com/particle_life/backend/Physics.java:290-295 | a fresh particle with an in-bounds position, zero velocity and a type the type setter gives a new particle; it throws exactly when the type setter does |
| TypeCounts.GetTypeCount | src/main/java/com/particle_life/app/ExtendedPhysics.java:18-25 | passes exactly when every particle type lies in [0, size), and then returns a fresh array holding the number of particles of each type, summing to the particle count; otherwise it fails with a type outside [0, size) that some particle has, where the array index throws |
| TypeCounts.Tally | src/main/java/com/particle_life/app/ExtendedPhysics.java:21-23 | the counting loop adds one per particle to its type's entry, and stops with a failure at the first type outside [0, n) |
| Histograms.HistogramSum | src/main/java/com/particle_life/app/ExtendedPhysics.java:18-25 | a type histogram of in-range types sums to the number of particles |
| TypeCounts.CeilDiv | src/main/java/com/particle_life/app/ExtendedPhysics.java:33 | the result is the ceiling of n / k |
| TypeCounts.AsWrittenSum | src/main/java/com/particle_life/app/ExtendedPhysics.java:32-35 | the as-written targets always sum to n |
| TypeCounts.NegativeTargetExample | src/main/java/com/particle_life/app/ExtendedPhysics.java:32-35 | as written, 10 particles and 7 types give the last type a target of −2, which no histogram can meet |
| TypeCounts.IdealTypeCountProperties | src/main/java/com/particle_life/app/ExtendedPhysics.java:32-35 | the corrected targets each lie in [0, ceil(n / k)], sum to n, and agree with the written code whenever its last target is non-negative |
| TypeCounts.SetTypeCountEqual | src/main/java/com/particle_life/app/ExtendedPhysics.java:27-38 | corrected (see ## Findings): with fewer than two types nothing changes; otherwise it fails exactly when some particle type lies outside [0, size), leaving the same particles only shuffled, and on success the particle count is kept and the new histogram is the ceil-capped split: ceil(n / k) particles per type, in type order, until the particles run out |
| TypeCounts.SetTypeCount | src/main/java/com/particle_life/app/ExtendedPhysics.java:40-132 | with fewer than two types nothing changes; a count array of the wrong length is an error naming both lengths that changes nothing; a particle type outside [0, size) is an error after the shuffle that leaves the same particles permuted, always when the total is unchanged and never when every type is in range; on success the particle count becomes the sum of the counts and the histogram equals the requested counts |
| TypeCounts.ShuffleParticles | src/main/java/com/particle_life/app/ExtendedPhysics.java:138-140 | the particles are permuted and their types stay in range |
| TypeCounts.SetTypeCountNewTotal | src/main/java/com/particle_life/app/ExtendedPhysics.java:55-112 | when the total changes, the new array has the requested total and histogram; its first entries are old particles and the rest are fresh; it fails only on a type outside [0, size) that the partition reaches, leaving the same array permuted, and never when every type is in range |
| TypeCounts.KeepWanted | src/main/java/com/particle_life/app/ExtendedPhysics.java:62-81 | the two-pointer partition permutes the particles so that a prefix holds, per type, at most the wanted number, and reports that prefix's histogram; a failure names a type outside [0, size) that a particle has, and with every type in range it passes |
| TypeCounts.CopyAndFill | src/main/java/com/particle_life/app/ExtendedPhysics.java:83-95 | the new array keeps the old particles at the front and fills the rest with fresh, distinct particles |
| TypeCounts.AssignDeficitTypes | src/main/java/com/particle_life/app/ExtendedPhysics.java:97-110 | the fill loop gives every new particle a type still below its target and a fresh position; afterwards the histogram equals the targets, and the kept particles are untouched |
| TypeCounts.AssignDeficitType | src/main/java/com/particle_life/app/ExtendedPhysics.java:100-109 | one new particle gets the first type below its target, and that type's count goes up by one |
| TypeCounts.SetTypeCountSameTotal | src/main/java/com/particle_life/app/ExtendedPhysics.java:114-131 | when the total is unchanged, it fails exactly when some type lies outside [0, size), before any particle changes; otherwise only types change and the histogram becomes the requested counts |
| TypeCounts.RebalanceCounted | src/main/java/com/particle_life/app/ExtendedPhysics.java:118-130 | given the histogram from `getTypeCount`, the loop reaches the requested histogram and keeps every position and velocity |
| TypeCounts.RebalanceInPlace | src/main/java/com/particle_life/app/ExtendedPhysics.java:116-130 | the in-place loop reaches the requested histogram, and it only moves particles from a type that had too many to a type that had too few |
| TypeCounts.RunFinish | src/main/java/com/particle_life/app/ExtendedPhysics.java:118-130 | the specification of that loop, run to the end, yields the target histogram and moves particles only from surplus types to deficit types |
| TypeCounts.DeficitWhileSurplus | src/main/java/com/particle_life/app/ExtendedPhysics.java:119-123 | while some type has a surplus and the totals agree, the search for a deficit type always succeeds, so the index is never −1 |
| Histograms.SurplusMeansDeficit | src/main/java/com/particle_life/app/ExtendedPhysics.java:119-123 | two count vectors with equal sums: if one entry exceeds its target, some entry falls short of its own |
| Histograms.BoundedWithEqualSum | src/main/java/com/particle_life/app/ExtendedPhysics.java:98-110 | counts that are nowhere above their targets and have the same sum are equal to them |
| Generators.MakeFullyRandom | src/main/java/com/particle_life/backend/DefaultMatrixGenerator.java:6-10 | a fresh matrix whose entries lie in [−1, 1) |
| Generators.MakeSymmetric | src/main/java/com/particle_life/app/MatrixGeneratorProvider.java:17-26 | the "symmetry" generator: a symmetric matrix with entries in [−1, 1) |
| Generators.AdjacentSymmetric | src/main/java/com/particle_life/app/MatrixGeneratorProvider.java:27-38 | the chain neighbour relation (i ± 1 modulo the size) is symmetric |
| Generators.ChainsSymmetric | src/main/java/com/particle_life/app/MatrixGeneratorProvider.java:27-68 | the "chains", "chains 2" and "chains 3" patterns are symmetric matrices |
| Generators.MakeChains | src/main/java/com/particle_life/app/MatrixGeneratorProvider.java:27-68 | the nested loops fill every entry with the chain pattern: the diagonal, the two cyclic neighbours and the rest with their own values |
| Generators.SnakesShape | src/main/java/com/particle_life/app/MatrixGeneratorProvider.java:70-76 | in "snakes" the diagonal is 1 and the next type (cyclically) is 0.2; for a single type the 0.2 written last wins |
| Generators.MakeSnakes | src/main/java/com/particle_life/app/MatrixGeneratorProvider.java:70-77 | the loop fills every entry with the snakes pattern |
| Generators.MakeMatrix | src/main/java/com/particle_life/app/MatrixGeneratorProvider.java:14-79 | each named generator produces a matrix of its own shape: random entries in [−1, 1), symmetric random entries, or the deterministic pattern, and "zero" gives all zeros |
| TypeSetters.Constrain | src/main/java/com/particle_life/app/TypeSetterProvider.java:39-41 | a type is clamped into [0, nTypes); an in-range type is kept |
| TypeSetters.MapType | src/main/java/com/particle_life/app/TypeSetterProvider.java:43-45 | the mapped type lies in [0, nTypes) |
| TypeSetters.MapTypeUnit | src/main/java/com/particle_life/app/TypeSetterProvider.java:43-45 | the mapped type is floor(value · nTypes), bracketing value · nTypes |
| TypeSetters.MapTypeMonotone | src/main/java/com/particle_life/app/TypeSetterProvider.java:43-45 | mapping is monotone in the value |
| TypeSetters.RandomizeTenPercent | src/main/java/com/particle_life/app/TypeSetterProvider.java:15-17 | with a draw of 0.1 or more the type is kept; otherwise a type in [0, nTypes) is drawn |
| TypeSetters.Slices | src/main/java/com/particle_life/app/TypeSetterProvider.java:18-20 | the type is the vertical slice the x-coordinate falls into |
| TypeSetters.Onion | src/main/java/com/particle_life/app/TypeSetterProvider.java:21-23 | the type is in range, and type 0 is at the centre |
| TypeSetters.OnionDistance | src/main/java/com/particle_life/app/TypeSetterProvider.java:21-23 | the type is `mapType` of twice the Euclidean distance from the centre, for the distance that squares to the squared distance |
| TypeSetters.OnionLayers | src/main/java/com/particle_life/app/TypeSetterProvider.java:21-23 | farther from the centre never means a lower type |
| TypeSetters.Rotate | src/main/java/com/particle_life/app/TypeSetterProvider.java:24-26 | the next type, cyclically; with zero types the Java remainder throws, which is the None result |
| TypeSetters.RotateCycle | src/main/java/com/particle_life/app/TypeSetterProvider.java:24-26 | rotating k times adds k modulo nTypes |
| TypeSetters.Flip | src/main/java/com/particle_life/app/TypeSetterProvider.java:27-29 | flipping maps [0, nTypes) into itself |
| TypeSetters.FlipInvolution | src/main/java/com/particle_life/app/TypeSetterProvider.java:27-29 | flipping twice gives the type back, so every type is the flip of one |
| TypeSetters.MoreOfFirst | src/main/java/com/particle_life/app/TypeSetterProvider.java:30-32 | the result is in range and never above the type the second draw alone would give |
| TypeSetters.KillStill | src/main/java/com/particle_life/app/TypeSetterProvider.java:33-35 | a particle slower than 0.01 becomes the last type; a faster one keeps its type |
| TypeSetters.Apply | src/main/java/com/particle_life/app/TypeSetterProvider.java:13-36 | a rule fails exactly when it is "rotate" with zero types |
| TypeSetters.ApplyInRange | src/main/java/com/particle_life/app/TypeSetterProvider.java:13-36 | for in-range inputs every rule succeeds with a type in [0, nTypes) |
| TypeSetters.RandomType | src/main/java/com/particle_life/backend/DefaultTypeSetter.java:8-10 | the random type is in [0, nTypes) for a positive nTypes, and in [nTypes, 0] otherwise |
| TypeSetters.RandomTypeReachesAll | src/main/java/com/particle_life/backend/DefaultTypeSetter.java:8-10 | every type of [0, nTypes) comes from some draw |
| TypeSetters.RandomGivesExactly | src/main/java/com/particle_life/backend/DefaultTypeSetter.java:8-10 | the random setter gives exactly the types of [0, nTypes), whatever the particle |
| TypeSetters.GivesInRange | src/main/java/com/particle_life/app/TypeSetterProvider.java:13-36 | a type any rule gives a particle with an in-range type is in range |
| TypeSetters.RestoredInRange | src/main/java/com/particle_life/app/TypeSetterProvider.java:13-36 | random, slices, onion, more of first and rotate give an in-range type even to a non-negative type at or above nTypes |
| TypeSetters.OutOfRangeSurvives | src/main/java/com/particle_life/app/TypeSetterProvider.java:13-36 | the other rules do not: with 3 types, flip gives type 5 exactly −3, kill still gives a moving particle exactly 5 back, and randomize 10% can keep 5 |
| Palettes.Interpolate | src/main/java/com/particle_life/app/color/InterpolatingPalette.java:37-48 | colour interpolation gives the first colour at 0 and the second at 1 |
| Palettes.InterpolateBetween | src/main/java/com/particle_life/app/color/InterpolatingPalette.java:37-48 | for a factor in [0, 1] each channel lies between the two colours' channels |
| Palettes.ClampedType | src/main/java/com/particle_life/app/color/InterpolatingPalette.java:14-20 | the type is clamped into [0, n) and kept when already inside |
| Palettes.ExactIndex | src/main/java/com/particle_life/app/color/InterpolatingPalette.java:22 | the exact index is len · t / n: non-negative, below len, and 0 for type 0 |
| Palettes.AboveLastMeans | src/main/java/com/particle_life/app/color/InterpolatingPalette.java:22-25 | the exact index passes the last colour exactly when len · t > (len − 1) · n |
| Palettes.GetColorAsWritten | src/main/java/com/particle_life/app/color/InterpolatingPalette.java:12-35 | as written, the lookup fails (an out-of-bounds read) exactly when ceil of the exact index reaches the colour count |
| Palettes.FewerColoursThanTypes | src/main/java/com/particle_life/app/color/InterpolatingPalette.java:22-31 | as written, whenever there are fewer colours than types the last type reads past the end |
| Palettes.TwoColoursThreeTypes | src/main/java/com/particle_life/app/color/InterpolatingPalette.java:22-31 | the concrete case: two colours and three types make type 2 read index 2 |
| Palettes.GetColorAgrees | src/main/java/com/particle_life/app/color/InterpolatingPalette.java:12-35 | wherever the written code succeeds, the corrected lookup returns the same colour |
| Palettes.GetColorShape | src/main/java/com/particle_life/app/color/InterpolatingPalette.java:12-35 | the corrected lookup never fails: type 0 or a single type gives the first colour; an integral index gives that colour; otherwise the colour interpolates between the two neighbours; past the last colour it is the last colour |
| Palettes.ParseColor | src/main/java/com/particle_life/app/color/PalettesProvider.java:84-105 | a line parses exactly when it splits on spaces into three integers, and the colour is opaque |
| Palettes.ParseColorLine | src/main/java/com/particle_life/app/color/PalettesProvider.java:84-105 | printing three integers separated by spaces and parsing them back gives that colour |
| Palettes.PaletteLinesJoin | src/main/java/com/particle_life/app/color/PalettesProvider.java:63 | splitting a palette file into lines recovers the lines, with "\n" or "\r\n" endings |
| Palettes.PaletteOf | src/main/java/com/particle_life/app/color/PalettesProvider.java:61-82 | a parsed palette always has at least one colour |
| Palettes.ParsePalette | src/main/java/com/particle_life/app/color/PalettesProvider.java:61-82 | the line loop collects the colours of the lines that parse, and gives none when no line does |
| Palettes.PaletteRoundTrip | src/main/java/com/particle_life/app/color/PalettesProvider.java:61-105 | a file written as one colour per line reads back as exactly those colours |
| Palettes.PaletteItem | src/main/java/com/particle_life/app/color/PalettesProvider.java:40-56 | a palette file gives an item exactly when it could be read and parsed; the item carries the file name and an interpolating palette of at least one colour |
| Palettes.LoadedColors | src/main/java/com/particle_life/app/color/PalettesProvider.java:33-59 | every loaded palette interpolates at least one colour |
| Palettes.LoadedAll | src/main/java/com/particle_life/app/color/PalettesProvider.java:33-59 | when every file reads and parses, one item per file is loaded, in listing order, under the file's name |
| Palettes.LoadPalettesFromFiles | src/main/java/com/particle_life/app/color/PalettesProvider.java:33-59 | the loop keeps exactly the readable, parsable files in listing order |
| Palettes.Create | src/main/java/com/particle_life/app/color/PalettesProvider.java:18-31 | the rainbow palette comes first, followed by the loaded palettes when the directory could be listed |
| Text.JavaSplitJoin | src/main/java/com/particle_life/app/MatrixParser.java:29 | splitting text joined by one separator, with non-empty separator-free pieces, gives the pieces back, as Java's String.split does |
| Text.ParseIntToString | src/main/java/com/particle_life/app/color/PalettesProvider.java:94 | a 32-bit integer's decimal text parses back to it |
| MatrixParsing.ISqrt | src/main/java/com/particle_life/app/MatrixParser.java:41 | the size is the integer square root: r² ≤ n < (r + 1)², and 0 only for no numbers |
| MatrixParsing.ISqrtOfSquare | src/main/java/com/particle_life/app/MatrixParser.java:41 | a square count n² gives size n |
| MatrixParsing.CollectNumbers | src/main/java/com/particle_life/app/MatrixParser.java:30-39 | the loop keeps the whitespace-separated parts that parse as numbers, in order |
| MatrixParsing.NumbersAreReadings | src/main/java/com/particle_life/app/MatrixParser.java:29-39 | the numbers found are the readings of the text's whitespace-separated tokens |
| MatrixParsing.ParseMatrix | src/main/java/com/particle_life/app/MatrixParser.java:28-53 | no numbers gives null; otherwise a matrix whose size is the integer square root of the count, filled row-major from the numbers |
| MatrixParsing.FillRowMajor | src/main/java/com/particle_life/app/MatrixParser.java:46-51 | the nested loops give entry (i, j) the number at i · n + j |
| MatrixParsing.MatrixToStringWith | src/main/java/com/particle_life/app/MatrixParser.java:63-74 | the text is each row's formatted entries separated by tabs, one row per line |
| MatrixParsing.MatrixToString | src/main/java/com/particle_life/app/MatrixParser.java:55-57 | the plain encoder writes the matrix text with the given number format |
| MatrixParsing.MatrixToStringRoundAndFormat | src/main/java/com/particle_life/app/MatrixParser.java:59-61 | the rounding encoder writes the same text with each number padded on the left |
| MatrixParsing.PadLeft | src/main/java/com/particle_life/app/MatrixParser.java:16 | padding keeps the text as a suffix, reaches the width, and adds only spaces |
| MatrixParsing.ParseMatrixText | src/main/java/com/particle_life/app/MatrixParser.java:28-74 | the text of an n × n matrix holds n² numbers, so parsing recovers size n and the numbers in row-major order |
| MatrixParsing.MatrixToStringRoundTrip | src/main/java/com/particle_life/app/MatrixParser.java:28-74 | parsing the plain text of a matrix gives back its size and, entry by entry, the decoded numbers |
| MatrixParsing.RoundAndFormatRoundTrip | src/main/java/com/particle_life/app/MatrixParser.java:28-74 | the same round trip through the padded encoder |
| MatrixFiles.LoadMatrix | src/main/java/com/particle_life/app/io/MatrixIO.java:10-25 | null exactly where the Java stream throws: some cell fails to parse or some row is shorter than the row count; otherwise an n × n matrix of the parsed rows |
| MatrixFiles.FillRows | src/main/java/com/particle_life/app/io/MatrixIO.java:18-24 | the nested loops copy the rows in, or give null when a row is too short |
| MatrixFiles.SaveMatrix | src/main/java/com/particle_life/app/io/MatrixIO.java:27-42 | the text is tab-separated cells, one line per row |
| MatrixFiles.SaveLoadRoundTrip | src/main/java/com/particle_life/app/io/MatrixIO.java:10-42 | with a decoder that inverts the encoder, the saved text parses back to exactly the rows |
| MatrixFiles.SaveThenLoad | src/main/java/com/particle_life/app/io/MatrixIO.java:10-42 | saving and loading a matrix gives a fresh matrix of the same size and entries |
| ParticleFiles.SaveParticles | src/main/java/com/particle_life/app/io/ParticlesIO.java:32-48 | the text is the header line, then one tab-separated line per particle |
| ParticleFiles.ParseParticleLine | src/main/java/com/particle_life/app/io/ParticlesIO.java:12-28 | a parsed line always gives z = 0 for position and velocity |
| ParticleFiles.ParseParticles | src/main/java/com/particle_life/app/io/ParticlesIO.java:8-30 | on success one particle per line after the header |
| ParticleFiles.LoadParticles | src/main/java/com/particle_life/app/io/ParticlesIO.java:8-30 | null exactly where the Java stream throws (`loadParticles` itself never returns null): some data line has fewer than five fields or a field that does not parse; otherwise fresh, distinct particles holding the parsed states |
| ParticleFiles.MakeParticles | src/main/java/com/particle_life/app/io/ParticlesIO.java:14-29 | one fresh particle per parsed state, in order |
| ParticleFiles.LineRoundTrip | src/main/java/com/particle_life/app/io/ParticlesIO.java:12-42 | a saved particle line parses back to the particle, with z set to 0 |
| ParticleFiles.LineSplit | src/main/java/com/particle_life/app/io/ParticlesIO.java:38-42 | a saved line has no line break and splits on tabs into exactly its five fields |
| ParticleFiles.SaveLoadRoundTrip | src/main/java/com/particle_life/app/io/ParticlesIO.java:8-48 | the saved text of any particle list loads back as that list, with z set to 0 |
| SettingsToml.BoundariesName | src/main/java/com/particle_life/app/PhysicsSettingsToml.java:20 | the boundary mode is "periodic" exactly when wrap is on, and "clamped" otherwise |
| SettingsToml.BoundariesRoundTrip | src/main/java/com/particle_life/app/PhysicsSettingsToml.java:20-28 | reading the name back gives the wrap flag; any other string means clamped |
| SettingsToml.PhysicsSettingsToml.constructor | src/main/java/com/particle_life/app/PhysicsSettingsToml.java:9-16 | the file defaults: periodic, rmax 0.02, friction 0.85, force 1 |
| SettingsToml.PhysicsSettingsToml.ToPhysicsSettings | src/main/java/com/particle_life/app/PhysicsSettingsToml.java:27-34 | applying the file sets wrap, rmax, friction and force, and leaves dt and the matrix alone |
| SettingsToml.FromPhysicsSettings | src/main/java/com/particle_life/app/PhysicsSettingsToml.java:18-25 | the file object records the boundary name and the three numbers |
| SettingsToml.SaveThenApply | src/main/java/com/particle_life/app/PhysicsSettingsToml.java:18-34 | saving settings and applying the result to other settings copies wrap, rmax, friction and force |
| Snapshots.Fill | src/main/java/com/particle_life/app/PhysicsSnapshot.java:48-64 | the loop records each particle's position, velocity and type at its slots in the flat buffers |
| Snapshots.PhysicsSnapshot.constructor | src/main/java/com/particle_life/app/PhysicsSnapshot.java:7-22 | an empty snapshot without buffers |
| Snapshots.PhysicsSnapshot.Write | src/main/java/com/particle_life/app/PhysicsSnapshot.java:36-65 | buffers are reused when their length fits and reallocated otherwise, and then hold every particle's state |
| Snapshots.PhysicsSnapshot.Take | src/main/java/com/particle_life/app/PhysicsSnapshot.java:24-34 | the snapshot holds every particle's state, a deep copy of the settings and the particle count; it passes exactly when every type lies in [0, size), with the type histogram and the time, and otherwise fails with a stray type, keeping the old histogram and time |
| Snapshots.PhysicsSnapshot.Record | src/main/java/com/particle_life/app/PhysicsSnapshot.java:26-28 | the buffers hold every particle's state and the settings are a fresh copy equal to the original |
| Snapshots.PhysicsSnapshot.Count | src/main/java/com/particle_life/app/PhysicsSnapshot.java:30-33 | the particle count, then either a fresh type histogram and the time stamp, or a failure with a stray type that leaves both as they were |
| Shaders.RemoveFirst | src/main/java/com/particle_life/app/shaders/ShaderProvider.java:33 | removing the configuration file's name from the listing removes one occurrence and nothing else |
| Shaders.FillDefaults | src/main/java/com/particle_life/app/shaders/ShaderProvider.java:46-55 | a nameless entry gets the numbered "unnamed" label, and a missing description becomes empty; the files and the blend mode are kept |
| Shaders.UnnamedLabel | src/main/java/com/particle_life/app/shaders/ShaderProvider.java:49 | a label is never empty |
| Shaders.UnnamedLabelInjective | src/main/java/com/particle_life/app/shaders/ShaderProvider.java:49 | different counters give different labels |
| Shaders.NameEntries | src/main/java/com/particle_life/app/shaders/ShaderProvider.java:43-56 | the naming loop with its counter fills in every entry in order |
| Shaders.NamesFilled | src/main/java/com/particle_life/app/shaders/ShaderProvider.java:43-56 | two nameless entries never receive the same name |
| Shaders.NamelessName | src/main/java/com/particle_life/app/shaders/ShaderProvider.java:43-56 | the k-th entry, if nameless, is labelled with its position among the nameless entries |
| Shaders.DefaultsUsable | src/main/java/com/particle_life/app/shaders/ShaderProvider.java:20-27 | the default shader is usable exactly when "default.vert" and "default.geom" are listed, as the code names the default fragment file |
| Shaders.AllListed | src/main/java/com/particle_life/app/shaders/ShaderProvider.java:62-70 | true exactly when every named file is in the listing |
| Shaders.ProvidedAll | src/main/java/com/particle_life/app/shaders/ShaderProvider.java:58-91 | when every entry's files exist and every shader builds, one item per entry, in order |
| Shaders.ProvidedListed | src/main/java/com/particle_life/app/shaders/ShaderProvider.java:58-91 | every provided item comes from an entry whose files are listed and whose shader builds |
| Shaders.Create | src/main/java/com/particle_life/app/shaders/ShaderProvider.java:30-92 | without the configuration file there is no list; otherwise the named entries whose files exist and whose shaders build |
| Selections.SelectionManager.Create | src/main/java/com/particle_life/app/selection/SelectionManager.java:14-21 | an empty item list is refused; otherwise the manager holds the items with the first one active |
| Selections.SelectionManager.SetActive | src/main/java/com/particle_life/app/selection/SelectionManager.java:51-61 | an out-of-range index is an error that changes nothing; otherwise the index becomes active, and only a real change is counted |
| Selections.SelectionManager.SetActiveByName | src/main/java/com/particle_life/app/selection/SelectionManager.java:63-69 | an unknown name is an error that changes nothing; otherwise the first item of that name becomes active |
| Selections.SelectionManager.Step | src/main/java/com/particle_life/app/selection/SelectionManager.java:80-82 | the active index moves by the step, modulo the item count |
| Selections.SelectionManager.StepForward | src/main/java/com/particle_life/app/selection/SelectionManager.java:84-86 | the next item, wrapping from the last to the first |
| Selections.SelectionManager.StepBackward | src/main/java/com/particle_life/app/selection/SelectionManager.java:88-90 | the previous item, wrapping from the first to the last |
| Selections.SelectionManager.Add | src/main/java/com/particle_life/app/selection/SelectionManager.java:98-105 | the item is appended; adding to an empty list counts as a change |
| Selections.SelectionManager.AddAll | src/main/java/com/particle_life/app/selection/SelectionManager.java:107-114 | the items are appended in order; adding to an empty list counts as a change |
| Selections.SelectionManager.GetIndexByName | src/main/java/com/particle_life/app/selection/SelectionManager.java:134-143 | the scan returns −1 exactly when no item has the name, else the first index that has it |
| Selections.SelectionManager.HasName | src/main/java/com/particle_life/app/selection/SelectionManager.java:123-125 | true exactly when some item has the name |
| Selections.FirstNamedMeaning | src/main/java/com/particle_life/app/selection/SelectionManager.java:127-143 | the name search's specification: −1 exactly when the name is absent, else its first occurrence |
| Cursors.Sample | src/main/java/com/particle_life/app/cursors/CircleCursorShape.java:50-55 | every shape samples a point inside itself, in the plane z = 0 |
| Cursors.Cursor.constructor | src/main/java/com/particle_life/app/cursors/Cursor.java:14-16 | a cursor at the origin with size 0.1 |
| Cursors.Cursor.CircleInside | src/main/java/com/particle_life/app/cursors/CircleCursorShape.java:38-41 | a particle is inside a circle cursor exactly when its connection from the cursor is at most the size long |
| Cursors.Cursor.SquareInside | src/main/java/com/particle_life/app/cursors/SquareCursorShape.java:35-39 | a particle is inside a square cursor exactly when both connection components are within the size |
| Cursors.Cursor.SelectionMembers | src/main/java/com/particle_life/app/cursors/Cursor.java:20-31 | the selection holds exactly the particles inside the cursor |
| Cursors.Cursor.SelectionInfinity | src/main/java/com/particle_life/app/cursors/InfinityCursorShape.java:11-14 | the infinity cursor selects every particle |
| Cursors.Cursor.GetSelection | src/main/java/com/particle_life/app/cursors/Cursor.java:25-31 | the loop collects the particles inside the cursor, in order |
| Cursors.Cursor.SampleRandomPoint | src/main/java/com/particle_life/app/cursors/Cursor.java:43-45 | the sampled point keeps the cursor's z |
| Cursors.Cursor.SampleInside | src/main/java/com/particle_life/app/cursors/Cursor.java:43-45 | the sampled point, shifted and rescaled back, is the shape's own sample, so it lies inside the cursor |
| Cursors.Cursor.Copy | src/main/java/com/particle_life/app/cursors/Cursor.java:47-53 | a fresh cursor with the same position, size and shape |
| Cursors.CircleVertexData | src/main/java/com/particle_life/app/cursors/CircleCursorShape.java:17-26 | the vertex array holds x and y of each segment point, interleaved |
| Cursors.SquareOutline | src/main/java/com/particle_life/app/cursors/SquareCursorShape.java:16-23 | the four outline vertices are corners of the unit square, and consecutive ones share exactly one coordinate |
| Camera.NdcRoundTrip | src/main/java/com/particle_life/app/utils/NormalizedDeviceCoordinates.java:18-32 | map and invert are mutual inverses (invert gives z = 0) |
| Camera.NdcFrame | src/main/java/com/particle_life/app/utils/NormalizedDeviceCoordinates.java:18-24 | the camera centre maps to (0, 0) and the view's corners to (−1, −1) and (1, 1) |
| Camera.NdcAffineMaps | src/main/java/com/particle_life/app/utils/NormalizedDeviceCoordinates.java:41-48 | the matrix getMatrix builds applies the same map to x and y and keeps z |
| Camera.GetMatrix | src/main/java/com/particle_life/app/utils/NormalizedDeviceCoordinates.java:41-48 | the passed matrix is overwritten with that affine map |
| Camera.NewMatrix | src/main/java/com/particle_life/app/utils/NormalizedDeviceCoordinates.java:34-39 | a fresh matrix holding that affine map |
| Camera.ScreenRoundTrip | src/main/java/com/particle_life/app/utils/ScreenCoordinates.java:31-61 | worldToScreen and screenToWorld are mutual inverses |
| Camera.ScreenCentre | src/main/java/com/particle_life/app/utils/ScreenCoordinates.java:34-43 | the camera centre maps to the middle of the screen |
| Camera.CamDimensionsShape | src/main/java/com/particle_life/app/utils/CamOperations.java:93-109 | the view has the screen's aspect ratio, its shorter side is the camera size, and a square screen gives a square of that size |
| Camera.CamDimensionsScale | src/main/java/com/particle_life/app/utils/CamOperations.java:101-109 | the view dimensions scale linearly with the camera size |
| Camera.BoxAround | src/main/java/com/particle_life/app/utils/CamOperations.java:111-119 | the bounding box is centred on the camera and has the view's dimensions |
| Camera.DragKeepsPoint | src/main/java/com/particle_life/app/utils/CamOperations.java:39-48 | after a drag, the world point under the drag's start is under its end |
| Camera.PivotFixed | src/main/java/com/particle_life/app/utils/CamOperations.java:58-69 | scaling the camera about a world point leaves that point where it was in device coordinates |
| Camera.ZoomKeepsPivot | src/main/java/com/particle_life/app/utils/CamOperations.java:58-69 | after zooming, the world point under the screen pivot is still under it |
| Camera.CamOperations.constructor | src/main/java/com/particle_life/app/utils/CamOperations.java:26-31 | the camera shares the passed position and stores the size and screen size |
| Camera.CamOperations.BoundingBoxOnScreen | src/main/java/com/particle_life/app/utils/CamOperations.java:111-119 | the bounding box's corners are the world points at the screen's corners |
| Camera.CamOperations.DragCam | src/main/java/com/particle_life/app/utils/CamOperations.java:39-48 | the shared camera position moves so that the world point under the drag start ends under the drag end |
| Camera.CamOperations.Zoom | src/main/java/com/particle_life/app/utils/CamOperations.java:58-69 | the size becomes the new size and the position moves so that the point under the pivot stays put |
| CoordinateMaps.MapRange | src/main/java/com/particle_life/app/Coordinates.java:21-30 | device coordinates [−1, 1] map onto [0, width] × [0, height], corners to corners |
| CoordinateMaps.QuadFits | src/main/java/com/particle_life/app/Coordinates.java:32-42 | the quad scaling fits the world square to the shorter screen side |
| CoordinateMaps.WorldCorners | src/main/java/com/particle_life/app/Coordinates.java:56-65 | world() interpolates linearly between the screen images of (−1, −1) and (1, 1) |
| CoordinateMaps.WorldInvertsScreen | src/main/java/com/particle_life/app/Coordinates.java:44-65 | world undoes screen (z becomes 0) |
| CoordinateMaps.ScreenInvertsWorld | src/main/java/com/particle_life/app/Coordinates.java:44-65 | screen undoes world |
| CoordinateMaps.MouseShiftKeepsPoint | src/main/java/com/particle_life/app/Coordinates.java:84-89 | after a mouse shift, the world point that was under the old mouse position is under the new one |
| CoordinateMaps.ZoomKeepsMouse | src/main/java/com/particle_life/app/Coordinates.java:91-103 | zooming multiplies the zoom by the factor and keeps the world point under the mouse |
| CoordinateMaps.ViewAffineMaps | src/main/java/com/particle_life/app/Coordinates.java:67-80 | the transform's matrix shifts, zooms, applies the quad scaling and flips y |
| CoordinateMaps.ViewAffineAssoc | src/main/java/com/particle_life/app/Coordinates.java:67-80 | the chain of matrix calls composes into that single matrix |
| CoordinateMaps.Coordinates.constructor | src/main/java/com/particle_life/app/Coordinates.java:14-19 | the view stores the size, the shared shift vector and the zoom |
| CoordinateMaps.Coordinates.Screen | src/main/java/com/particle_life/app/Coordinates.java:48-54 | the result is the point's screen position, and the passed vector is overwritten with its shifted and zoomed value |
| CoordinateMaps.Coordinates.MouseShift | src/main/java/com/particle_life/app/Coordinates.java:84-89 | the shift moves so that the world point under the old mouse position is under the new one |
| CoordinateMaps.Coordinates.ZoomInOnMouse | src/main/java/com/particle_life/app/Coordinates.java:91-103 | the zoom is multiplied by the factor and the world point under the mouse stays there |
| CoordinateMaps.Coordinates.ApplyTo | src/main/java/com/particle_life/app/Coordinates.java:67-80 | the view matrix is composed onto the passed transform |
| ZoomUtils.ZoomOut | src/main/java/com/particle_life/app/ZoomUtils.java:12-20 | the zoom is divided by the factor squared unless that falls below 0.1, in which case it is unchanged; a zoom of at least 0.1 stays at least 0.1 |
| ZoomUtils.ZoomOutUnitFactor | src/main/java/com/particle_life/app/ZoomUtils.java:12-20 | a factor of ±1 changes nothing |
| ZoomUtils.ZoomOutNeverZoomsIn | src/main/java/com/particle_life/app/ZoomUtils.java:12-20 | with a factor of magnitude at least 1, a positive zoom never grows |
| Clocks.Clock.constructor | src/main/java/com/particle_life/backend/Clock.java:22-25 | a ring buffer of n zero timings, never started, with no statistics yet |
| Clocks.Clock.In | src/main/java/com/particle_life/backend/Clock.java:41-43 | records the start time |
| Clocks.Clock.Out | src/main/java/com/particle_life/backend/Clock.java:45-79 | without a start time it fails and changes nothing; otherwise dt is the elapsed time in milliseconds, written into the next ring-buffer slot, and the statistics are refreshed |
| Clocks.Clock.UpdateStatistics | src/main/java/com/particle_life/backend/Clock.java:65-78 | the average and the variance become those of the buffer |
| Clocks.Clock.SumTimes | src/main/java/com/particle_life/backend/Clock.java:70-75 | the loop computes the sum and the sum of squares of the buffer |
| Clocks.Clock.Tick | src/main/java/com/particle_life/backend/Clock.java:31-36 | a tick is an out (when started) followed by an in |
| Clocks.Clock.AvgFramerate | src/main/java/com/particle_life/backend/Clock.java:88-91 | 1000 / average dt, or 0 when the average is 0 |
| Clocks.Clock.Framerate | src/main/java/com/particle_life/backend/Clock.java:101-104 | 1000 / dt, or 0 when dt is 0 |
| Clocks.Clock.VarianceNonNegative | src/main/java/com/particle_life/backend/Clock.java:93-95 | the variance whose root is the standard deviation is never negative |
| Clocks.NextSlotCycles | src/main/java/com/particle_life/backend/Clock.java:56-60 | the write index starts at 0 and then cycles through the buffer |
| Clocks.EmptyBufferSlot | src/main/java/com/particle_life/backend/Clock.java:57-63 | as written, an empty buffer still gets write index 0, which is out of bounds |
| Clocks.VarianceIsSampleVariance | src/main/java/com/particle_life/backend/Clock.java:76-77 | the sum-of-squares formula equals the sample variance (spread about the mean over n − 1), so it is non-negative |
| Clocks.ConstantTimings | src/main/java/com/particle_life/backend/Clock.java:66-78 | equal timings have that timing as average and zero variance |
| Clocks.SpreadExpand | src/main/java/com/particle_life/backend/Clock.java:70-77 | the spread about any centre expands into the sum of squares, the sum and the count |
| LoadDistribution.BatchLength | src/main/java/com/particle_life/backend/LoadDistributor.java:42 | the batch length is ceil(load / threads): at least 1, and that many batches cover the load |
| LoadDistribution.Partition | src/main/java/com/particle_life/backend/LoadDistributor.java:42-56 | the loop yields whole batches of that length followed by a tail batch only when something is left |
| LoadDistribution.BatchesContiguous | src/main/java/com/particle_life/backend/LoadDistributor.java:44-56 | the batches start at 0 and each starts where the last one stopped |
| LoadDistribution.BatchesDisjoint | src/main/java/com/particle_life/backend/LoadDistributor.java:44-56 | batches do not overlap |
| LoadDistribution.BatchesCover | src/main/java/com/particle_life/backend/LoadDistributor.java:44-56 | every index of the load lies in a batch, and no batch leaves [0, load) |
| LoadDistribution.AtMostThreads | src/main/java/com/particle_life/backend/LoadDistributor.java:42-56 | there are never more batches than threads |
| LoadDistribution.VisitedShape | src/main/java/com/particle_life/backend/LoadDistributor.java:19-28 | a batch visits start, start + 1, … in order and stops right after the first index whose processing returns false |
| LoadDistribution.Run | src/main/java/com/particle_life/backend/LoadDistributor.java:19-28 | the loop processes exactly those indices |
| LoadDistribution.DistributeLoadEvenly | src/main/java/com/particle_life/backend/LoadDistributor.java:37-66 | an empty load does nothing; otherwise the batches are the even partition, all of them are run, and the processed indices are their runs in order |
| LoadDistribution.EveryIndexProcessed | src/main/java/com/particle_life/backend/LoadDistributor.java:31-36 | when no processing returns false, every index 0 … load − 1 is processed once, in order |
| LoadDistribution.ProcessedIncreasing | src/main/java/com/particle_life/backend/LoadDistributor.java:37-66 | processed indices strictly increase and lie in [0, load), so none is processed twice |

## Left out

- MathUtils.Modulo: requires b > 0, because the source's loops never end for b ≤ 0.
- ZoomUtils.ZoomOut: requires a non-zero step factor, because division by zero gives an IEEE infinity or NaN, which reals do not have.
- Camera.NdcRoundTrip, Camera.ScreenRoundTrip, Camera.DragKeepsPoint, Camera.ZoomKeepsPivot, Camera.CamOperations.DragCam, Camera.CamOperations.Zoom: require non-zero camera dimensions and screen sizes, for the same reason; CoordinateMaps lemmas likewise require a non-degenerate view.
- LoadDistribution.DistributeLoadEvenly: requires threads ≥ 0, because a negative thread count makes the source's batch loop never end.
- LoadDistribution.DistributeLoadEvenly: the batches run one after another, not on a thread pool; waiting on futures, their exceptions, `kill` and the shared stop flag are not modelled (the processor is a pure `int -> bool`).
- LoadDistribution.BatchLength: start and stop are unbounded integers, so 32-bit overflow of `start + length` is not modelled.
- Clocks.Clock.constructor: requires n ≥ 1 (see Findings); a negative n makes Java throw on array creation.
- Clocks.Clock.VarianceNonNegative: the standard deviation itself (`Math.sqrt`) is not modelled; the lemma proves its radicand is non-negative.
- `System.nanoTime` and `System.currentTimeMillis` are parameters (`now`).
- TypeCounts.SetTypeCount: requires non-negative counts; the source does not check them, and no histogram can meet a negative count.
- `ExtendedPhysics` line 58 writes `settings.n`, a field the physics settings do not declare; the model treats it as the new particle-array length.
- TypeCounts.SetTypeCount, TypeCounts.SetTypeCountNewTotal: since `settings.n` is the particle-array length in the model, a failure in the branch for a new total does not show `settings.n` already set to the new total, as the source leaves it.
- Physics: `update`, `updateParticles`, `updateVelocity`, `updatePosition` (the force law and the accelerator), `makeContainerNeighborhood`, `forceUpdateStop`, `kill` and `distance` (a square root) are not modelled. These are floating-point force laws and thread coordination.
- Physics `setPositions` and `setTypes` apply `SetPosition`/`SetType` to every particle and are not modelled as separate members.
- Random numbers, `Collections.shuffle`, the position setters and the random matrix generators are nondeterministic choices that keep their range contracts. The type setters' random numbers are arbitrary draws of [0, 1); the rules themselves are modelled as written, including those that leave a type out of range.
- PhysicsEngine.Physics.EnsureTypes, PhysicsEngine.Physics.SetMatrixSize: promise in-range types only under the range-restoring rules (random, slices, onion, more of first, rotate) and at least one type, because flip, kill still and randomize 10% can leave a type out of range or negative in the source itself (TypeSetters.OutOfRangeSurvives).
- PhysicsEngine.Physics.SetType: Java's ArithmeticException from "rotate" with zero types is a `Fail` outcome that the callers pass on; the application keeps at least one type (src/main/java/com/particle_life/app/Main.java:733-736), so there it does not arise.
- PhysicsEngine.Physics.SetPosition: particles hold their position and velocity as values, not as shared `Vector3d` objects; the position is repaired in a new vector and then stored, so aliasing of a particle's vectors is not captured. `connection` likewise folds a fresh vector and is a function of the two positions.
- PhysicsEngine.Physics.MakeContainers: requires rmax > 0, because 1 / rmax has no meaning for rmax = 0 and a negative rmax gives no grid; the application's rmax input starts at 0.005 (src/main/java/com/particle_life/app/Main.java:797-801).
- Number printing and parsing (`Double.toString`, `Float.parseFloat`, `String.format`) are an abstract encoder/decoder pair; the round trips assume the decoder inverts the encoder.
- Palette file reading and directory listing are inputs: a file that cannot be read has no content, and the listing is taken as already sorted, since path sorting is not modelled.
- The YAML reading of shader configurations (`getConfigs`) is not modelled; the parsed entries are an input.
- MatrixFiles.LoadMatrix, ParticleFiles.LoadParticles: `BufferedReader.lines()` also ends a line at a lone "\r" or at "\r\n"; the model splits on "\n" only. The palette reader's `split("\\r?\\n")` is modelled as it is (Palettes.PaletteLines: split at line feeds, the "\r" before each removed, trailing empty pieces dropped).
- MatrixFiles.SaveMatrix, ParticleFiles.SaveParticles: lines end with "\n", while `PrintWriter.println` writes the platform line separator ("\r\n" on Windows).
- Text.ParseInt: accepts only the ASCII digits '0' to '9' after an optional sign; `Integer.parseInt` also accepts the other Unicode decimal digits (such as Arabic-Indic digits).
- OpenGL drawing (`Cursor.draw` and the shapes' `draw`/`onInitialize` GL calls) is not modelled; only the vertex data is.
- The JOML matrix library is modelled only for the scale and translate operations these files use, as 2-D/3-D affine maps.
- Fluent `return this` results and the overloads that only forward to another member (`screenToWorld(x, y)`, `getCamDimensions()` without arguments) are folded into the member they forward to.
- Range: the class comment says clamping sets z to 1.0; the code sets it to 0, and the model follows the code.
- Integer widths and 32-bit float rounding are not modelled: reals stand in for doubles and floats, and ints are unbounded except where the source parses 32-bit integers.
- `Particle.java` is not part of this model; the particle class's fields are taken from their uses.

## Findings

| source | as written | input that shows it | evidently intended | confidence | as-written member | corrected member |
|---|---|---|---|---|---|---|
| src/main/java/com/particle_life/app/ExtendedPhysics.java:32-35 | the last type's target is n − (k − 1)·ceil(n / k) | 10 particles, 7 types: ceil = 2, the last target is 10 − 12 = −2 | every target in [0, ceil(n / k)] and all targets summing to n | not executed | TypeCounts.NegativeTargetExample | TypeCounts.IdealTypeCountProperties, TypeCounts.SetTypeCountEqual |
| src/main/java/com/particle_life/app/color/InterpolatingPalette.java:22-31 | the colour at ceil(exact index) is read | 2 colours, 3 types, type 2: exact index 4/3, ceil 2, one past the end | the last colour is used once the index passes it | not executed | Palettes.TwoColoursThreeTypes | Palettes.GetColorShape |
| src/main/java/com/particle_life/backend/Clock.java:22-25 | a clock with n = 0 is accepted | n = 0, then `out()` writes `lastTimes[0]` of an empty array | a buffer of at least one slot | not executed | Clocks.EmptyBufferSlot | Clocks.Clock.constructor |
| src/main/java/com/particle_life/backend/Physics.java:82-85 | containers per side nx = floor(1 / rmax) | rmax = 2: nx = 0, and the position (0.5, 0.5) gets container index −1 | at least one container per side | not executed | PhysicsEngine.ContainerIndexNegative | PhysicsEngine.ContainerIndexInRange, PhysicsEngine.Physics.MakeContainers |
