# BoidOpenGL quadtree and agent bookkeeping, in Dafny

This project models the core of the BoidOpenGL flocking simulation. That
core is the quadtree split that groups the agents ("boids") into small
buckets every tick, plus the per-agent bookkeeping around it.

Three modules cover the quadtree:

- `Quadtree` is the bucket record `point_bucket<T>`: a rectangle (centre
  and full extents) and a list of references to agents. A reference is an
  index into the agent collection.
- `BaseSplit` is the float split the simulation runs (`base_split` in
  QuadTree/Boid.h).
  - An oversized bucket is halved. Its references are dealt to three new
    buckets (NW, SW, SE) in a back-to-front pass. The original bucket is
    re-centred to serve as NE.
  - Quadrants still too full are split again while a depth budget lasts.
  - The guard at the head of the split pushes a bucket only into an empty
    tree. A recursive call that reaches the guard with a non-empty tree
    therefore loses its agents. The model keeps this behaviour (`Limit`
    value `EmitIfTreeEmpty`). Beside it sits the corrected guard
    (`EmitAlways`), which always emits.
  - Every bucket that reaches the guard is evidently meant to be emitted,
    so that the leaves partition the agents. The code as written does not
    do this, and the model follows the code: see Findings.
- `Grid` is the integer-grid variant in QuadTree/main.cpp.
  - Boxes are given by a corner and half-widths.
  - Points are moved only out of an oversized bucket.
  - Splitting stops below a half-width of 4.
  - No point is ever lost.
  - One quirk of the code: a small, non-empty top-level bucket above the
    finest resolution (both half-widths at least 4) is still quartered, so
    it is emitted with halved half-widths (`Grid.SmallHalved`).

Each split is written twice:

- A specification on values: `Split`, `Descend` and `DescendAll`, which
  are mutually recursive functions. The partition, order and shape
  properties are proved about these.
- Imperative methods that do what the code does:
  - `SplitBucket`, `Subdivide`, `Quarter`, `Distribute`, `PushBack` and
    `Visit` update a `PointBucket` object in place.
  - The output tree comes in as `tree` and goes out as `out`.
  - Each method is proved equal to the specification.

The module `Boids` models the agent (`Boid`) and the flock (`Flock`):

- the two agent constructors;
- `EmptyAcceleration`;
- the domain wrap `Mirror`;
- `SquaredDistance`.

Single-precision floats are modelled as exact reals. `Seqs` holds the
sequence facts both splits share: reversal, distinct references and
multisets.

## Model

| member | source | states |
|---|---|---|
| Quadtree.PointBucket.constructor | QuadTree/Quadtree.h:9 | the geometry is stored as given and the reference list starts empty |
| Quadtree.PointBucket.WithRefs | QuadTree/Quadtree.h:11 | the reference list is a copy of the one given |
| Quadtree.PointBucket.FromElements | QuadTree/Quadtree.h:13-18 | one reference per element, in order: the i-th reference designates the i-th element, so there are as many references as elements and no two are equal |
| Seqs.ReverseReverse | QuadTree/Boid.h:189-212 | re-pushing back to front a list that a back-to-front pass filled restores the original order |
| BaseSplit.Classify | QuadTree/Boid.h:193-206 | definition: the switch on `(x < cx) + 2 * (y < cy)`, case 0 to NE, 1 to NW, 2 to SE, 3 to SW; its rule is stated by `BaseSplit.ClassifyRule` |
| BaseSplit.ClassifyRule | QuadTree/Boid.h:193-206 | the switch on `(x < cx) + 2 * (y < cy)` sends each location to exactly one quadrant: NE when neither coordinate is below the centre, NW when only x is, SE when only y is, SW when both are; ties go to the `>=` side |
| BaseSplit.Route | QuadTree/Boid.h:188-212 | the lists the back-to-front pass leaves, with NE as re-pushed; together they are as long as the bucket, so every reference goes to some list |
| BaseSplit.RouteMembers | QuadTree/Boid.h:189-209 | a reference ends in the list of quadrant q exactly when it was in the bucket and its agent lies in q relative to the centre before the split |
| BaseSplit.RoutePartition | QuadTree/Boid.h:189-209 | the four lists of the pass together hold exactly the bucket's references, each occurrence in exactly one list |
| BaseSplit.RouteOrder | QuadTree/Boid.h:189-212 | NE keeps its references in input order; NW, SW and SE hold theirs in reverse input order |
| BaseSplit.Children | QuadTree/Boid.h:181-215 | the four quadrants of a split: each has half the parent's extents, and their centres are the parent's centre moved by a quarter of the parent's extents towards each corner, so they tile the parent's rectangle |
| BaseSplit.ChildrenRoute | QuadTree/Boid.h:181-215 | a reference is in the child of quadrant q exactly when it was in the parent and lies in q relative to the parent's centre |
| BaseSplit.ChildrenContain | QuadTree/Boid.h:181-215 | an agent inside the parent's rectangle is inside the rectangle of the child it is routed to: halved extents, children offset by half the new extents, NE re-centred by the same amount |
| BaseSplit.ChildrenPartition | QuadTree/Boid.h:188-212 | the four children together hold exactly the parent's references |
| BaseSplit.AtLimit | QuadTree/Boid.h:174-177 | definition: the guard pushes the bucket when the tree is empty (as written) or always (corrected), and otherwise counts its references as discarded |
| BaseSplit.AtLimitAccounts | QuadTree/Boid.h:174-177 | the guard returns the bucket unchanged; emitted plus discarded is exactly the bucket; references are discarded only as written and only into a non-empty tree |
| BaseSplit.Split | QuadTree/Boid.h:171-226 | definition: the guard, or halve and route once, then descend into NE, NW, SW and SE with one level less of budget; its properties are the lemmas below |
| BaseSplit.Descend | QuadTree/Boid.h:218-225 | definition: a quadrant is skipped when empty, split again when over `max_size`, otherwise emitted |
| BaseSplit.DescendAll | QuadTree/Boid.h:218-225 | definition: the quadrants descended into in order, each into the tree the previous one left, with the discarded references collected |
| BaseSplit.ChildrenLocal | QuadTree/Boid.h:181-215 | when every agent of the bucket lies in its rectangle, every agent of each of the four quadrants lies in that quadrant's rectangle |
| BaseSplit.SplitExtends | QuadTree/Boid.h:171-226 | the split only appends to the tree it is given |
| BaseSplit.SplitAccounts | QuadTree/Boid.h:171-226 | leaves appended plus references discarded by the guard are exactly the bucket's references |
| BaseSplit.FixedDropsNothing | QuadTree/Boid.h:174-176 | with the guard corrected to always emit, nothing is discarded |
| BaseSplit.SplitAppends | QuadTree/Boid.h:171-226 | the old tree stays in front, and the appended leaves together with the discarded references form the bucket's multiset of references |
| BaseSplit.WrittenSubset | QuadTree/Boid.h:171-226 | as written, the appended leaves hold a sub-multiset of the bucket's references: nothing is invented or duplicated |
| BaseSplit.FixedPartition | QuadTree/Boid.h:171-226 | with the corrected guard the appended leaves partition the bucket's references exactly |
| BaseSplit.NoAgentTwice | QuadTree/Boid.h:171-226 | an agent the bucket refers to once appears in at most one appended leaf |
| BaseSplit.SplitExact | QuadTree/Boid.h:171-226 | for a bucket split into an empty tree or too full for the guard: if no leaf the corrected split emits from position `n` on is oversized (`n` at most the incoming tree's length, or 1 from an empty tree, since the first leaf is pushed by either guard), the guard as written gives the same base, tree and discards as the corrected one (stated for the descents too, by mutual induction) |
| BaseSplit.WrittenExact | QuadTree/Boid.h:171-226 | when the code as written is exact: a top-level bucket (empty tree) or an oversized one is split exactly as the corrected guard splits it whenever every appended leaf of the corrected split holds at most `max_size` references |
| BaseSplit.DropNeedsOversized | QuadTree/Boid.h:174-225 | for such a bucket, the code as written discards references only if the corrected split appends a leaf still oversized, i.e. a bucket that ran out of budget |
| BaseSplit.SmallTopLevel | QuadTree/Boid.h:174-177 | a top-level bucket within `max_size` is emitted on its own as the single leaf, under either guard |
| BaseSplit.SplitWrittenSmall | QuadTree/Boid.h:171-226 | as written, a split keeps every leaf after the first within `max_size`: the guard pushes only into an empty tree and a descent pushes only a quadrant within `max_size` (stated for the descents too) |
| BaseSplit.WrittenTopLevelSmall | QuadTree/Boid.h:171-226 | from the top level, every leaf after the first that the code as written emits holds at most `max_size` references |
| BaseSplit.SplitNoDropExact | QuadTree/Boid.h:171-226 | for a bucket split into an empty tree or too full for the guard: when the code as written discards nothing, its base, tree and discards are those of the corrected guard (stated for the descents too) |
| BaseSplit.DropsIff | QuadTree/Boid.h:174-225 | from the top level, the code as written discards nothing if and only if every leaf after the first that the corrected split emits is within `max_size`, that is, no bucket runs out of budget while still oversized once the tree is non-empty |
| BaseSplit.SplitLocal | QuadTree/Boid.h:181-225 | if every agent of the bucket lies in its rectangle, every agent of every emitted leaf lies in that leaf's rectangle |
| BaseSplit.SplitShape | QuadTree/Boid.h:174-225 | every leaf emitted for a non-empty bucket is non-empty, and it holds more than `max_size` references only at the finest extents, the bucket's extents halved `numberOfSeperations` times |
| BaseSplit.DropExample | QuadTree/Boid.h:174-176 | four agents, capacity one, one level: as written agents 2 and 3 are in no leaf; with the corrected guard both quadrants are emitted |
| BaseSplit.SplitBucket | QuadTree/Boid.h:171-226 | the in-place split leaves the bucket and the tree exactly as the specification `Split` says, for either guard |
| BaseSplit.Subdivide | QuadTree/Boid.h:180-225 | past the guard: quarter the bucket, then descend into NE, NW, SW and SE in that order with one level less of budget |
| BaseSplit.Quarter | QuadTree/Boid.h:181-215 | the bucket becomes the NE child and three fresh, distinct buckets become NW, SW and SE, all as `Children` describes |
| BaseSplit.Distribute | QuadTree/Boid.h:188-209 | the back-to-front pass empties the bucket into NW, SW and SE and sets the NE references aside in reverse order, as `Route` describes |
| BaseSplit.PushBack | QuadTree/Boid.h:211-212 | the set-aside references are appended back to front |
| BaseSplit.Visit | QuadTree/Boid.h:218-225 | a quadrant is skipped when empty, split again when over `max_size`, otherwise pushed as a leaf, as `Descend` says |
| BaseSplit.SplitSteps | QuadTree/Boid.h:216-225 | a split past the guard is the four descents in turn, each into the tree the previous one left |
| Grid.PointBucket.constructor | QuadTree/main.cpp:13 | the geometry is stored as given and the reference list starts empty |
| Grid.PointBucket.FromPoints | QuadTree/main.cpp:15-20 | one reference per point, in order: the i-th reference designates the i-th point, and no two are equal |
| Grid.ClassifyRule | QuadTree/main.cpp:83-90 | strict `>` against `x + x_mid` and `y + y_mid`: SE past both lines, NE past only the first, SW past only the second, otherwise the point stays, so points on a line stay |
| Grid.Classify | QuadTree/main.cpp:83-90 | definition: the cascade SE, NE, SW, else stay, with strict `>`; its rule is stated by `Grid.ClassifyRule` |
| Grid.Route | QuadTree/main.cpp:79-97 | the lists the back-to-front pass leaves, with the stayers as re-pushed; together they are as long as the bucket, so every reference goes to some list |
| Grid.RouteMembers | QuadTree/main.cpp:79-93 | a reference ends in the list of quadrant q exactly when it was in the bucket and its point lies in q |
| Grid.RoutePartition | QuadTree/main.cpp:79-93 | the four lists of the pass together hold exactly the bucket's references |
| Grid.RouteOrder | QuadTree/main.cpp:79-97 | the bucket keeps the references that stay in their original order; NE, SW and SE receive theirs in reverse order |
| Grid.Sort | QuadTree/main.cpp:76-97 | definition: the bucket is routed only when over `max_size`; otherwise every reference stays |
| Grid.Children | QuadTree/main.cpp:69-100 | definition: the bucket keeps its corner, NE, SW and SE start at `(x + x_mid, y)`, `(x, y + y_mid)` and `(x + x_mid, y + y_mid)`, and all four get the halved half-widths; `Grid.ChildrenSmaller` and `Grid.ChildrenPartition` state its properties |
| Grid.Split | QuadTree/main.cpp:56-110 | definition: an empty bucket adds nothing, a bucket with a half-width below 4 is emitted unchanged, otherwise quarter it and descend into it, NE, SW and SE; its properties are the lemmas below |
| Grid.Descend | QuadTree/main.cpp:102-109 | definition: a quadrant is skipped when empty, split again when over `max_size`, otherwise emitted |
| Grid.DescendAll | QuadTree/main.cpp:102-109 | definition: the quadrants descended into in order, each into the tree the previous one left |
| Grid.SortPartition | QuadTree/main.cpp:76-97 | whether or not the bucket is oversized, the four lists hold exactly its references; an oversized bucket is routed, a small one left in place |
| Grid.ChildrenSmaller | QuadTree/main.cpp:63-100 | past the resolution guard, the quadrants' `x_mid + y_mid` is strictly smaller than the bucket's, which bounds the recursion |
| Grid.ChildrenPartition | QuadTree/main.cpp:69-100 | the four quadrants together hold exactly the bucket's references |
| Grid.SplitAccounts | QuadTree/main.cpp:56-110 | the split adds exactly the bucket's references to the tree: none lost, none duplicated |
| Grid.SplitShape | QuadTree/main.cpp:59-109 | every emitted leaf is non-empty, and a leaf over `max_size` has `x_mid < 4` or `y_mid < 4` |
| Grid.SplitSuffix | QuadTree/main.cpp:56-110 | the leaves appended and the final bucket do not depend on the tree passed in |
| Grid.SplitPartition | QuadTree/main.cpp:56-110 | the old tree stays in front; the appended leaves hold exactly the bucket's references, and each has the leaf shape |
| Grid.SmallHalved | QuadTree/main.cpp:69-103 | a non-empty bucket within `max_size` and above the finest resolution is emitted as one leaf with both half-widths halved |
| Grid.SplitBucket | QuadTree/main.cpp:56-110 | the in-place split leaves the bucket and the tree exactly as the specification `Split` says |
| Grid.Subdivide | QuadTree/main.cpp:69-109 | past both guards: quarter the bucket, then descend into it, NE, SW and SE in that order |
| Grid.Quarter | QuadTree/main.cpp:69-100 | three fresh, distinct quadrants at the corners `(x + x_mid, y)`, `(x, y + y_mid)` and `(x + x_mid, y + y_mid)`; all four get the halved half-widths; the bucket keeps its corner |
| Grid.Regroup | QuadTree/main.cpp:76-97 | references are moved only when the bucket is over `max_size`; the ones that stay come back in their original order |
| Grid.Distribute | QuadTree/main.cpp:79-93 | the back-to-front pass empties the bucket into NE, SW and SE and sets aside the references that stay, in reverse order, as `Route` describes |
| Grid.PushBack | QuadTree/main.cpp:96-97 | the set-aside references are appended back to front |
| Grid.Visit | QuadTree/main.cpp:102-109 | a quadrant is skipped when empty, split again when over `max_size`, otherwise pushed as a leaf |
| Grid.SplitSteps | QuadTree/main.cpp:102-109 | a split past both guards is the four descents in turn |
| Boids.Boid.constructor | QuadTree/Boid.h:27-30 | location and velocity are stored, and acceleration is the zero vector of their dimension |
| Boids.NewBoid | QuadTree/Boid.h:27-30 | construction fails exactly when location and velocity differ in dimension; otherwise the new agent has both vectors as given and zero acceleration |
| Boids.Boid.At | QuadTree/Boid.h:32 | an agent at rest: velocity and acceleration are zero vectors of the location's dimension |
| Boids.Boid.EmptyAcceleration | QuadTree/Boid.h:34-41 | velocity becomes the component-wise sum of the old velocity and acceleration, acceleration becomes all zeros, and location is untouched |
| Boids.Zeros | QuadTree/Boid.h:27-32 | the zero vector of a given dimension: that many components, each 0 |
| Boids.Add | QuadTree/Boid.h:34-41 | the component-wise sum of two vectors of one dimension, of that dimension |
| Boids.AddAt | QuadTree/Boid.h:36-38 | each component of the sum is the sum of the components: new `velocity[i]` is old `velocity[i]` plus old `acceleration[i]` |
| Boids.AddZeros | QuadTree/Boid.h:34-41 | adding a zero acceleration changes nothing, so a second `EmptyAcceleration` leaves the velocity as it is |
| Boids.AddPointwise | QuadTree/Boid.h:34-41 | the vector with each component the sum of the two is their sum |
| Boids.Wrap | QuadTree/Boid.h:114-117 | a coordinate in [-1, 1] (ends included) is unchanged; above 1 it drops by exactly 2, below -1 it rises by exactly 2; anything within [-3, 3] lands in [-1, 1] |
| Boids.Boid.MirrorLocation | QuadTree/Boid.h:114-117 | every coordinate of the location is wrapped once; velocity and acceleration are untouched |
| Boids.Flock.Mirror | QuadTree/Boid.h:110-120 | every coordinate of every agent's location is wrapped once; the agents, their number, velocities and accelerations are untouched |
| Boids.Flock.constructor | QuadTree/Boid.h:50 | a flock starts without agents |
| Boids.Flock.SquaredDistance | QuadTree/Boid.h:124-133 | fails exactly on a dimension mismatch; otherwise it is the sum of squared component differences, never negative, and zero exactly for equal vectors |
| Boids.SumSquares | QuadTree/Boid.h:129-132 | definition: the sum over the components of `(A[i] - B[i]) * (A[i] - B[i])` |
| Boids.SumSquaresNonNegative | QuadTree/Boid.h:129-132 | the squared distance is never negative |
| Boids.SumSquaresZero | QuadTree/Boid.h:129-132 | the squared distance is zero for equal vectors and positive for different ones |
| Boids.SumSquaresSymmetric | QuadTree/Boid.h:129-132 | the squared distance does not depend on the order of its arguments |

## Left out

- BaseSplit.Distribute, Grid.Distribute: the source loops with a reverse iterator while calling `pop_back` on the same vector, which invalidates the iterator's base. The C++ standard leaves the following `++` and comparison undefined. The model assumes the usual outcome, that every reference is visited once, back to front, and popped.
- Floats: `float` arithmetic is modelled as exact reals. Rounding in the halving of extents and in the sums of `EmptyAcceleration` and `SquaredDistance` is not captured.
- `size_t` width: grid coordinates and half-widths are unbounded naturals. A wrap-around of `x + x_mid` near the top of `size_t` is not modelled.
- Agent positions during a split are a function from reference to point (`position`, `at`). Agents are only read during a split, so what is not captured is the pointer aliasing between buckets and the agent storage.
- Spatial containment is not stated for the grid variant. With odd half-widths, integer halving leaves the quadrants' boxes one unit short, which the source marks as an open rounding problem. Only the float variant has a containment property (`BaseSplit.SplitLocal`).
- Flock::Update and the steering forces (`Seperation`, `Alignment`, `Cohesion`) are float vector arithmetic built on approximate magnitude scaling; they are not part of this model.
- `CapVector`, `NormalizeVectorCopy`, `NormalizeVectorInPlace` and `Q_rsqrt` are not part of this model: they are approximate float magnitude scaling through bit reinterpretation.
- The `Flock(max_dist, max_acceleration_magnitude)` constructor only stores tuning parameters used by `Update`, so it is not modelled.
- The simulation loop, rendering, timing and window handling in main.cpp are I/O and are not part of this model.
- The integer demo's `main` (fixture setup) is not part of this model.
- QuadTree/Boid.cpp is not part of this model: it is a test driver calling a `base_split` overload that is declared but never defined.
- The throws in the `Boid` constructor and in `SquaredDistance` become `Err` results of `NewBoid` and `SquaredDistance`. The two-vector `Boids.Boid.constructor` itself requires equal dimensions.

## Findings

| source | as written | input that shows it | evidently intended | confidence | as-written member | corrected member |
|---|---|---|---|---|---|---|
| QuadTree/Boid.h:174-176 | a bucket that reaches the guard (no budget left, or small enough) is pushed only when the output tree is still empty; a recursive call that reaches it later with an oversized bucket drops all its agents | agents 0 and 1 at (1, 1) and agents 2 and 3 at (-1, 1), a bucket centred at (0, 0) with extents 2 by 2, `max_size` 1, one level of budget: the NE leaf [0, 1] is emitted, then the NW quadrant [3, 2] reaches the guard with a non-empty tree and agents 2 and 3 end up in no leaf. `BaseSplit.WrittenExact` shows this is the only way the code as written loses agents: below a top-level bucket, it agrees with the corrected guard unless some bucket runs out of budget while still oversized (`BaseSplit.DropNeedsOversized`). `BaseSplit.DropsIff` states it exactly: from the top level, agents are lost if and only if some leaf after the first of the corrected split is still oversized | every bucket that reaches the guard is emitted, so the leaves partition the agents | high; not executed | BaseSplit.DropExample | BaseSplit.FixedPartition |
