/** The per-tick spatial partition of the flock (`base_split` in
    QuadTree/Boid.h): a bucket holding more than `maxSize` references is
    split into four quadrants about its centre, the original bucket being
    re-centred to serve as the north-east quadrant, and every quadrant that
    is still too full is split again while the depth budget lasts.

    References are indices into the agent collection; `position(r)` is the
    first two coordinates of the location of agent `r`, read (never
    written) during the split. */
module BaseSplit {
  import opened Seqs
  import opened Quadtree

  datatype Quadrant = NE | NW | SW | SE

  /** The two coordinates of an agent's location that the split compares. */
  datatype Point = Point(x: real, y: real)

  /** The quadrant of `loc` relative to the centre (cx, cy): the switch on
      `(x < cx) + 2 * (y < cy)`. Ties fall to the `>=` side. */
  function Classify(loc: Point, cx: real, cy: real): Quadrant
  {
    var code := (if loc.x < cx then 1 else 0) + 2 * (if loc.y < cy then 1 else 0);
    if code == 0 then NE else if code == 1 then NW else if code == 2 then SE else SW
  }

  /** The classification rule: strict `<` on each axis, ties to the `>=`
      side, every location in exactly one quadrant. */
  lemma ClassifyRule(loc: Point, cx: real, cy: real)
    ensures var q := Classify(loc, cx, cy);
      (q == NE <==> (cx <= loc.x && cy <= loc.y)) &&
      (q == NW <==> (loc.x < cx && cy <= loc.y)) &&
      (q == SE <==> (cx <= loc.x && loc.y < cy)) &&
      (q == SW <==> (loc.x < cx && loc.y < cy))
  {
  }

  /** The four reference lists one classification pass produces. */
  datatype Lists = Lists(ne: seq<nat>, nw: seq<nat>, sw: seq<nat>, se: seq<nat>)

  /** The list of `l` that stands for quadrant `q`. */
  function Part(l: Lists, q: Quadrant): seq<nat>
  {
    match q
    case NE => l.ne
    case NW => l.nw
    case SW => l.sw
    case SE => l.se
  }

  /** The classification pass over `s`. It visits `s` back to front, popping
      each reference: NW, SW and SE receive their references in reverse
      order, while the NE references, collected aside and then re-pushed
      back to front, keep input order. The head `s[0]` is visited last. */
  function Route(s: seq<nat>, position: nat -> Point, cx: real, cy: real): (l: Lists)
    ensures |l.ne| + |l.nw| + |l.sw| + |l.se| == |s|
  {
    if s == [] then Lists([], [], [], [])
    else
      var r := Route(s[1..], position, cx, cy);
      match Classify(position(s[0]), cx, cy)
      case NE => r.(ne := [s[0]] + r.ne)
      case NW => r.(nw := r.nw + [s[0]])
      case SW => r.(sw := r.sw + [s[0]])
      case SE => r.(se := r.se + [s[0]])
  }

  /** A reference lands in the list of `q` exactly when it is in `s` and
      its agent lies in `q`. */
  lemma {:induction false} RouteMembers(s: seq<nat>, position: nat -> Point, cx: real, cy: real, q: Quadrant, r: nat)
    ensures r in Part(Route(s, position, cx, cy), q) <==> r in s && Classify(position(r), cx, cy) == q
  {
    if s != [] {
      RouteMembers(s[1..], position, cx, cy, q, r);
      assert s == [s[0]] + s[1..];
    }
  }

  /** Each reference goes to exactly one of the four lists. */
  lemma {:induction false} RoutePartition(s: seq<nat>, position: nat -> Point, cx: real, cy: real)
    ensures var l := Route(s, position, cx, cy);
      multiset(l.ne) + multiset(l.nw) + multiset(l.sw) + multiset(l.se) == multiset(s)
  {
    if s != [] {
      var x, t := s[0], s[1..];
      var l, l' := Route(t, position, cx, cy), Route(s, position, cx, cy);
      RoutePartition(t, position, cx, cy);
      assert s == [x] + t;
      RouteStep(Classify(position(x), cx, cy), x, l, l');
    }
  }

  /** One step of the pass adds the visited reference to exactly one list. */
  lemma RouteStep(q: Quadrant, x: nat, l: Lists, l': Lists)
    requires l' == match q
      case NE => l.(ne := [x] + l.ne)
      case NW => l.(nw := l.nw + [x])
      case SW => l.(sw := l.sw + [x])
      case SE => l.(se := l.se + [x])
    ensures multiset(l'.ne) + multiset(l'.nw) + multiset(l'.sw) + multiset(l'.se)
         == multiset{x} + (multiset(l.ne) + multiset(l.nw) + multiset(l.sw) + multiset(l.se))
  {
  }

  /** The references of `s` whose agent lies in quadrant `q`, in the
      order of `s`. */
  function Filter(s: seq<nat>, position: nat -> Point, cx: real, cy: real, q: Quadrant): seq<nat>
  {
    if s == [] then []
    else (if Classify(position(s[0]), cx, cy) == q then [s[0]] else []) + Filter(s[1..], position, cx, cy, q)
  }

  /** The order the pass leaves: the re-centred original (NE) keeps its
      references in input order, and NW, SW and SE receive theirs in
      reverse input order. */
  lemma {:induction false} RouteOrder(s: seq<nat>, position: nat -> Point, cx: real, cy: real, q: Quadrant)
    ensures Part(Route(s, position, cx, cy), q)
         == if q == NE then Filter(s, position, cx, cy, q) else Reverse(Filter(s, position, cx, cy, q))
  {
    if s != [] {
      RouteOrder(s[1..], position, cx, cy, q);
      var f := Filter(s[1..], position, cx, cy, q);
      if Classify(position(s[0]), cx, cy) == q {
        assert Filter(s, position, cx, cy, q) == [s[0]] + f;
        assert ([s[0]] + f)[1..] == f;
      } else {
        assert Filter(s, position, cx, cy, q) == f;
      }
    }
  }

  datatype Quad = Quad(ne: Bucket, nw: Bucket, sw: Bucket, se: Bucket)

  /** The four buckets one split step produces. Extents are halved; the
      NW, SW and SE buckets are centred half a new extent away from the old
      centre, and the re-centred original (NE) moves by half a new extent on
      both axes. Classification is against the old centre. */
  function Children(b: Bucket, position: nat -> Point): (c: Quad)
    ensures forall q :: Pick(c, q).xLength == b.xLength / 2.0 && Pick(c, q).yLength == b.yLength / 2.0
    ensures c.ne.x == c.se.x == b.x + b.xLength / 4.0 && c.nw.x == c.sw.x == b.x - b.xLength / 4.0
    ensures c.ne.y == c.nw.y == b.y + b.yLength / 4.0 && c.sw.y == c.se.y == b.y - b.yLength / 4.0
  {
    var xl, yl := b.xLength / 2.0, b.yLength / 2.0;
    var r := Route(b.bucket, position, b.x, b.y);
    Quad(Bucket(b.x + xl / 2.0, b.y + yl / 2.0, xl, yl, r.ne),
         Bucket(b.x - xl / 2.0, b.y + yl / 2.0, xl, yl, r.nw),
         Bucket(b.x - xl / 2.0, b.y - yl / 2.0, xl, yl, r.sw),
         Bucket(b.x + xl / 2.0, b.y - yl / 2.0, xl, yl, r.se))
  }

  /** The child of a split step that stands for quadrant `q`. */
  function Pick(c: Quad, q: Quadrant): Bucket
  {
    match q
    case NE => c.ne
    case NW => c.nw
    case SW => c.sw
    case SE => c.se
  }

  /** Routing: a reference lands in the child of quadrant `q` exactly when
      it was in the parent and its agent lies in `q` relative to the
      parent's centre. */
  lemma ChildrenRoute(b: Bucket, position: nat -> Point, q: Quadrant, r: nat)
    ensures r in Pick(Children(b, position), q).bucket
        <==> r in b.bucket && Classify(position(r), b.x, b.y) == q
  {
    RouteMembers(b.bucket, position, b.x, b.y, q, r);
  }

  /** Whether `location` lies in the closed rectangle of `b`. */
  predicate Inside(location: Point, b: Bucket)
  {
    b.x - b.xLength / 2.0 <= location.x <= b.x + b.xLength / 2.0 &&
    b.y - b.yLength / 2.0 <= location.y <= b.y + b.yLength / 2.0
  }

  /** The child an agent of the parent's rectangle is routed to contains
      it: the child geometry and the classification against the old centre
      agree. */
  lemma ChildrenContain(b: Bucket, position: nat -> Point, r: nat)
    requires Inside(position(r), b)
    ensures Inside(position(r), Pick(Children(b, position), Classify(position(r), b.x, b.y)))
  {
    ClassifyRule(position(r), b.x, b.y);
  }

  /** What the guard at the head of the split does with a bucket it does
      not split. The code as written pushes it only into an empty tree;
      the corrected behaviour always emits it. */
  datatype Limit = EmitIfTreeEmpty | EmitAlways

  /** The result of a split: the final value of the bucket that was split
      in place, the final tree, and the references that the guard
      discarded without emitting them. */
  datatype Outcome = Outcome(base: Bucket, tree: seq<Bucket>, dropped: multiset<nat>)

  /** What a run of quadrant descents leaves behind: the tree and the
      references the guard discarded on the way. */
  datatype Emission = Emission(tree: seq<Bucket>, dropped: multiset<nat>)

  /** The guard: `b` is emitted, or (as written, into a non-empty tree)
      silently discarded. */
  function AtLimit(b: Bucket, tree: seq<Bucket>, limit: Limit): Outcome
  {
    if limit == EmitAlways || tree == [] then Outcome(b, tree + [b], multiset{})
    else Outcome(b, tree, multiset(b.bucket))
  }

  /** The split of bucket `b` with `depth` levels of budget left, appending
      to `tree`: the guard, or one split step followed by the descents into
      the re-centred original (NE), then NW, SW and SE. */
  function Split(b: Bucket, position: nat -> Point, maxSize: nat, tree: seq<Bucket>, depth: nat, limit: Limit)
    : Outcome
    decreases depth, 0, 0
  {
    if |b.bucket| <= maxSize || depth == 0 then
      AtLimit(b, tree, limit)
    else
      var c := Children(b, position);
      var r := DescendAll([c.ne, c.nw, c.sw, c.se], position, maxSize, tree, depth - 1, limit);
      Outcome(Descend(c.ne, position, maxSize, tree, depth - 1, limit).base, r.tree, r.dropped)
  }

  /** What happens to one quadrant after a split: skipped when empty, split
      again when still too full, otherwise emitted as a leaf. */
  function Descend(b: Bucket, position: nat -> Point, maxSize: nat, tree: seq<Bucket>, depth: nat, limit: Limit)
    : Outcome
    decreases depth, 1, 0
  {
    if b.bucket == [] then Outcome(b, tree, multiset{})
    else if |b.bucket| > maxSize then Split(b, position, maxSize, tree, depth, limit)
    else Outcome(b, tree + [b], multiset{})
  }

  /** The quadrants `bs` descended into one after the other. */
  function DescendAll(bs: seq<Bucket>, position: nat -> Point, maxSize: nat, tree: seq<Bucket>, depth: nat, limit: Limit)
    : Emission
    decreases depth, 2, |bs|
  {
    if bs == [] then Emission(tree, multiset{})
    else
      var o := Descend(bs[0], position, maxSize, tree, depth, limit);
      var r := DescendAll(bs[1..], position, maxSize, o.tree, depth, limit);
      Emission(r.tree, o.dropped + r.dropped)
  }

  /** Every reference held by a list of leaves, with multiplicity. */
  function Held(leaves: seq<Bucket>): multiset<nat>
  {
    if leaves == [] then multiset{} else Held(leaves[..|leaves| - 1]) + multiset(leaves[|leaves| - 1].bucket)
  }

  /** The same for a list of buckets still to be descended into. */
  function HeldAll(bs: seq<Bucket>): multiset<nat>
  {
    if bs == [] then multiset{} else multiset(bs[0].bucket) + HeldAll(bs[1..])
  }

  /** The four children together hold exactly the parent's references. */
  lemma ChildrenPartition(b: Bucket, position: nat -> Point)
    ensures var c := Children(b, position);
      HeldAll([c.ne, c.nw, c.sw, c.se]) == multiset(b.bucket)
  {
    var c := Children(b, position);
    var l := [c.ne, c.nw, c.sw, c.se];
    assert l[1..] == [c.nw, c.sw, c.se] && l[1..][1..] == [c.sw, c.se] && l[1..][1..][1..] == [c.se];
    assert l[1..][1..][1..][1..] == [];
    assert HeldAll([c.se]) == multiset(c.se.bucket) + multiset{};
    assert HeldAll([c.sw, c.se]) == multiset(c.sw.bucket) + HeldAll([c.se]);
    assert HeldAll([c.nw, c.sw, c.se]) == multiset(c.nw.bucket) + HeldAll([c.sw, c.se]);
    assert HeldAll(l) == multiset(c.ne.bucket) + HeldAll([c.nw, c.sw, c.se]);
    RoutePartition(b.bucket, position, b.x, b.y);
    SumFour(multiset(c.ne.bucket), multiset(c.nw.bucket), multiset(c.sw.bucket), multiset(c.se.bucket), multiset(b.bucket));
  }

  lemma HeldPush(tree: seq<Bucket>, b: Bucket)
    ensures Held(tree + [b]) == Held(tree) + multiset(b.bucket)
  {
    assert (tree + [b])[..|tree + [b]| - 1] == tree;
  }

  /** Two successive steps that each account for one part account for both. */
  lemma StepChain(m0: multiset<nat>, m1: multiset<nat>, m2: multiset<nat>, d1: multiset<nat>, d2: multiset<nat>,
                  a: multiset<nat>, b: multiset<nat>, whole: multiset<nat>)
    requires m1 + d1 == m0 + a && m2 + d2 == m1 + b && a + b == whole
    ensures m2 + (d1 + d2) == m0 + whole
  {
    forall x
      ensures (m2 + (d1 + d2))[x] == (m0 + whole)[x]
    {
      assert (m1 + d1)[x] == (m0 + a)[x];
      assert (m2 + d2)[x] == (m1 + b)[x];
      assert (a + b)[x] == whole[x];
    }
  }

  /** The split only appends to the tree it is given. */
  lemma {:induction false} SplitExtends(b: Bucket, position: nat -> Point, maxSize: nat, tree: seq<Bucket>, depth: nat, limit: Limit)
    ensures var o := Split(b, position, maxSize, tree, depth, limit);
      |tree| <= |o.tree| && o.tree[..|tree|] == tree
    decreases depth, 0, 0
  {
    if |b.bucket| > maxSize && depth > 0 {
      var c := Children(b, position);
      AllExtends([c.ne, c.nw, c.sw, c.se], position, maxSize, tree, depth - 1, limit);
    }
  }

  lemma {:induction false} DescendExtends(b: Bucket, position: nat -> Point, maxSize: nat, tree: seq<Bucket>, depth: nat, limit: Limit)
    ensures var o := Descend(b, position, maxSize, tree, depth, limit);
      |tree| <= |o.tree| && o.tree[..|tree|] == tree
    decreases depth, 1, 0
  {
    if b.bucket != [] && |b.bucket| > maxSize {
      SplitExtends(b, position, maxSize, tree, depth, limit);
    }
  }

  lemma {:induction false} AllExtends(bs: seq<Bucket>, position: nat -> Point, maxSize: nat, tree: seq<Bucket>, depth: nat, limit: Limit)
    ensures var r := DescendAll(bs, position, maxSize, tree, depth, limit);
      |tree| <= |r.tree| && r.tree[..|tree|] == tree
    decreases depth, 2, |bs|
  {
    if bs != [] {
      var o := Descend(bs[0], position, maxSize, tree, depth, limit);
      DescendExtends(bs[0], position, maxSize, tree, depth, limit);
      AllExtends(bs[1..], position, maxSize, o.tree, depth, limit);
      var r := DescendAll(bs[1..], position, maxSize, o.tree, depth, limit);
      PrefixChain(tree, o.tree, r.tree);
    }
  }

  /** Nothing is lost without being accounted for: every reference of `b`
      is either in a leaf the split appends or among the references the
      guard discarded. */
  lemma {:induction false} SplitAccounts(b: Bucket, position: nat -> Point, maxSize: nat, tree: seq<Bucket>, depth: nat, limit: Limit)
    ensures var o := Split(b, position, maxSize, tree, depth, limit);
      Held(o.tree) + o.dropped == Held(tree) + multiset(b.bucket)
    decreases depth, 0, 0
  {
    if |b.bucket| <= maxSize || depth == 0 {
      AtLimitAccounts(b, tree, limit);
    } else {
      var c := Children(b, position);
      AllAccounts([c.ne, c.nw, c.sw, c.se], position, maxSize, tree, depth - 1, limit);
      ChildrenPartition(b, position);
    }
  }

  /** The guard accounts for the whole bucket: it is emitted, or its
      references are counted as discarded; and it discards references only
      as written and only into a non-empty tree. */
  lemma AtLimitAccounts(b: Bucket, tree: seq<Bucket>, limit: Limit)
    ensures var o := AtLimit(b, tree, limit);
      o.base == b && Held(o.tree) + o.dropped == Held(tree) + multiset(b.bucket) &&
      (o.dropped != multiset{} ==> limit == EmitIfTreeEmpty && tree != [])
  {
    HeldPush(tree, b);
    assert Held(tree + [b]) + multiset{} == Held(tree + [b]);
  }

  lemma {:induction false} DescendAccounts(b: Bucket, position: nat -> Point, maxSize: nat, tree: seq<Bucket>, depth: nat, limit: Limit)
    ensures var o := Descend(b, position, maxSize, tree, depth, limit);
      Held(o.tree) + o.dropped == Held(tree) + multiset(b.bucket)
    decreases depth, 1, 0
  {
    if b.bucket == [] {
    } else if |b.bucket| > maxSize {
      SplitAccounts(b, position, maxSize, tree, depth, limit);
    } else {
      HeldPush(tree, b);
    }
  }

  lemma {:induction false} AllAccounts(bs: seq<Bucket>, position: nat -> Point, maxSize: nat, tree: seq<Bucket>, depth: nat, limit: Limit)
    ensures var r := DescendAll(bs, position, maxSize, tree, depth, limit);
      Held(r.tree) + r.dropped == Held(tree) + HeldAll(bs)
    decreases depth, 2, |bs|
  {
    if bs != [] {
      var o := Descend(bs[0], position, maxSize, tree, depth, limit);
      var r := DescendAll(bs[1..], position, maxSize, o.tree, depth, limit);
      DescendAccounts(bs[0], position, maxSize, tree, depth, limit);
      AllAccounts(bs[1..], position, maxSize, o.tree, depth, limit);
      StepChain(Held(tree), Held(o.tree), Held(r.tree), o.dropped, r.dropped,
                multiset(bs[0].bucket), HeldAll(bs[1..]), HeldAll(bs));
    }
  }

  /** With the corrected guard nothing is ever discarded. */
  lemma {:induction false} FixedDropsNothing(b: Bucket, position: nat -> Point, maxSize: nat, tree: seq<Bucket>, depth: nat)
    ensures Split(b, position, maxSize, tree, depth, EmitAlways).dropped == multiset{}
    decreases depth, 0, 0
  {
    if |b.bucket| > maxSize && depth > 0 {
      var c := Children(b, position);
      AllFixedDropsNothing([c.ne, c.nw, c.sw, c.se], position, maxSize, tree, depth - 1);
    }
  }

  lemma {:induction false} DescendFixedDropsNothing(b: Bucket, position: nat -> Point, maxSize: nat, tree: seq<Bucket>, depth: nat)
    ensures Descend(b, position, maxSize, tree, depth, EmitAlways).dropped == multiset{}
    decreases depth, 1, 0
  {
    if b.bucket != [] && |b.bucket| > maxSize {
      FixedDropsNothing(b, position, maxSize, tree, depth);
    }
  }

  lemma {:induction false} AllFixedDropsNothing(bs: seq<Bucket>, position: nat -> Point, maxSize: nat, tree: seq<Bucket>, depth: nat)
    ensures DescendAll(bs, position, maxSize, tree, depth, EmitAlways).dropped == multiset{}
    decreases depth, 2, |bs|
  {
    if bs != [] {
      var o := Descend(bs[0], position, maxSize, tree, depth, EmitAlways);
      DescendFixedDropsNothing(bs[0], position, maxSize, tree, depth);
      AllFixedDropsNothing(bs[1..], position, maxSize, o.tree, depth);
    }
  }

  /** Every agent a bucket refers to lies in the bucket's rectangle. */
  predicate Local(b: Bucket, position: nat -> Point)
  {
    forall r :: r in b.bucket ==> Inside(position(r), b)
  }

  predicate AllLocal(leaves: seq<Bucket>, position: nat -> Point)
  {
    forall i :: 0 <= i < |leaves| ==> Local(leaves[i], position)
  }

  /** Quartering a bucket whose agents lie in its rectangle gives four
      quadrants with the same property. */
  lemma ChildrenLocal(b: Bucket, position: nat -> Point)
    requires Local(b, position)
    ensures var c := Children(b, position);
      Local(c.ne, position) && Local(c.nw, position) && Local(c.sw, position) && Local(c.se, position)
  {
    var c := Children(b, position);
    forall q: Quadrant, r | r in Pick(c, q).bucket
      ensures Inside(position(r), Pick(c, q))
    {
      ChildrenRoute(b, position, q, r);
      ChildrenContain(b, position, r);
    }
    assert Pick(c, NE) == c.ne && Pick(c, NW) == c.nw && Pick(c, SW) == c.sw && Pick(c, SE) == c.se;
  }

  /** Spatial soundness: when the agents of `b` lie in its rectangle, so do
      the agents of every leaf the split emits, each in the leaf's own
      rectangle. */
  lemma {:induction false} SplitLocal(b: Bucket, position: nat -> Point, maxSize: nat, tree: seq<Bucket>, depth: nat, limit: Limit)
    requires Local(b, position) && AllLocal(tree, position)
    ensures AllLocal(Split(b, position, maxSize, tree, depth, limit).tree, position)
    decreases depth, 0, 0
  {
    if |b.bucket| <= maxSize || depth == 0 {
      LocalPush(tree, b, position);
    } else {
      var c := Children(b, position);
      ChildrenLocal(b, position);
      AllLocalDescend([c.ne, c.nw, c.sw, c.se], position, maxSize, tree, depth - 1, limit);
    }
  }

  lemma LocalPush(tree: seq<Bucket>, b: Bucket, position: nat -> Point)
    requires Local(b, position) && AllLocal(tree, position)
    ensures AllLocal(tree + [b], position)
  {
  }

  lemma {:induction false} DescendLocal(b: Bucket, position: nat -> Point, maxSize: nat, tree: seq<Bucket>, depth: nat, limit: Limit)
    requires Local(b, position) && AllLocal(tree, position)
    ensures AllLocal(Descend(b, position, maxSize, tree, depth, limit).tree, position)
    decreases depth, 1, 0
  {
    if b.bucket != [] {
      if |b.bucket| > maxSize {
        SplitLocal(b, position, maxSize, tree, depth, limit);
      } else {
        LocalPush(tree, b, position);
      }
    }
  }

  lemma {:induction false} AllLocalDescend(bs: seq<Bucket>, position: nat -> Point, maxSize: nat, tree: seq<Bucket>, depth: nat, limit: Limit)
    requires AllLocal(bs, position) && AllLocal(tree, position)
    ensures AllLocal(DescendAll(bs, position, maxSize, tree, depth, limit).tree, position)
    decreases depth, 2, |bs|
  {
    if bs != [] {
      var o := Descend(bs[0], position, maxSize, tree, depth, limit);
      DescendLocal(bs[0], position, maxSize, tree, depth, limit);
      AllLocalDescend(bs[1..], position, maxSize, o.tree, depth, limit);
    }
  }

  /** `x` halved `d` times: the extent of a bucket `d` split levels below
      one of extent `x`. */
  function Halved(x: real, d: nat): real
  {
    if d == 0 then x else Halved(x, d - 1) / 2.0
  }

  lemma {:induction false} HalvedShift(x: real, d: nat)
    ensures Halved(x / 2.0, d) == Halved(x, d + 1)
  {
    if d > 0 {
      HalvedShift(x, d - 1);
    }
  }

  /** The shape of an emitted leaf: it holds references, and it holds more
      than `maxSize` of them only at the finest extents `xUnit` by `yUnit`,
      reached when the depth budget runs out. */
  predicate Leaf(l: Bucket, maxSize: nat, xUnit: real, yUnit: real)
  {
    l.bucket != [] && (|l.bucket| > maxSize ==> l.xLength == xUnit && l.yLength == yUnit)
  }

  predicate Leaves(tree: seq<Bucket>, maxSize: nat, xUnit: real, yUnit: real)
  {
    forall i :: 0 <= i < |tree| ==> Leaf(tree[i], maxSize, xUnit, yUnit)
  }

  lemma LeafPush(tree: seq<Bucket>, b: Bucket, maxSize: nat, xUnit: real, yUnit: real)
    requires Leaves(tree, maxSize, xUnit, yUnit) && Leaf(b, maxSize, xUnit, yUnit)
    ensures Leaves(tree + [b], maxSize, xUnit, yUnit)
  {
  }

  /** Every leaf a split of a non-empty bucket emits has the leaf shape,
      the finest extents being those of the bucket halved `depth` times. */
  lemma {:induction false} SplitShape(b: Bucket, position: nat -> Point, maxSize: nat, tree: seq<Bucket>, depth: nat, limit: Limit,
                                      xUnit: real, yUnit: real)
    requires b.bucket != [] && Leaves(tree, maxSize, xUnit, yUnit)
    requires Halved(b.xLength, depth) == xUnit && Halved(b.yLength, depth) == yUnit
    ensures Leaves(Split(b, position, maxSize, tree, depth, limit).tree, maxSize, xUnit, yUnit)
    decreases depth, 0, 0
  {
    if |b.bucket| <= maxSize || depth == 0 {
      if limit == EmitAlways || tree == [] {
        LeafPush(tree, b, maxSize, xUnit, yUnit);
      }
    } else {
      var c := Children(b, position);
      HalvedShift(b.xLength, depth - 1);
      HalvedShift(b.yLength, depth - 1);
      AllShape([c.ne, c.nw, c.sw, c.se], position, maxSize, tree, depth - 1, limit, xUnit, yUnit);
    }
  }

  lemma {:induction false} DescendShape(b: Bucket, position: nat -> Point, maxSize: nat, tree: seq<Bucket>, depth: nat, limit: Limit,
                                        xUnit: real, yUnit: real)
    requires Leaves(tree, maxSize, xUnit, yUnit)
    requires Halved(b.xLength, depth) == xUnit && Halved(b.yLength, depth) == yUnit
    ensures Leaves(Descend(b, position, maxSize, tree, depth, limit).tree, maxSize, xUnit, yUnit)
    decreases depth, 1, 0
  {
    if b.bucket == [] {
    } else if |b.bucket| > maxSize {
      SplitShape(b, position, maxSize, tree, depth, limit, xUnit, yUnit);
    } else {
      LeafPush(tree, b, maxSize, xUnit, yUnit);
    }
  }

  lemma {:induction false} AllShape(bs: seq<Bucket>, position: nat -> Point, maxSize: nat, tree: seq<Bucket>, depth: nat, limit: Limit,
                                    xUnit: real, yUnit: real)
    requires Leaves(tree, maxSize, xUnit, yUnit)
    requires forall i :: 0 <= i < |bs| ==> Halved(bs[i].xLength, depth) == xUnit && Halved(bs[i].yLength, depth) == yUnit
    ensures Leaves(DescendAll(bs, position, maxSize, tree, depth, limit).tree, maxSize, xUnit, yUnit)
    decreases depth, 2, |bs|
  {
    if bs != [] {
      var o := Descend(bs[0], position, maxSize, tree, depth, limit);
      DescendShape(bs[0], position, maxSize, tree, depth, limit, xUnit, yUnit);
      AllShape(bs[1..], position, maxSize, o.tree, depth, limit, xUnit, yUnit);
    }
  }

  lemma {:induction false} HeldAppend(a: seq<Bucket>, b: seq<Bucket>)
    ensures Held(a + b) == Held(a) + Held(b)
    decreases |b|
  {
    if b == [] {
      assert a + b == a;
    } else {
      var n := |b| - 1;
      assert (a + b)[..|a + b| - 1] == a + b[..n];
      HeldAppend(a, b[..n]);
    }
  }

  /** Splitting the tree after its first `n` leaves. */
  lemma HeldSuffix(out: seq<Bucket>, n: nat, dropped: multiset<nat>, whole: multiset<nat>)
    requires n <= |out| && Held(out) + dropped == Held(out[..n]) + whole
    ensures Held(out[n..]) + dropped == whole
  {
    assert out == out[..n] + out[n..];
    HeldAppend(out[..n], out[n..]);
    var h, s := Held(out[..n]), Held(out[n..]);
    forall x
      ensures (s + dropped)[x] == whole[x]
    {
      assert (h + s + dropped)[x] == (h + whole)[x];
    }
  }

  /** What the split appends: the tree it was given stays in front, and
      the appended leaves together with the references the guard discarded
      hold exactly the references of `b`. */
  lemma SplitAppends(b: Bucket, position: nat -> Point, maxSize: nat, tree: seq<Bucket>, depth: nat, limit: Limit)
    ensures var o := Split(b, position, maxSize, tree, depth, limit);
      |tree| <= |o.tree| && o.tree[..|tree|] == tree &&
      Held(o.tree[|tree|..]) + o.dropped == multiset(b.bucket)
  {
    var o := Split(b, position, maxSize, tree, depth, limit);
    SplitExtends(b, position, maxSize, tree, depth, limit);
    SplitAccounts(b, position, maxSize, tree, depth, limit);
    HeldSuffix(o.tree, |tree|, o.dropped, multiset(b.bucket));
  }

  /** As written, the appended leaves hold at most the references of `b`;
      no reference is invented or duplicated. */
  lemma WrittenSubset(b: Bucket, position: nat -> Point, maxSize: nat, tree: seq<Bucket>, depth: nat)
    ensures var o := Split(b, position, maxSize, tree, depth, EmitIfTreeEmpty);
      |tree| <= |o.tree| && Held(o.tree[|tree|..]) <= multiset(b.bucket)
  {
    SplitAppends(b, position, maxSize, tree, depth, EmitIfTreeEmpty);
  }

  /** With the guard corrected, the appended leaves partition `b`: every
      reference lands in exactly one leaf. */
  lemma FixedPartition(b: Bucket, position: nat -> Point, maxSize: nat, tree: seq<Bucket>, depth: nat)
    ensures var o := Split(b, position, maxSize, tree, depth, EmitAlways);
      |tree| <= |o.tree| && o.tree[..|tree|] == tree &&
      Held(o.tree[|tree|..]) == multiset(b.bucket)
  {
    SplitAppends(b, position, maxSize, tree, depth, EmitAlways);
    FixedDropsNothing(b, position, maxSize, tree, depth);
    var o := Split(b, position, maxSize, tree, depth, EmitAlways);
    assert Held(o.tree[|tree|..]) + multiset{} == Held(o.tree[|tree|..]);
  }

  /** An agent referenced once by `b` ends up in at most one leaf. */
  lemma NoAgentTwice(b: Bucket, position: nat -> Point, maxSize: nat, tree: seq<Bucket>, depth: nat, limit: Limit, r: nat)
    requires NoDup(b.bucket)
    ensures var o := Split(b, position, maxSize, tree, depth, limit);
      |tree| <= |o.tree| && Held(o.tree[|tree|..])[r] <= 1
  {
    SplitAppends(b, position, maxSize, tree, depth, limit);
    NoDupMultiplicity(b.bucket, r);
  }

  /** Every leaf of `t` from position `n` on holds at most `maxSize`
      references. */
  predicate SmallFrom(t: seq<Bucket>, n: nat, maxSize: nat)
  {
    forall i :: n <= i < |t| ==> |t[i].bucket| <= maxSize
  }

  lemma SmallPrefix(s: seq<Bucket>, t: seq<Bucket>, n: nat, maxSize: nat)
    requires |s| <= |t| && t[..|s|] == s && SmallFrom(t, n, maxSize)
    ensures SmallFrom(s, n, maxSize)
  {
    forall i | n <= i < |s|
      ensures |s[i].bucket| <= maxSize
    {
      assert s[i] == t[..|s|][i] == t[i];
    }
  }

  /** The guard as written differs from the corrected one only on a bucket
      that reaches it still too full, or on a small bucket split at the top
      level into a non-empty tree: when no leaf the corrected split appends
      from position `n` on is oversized, both splits have the same outcome.
      At the top level `n` may be 1, since the first leaf goes into an
      empty tree and is pushed by either guard. */
  lemma {:induction false} SplitExact(b: Bucket, position: nat -> Point, maxSize: nat, tree: seq<Bucket>, depth: nat, n: nat)
    requires (n <= |tree| || (tree == [] && n == 1)) && (tree == [] || |b.bucket| > maxSize)
    ensures SmallFrom(Split(b, position, maxSize, tree, depth, EmitAlways).tree, n, maxSize) ==>
      Split(b, position, maxSize, tree, depth, EmitIfTreeEmpty) == Split(b, position, maxSize, tree, depth, EmitAlways)
    decreases depth, 0, 0
  {
    if |b.bucket| <= maxSize || depth == 0 {
      if tree != [] {
        assert Split(b, position, maxSize, tree, depth, EmitAlways).tree[|tree|] == b;
      }
    } else {
      var c := Children(b, position);
      QuadExact(c.ne, c.nw, c.sw, c.se, position, maxSize, tree, depth - 1, n);
    }
  }

  lemma {:induction false} QuadExact(ne: Bucket, nw: Bucket, sw: Bucket, se: Bucket, position: nat -> Point, maxSize: nat,
                                     tree: seq<Bucket>, depth: nat, n: nat)
    requires n <= |tree| || (tree == [] && n == 1)
    ensures SmallFrom(DescendAll([ne, nw, sw, se], position, maxSize, tree, depth, EmitAlways).tree, n, maxSize) ==>
      DescendAll([ne, nw, sw, se], position, maxSize, tree, depth, EmitIfTreeEmpty) ==
        DescendAll([ne, nw, sw, se], position, maxSize, tree, depth, EmitAlways) &&
      Descend(ne, position, maxSize, tree, depth, EmitIfTreeEmpty) == Descend(ne, position, maxSize, tree, depth, EmitAlways)
    decreases depth, 3, 0
  {
    var bs := [ne, nw, sw, se];
    var o := Descend(ne, position, maxSize, tree, depth, EmitAlways);
    var r := DescendAll(bs, position, maxSize, tree, depth, EmitAlways);
    if SmallFrom(r.tree, n, maxSize) {
      AllStep(bs, position, maxSize, tree, depth, EmitAlways);
      AllExtends(bs[1..], position, maxSize, o.tree, depth, EmitAlways);
      SmallPrefix(o.tree, r.tree, n, maxSize);
      DescendExact(ne, position, maxSize, tree, depth, n);
      AllExact(bs, position, maxSize, tree, depth, n);
    }
  }

  lemma {:induction false} DescendExact(b: Bucket, position: nat -> Point, maxSize: nat, tree: seq<Bucket>, depth: nat, n: nat)
    requires n <= |tree| || (tree == [] && n == 1)
    ensures SmallFrom(Descend(b, position, maxSize, tree, depth, EmitAlways).tree, n, maxSize) ==>
      Descend(b, position, maxSize, tree, depth, EmitIfTreeEmpty) == Descend(b, position, maxSize, tree, depth, EmitAlways)
    decreases depth, 1, 0
  {
    if b.bucket != [] && |b.bucket| > maxSize {
      SplitExact(b, position, maxSize, tree, depth, n);
    }
  }

  lemma {:induction false} AllExact(bs: seq<Bucket>, position: nat -> Point, maxSize: nat, tree: seq<Bucket>, depth: nat, n: nat)
    requires n <= |tree| || (tree == [] && n == 1)
    ensures SmallFrom(DescendAll(bs, position, maxSize, tree, depth, EmitAlways).tree, n, maxSize) ==>
      DescendAll(bs, position, maxSize, tree, depth, EmitIfTreeEmpty) == DescendAll(bs, position, maxSize, tree, depth, EmitAlways)
    decreases depth, 2, |bs|
  {
    if bs != [] {
      var o := Descend(bs[0], position, maxSize, tree, depth, EmitAlways);
      var r := DescendAll(bs[1..], position, maxSize, o.tree, depth, EmitAlways);
      if SmallFrom(r.tree, n, maxSize) {
        AllExtends(bs[1..], position, maxSize, o.tree, depth, EmitAlways);
        SmallPrefix(o.tree, r.tree, n, maxSize);
        DescendExact(bs[0], position, maxSize, tree, depth, n);
        DescendExtends(bs[0], position, maxSize, tree, depth, EmitAlways);
        AllExact(bs[1..], position, maxSize, o.tree, depth, n);
      }
    }
  }

  /** When the code as written is exact: a bucket split into an empty tree,
      or one too full to reach the guard at once, is split exactly as the
      corrected guard splits it whenever every leaf the corrected split
      appends is within `maxSize`. */
  lemma WrittenExact(b: Bucket, position: nat -> Point, maxSize: nat, tree: seq<Bucket>, depth: nat)
    requires tree == [] || |b.bucket| > maxSize
    requires SmallFrom(Split(b, position, maxSize, tree, depth, EmitAlways).tree, |tree|, maxSize)
    ensures Split(b, position, maxSize, tree, depth, EmitIfTreeEmpty) == Split(b, position, maxSize, tree, depth, EmitAlways)
  {
    SplitExact(b, position, maxSize, tree, depth, |tree|);
  }

  /** The other way round: when the code as written discards references
      from such a bucket, the corrected split appends a leaf that is still
      too full, a bucket that ran out of budget. */
  lemma DropNeedsOversized(b: Bucket, position: nat -> Point, maxSize: nat, tree: seq<Bucket>, depth: nat)
    requires tree == [] || |b.bucket| > maxSize
    ensures var o := Split(b, position, maxSize, tree, depth, EmitAlways);
      Split(b, position, maxSize, tree, depth, EmitIfTreeEmpty).dropped != multiset{} ==>
        exists i :: |tree| <= i < |o.tree| && |o.tree[i].bucket| > maxSize
  {
    SplitExact(b, position, maxSize, tree, depth, |tree|);
    FixedDropsNothing(b, position, maxSize, tree, depth);
  }

  /** As written, every leaf after the first holds at most `maxSize`
      references: the guard pushes only into an empty tree, and a descent
      pushes only a quadrant within `maxSize`. */
  lemma {:induction false} SplitWrittenSmall(b: Bucket, position: nat -> Point, maxSize: nat, tree: seq<Bucket>, depth: nat)
    requires SmallFrom(tree, 1, maxSize)
    ensures SmallFrom(Split(b, position, maxSize, tree, depth, EmitIfTreeEmpty).tree, 1, maxSize)
    decreases depth, 0, 0
  {
    if |b.bucket| > maxSize && depth > 0 {
      var c := Children(b, position);
      AllWrittenSmall([c.ne, c.nw, c.sw, c.se], position, maxSize, tree, depth - 1);
    }
  }

  lemma {:induction false} DescendWrittenSmall(b: Bucket, position: nat -> Point, maxSize: nat, tree: seq<Bucket>, depth: nat)
    requires SmallFrom(tree, 1, maxSize)
    ensures SmallFrom(Descend(b, position, maxSize, tree, depth, EmitIfTreeEmpty).tree, 1, maxSize)
    decreases depth, 1, 0
  {
    if b.bucket != [] && |b.bucket| > maxSize {
      SplitWrittenSmall(b, position, maxSize, tree, depth);
    }
  }

  lemma {:induction false} AllWrittenSmall(bs: seq<Bucket>, position: nat -> Point, maxSize: nat, tree: seq<Bucket>, depth: nat)
    requires SmallFrom(tree, 1, maxSize)
    ensures SmallFrom(DescendAll(bs, position, maxSize, tree, depth, EmitIfTreeEmpty).tree, 1, maxSize)
    decreases depth, 2, |bs|
  {
    if bs != [] {
      var o := Descend(bs[0], position, maxSize, tree, depth, EmitIfTreeEmpty);
      DescendWrittenSmall(bs[0], position, maxSize, tree, depth);
      AllWrittenSmall(bs[1..], position, maxSize, o.tree, depth);
    }
  }

  /** The leaf bound of the code as written, from the top level. */
  lemma WrittenTopLevelSmall(b: Bucket, position: nat -> Point, maxSize: nat, depth: nat)
    ensures SmallFrom(Split(b, position, maxSize, [], depth, EmitIfTreeEmpty).tree, 1, maxSize)
  {
    SplitWrittenSmall(b, position, maxSize, [], depth);
  }

  /** When the code as written discards nothing from a bucket split into an
      empty tree, or one too full to reach the guard at once, its outcome
      is that of the corrected guard. */
  lemma {:induction false} SplitNoDropExact(b: Bucket, position: nat -> Point, maxSize: nat, tree: seq<Bucket>, depth: nat)
    requires tree == [] || |b.bucket| > maxSize
    ensures var w := Split(b, position, maxSize, tree, depth, EmitIfTreeEmpty);
      w.dropped == multiset{} ==> w == Split(b, position, maxSize, tree, depth, EmitAlways)
    decreases depth, 0, 0
  {
    if |b.bucket| <= maxSize || depth == 0 {
      AtLimitNoDropExact(b, tree);
    } else {
      var c := Children(b, position);
      QuadNoDropExact(c.ne, c.nw, c.sw, c.se, position, maxSize, tree, depth - 1);
    }
  }

  lemma {:induction false} QuadNoDropExact(ne: Bucket, nw: Bucket, sw: Bucket, se: Bucket, position: nat -> Point, maxSize: nat,
                                           tree: seq<Bucket>, depth: nat)
    ensures var w := DescendAll([ne, nw, sw, se], position, maxSize, tree, depth, EmitIfTreeEmpty);
      w.dropped == multiset{} ==>
        w == DescendAll([ne, nw, sw, se], position, maxSize, tree, depth, EmitAlways) &&
        Descend(ne, position, maxSize, tree, depth, EmitIfTreeEmpty) == Descend(ne, position, maxSize, tree, depth, EmitAlways)
    decreases depth, 3, 0
  {
    var bs := [ne, nw, sw, se];
    AllStep(bs, position, maxSize, tree, depth, EmitIfTreeEmpty);
    DescendNoDropExact(ne, position, maxSize, tree, depth);
    AllNoDropExact(bs, position, maxSize, tree, depth);
  }

  lemma AtLimitNoDropExact(b: Bucket, tree: seq<Bucket>)
    requires tree == [] || b.bucket != []
    ensures var w := AtLimit(b, tree, EmitIfTreeEmpty);
      w.dropped == multiset{} ==> w == AtLimit(b, tree, EmitAlways)
  {
    if tree != [] {
      assert b.bucket[0] in multiset(b.bucket);
    }
  }

  lemma {:induction false} DescendNoDropExact(b: Bucket, position: nat -> Point, maxSize: nat, tree: seq<Bucket>, depth: nat)
    ensures var w := Descend(b, position, maxSize, tree, depth, EmitIfTreeEmpty);
      w.dropped == multiset{} ==> w == Descend(b, position, maxSize, tree, depth, EmitAlways)
    decreases depth, 1, 0
  {
    if b.bucket != [] && |b.bucket| > maxSize {
      SplitNoDropExact(b, position, maxSize, tree, depth);
    }
  }

  lemma {:induction false} AllNoDropExact(bs: seq<Bucket>, position: nat -> Point, maxSize: nat, tree: seq<Bucket>, depth: nat)
    ensures var w := DescendAll(bs, position, maxSize, tree, depth, EmitIfTreeEmpty);
      w.dropped == multiset{} ==> w == DescendAll(bs, position, maxSize, tree, depth, EmitAlways)
    decreases depth, 2, |bs|
  {
    if bs != [] {
      var o := Descend(bs[0], position, maxSize, tree, depth, EmitIfTreeEmpty);
      DescendNoDropExact(bs[0], position, maxSize, tree, depth);
      AllNoDropExact(bs[1..], position, maxSize, o.tree, depth);
    }
  }

  /** The drop, exactly: splitting a bucket into an empty tree, the code as
      written discards nothing if and only if no leaf after the first that
      the corrected split emits is still too full, that is, if and only if
      no bucket runs out of budget while oversized once the tree is
      non-empty. */
  lemma DropsIff(b: Bucket, position: nat -> Point, maxSize: nat, depth: nat)
    ensures Split(b, position, maxSize, [], depth, EmitIfTreeEmpty).dropped == multiset{} <==>
      SmallFrom(Split(b, position, maxSize, [], depth, EmitAlways).tree, 1, maxSize)
  {
    SplitExact(b, position, maxSize, [], depth, 1);
    FixedDropsNothing(b, position, maxSize, [], depth);
    SplitNoDropExact(b, position, maxSize, [], depth);
    WrittenTopLevelSmall(b, position, maxSize, depth);
  }

  /** A bucket small enough at the top level is emitted on its own, under
      either guard. */
  lemma SmallTopLevel(b: Bucket, position: nat -> Point, maxSize: nat, depth: nat, limit: Limit)
    requires |b.bucket| <= maxSize
    ensures Split(b, position, maxSize, [], depth, limit) == Outcome(b, [b], multiset{})
  {
  }

  /** The split itself, in place: `base` is halved, its references are
      distributed over three new buckets (north-west, south-west,
      south-east) in a back-to-front pass that pops each reference, the
      north-east ones are pushed back in their original order, `base` is
      moved onto the north-east quadrant, and the four quadrants are
      descended into in the order north-east, north-west, south-west,
      south-east. The tree comes in and goes out as `tree`/`out`. With
      `EmitIfTreeEmpty` this is the code as written; `EmitAlways` is the
      corrected guard. */
  method SplitBucket(base: PointBucket, position: nat -> Point, maxSize: nat, tree: seq<Bucket>, depth: nat, limit: Limit)
    returns (out: seq<Bucket>)
    modifies base
    decreases depth, 1
    ensures var o := Split(old(base.Value()), position, maxSize, tree, depth, limit);
      base.Value() == o.base && out == o.tree
  {
    if |base.bucket| <= maxSize || depth == 0 {
      out := tree;
      if limit == EmitAlways || tree == [] {
        out := tree + [base.Value()];
      }
      return;
    }
    ghost var b := base.Value();
    out := Subdivide(base, position, maxSize, tree, depth, limit);
    SplitSteps(b, position, maxSize, tree, depth, limit);
  }

  /** A split past the guard: quarter `base`, then descend into the four
      quadrants in turn. */
  method Subdivide(base: PointBucket, position: nat -> Point, maxSize: nat, tree: seq<Bucket>, depth: nat, limit: Limit)
    returns (out: seq<Bucket>)
    requires depth > 0
    modifies base
    decreases depth, 0
    ensures var c := Children(old(base.Value()), position);
      var o1 := Descend(c.ne, position, maxSize, tree, depth - 1, limit);
      var o2 := Descend(c.nw, position, maxSize, o1.tree, depth - 1, limit);
      var o3 := Descend(c.sw, position, maxSize, o2.tree, depth - 1, limit);
      base.Value() == o1.base &&
      out == Descend(c.se, position, maxSize, o3.tree, depth - 1, limit).tree
  {
    var nw, sw, se := Quarter(base, position);
    var d := depth - 1;
    out := Visit(base, position, maxSize, tree, d, limit);
    out := Visit(nw, position, maxSize, out, d, limit);
    out := Visit(sw, position, maxSize, out, d, limit);
    out := Visit(se, position, maxSize, out, d, limit);
  }

  /** The first half of a split: `base` is halved and moved onto its
      north-east quadrant, keeping the north-east references in their
      original order, and three new buckets receive the north-west,
      south-west and south-east references; together the four are the
      quadrants `Children` describes. */
  method Quarter(base: PointBucket, position: nat -> Point) returns (nw: PointBucket, sw: PointBucket, se: PointBucket)
    modifies base
    ensures fresh(nw) && fresh(sw) && fresh(se) && nw != sw && nw != se && sw != se
    ensures var c := Children(old(base.Value()), position);
      base.Value() == c.ne && nw.Value() == c.nw && sw.Value() == c.sw && se.Value() == c.se
  {
    ghost var b := base.Value();
    ghost var l := Route(b.bucket, position, b.x, b.y);
    ghost var c := Children(b, position);

    base.xLength, base.yLength := base.xLength / 2.0, base.yLength / 2.0;
    nw := new PointBucket(base.x - base.xLength / 2.0, base.y + base.yLength / 2.0, base.xLength, base.yLength);
    sw := new PointBucket(base.x - base.xLength / 2.0, base.y - base.yLength / 2.0, base.xLength, base.yLength);
    se := new PointBucket(base.x + base.xLength / 2.0, base.y - base.yLength / 2.0, base.xLength, base.yLength);

    var extra := Distribute(base, nw, sw, se, position);
    PushBack(base, extra);
    ReverseReverse(l.ne);

    base.x, base.y := base.x + base.xLength / 2.0, base.y + base.yLength / 2.0;
  }

  /** A split below the guard, written out as the four descents in turn. */
  lemma SplitSteps(b: Bucket, position: nat -> Point, maxSize: nat, tree: seq<Bucket>, depth: nat, limit: Limit)
    requires |b.bucket| > maxSize && depth > 0
    ensures var c := Children(b, position);
      var o1 := Descend(c.ne, position, maxSize, tree, depth - 1, limit);
      var o2 := Descend(c.nw, position, maxSize, o1.tree, depth - 1, limit);
      var o3 := Descend(c.sw, position, maxSize, o2.tree, depth - 1, limit);
      var o4 := Descend(c.se, position, maxSize, o3.tree, depth - 1, limit);
      Split(b, position, maxSize, tree, depth, limit) ==
        Outcome(o1.base, o4.tree, o1.dropped + (o2.dropped + (o3.dropped + (o4.dropped + multiset{}))))
  {
    var c := Children(b, position);
    var d := depth - 1;
    var o1 := Descend(c.ne, position, maxSize, tree, d, limit);
    var o2 := Descend(c.nw, position, maxSize, o1.tree, d, limit);
    var o3 := Descend(c.sw, position, maxSize, o2.tree, d, limit);
    var o4 := Descend(c.se, position, maxSize, o3.tree, d, limit);
    var bs := [c.ne, c.nw, c.sw, c.se];
    AllStep(bs, position, maxSize, tree, d, limit);
    AllStep([c.nw, c.sw, c.se], position, maxSize, o1.tree, d, limit);
    AllStep([c.sw, c.se], position, maxSize, o2.tree, d, limit);
    AllStep([c.se], position, maxSize, o3.tree, d, limit);
    assert DescendAll([c.se][1..], position, maxSize, o4.tree, d, limit) == Emission(o4.tree, multiset{});
  }

  lemma AllStep(bs: seq<Bucket>, position: nat -> Point, maxSize: nat, tree: seq<Bucket>, depth: nat, limit: Limit)
    requires bs != []
    ensures var o := Descend(bs[0], position, maxSize, tree, depth, limit);
      var r := DescendAll(bs[1..], position, maxSize, o.tree, depth, limit);
      DescendAll(bs, position, maxSize, tree, depth, limit) == Emission(r.tree, o.dropped + r.dropped)
  {
  }

  /** One quadrant after a split: skipped when empty, split again when
      still too full, otherwise emitted. */
  method Visit(q: PointBucket, position: nat -> Point, maxSize: nat, tree: seq<Bucket>, depth: nat, limit: Limit)
    returns (out: seq<Bucket>)
    modifies q
    decreases depth, 2
    ensures var o := Descend(old(q.Value()), position, maxSize, tree, depth, limit);
      q.Value() == o.base && out == o.tree
  {
    out := tree;
    if q.bucket != [] {
      if |q.bucket| > maxSize {
        out := SplitBucket(q, position, maxSize, tree, depth, limit);
      } else {
        out := tree + [q.Value()];
      }
    }
  }

  /** The back-to-front pass of the split: each reference of `base` is
      classified against the centre of `base`, pushed onto `nw`, `sw` or
      `se`, or kept aside in `extra` when it lies north-east, and popped
      from `base`. Only the reference lists change. */
  method Distribute(base: PointBucket, nw: PointBucket, sw: PointBucket, se: PointBucket, position: nat -> Point)
    returns (extra: seq<nat>)
    requires base != nw && base != sw && base != se && nw != sw && nw != se && sw != se
    requires nw.bucket == [] && sw.bucket == [] && se.bucket == []
    modifies base`bucket, nw`bucket, sw`bucket, se`bucket
    ensures var m := Route(old(base.bucket), position, base.x, base.y);
      extra == Reverse(m.ne) && base.bucket == [] &&
      nw.bucket == m.nw && sw.bucket == m.sw && se.bucket == m.se
  {
    ghost var s := base.bucket;
    extra := [];
    var i := |base.bucket|;
    while i > 0
      invariant 0 <= i <= |s| && base.bucket == s[..i]
      invariant var m := Route(s[i..], position, base.x, base.y);
        extra == Reverse(m.ne) && nw.bucket == m.nw && sw.bucket == m.sw && se.bucket == m.se
    {
      i := i - 1;
      var r := base.bucket[i];
      assert s[i..][1..] == s[i + 1..];
      var location := position(r);
      var code := (if location.x < base.x then 1 else 0) + 2 * (if location.y < base.y then 1 else 0);
      if code == 0 {
        extra := extra + [r];
      } else if code == 1 {
        nw.bucket := nw.bucket + [r];
      } else if code == 2 {
        se.bucket := se.bucket + [r];
      } else {
        sw.bucket := sw.bucket + [r];
      }
      base.bucket := base.bucket[..i];
    }
    assert s[0..] == s;
  }

  /** The second pass: `extra` is pushed back onto `base` from its last
      element to its first. */
  method PushBack(base: PointBucket, extra: seq<nat>)
    modifies base`bucket
    ensures base.bucket == old(base.bucket) + Reverse(extra)
  {
    var j := |extra|;
    while j > 0
      invariant 0 <= j <= |extra|
      invariant base.bucket == old(base.bucket) + Reverse(extra[j..])
    {
      j := j - 1;
      assert extra[j..][1..] == extra[j + 1..];
      base.bucket := base.bucket + [extra[j]];
    }
    assert extra[0..] == extra;
  }

  /** Agents 0 and 1 at (1, 1), every other agent at (-1, 1). */
  function Sample(r: nat): Point
  {
    if r < 2 then Point(1.0, 1.0) else Point(-1.0, 1.0)
  }

  /** The four quadrants of the 2 x 2 square around the origin holding
      agents 0 to 3. */
  lemma SampleChildren()
    ensures Children(Bucket(0.0, 0.0, 2.0, 2.0, [0, 1, 2, 3]), Sample) ==
      Quad(Bucket(0.5, 0.5, 1.0, 1.0, [0, 1]), Bucket(-0.5, 0.5, 1.0, 1.0, [3, 2]),
           Bucket(-0.5, -0.5, 1.0, 1.0, []), Bucket(0.5, -0.5, 1.0, 1.0, []))
  {
    var s := [0, 1, 2, 3];
    assert s[1..] == [1, 2, 3] && s[1..][1..] == [2, 3] && s[1..][1..][1..] == [3];
    assert Route([3], Sample, 0.0, 0.0) == Lists([], [3], [], []);
    assert Route([2, 3], Sample, 0.0, 0.0) == Lists([], [3, 2], [], []);
    assert Route([1, 2, 3], Sample, 0.0, 0.0) == Lists([1], [3, 2], [], []);
  }

  /** Where the code as written loses agents: four agents, two in the
      north-east and two in the north-west of a 2 x 2 square, a bucket
      capacity of one and one level of subdivision. The north-east
      quadrant is still too full at the last level and is emitted because
      the tree is empty; the north-west quadrant is in the same state but
      the tree is no longer empty, so agents 2 and 3 end up in no leaf. With
      the corrected guard both quadrants are emitted. */
  lemma DropExample()
    ensures var b := Bucket(0.0, 0.0, 2.0, 2.0, [0, 1, 2, 3]);
      var written := Split(b, Sample, 1, [], 1, EmitIfTreeEmpty);
      var fixed := Split(b, Sample, 1, [], 1, EmitAlways);
      written.tree == [Bucket(0.5, 0.5, 1.0, 1.0, [0, 1])] &&
      written.dropped == multiset{2, 3} &&
      fixed.tree == [Bucket(0.5, 0.5, 1.0, 1.0, [0, 1]), Bucket(-0.5, 0.5, 1.0, 1.0, [3, 2])] &&
      fixed.dropped == multiset{}
  {
    var b := Bucket(0.0, 0.0, 2.0, 2.0, [0, 1, 2, 3]);
    var ne, nw := Bucket(0.5, 0.5, 1.0, 1.0, [0, 1]), Bucket(-0.5, 0.5, 1.0, 1.0, [3, 2]);
    SampleChildren();
    assert multiset(nw.bucket) == multiset{2, 3} by {
      assert [3, 2][..1] == [3] && [3][..0] == [];
    }
    assert Descend(ne, Sample, 1, [], 0, EmitIfTreeEmpty) == Outcome(ne, [ne], multiset{});
    assert Descend(nw, Sample, 1, [ne], 0, EmitIfTreeEmpty) == Outcome(nw, [ne], multiset{2, 3});
    assert Descend(ne, Sample, 1, [], 0, EmitAlways) == Outcome(ne, [ne], multiset{});
    assert Descend(nw, Sample, 1, [ne], 0, EmitAlways) == Outcome(nw, [ne, nw], multiset{});
    SplitSteps(b, Sample, 1, [], 1, EmitIfTreeEmpty);
    SplitSteps(b, Sample, 1, [], 1, EmitAlways);
  }
}
