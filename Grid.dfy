/** The integer-grid quadtree split (QuadTree/main.cpp). A bucket is a box
    given by its corner (x, y) and its half-widths (xMid, yMid), holding
    references to points with non-negative integer coordinates. The box is
    split at (x + xMid, y + yMid): points strictly past both lines go
    south-east, points strictly past only the first go north-east, points
    strictly past only the second go south-west, and all others stay in the
    bucket, which keeps its corner and becomes the remaining quadrant.
    Splitting stops once a half-width is below 4; no point is ever lost.
    References are indices into the point collection and `at(r)` is the
    point `r` designates. */
module Grid {
  import opened Seqs

  datatype Pair = Pair(first: nat, second: nat)

  /** The value of a bucket: what `tree.push_back` copies. */
  datatype Bucket = Bucket(x: nat, y: nat, xMid: nat, yMid: nat, bucket: seq<nat>)

  /** A bucket whose fields the split updates in place. */
  class PointBucket {
    var x: nat
    var y: nat
    var xMid: nat
    var yMid: nat
    var bucket: seq<nat>

    function Value(): Bucket
      reads this
    {
      Bucket(x, y, xMid, yMid, bucket)
    }

    /** Geometry only; no references yet. */
    constructor (x: nat, y: nat, xMid: nat, yMid: nat)
      ensures Value() == Bucket(x, y, xMid, yMid, [])
    {
      this.x, this.y, this.xMid, this.yMid := x, y, xMid, yMid;
      bucket := [];
    }

    /** Geometry plus one reference per point of `points`, pushed in order:
        the i-th reference designates the i-th point. */
    constructor FromPoints(x: nat, y: nat, xMid: nat, yMid: nat, points: seq<Pair>)
      ensures Value() == Bucket(x, y, xMid, yMid, Indices(|points|))
      ensures |bucket| == |points| && NoDup(bucket)
    {
      this.x, this.y, this.xMid, this.yMid := x, y, xMid, yMid;
      var refs: seq<nat> := [];
      var i := 0;
      while i < |points|
        invariant 0 <= i <= |points|
        invariant refs == Indices(i)
      {
        refs := refs + [i];
        i := i + 1;
      }
      bucket := refs;
    }
  }

  datatype Quadrant = Stay | NE | SW | SE

  /** Where a point goes when its bucket is split at (cx, cy). */
  function Classify(p: Pair, cx: nat, cy: nat): Quadrant
  {
    if p.first > cx && p.second > cy then SE
    else if p.first > cx then NE
    else if p.second > cy then SW
    else Stay
  }

  /** The classification rule spelt out: comparisons are strict, so a
      point on a dividing line stays on the bucket's side of it. */
  lemma ClassifyRule(p: Pair, cx: nat, cy: nat)
    ensures Classify(p, cx, cy) == SE <==> p.first > cx && p.second > cy
    ensures Classify(p, cx, cy) == NE <==> p.first > cx && p.second <= cy
    ensures Classify(p, cx, cy) == SW <==> p.first <= cx && p.second > cy
    ensures Classify(p, cx, cy) == Stay <==> p.first <= cx && p.second <= cy
  {
  }

  datatype Lists = Lists(stay: seq<nat>, ne: seq<nat>, sw: seq<nat>, se: seq<nat>)

  function Part(l: Lists, q: Quadrant): seq<nat>
  {
    match q
    case Stay => l.stay
    case NE => l.ne
    case SW => l.sw
    case SE => l.se
  }

  /** The back-to-front pass over `s`: references that stay are collected
      and later pushed back, which restores their order; the others are
      pushed onto their quadrant as they are met, so in reverse order. */
  function Route(s: seq<nat>, at: nat -> Pair, cx: nat, cy: nat): (l: Lists)
    ensures |l.stay| + |l.ne| + |l.sw| + |l.se| == |s|
  {
    if s == [] then Lists([], [], [], [])
    else
      var r := Route(s[1..], at, cx, cy);
      match Classify(at(s[0]), cx, cy)
      case Stay => r.(stay := [s[0]] + r.stay)
      case NE => r.(ne := r.ne + [s[0]])
      case SW => r.(sw := r.sw + [s[0]])
      case SE => r.(se := r.se + [s[0]])
  }

  /** The references of `s` whose point lies in `q`, in the order of `s`. */
  function Filter(s: seq<nat>, at: nat -> Pair, cx: nat, cy: nat, q: Quadrant): seq<nat>
  {
    if s == [] then []
    else (if Classify(at(s[0]), cx, cy) == q then [s[0]] else []) + Filter(s[1..], at, cx, cy, q)
  }

  /** The order the pass leaves: the bucket keeps its remaining references
      in their original order, and each new quadrant receives its
      references in reverse order. */
  lemma {:induction false} RouteOrder(s: seq<nat>, at: nat -> Pair, cx: nat, cy: nat, q: Quadrant)
    ensures Part(Route(s, at, cx, cy), q)
         == if q == Stay then Filter(s, at, cx, cy, q) else Reverse(Filter(s, at, cx, cy, q))
  {
    if s != [] {
      RouteOrder(s[1..], at, cx, cy, q);
      var f := Filter(s[1..], at, cx, cy, q);
      if Classify(at(s[0]), cx, cy) == q {
        assert Filter(s, at, cx, cy, q) == [s[0]] + f;
        assert ([s[0]] + f)[1..] == f;
      } else {
        assert Filter(s, at, cx, cy, q) == f;
      }
    }
  }

  /** Each reference goes to exactly one of the four lists. */
  lemma {:induction false} RoutePartition(s: seq<nat>, at: nat -> Pair, cx: nat, cy: nat)
    ensures var l := Route(s, at, cx, cy);
      multiset(l.stay) + multiset(l.ne) + multiset(l.sw) + multiset(l.se) == multiset(s)
  {
    if s != [] {
      var x, t := s[0], s[1..];
      RoutePartition(t, at, cx, cy);
      assert s == [x] + t;
      RouteStep(Classify(at(x), cx, cy), x, Route(t, at, cx, cy), Route(s, at, cx, cy));
    }
  }

  lemma RouteStep(q: Quadrant, x: nat, l: Lists, l': Lists)
    requires l' == match q
      case Stay => l.(stay := [x] + l.stay)
      case NE => l.(ne := l.ne + [x])
      case SW => l.(sw := l.sw + [x])
      case SE => l.(se := l.se + [x])
    ensures multiset(l'.stay) + multiset(l'.ne) + multiset(l'.sw) + multiset(l'.se)
         == multiset{x} + (multiset(l.stay) + multiset(l.ne) + multiset(l.sw) + multiset(l.se))
  {
  }

  /** A reference lands in the list of `q` exactly when it is in `s` and
      its point lies in `q`. */
  lemma {:induction false} RouteMembers(s: seq<nat>, at: nat -> Pair, cx: nat, cy: nat, q: Quadrant, r: nat)
    ensures r in Part(Route(s, at, cx, cy), q) <==> r in s && Classify(at(r), cx, cy) == q
  {
    if s != [] {
      RouteMembers(s[1..], at, cx, cy, q, r);
      assert s == [s[0]] + s[1..];
    }
  }

  /** The references of `b` sorted into the four lists: routed when the
      bucket holds more than `maxSize`, otherwise all left in place. */
  function Sort(b: Bucket, at: nat -> Pair, maxSize: nat): Lists
  {
    if |b.bucket| > maxSize then Route(b.bucket, at, b.x + b.xMid, b.y + b.yMid)
    else Lists(b.bucket, [], [], [])
  }

  lemma SortPartition(b: Bucket, at: nat -> Pair, maxSize: nat)
    ensures var l := Sort(b, at, maxSize);
      multiset(l.stay) + multiset(l.ne) + multiset(l.sw) + multiset(l.se) == multiset(b.bucket)
  {
    if |b.bucket| > maxSize {
      RoutePartition(b.bucket, at, b.x + b.xMid, b.y + b.yMid);
    }
  }

  datatype Quad = Quad(stay: Bucket, ne: Bucket, sw: Bucket, se: Bucket)

  /** The four quadrants after one split. Every quadrant gets the halved
      half-widths; the bucket keeps its corner; north-east, south-west and
      south-east start at (x + xMid, y), (x, y + yMid) and
      (x + xMid, y + yMid). Points are moved only when the bucket holds
      more than `maxSize` of them. */
  function Children(b: Bucket, at: nat -> Pair, maxSize: nat): Quad
  {
    var hx, hy := b.xMid / 2, b.yMid / 2;
    var l := Sort(b, at, maxSize);
    Quad(Bucket(b.x, b.y, hx, hy, l.stay),
         Bucket(b.x + b.xMid, b.y, hx, hy, l.ne),
         Bucket(b.x, b.y + b.yMid, hx, hy, l.sw),
         Bucket(b.x + b.xMid, b.y + b.yMid, hx, hy, l.se))
  }

  /** The termination measure: the sum of the half-widths, which every
      split halves. */
  function Measure(b: Bucket): nat
  {
    b.xMid + b.yMid
  }

  lemma ChildrenSmaller(b: Bucket, at: nat -> Pair, maxSize: nat)
    requires b.xMid >= 4 && b.yMid >= 4
    ensures var c := Children(b, at, maxSize);
      Measure(c.stay) < Measure(b) && Measure(c.ne) == Measure(c.sw) == Measure(c.se) == Measure(c.stay)
  {
  }

  datatype Outcome = Outcome(base: Bucket, tree: seq<Bucket>)

  /** The split of `b` appended to `tree`: `base` is the final value of
      the bucket, `tree` the output. An empty bucket adds nothing; a bucket
      at the finest resolution is emitted whatever its size; otherwise the
      four quadrants are descended into in the order bucket, north-east,
      south-west, south-east. */
  function Split(b: Bucket, at: nat -> Pair, maxSize: nat, tree: seq<Bucket>): Outcome
    decreases Measure(b), 0, 0
  {
    if b.bucket == [] then Outcome(b, tree)
    else if b.yMid < 4 || b.xMid < 4 then Outcome(b, tree + [b])
    else
      var c := Children(b, at, maxSize);
      Outcome(Descend(c.stay, at, maxSize, tree).base,
              DescendAll([c.stay, c.ne, c.sw, c.se], at, maxSize, tree, Measure(c.stay)))
  }

  /** One quadrant after a split: skipped when empty, split again when
      too full, otherwise emitted. */
  function Descend(b: Bucket, at: nat -> Pair, maxSize: nat, tree: seq<Bucket>): Outcome
    decreases Measure(b), 1, 0
  {
    if b.bucket == [] then Outcome(b, tree)
    else if |b.bucket| > maxSize then Split(b, at, maxSize, tree)
    else Outcome(b, tree + [b])
  }

  /** The quadrants `bs`, none of them larger than `bound` by the
      termination measure, descended into one after the other. */
  function DescendAll(bs: seq<Bucket>, at: nat -> Pair, maxSize: nat, tree: seq<Bucket>, bound: nat): seq<Bucket>
    requires forall i :: 0 <= i < |bs| ==> Measure(bs[i]) <= bound
    decreases bound, 2, |bs|
  {
    if bs == [] then tree
    else DescendAll(bs[1..], at, maxSize, Descend(bs[0], at, maxSize, tree).tree, bound)
  }

  /** Every reference held by a list of leaves, with multiplicity. */
  function Held(leaves: seq<Bucket>): multiset<nat>
  {
    if leaves == [] then multiset{} else Held(leaves[..|leaves| - 1]) + multiset(leaves[|leaves| - 1].bucket)
  }

  function HeldAll(bs: seq<Bucket>): multiset<nat>
  {
    if bs == [] then multiset{} else multiset(bs[0].bucket) + HeldAll(bs[1..])
  }

  /** The four quadrants together hold exactly the bucket's references. */
  lemma ChildrenPartition(b: Bucket, at: nat -> Pair, maxSize: nat)
    ensures var c := Children(b, at, maxSize);
      HeldAll([c.stay, c.ne, c.sw, c.se]) == multiset(b.bucket)
  {
    var c := Children(b, at, maxSize);
    QuadHeld(c);
    SortPartition(b, at, maxSize);
    SumFour(multiset(c.stay.bucket), multiset(c.ne.bucket), multiset(c.sw.bucket), multiset(c.se.bucket), multiset(b.bucket));
  }

  lemma QuadHeld(c: Quad)
    ensures HeldAll([c.stay, c.ne, c.sw, c.se])
         == multiset(c.stay.bucket) + (multiset(c.ne.bucket) + (multiset(c.sw.bucket) + (multiset(c.se.bucket) + multiset{})))
  {
    var l := [c.stay, c.ne, c.sw, c.se];
    assert l[1..] == [c.ne, c.sw, c.se] && l[1..][1..] == [c.sw, c.se] && l[1..][1..][1..] == [c.se];
    assert l[1..][1..][1..][1..] == [];
    assert HeldAll([c.se]) == multiset(c.se.bucket) + multiset{};
    assert HeldAll([c.sw, c.se]) == multiset(c.sw.bucket) + HeldAll([c.se]);
    assert HeldAll([c.ne, c.sw, c.se]) == multiset(c.ne.bucket) + HeldAll([c.sw, c.se]);
  }

  lemma HeldPush(tree: seq<Bucket>, b: Bucket)
    ensures Held(tree + [b]) == Held(tree) + multiset(b.bucket)
  {
    assert (tree + [b])[..|tree + [b]| - 1] == tree;
  }

  /** Two successive steps that each add one part add both. */
  lemma StepChain(m0: multiset<nat>, m1: multiset<nat>, m2: multiset<nat>, a: multiset<nat>, b: multiset<nat>, whole: multiset<nat>)
    requires m1 == m0 + a && m2 == m1 + b && a + b == whole
    ensures m2 == m0 + whole
  {
    forall x
      ensures m2[x] == (m0 + whole)[x]
    {
      assert (a + b)[x] == whole[x];
    }
  }

  /** No reference is lost or duplicated: the split adds exactly the
      references of `b` to the tree. */
  lemma {:induction false} SplitAccounts(b: Bucket, at: nat -> Pair, maxSize: nat, tree: seq<Bucket>)
    ensures Held(Split(b, at, maxSize, tree).tree) == Held(tree) + multiset(b.bucket)
    decreases Measure(b), 0, 0
  {
    if b.bucket == [] {
      assert multiset(b.bucket) == multiset{};
    } else if b.yMid < 4 || b.xMid < 4 {
      HeldPush(tree, b);
    } else {
      var c := Children(b, at, maxSize);
      AllAccounts([c.stay, c.ne, c.sw, c.se], at, maxSize, tree, Measure(c.stay));
      ChildrenPartition(b, at, maxSize);
    }
  }

  lemma {:induction false} DescendAccounts(b: Bucket, at: nat -> Pair, maxSize: nat, tree: seq<Bucket>)
    ensures Held(Descend(b, at, maxSize, tree).tree) == Held(tree) + multiset(b.bucket)
    decreases Measure(b), 1, 0
  {
    if b.bucket == [] {
      assert multiset(b.bucket) == multiset{};
    } else if |b.bucket| > maxSize {
      SplitAccounts(b, at, maxSize, tree);
    } else {
      HeldPush(tree, b);
    }
  }

  lemma {:induction false} AllAccounts(bs: seq<Bucket>, at: nat -> Pair, maxSize: nat, tree: seq<Bucket>, bound: nat)
    requires forall i :: 0 <= i < |bs| ==> Measure(bs[i]) <= bound
    ensures Held(DescendAll(bs, at, maxSize, tree, bound)) == Held(tree) + HeldAll(bs)
    decreases bound, 2, |bs|
  {
    if bs == [] {
      assert Held(tree) + multiset{} == Held(tree);
    } else {
      var o := Descend(bs[0], at, maxSize, tree);
      var r := DescendAll(bs[1..], at, maxSize, o.tree, bound);
      DescendAccounts(bs[0], at, maxSize, tree);
      AllAccounts(bs[1..], at, maxSize, o.tree, bound);
      StepChain(Held(tree), Held(o.tree), Held(r), multiset(bs[0].bucket), HeldAll(bs[1..]), HeldAll(bs));
    }
  }

  /** The shape of an emitted leaf: never empty, and larger than
      `maxSize` only at the finest resolution. */
  predicate Leaf(l: Bucket, maxSize: nat)
  {
    l.bucket != [] && (|l.bucket| > maxSize ==> l.xMid < 4 || l.yMid < 4)
  }

  predicate Leaves(tree: seq<Bucket>, maxSize: nat)
  {
    forall i :: 0 <= i < |tree| ==> Leaf(tree[i], maxSize)
  }

  lemma LeafPush(tree: seq<Bucket>, b: Bucket, maxSize: nat)
    requires Leaves(tree, maxSize) && Leaf(b, maxSize)
    ensures Leaves(tree + [b], maxSize)
  {
  }

  /** Every leaf the split emits has the leaf shape. */
  lemma {:induction false} SplitShape(b: Bucket, at: nat -> Pair, maxSize: nat, tree: seq<Bucket>)
    requires Leaves(tree, maxSize)
    ensures Leaves(Split(b, at, maxSize, tree).tree, maxSize)
    decreases Measure(b), 0, 0
  {
    if b.bucket == [] {
    } else if b.yMid < 4 || b.xMid < 4 {
      LeafPush(tree, b, maxSize);
    } else {
      var c := Children(b, at, maxSize);
      AllShape([c.stay, c.ne, c.sw, c.se], at, maxSize, tree, Measure(c.stay));
    }
  }

  lemma {:induction false} DescendShape(b: Bucket, at: nat -> Pair, maxSize: nat, tree: seq<Bucket>)
    requires Leaves(tree, maxSize)
    ensures Leaves(Descend(b, at, maxSize, tree).tree, maxSize)
    decreases Measure(b), 1, 0
  {
    if b.bucket == [] {
    } else if |b.bucket| > maxSize {
      SplitShape(b, at, maxSize, tree);
    } else {
      LeafPush(tree, b, maxSize);
    }
  }

  lemma {:induction false} AllShape(bs: seq<Bucket>, at: nat -> Pair, maxSize: nat, tree: seq<Bucket>, bound: nat)
    requires forall i :: 0 <= i < |bs| ==> Measure(bs[i]) <= bound
    requires Leaves(tree, maxSize)
    ensures Leaves(DescendAll(bs, at, maxSize, tree, bound), maxSize)
    decreases bound, 2, |bs|
  {
    if bs != [] {
      var o := Descend(bs[0], at, maxSize, tree);
      DescendShape(bs[0], at, maxSize, tree);
      AllShape(bs[1..], at, maxSize, o.tree, bound);
    }
  }

  /** The full partition: the split keeps the tree it was given in front
      and appends leaves that together hold exactly the references of `b`,
      each leaf non-empty and within `maxSize` unless at the finest
      resolution. */
  lemma SplitPartition(b: Bucket, at: nat -> Pair, maxSize: nat, tree: seq<Bucket>)
    ensures var o := Split(b, at, maxSize, tree);
      |tree| <= |o.tree| && o.tree[..|tree|] == tree &&
      Held(o.tree[|tree|..]) == multiset(b.bucket) &&
      Leaves(o.tree[|tree|..], maxSize)
  {
    var o, alone := Split(b, at, maxSize, tree), Split(b, at, maxSize, []);
    SplitSuffix(b, at, maxSize, tree);
    assert o.tree[..|tree|] == tree && o.tree[|tree|..] == alone.tree;
    SplitAccounts(b, at, maxSize, []);
    assert Held([]) + multiset(b.bucket) == multiset(b.bucket);
    SplitShape(b, at, maxSize, []);
  }

  /** The leaves appended to a tree do not depend on the tree. */
  lemma {:induction false} SplitSuffix(b: Bucket, at: nat -> Pair, maxSize: nat, tree: seq<Bucket>)
    ensures var o := Split(b, at, maxSize, tree);
      o.tree == tree + Split(b, at, maxSize, []).tree && o.base == Split(b, at, maxSize, []).base
    decreases Measure(b), 0, 0
  {
    if b.bucket != [] && b.yMid >= 4 && b.xMid >= 4 {
      var c := Children(b, at, maxSize);
      AllSuffix([c.stay, c.ne, c.sw, c.se], at, maxSize, tree, [], Measure(c.stay));
      assert tree + [] == tree;
      DescendSuffix(c.stay, at, maxSize, tree);
    }
  }

  lemma {:induction false} DescendSuffix(b: Bucket, at: nat -> Pair, maxSize: nat, tree: seq<Bucket>)
    ensures var o := Descend(b, at, maxSize, tree);
      o.tree == tree + Descend(b, at, maxSize, []).tree && o.base == Descend(b, at, maxSize, []).base
    decreases Measure(b), 1, 0
  {
    if b.bucket != [] && |b.bucket| > maxSize {
      SplitSuffix(b, at, maxSize, tree);
    }
  }

  lemma {:induction false} AllSuffix(bs: seq<Bucket>, at: nat -> Pair, maxSize: nat, tree: seq<Bucket>, rest: seq<Bucket>, bound: nat)
    requires forall i :: 0 <= i < |bs| ==> Measure(bs[i]) <= bound
    ensures DescendAll(bs, at, maxSize, tree + rest, bound) == tree + DescendAll(bs, at, maxSize, rest, bound)
    decreases bound, 2, |bs|
  {
    if bs != [] {
      var o := Descend(bs[0], at, maxSize, rest);
      DescendSuffix(bs[0], at, maxSize, tree + rest);
      DescendSuffix(bs[0], at, maxSize, rest);
      assert (tree + rest) + Descend(bs[0], at, maxSize, []).tree == tree + o.tree;
      AllSuffix(bs[1..], at, maxSize, tree, o.tree, bound);
    }
  }

  /** A bucket that holds references but no more than `maxSize` of them
      and is still above the finest resolution is not subdivided, yet it
      is emitted with both half-widths halved: the halving happens before
      the check that decides whether to descend. */
  lemma SmallHalved(b: Bucket, at: nat -> Pair, maxSize: nat, tree: seq<Bucket>)
    requires b.bucket != [] && |b.bucket| <= maxSize && b.xMid >= 4 && b.yMid >= 4
    ensures Split(b, at, maxSize, tree).tree == tree + [b.(xMid := b.xMid / 2, yMid := b.yMid / 2)]
  {
    var c := Children(b, at, maxSize);
    var o := Descend(c.stay, at, maxSize, tree);
    AllStep([c.stay, c.ne, c.sw, c.se], at, maxSize, tree, Measure(c.stay));
    assert [c.stay, c.ne, c.sw, c.se][1..] == [c.ne, c.sw, c.se];
    AllEmpty([c.ne, c.sw, c.se], at, maxSize, o.tree, Measure(c.stay));
  }

  lemma {:induction false} AllEmpty(bs: seq<Bucket>, at: nat -> Pair, maxSize: nat, tree: seq<Bucket>, bound: nat)
    requires forall i :: 0 <= i < |bs| ==> Measure(bs[i]) <= bound && bs[i].bucket == []
    ensures DescendAll(bs, at, maxSize, tree, bound) == tree
    decreases |bs|
  {
    if bs != [] {
      AllEmpty(bs[1..], at, maxSize, tree, bound);
    }
  }

  /** Splits `base` in place and appends its leaves to `tree`, as
      `Split` describes. */
  method SplitBucket(base: PointBucket, at: nat -> Pair, maxSize: nat, tree: seq<Bucket>)
    returns (out: seq<Bucket>)
    modifies base
    decreases base.xMid + base.yMid, 1
    ensures var o := Split(old(base.Value()), at, maxSize, tree);
      base.Value() == o.base && out == o.tree
  {
    if base.bucket == [] {
      return tree;
    }
    if base.yMid < 4 || base.xMid < 4 {
      return tree + [base.Value()];
    }
    ghost var b := base.Value();
    out := Subdivide(base, at, maxSize, tree);
    SplitSteps(b, at, maxSize, tree);
  }

  /** A split past both guards: quarter `base`, then descend into the
      bucket, north-east, south-west and south-east in turn. */
  method Subdivide(base: PointBucket, at: nat -> Pair, maxSize: nat, tree: seq<Bucket>)
    returns (out: seq<Bucket>)
    requires base.xMid >= 4 && base.yMid >= 4
    modifies base
    decreases base.xMid + base.yMid, 0
    ensures var c := Children(old(base.Value()), at, maxSize);
      var o1 := Descend(c.stay, at, maxSize, tree);
      var o2 := Descend(c.ne, at, maxSize, o1.tree);
      var o3 := Descend(c.sw, at, maxSize, o2.tree);
      base.Value() == o1.base &&
      out == Descend(c.se, at, maxSize, o3.tree).tree
  {
    var ne, sw, se := Quarter(base, at, maxSize);
    out := Visit(base, at, maxSize, tree);
    out := Visit(ne, at, maxSize, out);
    out := Visit(sw, at, maxSize, out);
    out := Visit(se, at, maxSize, out);
  }

  /** The first half of a split: three new buckets take the north-east,
      south-west and south-east quadrants and, when `base` holds more than
      `maxSize` references, the references that lie there; `base` keeps
      the rest in their original order and its half-widths are halved.
      Together the four are the quadrants `Children` describes. */
  method Quarter(base: PointBucket, at: nat -> Pair, maxSize: nat) returns (ne: PointBucket, sw: PointBucket, se: PointBucket)
    modifies base
    ensures fresh(ne) && fresh(sw) && fresh(se) && ne != sw && ne != se && sw != se
    ensures var c := Children(old(base.Value()), at, maxSize);
      base.Value() == c.stay && ne.Value() == c.ne && sw.Value() == c.sw && se.Value() == c.se
  {
    var newXMid, newYMid := base.xMid / 2, base.yMid / 2;
    ne := new PointBucket(base.x + base.xMid, base.y, newXMid, newYMid);
    sw := new PointBucket(base.x, base.y + base.yMid, newXMid, newYMid);
    se := new PointBucket(base.x + base.xMid, base.y + base.yMid, newXMid, newYMid);
    Regroup(base, ne, sw, se, at, maxSize);
    base.xMid, base.yMid := newXMid, newYMid;
  }

  /** The reference lists of a split: when `base` holds more than
      `maxSize` references they are distributed and the ones that stay are
      pushed back; otherwise nothing moves. */
  method Regroup(base: PointBucket, ne: PointBucket, sw: PointBucket, se: PointBucket, at: nat -> Pair, maxSize: nat)
    requires base != ne && base != sw && base != se && ne != sw && ne != se && sw != se
    requires ne.bucket == [] && sw.bucket == [] && se.bucket == []
    modifies base`bucket, ne`bucket, sw`bucket, se`bucket
    ensures var l := Sort(old(base.Value()), at, maxSize);
      base.bucket == l.stay && ne.bucket == l.ne && sw.bucket == l.sw && se.bucket == l.se
  {
    var extra: seq<nat> := [];
    if |base.bucket| > maxSize {
      ghost var l := Route(base.bucket, at, base.x + base.xMid, base.y + base.yMid);
      extra := Distribute(base, ne, sw, se, at);
      ReverseReverse(l.stay);
    }
    PushBack(base, extra);
  }

  /** A split past both guards, written out as the four descents in turn. */
  lemma SplitSteps(b: Bucket, at: nat -> Pair, maxSize: nat, tree: seq<Bucket>)
    requires b.bucket != [] && b.xMid >= 4 && b.yMid >= 4
    ensures var c := Children(b, at, maxSize);
      var o1 := Descend(c.stay, at, maxSize, tree);
      var o2 := Descend(c.ne, at, maxSize, o1.tree);
      var o3 := Descend(c.sw, at, maxSize, o2.tree);
      Split(b, at, maxSize, tree) == Outcome(o1.base, Descend(c.se, at, maxSize, o3.tree).tree)
  {
    var c := Children(b, at, maxSize);
    var n := Measure(c.stay);
    var o1 := Descend(c.stay, at, maxSize, tree);
    var o2 := Descend(c.ne, at, maxSize, o1.tree);
    var o3 := Descend(c.sw, at, maxSize, o2.tree);
    var o4 := Descend(c.se, at, maxSize, o3.tree);
    AllStep([c.stay, c.ne, c.sw, c.se], at, maxSize, tree, n);
    AllStep([c.ne, c.sw, c.se], at, maxSize, o1.tree, n);
    AllStep([c.sw, c.se], at, maxSize, o2.tree, n);
    AllStep([c.se], at, maxSize, o3.tree, n);
    assert DescendAll([c.se][1..], at, maxSize, o4.tree, n) == o4.tree;
  }

  lemma AllStep(bs: seq<Bucket>, at: nat -> Pair, maxSize: nat, tree: seq<Bucket>, bound: nat)
    requires bs != [] && forall i :: 0 <= i < |bs| ==> Measure(bs[i]) <= bound
    ensures bs[1..] == [] || (forall i :: 0 <= i < |bs[1..]| ==> Measure(bs[1..][i]) <= bound)
    ensures var o := Descend(bs[0], at, maxSize, tree);
      DescendAll(bs, at, maxSize, tree, bound) == DescendAll(bs[1..], at, maxSize, o.tree, bound)
  {
  }

  /** One quadrant after a split: skipped when empty, split again when
      still too full, otherwise emitted. */
  method Visit(q: PointBucket, at: nat -> Pair, maxSize: nat, tree: seq<Bucket>)
    returns (out: seq<Bucket>)
    modifies q
    decreases q.xMid + q.yMid, 2
    ensures var o := Descend(old(q.Value()), at, maxSize, tree);
      q.Value() == o.base && out == o.tree
  {
    out := tree;
    if q.bucket != [] {
      if |q.bucket| > maxSize {
        out := SplitBucket(q, at, maxSize, tree);
      } else {
        out := tree + [q.Value()];
      }
    }
  }

  /** The back-to-front pass of the split: each reference of `base` is
      classified against (x + xMid, y + yMid), pushed onto `ne`, `sw` or
      `se`, or kept aside in `extra` when it stays, and popped from
      `base`. Only the reference lists change. */
  method Distribute(base: PointBucket, ne: PointBucket, sw: PointBucket, se: PointBucket, at: nat -> Pair)
    returns (extra: seq<nat>)
    requires base != ne && base != sw && base != se && ne != sw && ne != se && sw != se
    requires ne.bucket == [] && sw.bucket == [] && se.bucket == []
    modifies base`bucket, ne`bucket, sw`bucket, se`bucket
    ensures var m := Route(old(base.bucket), at, base.x + base.xMid, base.y + base.yMid);
      extra == Reverse(m.stay) && base.bucket == [] &&
      ne.bucket == m.ne && sw.bucket == m.sw && se.bucket == m.se
  {
    ghost var s := base.bucket;
    var cx, cy := base.x + base.xMid, base.y + base.yMid;
    extra := [];
    var i := |base.bucket|;
    while i > 0
      invariant 0 <= i <= |s| && base.bucket == s[..i]
      invariant var m := Route(s[i..], at, cx, cy);
        extra == Reverse(m.stay) && ne.bucket == m.ne && sw.bucket == m.sw && se.bucket == m.se
    {
      i := i - 1;
      var r := base.bucket[i];
      assert s[i..][1..] == s[i + 1..];
      var p := at(r);
      if p.first > cx && p.second > cy {
        se.bucket := se.bucket + [r];
      } else if p.first > cx {
        ne.bucket := ne.bucket + [r];
      } else if p.second > cy {
        sw.bucket := sw.bucket + [r];
      } else {
        extra := extra + [r];
      }
      base.bucket := base.bucket[..i];
    }
    assert s[0..] == s;
  }

  /** The second pass: `extra` is pushed back onto `base` from its last
      element to its first. */
  method PushBack(base: PointBucket, extra: seq<nat>)
    modifies base`bucket
    ensures base.bucket == old(base.bucket) + Reverse(extra)
  {
    var j := |extra|;
    while j > 0
      invariant 0 <= j <= |extra|
      invariant base.bucket == old(base.bucket) + Reverse(extra[j..])
    {
      j := j - 1;
      assert extra[j..][1..] == extra[j + 1..];
      base.bucket := base.bucket + [extra[j]];
    }
    assert extra[0..] == extra;
  }
}
