/** The bucket record of the simulation's quadtree (`point_bucket<T>` in
    QuadTree/Quadtree.h): a rectangle given by its centre (x, y) and its
    full extents, plus a non-owning list of references into the agent
    collection. References are modelled as indices into that collection. */
module Quadtree {
  import opened Seqs

  /** The value of a bucket: what copying a `point_bucket` (for instance
      into the output tree) captures. */
  datatype Bucket = Bucket(x: real, y: real, xLength: real, yLength: real, bucket: seq<nat>)

  /** A bucket whose fields the split updates in place. */
  class PointBucket {
    var x: real
    var y: real
    var xLength: real
    var yLength: real
    var bucket: seq<nat>

    function Value(): Bucket
      reads this
    {
      Bucket(x, y, xLength, yLength, bucket)
    }

    /** Geometry only; no references yet. */
    constructor (x: real, y: real, xLength: real, yLength: real)
      ensures Value() == Bucket(x, y, xLength, yLength, [])
    {
      this.x, this.y := x, y;
      this.xLength, this.yLength := xLength, yLength;
      bucket := [];
    }

    /** Geometry plus a copy of an existing reference list. */
    constructor WithRefs(x: real, y: real, xLength: real, yLength: real, bucket: seq<nat>)
      ensures Value() == Bucket(x, y, xLength, yLength, bucket)
    {
      this.x, this.y := x, y;
      this.xLength, this.yLength := xLength, yLength;
      this.bucket := bucket;
    }

    /** Geometry plus one reference per element of `elements`, pushed in
        order: the i-th reference designates the i-th element, so the
        references are pairwise distinct and as many as the elements. */
    constructor FromElements<T>(x: real, y: real, xLength: real, yLength: real, elements: seq<T>)
      ensures Value() == Bucket(x, y, xLength, yLength, Indices(|elements|))
      ensures |bucket| == |elements| && NoDup(bucket)
    {
      this.x, this.y := x, y;
      this.xLength, this.yLength := xLength, yLength;
      var refs: seq<nat> := [];
      var i := 0;
      while i < |elements|
        invariant 0 <= i <= |elements|
        invariant refs == Indices(i)
      {
        refs := refs + [i];
        i := i + 1;
      }
      bucket := refs;
    }
  }
}
