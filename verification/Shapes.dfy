// Broadcasting of shapes and views: the assumed behaviour of THLongStorage_inferSizeN and
// THLongStorage_inferExpandGeometry, which are not part of this model's sources.
module Shapes {
  import opened Options

  type Shape = seq<nat>

  // The k-th size from the right; missing dimensions count as 1.
  function Dim(s: Shape, k: nat): nat { if k < |s| then s[|s| - 1 - k] else 1 }

  // s can be stretched to t: aligned on the right, every size of s is that of t or 1.
  predicate BroadcastsTo(s: Shape, t: Shape) {
    |s| <= |t| && forall k: nat | k < |s| :: Dim(s, k) == Dim(t, k) || Dim(s, k) == 1
  }

  // In terms of positions from the left: the last sizes of t are those of s, except where s has 1.
  lemma BroadcastMeans(s: Shape, t: Shape)
    ensures BroadcastsTo(s, t)
      <==> |s| <= |t| && forall j | 0 <= j < |s| :: s[j] == t[|t| - |s| + j] || s[j] == 1
  {
    if BroadcastsTo(s, t) {
      forall j | 0 <= j < |s| ensures s[j] == t[|t| - |s| + j] || s[j] == 1 { DimAt(s, t, j); }
    }
    if |s| <= |t| && forall j | 0 <= j < |s| :: s[j] == t[|t| - |s| + j] || s[j] == 1 {
      forall k: nat | k < |s| ensures Dim(s, k) == Dim(t, k) || Dim(s, k) == 1 {
        var j := |s| - 1 - k;
        assert Dim(s, k) == s[j] && Dim(t, k) == t[|t| - |s| + j];
      }
    }
  }

  // One step of size inference: a size meets the size inferred so far.
  function Meet(e: nat, size: nat): Option<nat> {
    if size == e || size == 1 || e == 1 then Some(if e == 1 then size else e) else None
  }

  // The k-th inferred size from the right, over all the shapes.
  function InferDim(shapes: seq<Shape>, k: nat): Option<nat> {
    if shapes == [] then Some(1)
    else
      var last := |shapes| - 1;
      match InferDim(shapes[..last], k)
      case Some(e) => Meet(e, Dim(shapes[last], k))
      case None => None
  }

  function MaxRank(shapes: seq<Shape>): nat {
    if shapes == [] then 0
    else
      var last := |shapes| - 1;
      var m := MaxRank(shapes[..last]);
      if |shapes[last]| > m then |shapes[last]| else m
  }

  // The n rightmost inferred sizes.
  function InferDims(shapes: seq<Shape>, n: nat): Option<Shape> {
    if n == 0 then Some([])
    else match (InferDim(shapes, n - 1), InferDims(shapes, n - 1))
      case (Some(e), Some(t)) => Some([e] + t)
      case _ => None
  }

  function InferSizeN(shapes: seq<Shape>): Option<Shape> { InferDims(shapes, MaxRank(shapes)) }

  // ---- size inference is the least upper bound for broadcasting ----

  lemma {:induction false} MaxRankOk(shapes: seq<Shape>)
    ensures forall s | s in shapes :: |s| <= MaxRank(shapes)
    ensures shapes != [] ==> exists s :: s in shapes && |s| == MaxRank(shapes)
  {
    if shapes != [] {
      var last := |shapes| - 1;
      MaxRankOk(shapes[..last]);
      assert shapes[last] in shapes;
      forall s | s in shapes ensures |s| <= MaxRank(shapes) {
        if s != shapes[last] { assert s in shapes[..last]; }
      }
    }
  }

  lemma {:induction false} InferDimSome(shapes: seq<Shape>, k: nat)
    requires InferDim(shapes, k).Some?
    ensures var e := InferDim(shapes, k).value;
      && (forall s | s in shapes :: Dim(s, k) == e || Dim(s, k) == 1)
      && (e == 1 || exists s :: s in shapes && Dim(s, k) == e)
  {
    if shapes != [] {
      var last := |shapes| - 1;
      var x := shapes[last];
      InferDimSome(shapes[..last], k);
      var e := InferDim(shapes, k).value;
      assert x in shapes;
      forall s | s in shapes ensures Dim(s, k) == e || Dim(s, k) == 1 {
        if s != x { assert s in shapes[..last]; }
      }
      if e != 1 && Dim(x, k) != e {
        var y :| y in shapes[..last] && Dim(y, k) == e;
        assert y in shapes;
      }
    }
  }

  // A size to which all the shapes stretch in one dimension bounds the inferred one.
  lemma {:induction false} InferDimLeast(shapes: seq<Shape>, k: nat, u: nat)
    requires forall s | s in shapes :: Dim(s, k) == u || Dim(s, k) == 1
    ensures InferDim(shapes, k).Some? && InferDim(shapes, k).value in {u, 1}
  {
    if shapes != [] {
      var last := |shapes| - 1;
      assert shapes[last] in shapes;
      forall s | s in shapes[..last] ensures Dim(s, k) == u || Dim(s, k) == 1 { assert s in shapes; }
      InferDimLeast(shapes[..last], k, u);
    }
  }

  lemma {:induction false} InferDimsSome(shapes: seq<Shape>, n: nat)
    ensures InferDims(shapes, n).Some? ==> forall k: nat | k < n :: InferDim(shapes, k).Some?
    ensures InferDims(shapes, n).None? ==> exists k: nat :: k < n && InferDim(shapes, k).None?
  {
    if n > 0 {
      InferDimsSome(shapes, n - 1);
      if InferDim(shapes, n - 1).Some? && InferDims(shapes, n - 1).Some? {
        forall k: nat | k < n ensures InferDim(shapes, k).Some? { assert k < n - 1 || k == n - 1; }
      } else if InferDim(shapes, n - 1).Some? {
        var k: nat :| k < n - 1 && InferDim(shapes, k).None?;
        assert k < n && InferDim(shapes, k).None?;
      } else {
        assert n - 1 < n && InferDim(shapes, n - 1).None?;
      }
    }
  }

  lemma {:induction false} InferDimsOk(shapes: seq<Shape>, n: nat)
    requires InferDims(shapes, n).Some?
    ensures var t := InferDims(shapes, n).value;
      |t| == n && forall k: nat | k < n :: InferDim(shapes, k).Some? && Dim(t, k) == InferDim(shapes, k).value
  {
    InferDimsSome(shapes, n);
    if n > 0 {
      InferDimsOk(shapes, n - 1);
      var t, r := InferDims(shapes, n).value, InferDims(shapes, n - 1).value;
      forall k: nat | k < n ensures Dim(t, k) == InferDim(shapes, k).value {
        if k < n - 1 { assert Dim(t, k) == Dim(r, k); }
      }
    }
  }

  // All the shapes can be stretched to u.
  ghost predicate Common(shapes: seq<Shape>, u: Shape) { forall s | s in shapes :: BroadcastsTo(s, u) }

  // Inference succeeds exactly when the shapes have a common broadcast, and then returns the least.
  lemma InferSizeNIsJoin(shapes: seq<Shape>)
    ensures InferSizeN(shapes).Some? <==> exists u: Shape :: Common(shapes, u)
    ensures InferSizeN(shapes).Some? ==>
      && Common(shapes, InferSizeN(shapes).value)
      && (forall u: Shape | Common(shapes, u) :: BroadcastsTo(InferSizeN(shapes).value, u))
  {
    if InferSizeN(shapes).Some? { JoinIsUpperBound(shapes); }
    forall u: Shape | Common(shapes, u)
      ensures InferSizeN(shapes).Some? && BroadcastsTo(InferSizeN(shapes).value, u)
    {
      JoinIsLeast(shapes, u);
    }
  }

  lemma JoinIsUpperBound(shapes: seq<Shape>)
    requires InferSizeN(shapes).Some?
    ensures Common(shapes, InferSizeN(shapes).value)
  {
    var n, t := MaxRank(shapes), InferSizeN(shapes).value;
    MaxRankOk(shapes);
    InferDimsOk(shapes, n);
    forall s, k: nat | s in shapes && k < |s| ensures Dim(s, k) == Dim(t, k) || Dim(s, k) == 1 {
      InferDimSome(shapes, k);
    }
  }

  lemma JoinIsLeast(shapes: seq<Shape>, u: Shape)
    requires Common(shapes, u)
    ensures InferSizeN(shapes).Some? && BroadcastsTo(InferSizeN(shapes).value, u)
  {
    var n := MaxRank(shapes);
    MaxRankOk(shapes);
    forall k: nat | k < n ensures InferDim(shapes, k).Some? && InferDim(shapes, k).value in {Dim(u, k), 1} {
      forall s | s in shapes ensures Dim(s, k) == Dim(u, k) || Dim(s, k) == 1 { assert BroadcastsTo(s, u); }
      InferDimLeast(shapes, k, Dim(u, k));
    }
    InferDimsSome(shapes, n);
    InferDimsOk(shapes, n);
  }

  // ---- views ----

  // The sizes and strides of a tensor over its storage.
  datatype Geometry = Geometry(size: Shape, stride: seq<int>)

  predicate Fits(g: Geometry) { |g.stride| == |g.size| }

  // The stride of dimension i of a target of rank n.
  function ExpandedStride(g: Geometry, target: Shape, i: nat): int
    requires Fits(g) && i < |target|
  {
    var j := i - (|target| - |g.size|);
    if j < 0 || g.size[j] != target[i] then 0 else g.stride[j]
  }

  // Aligned on the right; only size 1 stretches, and a stretched dimension has stride 0.
  function InferExpandGeometry(g: Geometry, target: Shape): Option<Geometry>
    requires Fits(g)
  {
    if BroadcastsTo(g.size, target) then
      Some(Geometry(target, seq(|target|, i requires 0 <= i < |target| => ExpandedStride(g, target, i))))
    else None
  }

  predicate ValidIndex(idx: seq<nat>, s: Shape) { |idx| == |s| && forall i | 0 <= i < |s| :: idx[i] < s[i] }

  // The distance of an element from the start of a view.
  function Distance(idx: seq<nat>, stride: seq<int>): int
    requires |idx| == |stride|
  {
    if idx == [] then 0 else idx[0] * stride[0] + Distance(idx[1..], stride[1..])
  }

  // The distance is the sum of the products.
  lemma {:induction false} DistanceSums(idx: seq<nat>, st: seq<int>, src: seq<nat>, st': seq<int>)
    requires |idx| == |st| && |src| == |st'|
    ensures Distance(idx + src, st + st') == Distance(idx, st) + Distance(src, st')
  {
    if idx == [] {
      assert idx + src == src && st + st' == st';
    } else {
      assert (idx + src)[1..] == idx[1..] + src && (st + st')[1..] == st[1..] + st';
      DistanceSums(idx[1..], st[1..], src, st');
    }
  }

  lemma DistanceOfOne(i: nat, s: int)
    ensures Distance([i], [s]) == i * s
  {
    assert Distance([i], [s]) == i * s + Distance([i][1..], [s][1..]);
  }

  // The element of the original that a broadcast index stands for.
  function SourceIndex(idx: seq<nat>, s: Shape): (r: seq<nat>)
    requires |s| <= |idx|
    ensures |r| == |s|
  {
    seq(|s|, j requires 0 <= j < |s| => if s[j] == 1 then 0 else idx[|idx| - |s| + j])
  }

  lemma DimAt(s: Shape, t: Shape, j: nat)
    requires BroadcastsTo(s, t) && j < |s|
    ensures s[j] == t[|t| - |s| + j] || s[j] == 1
  {
    var k := |s| - 1 - j;
    assert Dim(s, k) == s[j] && Dim(t, k) == t[|t| - |s| + j];
  }

  lemma {:induction false} SameDistance(idx: seq<nat>, st: seq<int>, src: seq<nat>, st': seq<int>)
    requires |idx| == |st| == |src| == |st'|
    requires forall i | 0 <= i < |idx| :: idx[i] * st[i] == src[i] * st'[i]
    ensures Distance(idx, st) == Distance(src, st')
  {
    if idx != [] {
      forall i | 0 <= i < |idx| - 1 ensures idx[1..][i] * st[1..][i] == src[1..][i] * st'[1..][i] {
        assert idx[i + 1] * st[i + 1] == src[i + 1] * st'[i + 1];
      }
      SameDistance(idx[1..], st[1..], src[1..], st'[1..]);
    }
  }

  lemma {:induction false} LeadingZeros(idx: seq<nat>, st: seq<int>, n: nat)
    requires |idx| == |st| && n <= |idx| && forall i | 0 <= i < n :: st[i] == 0
    ensures Distance(idx, st) == Distance(idx[n..], st[n..])
  {
    if n > 0 {
      LeadingZeros(idx[1..], st[1..], n - 1);
      assert idx[1..][n - 1..] == idx[n..] && st[1..][n - 1..] == st[n..];
      assert idx[0] * st[0] == 0;
    } else {
      assert idx[0..] == idx && st[0..] == st;
    }
  }

  // An expanded view has the target shape and reads at every index the element of the original.
  lemma ExpandReads(g: Geometry, target: Shape, idx: seq<nat>)
    requires Fits(g) && InferExpandGeometry(g, target).Some? && ValidIndex(idx, target)
    ensures var e := InferExpandGeometry(g, target).value;
      && Fits(e) && e.size == target
      && ValidIndex(SourceIndex(idx, g.size), g.size)
      && Distance(idx, e.stride) == Distance(SourceIndex(idx, g.size), g.stride)
  {
    var e, src, n := InferExpandGeometry(g, target).value, SourceIndex(idx, g.size), |target| - |g.size|;
    forall j: nat | j < |g.size|
      ensures src[j] < g.size[j] && idx[n..][j] * e.stride[n..][j] == src[j] * g.stride[j]
    {
      DimAt(g.size, target, j);
      assert idx[n + j] < target[n + j];
      assert idx[n..][j] == idx[n + j] && e.stride[n..][j] == ExpandedStride(g, target, n + j);
    }
    LeadingZeros(idx, e.stride, n);
    SameDistance(idx[n..], e.stride[n..], src, g.stride);
  }

  // Expanding an expanded view to the same shape changes nothing.
  lemma ExpandTwice(g: Geometry, target: Shape)
    requires Fits(g) && InferExpandGeometry(g, target).Some?
    ensures var e := InferExpandGeometry(g, target).value;
      Fits(e) && InferExpandGeometry(e, target) == Some(e)
  {
    var e := InferExpandGeometry(g, target).value;
    assert BroadcastsTo(target, target);
    var f := InferExpandGeometry(e, target).value;
    forall i: nat | i < |target| ensures f.stride[i] == e.stride[i] {
      assert f.stride[i] == ExpandedStride(e, target, i);
    }
    assert f.stride == e.stride;
  }
}
