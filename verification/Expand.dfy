// raw/th/cbits/expand_polyfill.c: expand, newExpand and expandNd for tensors on a shared heap.
// The eight instances for the element types, and the CUDA versions with their state argument, are
// the same code.
module Expand {
  import opened Options
  import opened Shapes

  // The elements.  Views only refer to a storage, and no member here touches its elements.
  class Storage {
    constructor () {}
  }

  class Tensor {
    var size: Shape
    var stride: seq<int>
    var storage: Storage?
    var offset: int

    constructor ()
      ensures ViewOf(this) == View(Geometry([], []), null, 0)
    {
      size, stride, storage, offset := [], [], null, 0;
    }
  }

  class LongStorage {
    var data: Shape

    constructor ()
      ensures data == []
    {
      data := [];
    }
  }

  // What has been allocated and not yet freed, and what has been freed.
  class Allocator {
    var live: set<LongStorage>
    var freed: seq<LongStorage>
    var blocks: int

    constructor ()
      ensures live == {} && freed == [] && blocks == 0
    {
      live, freed, blocks := {}, [], 0;
    }

    method NewLongStorage() returns (s: LongStorage)
      modifies this`live
      ensures fresh(s) && s.data == [] && s !in old(live) && live == old(live) + {s}
    {
      s := new LongStorage();
      live := live + {s};
    }

    // Freeing a storage twice is excluded by the precondition.
    method Free(s: LongStorage)
      requires s in live
      modifies this`live, this`freed
      ensures live == old(live) - {s} && freed == old(freed) + [s]
    {
      live := live - {s};
      freed := freed + [s];
    }

    method FreeBlock()
      requires blocks > 0
      modifies this`blocks
      ensures blocks == old(blocks) - 1
    {
      blocks := blocks - 1;
    }

    // Two blocks are handed to the caller on success only.
    method InferGeometry(g: Geometry, target: Shape) returns (r: Option<Geometry>)
      requires Fits(g)
      modifies this`blocks
      ensures r == InferExpandGeometry(g, target)
      ensures blocks == old(blocks) + (if r.Some? then 2 else 0)
    {
      r := InferExpandGeometry(g, target);
      if r.Some? { blocks := blocks + 2; }
    }
  }

  // What a tensor refers to.
  datatype View = View(geometry: Geometry, storage: Storage?, offset: int)

  function ViewOf(t: Tensor): View
    reads t
  {
    View(Geometry(t.size, t.stride), t.storage, t.offset)
  }

  predicate FitsView(v: View) { Fits(v.geometry) }

  // The view v stretched to a shape it broadcasts to.
  function ExpandView(v: View, target: Shape): (r: View)
    requires FitsView(v) && BroadcastsTo(v.geometry.size, target)
    ensures FitsView(r) && r.geometry.size == target
  {
    View(InferExpandGeometry(v.geometry, target).value, v.storage, v.offset)
  }

  datatype Outcome = Done | ArgError(arg: nat) | SizeError

  // setStorageNd, which is not part of this model's sources, is assumed to set exactly these fields.
  method SetStorageNd(r: Tensor, storage: Storage?, offset: int, g: Geometry)
    modifies r
    ensures ViewOf(r) == View(g, storage, offset)
    ensures r.size == g.size && r.stride == g.stride && r.storage == storage && r.offset == offset
  {
    r.storage, r.offset, r.size, r.stride := storage, offset, g.size, g.stride;
  }

  // The tensors of ts are those whose views the caller keeps track of.
  method DoExpand(a: Allocator, r: Tensor, tensor: Tensor, sizes: LongStorage,
      ghost ts: set<Tensor>) returns (o: Outcome)
    requires FitsView(ViewOf(tensor)) && a.blocks >= 0 && r in ts && tensor in ts
    modifies r, a`blocks
    ensures a.blocks == old(a.blocks)
    ensures o == (if |old(tensor.size)| == 0 then ArgError(0)
                  else if |sizes.data| < |old(tensor.size)| then ArgError(1)
                  else if BroadcastsTo(old(tensor.size), sizes.data) then Done else SizeError)
    ensures Views(ts)
      == if o.Done? then old(Views(ts))[r := ExpandView(old(ViewOf(tensor)), sizes.data)] else old(Views(ts))
  {
    if |tensor.size| == 0 { return ArgError(0); }
    if |sizes.data| < |tensor.size| { return ArgError(1); }
    var ret := a.InferGeometry(Geometry(tensor.size, tensor.stride), sizes.data);
    if ret.None? { return SizeError; }
    SetStorageNd(r, tensor.storage, tensor.offset, ret.value);
    a.FreeBlock();
    a.FreeBlock();
    o := Done;
  }

  method NewExpand(a: Allocator, tensor: Tensor, sizes: LongStorage) returns (result: Tensor, o: Outcome)
    requires FitsView(ViewOf(tensor)) && a.blocks >= 0
    modifies a`blocks
    ensures fresh(result) && a.blocks == old(a.blocks) && ViewOf(tensor) == old(ViewOf(tensor))
    ensures o.Done? <==> |tensor.size| > 0 && BroadcastsTo(tensor.size, sizes.data)
    ensures o.Done? ==> ViewOf(result) == ExpandView(ViewOf(tensor), sizes.data)
  {
    result := new Tensor();
    o := DoExpand(a, result, tensor, sizes, {result, tensor});
    assert ViewOf(result) == Views({result, tensor})[result];
  }

  // ---- what a series of expansions does, whatever the aliasing ----

  // The last of the first n results that is the tensor x, or -1.
  function LastWrite(rets: seq<Tensor>, n: nat, x: Tensor): (j: int)
    requires n <= |rets|
    ensures -1 <= j < n && (j >= 0 ==> rets[j] == x)
    ensures forall i | j < i < n :: rets[i] != x
  {
    if n == 0 then -1 else if rets[n - 1] == x then n - 1 else LastWrite(rets, n - 1, x)
  }

  // The operand whose original view the i-th result shows: an operand that is an earlier result
  // shows what that result shows.
  function Origin(rets: seq<Tensor>, ops: seq<Tensor>, i: nat): (k: nat)
    requires i < |ops| == |rets|
    ensures k <= i
    decreases i
  {
    var j := LastWrite(rets, i, ops[i]);
    if j < 0 then i else Origin(rets, ops, j)
  }

  function Views(ts: set<Tensor>): map<Tensor, View>
    reads ts
  {
    map t | t in ts :: ViewOf(t)
  }

  function Members(rets: seq<Tensor>, ops: seq<Tensor>): set<Tensor> { set t | t in rets + ops }

  ghost predicate Expandable(before: map<Tensor, View>, ops: seq<Tensor>, target: Shape) {
    forall t | t in ops ::
      t in before && FitsView(before[t]) && BroadcastsTo(before[t].geometry.size, target)
  }

  // The view of x after the first n expansions.
  ghost function After(before: map<Tensor, View>, rets: seq<Tensor>, ops: seq<Tensor>, target: Shape, n: nat,
      x: Tensor): View
    requires n <= |rets| == |ops| && x in before && Expandable(before, ops, target)
  {
    var j := LastWrite(rets, n, x);
    if j < 0 then before[x] else ExpandView(before[ops[Origin(rets, ops, j)]], target)
  }

  ghost function AllAfter(before: map<Tensor, View>, rets: seq<Tensor>, ops: seq<Tensor>, target: Shape,
      n: nat): map<Tensor, View>
    requires n <= |rets| == |ops| && Expandable(before, ops, target)
  {
    map t | t in before :: After(before, rets, ops, target, n, t)
  }

  // One more expansion writes one more result.
  lemma NextExpansion(before: map<Tensor, View>, rets: seq<Tensor>, ops: seq<Tensor>, target: Shape, i: nat)
    requires i < |rets| == |ops| && Expandable(before, ops, target) && rets[i] in before && ops[i] in before
    ensures var now := AllAfter(before, rets, ops, target, i);
      var v := now[ops[i]];
      && FitsView(v) && BroadcastsTo(v.geometry.size, target)
      && (|before[ops[i]].geometry.size| > 0 ==> |v.geometry.size| > 0)
      && AllAfter(before, rets, ops, target, i + 1) == now[rets[i] := ExpandView(v, target)]
  {
    assert ops[i] in ops;
    assert |before[ops[i]].geometry.size| <= |target|;
    OperandNow(before, rets, ops, target, i);
  }

  lemma ExpandViewTwice(v: View, target: Shape)
    requires FitsView(v) && BroadcastsTo(v.geometry.size, target)
    ensures var e := ExpandView(v, target);
      BroadcastsTo(e.geometry.size, target) && ExpandView(e, target) == e
  {
    ExpandTwice(v.geometry, target);
  }

  // Expanding the i-th operand as the earlier expansions left it shows the origin's original view.
  lemma OperandNow(before: map<Tensor, View>, rets: seq<Tensor>, ops: seq<Tensor>, target: Shape, i: nat)
    requires i < |rets| == |ops| && Expandable(before, ops, target)
    ensures var v := After(before, rets, ops, target, i, ops[i]);
      && FitsView(v) && BroadcastsTo(v.geometry.size, target)
      && (v == before[ops[i]] || v.geometry.size == target)
      && ExpandView(v, target) == ExpandView(before[ops[Origin(rets, ops, i)]], target)
  {
    var j := LastWrite(rets, i, ops[i]);
    if j >= 0 { ExpandViewTwice(before[ops[Origin(rets, ops, j)]], target); }
  }

  // The shapes of the operands.
  function ShapesOf(ops: seq<Tensor>): seq<Shape>
    reads ops
  {
    seq(|ops|, i requires 0 <= i < |ops| reads ops => ops[i].size)
  }

  // All the operands can be stretched to u.
  ghost predicate Stretch(ops: seq<Tensor>, u: Shape)
    reads ops
  {
    forall i | 0 <= i < |ops| :: BroadcastsTo(ops[i].size, u)
  }

  method ExpandNd(a: Allocator, rets: seq<Tensor>, ops: seq<Tensor>) returns (o: Outcome)
    requires |rets| == |ops| && a.blocks >= 0 && forall t | t in ops :: FitsView(ViewOf(t))
    modifies rets, a
    // sizes is the one storage allocated, and it is freed exactly once unless an operand is empty
    ensures a.live == old(a.live) && a.blocks == old(a.blocks)
    ensures o.ArgError? ==> a.freed == old(a.freed)
    ensures !o.ArgError? ==> FreedOneMore(old(a.freed), a.freed) && fresh(a.freed[|old(a.freed)|])
    // the outcome
    ensures o.ArgError? <==> exists i :: 0 <= i < |ops| && |old(ops[i].size)| == 0
    ensures o.ArgError? ==>
      (o.arg < |ops| && |old(ops[o.arg].size)| == 0 && forall i | 0 <= i < o.arg :: |old(ops[i].size)| > 0)
    ensures !o.ArgError? ==> (o.Done? <==> InferSizeN(old(ShapesOf(ops))).Some?)
    ensures !o.ArgError? ==> (o.Done? <==> exists u :: old(Stretch(ops, u)))
    // the common size: all the operands stretch to it, and it stretches to whatever they all stretch to
    ensures o.Done? ==> forall i, j | 0 <= i < |rets| && 0 <= j < |rets| ::
      rets[i].size == rets[j].size && BroadcastsTo(old(ops[i].size), rets[j].size)
    ensures o.Done? ==> forall u, j | old(Stretch(ops, u)) && 0 <= j < |rets| :: BroadcastsTo(rets[j].size, u)
    // all or nothing
    ensures !o.Done? ==> Views(Members(rets, ops)) == old(Views(Members(rets, ops)))
    ensures o.Done? ==>
      var target, before := InferSizeN(old(ShapesOf(ops))).value, old(Views(Members(rets, ops)));
      && Expandable(before, ops, target)
      && Views(Members(rets, ops)) == AllAfter(before, rets, ops, target, |rets|)
    // what that means: results that show their own operand read it, and other operands are left alone
    ensures o.Done? ==> forall i | 0 <= i < |rets| && ops[Shown(rets, ops, i)] == ops[i] ::
      && ReadsSame(rets[i].size, rets[i].stride, rets[i].offset,
                   old(ops[i].size), old(ops[i].stride), old(ops[i].offset))
      && rets[i].storage == old(ops[i].storage)
    ensures o.Done? ==> forall t | t in ops && t !in rets ::
      t.size == old(t.size) && t.stride == old(t.stride) && t.storage == old(t.storage) && t.offset == old(t.offset)
  {
    ghost var before := Views(Members(rets, ops));
    var empty := FirstEmpty(ops);
    if empty < |ops| { return ArgError(empty); }
    var shapes := CollectShapes(ops);
    CommonSize(ops, shapes);
    ghost var target := InferSizeN(shapes);
    assert forall u :: Stretch(ops, u) == old(Stretch(ops, u));
    assert forall t | t in ops :: t in before && before[t] == ViewOf(t);
    o := InferAndExpand(a, rets, ops, shapes, before);
    hide InferSizeN, BroadcastsTo, AllAfter, Expandable, Origin, LastWrite, ReadsSame;
    if o.Done? { ReadAll(before, rets, ops, target.value); }
  }

  // Size inference in terms of the operands.
  lemma CommonSize(ops: seq<Tensor>, shapes: seq<Shape>)
    requires |shapes| == |ops| && forall i | 0 <= i < |ops| :: shapes[i] == ops[i].size
    ensures InferSizeN(shapes).Some? <==> exists u :: Stretch(ops, u)
    ensures InferSizeN(shapes).Some? ==>
      var t := InferSizeN(shapes).value;
      Stretch(ops, t) && forall u | Stretch(ops, u) :: BroadcastsTo(t, u)
  {
    hide InferSizeN, BroadcastsTo;
    InferSizeNIsJoin(shapes);
    forall u: Shape ensures Common(shapes, u) <==> Stretch(ops, u) {
      assert forall i | 0 <= i < |ops| :: shapes[i] in shapes;
    }
  }

  lemma ReadAll(before: map<Tensor, View>, rets: seq<Tensor>, ops: seq<Tensor>, target: Shape)
    requires |rets| == |ops| && Expandable(before, ops, target) && before.Keys == Members(rets, ops)
    requires Views(Members(rets, ops)) == AllAfter(before, rets, ops, target, |rets|)
    ensures forall i | 0 <= i < |rets| && ops[Shown(rets, ops, i)] == ops[i] ::
      ops[i] in before && ReadsAs(ViewOf(rets[i]), before[ops[i]], target)
    ensures forall i | 0 <= i < |rets| :: ViewOf(rets[i]).geometry.size == target
    ensures forall t | t in ops && t !in rets :: t in before && ViewOf(t) == before[t]
  {
    var now := Views(Members(rets, ops));
    forall i | 0 <= i < |rets| && ops[Shown(rets, ops, i)] == ops[i]
      ensures ops[i] in before && ReadsAs(ViewOf(rets[i]), before[ops[i]], target)
    {
      assert rets[i] in now && now[rets[i]] == ViewOf(rets[i]);
      assert ops[i] in ops;
      ShownReads(before, rets, ops, target, i);
    }
    forall i | 0 <= i < |rets| ensures ViewOf(rets[i]).geometry.size == target {
      assert rets[i] in now && now[rets[i]] == ViewOf(rets[i]);
      ShownIs(before, rets, ops, target, i);
    }
    forall t | t in ops && t !in rets ensures t in before && ViewOf(t) == before[t] {
      assert t in now && now[t] == ViewOf(t);
      OperandKept(before, rets, ops, target, t);
    }
  }

  predicate FreedOneMore(before: seq<LongStorage>, after: seq<LongStorage>) {
    |after| == |before| + 1 && after[..|before|] == before
  }

  // The remainder of expandNd: sizes is allocated, used and freed.
  method InferAndExpand(a: Allocator, rets: seq<Tensor>, ops: seq<Tensor>, shapes: seq<Shape>,
      ghost before: map<Tensor, View>)
    returns (o: Outcome)
    requires |rets| == |ops| && a.blocks >= 0 && shapes == ShapesOf(ops)
    requires before == Views(Members(rets, ops))
    requires forall t | t in ops :: FitsView(before[t]) && |before[t].geometry.size| > 0
    modifies rets, a
    ensures a.live == old(a.live) && a.blocks == old(a.blocks)
    ensures FreedOneMore(old(a.freed), a.freed) && fresh(a.freed[|old(a.freed)|])
    ensures o == if InferSizeN(shapes).Some? then Done else SizeError
    ensures o.SizeError? ==> Views(Members(rets, ops)) == before
    ensures o.Done? ==>
      && Expandable(before, ops, InferSizeN(shapes).value)
      && Views(Members(rets, ops)) == AllAfter(before, rets, ops, InferSizeN(shapes).value, |rets|)
  {
    hide After, BroadcastsTo, InferSizeN;
    ExpandableOps(ops, before);
    var sizes := a.NewLongStorage();
    var ret := InferSizeN(shapes);
    if ret.None? {
      a.Free(sizes);
      assert a.live == old(a.live);
      return SizeError;
    }
    sizes.data := ret.value;
    assert Views(Members(rets, ops)) == before;
    ExpandAll(a, rets, ops, sizes, before);
    ghost var after := Views(Members(rets, ops));
    assert after == AllAfter(before, rets, ops, ret.value, |rets|);
    a.Free(sizes);
    assert Views(Members(rets, ops)) == after;
    assert a.live == old(a.live);
    o := Done;
  }

  // The first loop of expandNd: the first operand without dimensions.
  method FirstEmpty(ops: seq<Tensor>) returns (i: nat)
    ensures i <= |ops| && (i < |ops| ==> |ops[i].size| == 0)
    ensures forall j | 0 <= j < i :: |ops[j].size| > 0
  {
    i := 0;
    while i < |ops|
      invariant i <= |ops| && forall j | 0 <= j < i :: |ops[j].size| > 0
    {
      if |ops[i].size| == 0 { return; }
      i := i + 1;
    }
  }

  // The second loop: the sizes and ranks of the operands, as size inference reads them.
  method CollectShapes(ops: seq<Tensor>) returns (shapes: seq<Shape>)
    ensures shapes == ShapesOf(ops)
    ensures |shapes| == |ops| && forall i | 0 <= i < |ops| :: shapes[i] == ops[i].size
  {
    var count := |ops|;
    var opSizes := new Shape[count](_ => []);
    var opDims := new nat[count](_ => 0);
    for i := 0 to count
      invariant forall j | 0 <= j < i :: opSizes[j] == ops[j].size && opDims[j] == |ops[j].size|
    {
      opSizes[i] := ops[i].size;
      opDims[i] := |ops[i].size|;
    }
    assert forall i | 0 <= i < count :: opSizes[i][..opDims[i]] == ops[i].size;
    shapes := seq(count, i requires 0 <= i < count && opDims[i] <= |opSizes[i]| reads opSizes, opDims =>
                           opSizes[i][..opDims[i]]);
  }

  // The last loop of expandNd: no expansion in it can fail.
  method ExpandAll(a: Allocator, rets: seq<Tensor>, ops: seq<Tensor>, sizes: LongStorage, ghost before: map<Tensor,
      View>)
    requires |rets| == |ops| && a.blocks >= 0
    requires before == Views(Members(rets, ops)) && Expandable(before, ops, sizes.data)
    requires forall t | t in ops :: |before[t].geometry.size| > 0
    modifies rets, a`blocks
    ensures a.blocks == old(a.blocks)
    ensures Views(Members(rets, ops)) == AllAfter(before, rets, ops, sizes.data, |rets|)
  {
    hide After, BroadcastsTo, Origin, LastWrite;
    ghost var target := sizes.data;
    NothingYet(before, rets, ops, target);
    for i := 0 to |ops|
      invariant a.blocks == old(a.blocks)
      invariant Views(Members(rets, ops)) == AllAfter(before, rets, ops, target, i)
    {
      assert rets[i] in rets + ops && ops[i] in rets + ops;
      NextExpansion(before, rets, ops, target, i);
      assert |before[ops[i]].geometry.size| > 0;
      assert ViewOf(ops[i]) == Views(Members(rets, ops))[ops[i]];
      var inner := DoExpand(a, rets[i], ops[i], sizes, Members(rets, ops));
      assert inner == Done;
    }
  }

  lemma NothingYet(before: map<Tensor, View>, rets: seq<Tensor>, ops: seq<Tensor>, target: Shape)
    requires |rets| == |ops| && Expandable(before, ops, target)
    ensures AllAfter(before, rets, ops, target, 0) == before
  {
  }

  // Size inference makes every operand expandable.
  lemma ExpandableOps(ops: seq<Tensor>, before: map<Tensor, View>)
    requires forall t | t in ops :: t in before && before[t] == ViewOf(t) && FitsView(before[t])
    ensures InferSizeN(ShapesOf(ops)).Some? ==> Expandable(before, ops, InferSizeN(ShapesOf(ops)).value)
  {
    var shapes := ShapesOf(ops);
    InferSizeNIsJoin(shapes);
    forall t | t in ops && InferSizeN(shapes).Some? ensures BroadcastsTo(before[t].geometry.size,
        InferSizeN(shapes).value) {
      var i :| 0 <= i < |ops| && ops[i] == t;
      assert shapes[i] in shapes;
    }
  }

  // ---- when aliasing is harmless ----

  // The view v has the target shape and reads, at every index, the element that w has there.
  ghost predicate ReadsAs(v: View, w: View, target: Shape) {
    && v.geometry.size == target && v.storage == w.storage
    && ReadsSame(target, v.geometry.stride, v.offset, w.geometry.size, w.geometry.stride, w.offset)
  }

  // The first view has, at every index, the address at which the second one has its element for that index.
  ghost predicate ReadsSame(size: Shape, stride: seq<int>, offset: int, size': Shape, stride': seq<int>, offset': int) {
    && |stride| == |size| && |stride'| == |size'| && BroadcastsTo(size', size)
    && forall idx | ValidIndex(idx, size) :: SameAddress(stride, offset, size', stride', offset', idx)
  }

  predicate SameAddress(stride: seq<int>, offset: int, size': Shape, stride': seq<int>, offset': int, idx: seq<nat>)
    requires |idx| == |stride| && |stride'| == |size'| <= |idx|
  {
    var src := SourceIndex(idx, size');
    ValidIndex(src, size') && offset + Distance(idx, stride) == offset' + Distance(src, stride')
  }

  // The operand that result i shows in the end.
  function Shown(rets: seq<Tensor>, ops: seq<Tensor>, i: nat): (k: nat)
    requires i < |rets| == |ops|
    ensures k < |ops|
  {
    Origin(rets, ops, LastWrite(rets, |rets|, rets[i]))
  }

  lemma ShownIs(before: map<Tensor, View>, rets: seq<Tensor>, ops: seq<Tensor>, target: Shape, i: nat)
    requires i < |rets| == |ops| && rets[i] in before && Expandable(before, ops, target)
    ensures After(before, rets, ops, target, |rets|, rets[i])
         == ExpandView(before[ops[Shown(rets, ops, i)]], target)
  {
  }

  // Result i reads its own operand if it shows it.
  lemma ShownReads(before: map<Tensor, View>, rets: seq<Tensor>, ops: seq<Tensor>, target: Shape, i: nat)
    requires i < |rets| == |ops| && rets[i] in before && Expandable(before, ops, target)
    requires ops[Shown(rets, ops, i)] == ops[i]
    ensures ReadsAs(After(before, rets, ops, target, |rets|, rets[i]), before[ops[i]], target)
  {
    var v, w := After(before, rets, ops, target, |rets|, rets[i]), before[ops[i]];
    ShownIs(before, rets, ops, target, i);
    assert ops[i] in ops;
    forall idx | ValidIndex(idx, target)
      ensures SameAddress(v.geometry.stride, v.offset, w.geometry.size, w.geometry.stride, w.offset, idx)
    {
      ExpandReads(w.geometry, target, idx);
    }
  }

  // A one-element view of the given offset.
  function Cell(offset: int): View { View(Geometry([1], [1]), null, offset) }

  lemma AtZero(stride: seq<int>)
    requires |stride| == 1
    ensures Distance([0], stride) == 0
  {
    var idx: seq<nat> := [0];
    assert idx[1..] == [] && stride[1..] == [] && Distance(idx[1..], stride[1..]) == 0;
  }

  lemma CellsDiffer(x: int, y: int)
    requires x != y
    ensures BroadcastsTo([1], [1]) && !ReadsAs(ExpandView(Cell(x), [1]), Cell(y), [1])
  {
    assert BroadcastsTo([1], [1]);
    var idx: seq<nat> := [0];
    assert ValidIndex(idx, [1]);
    assert SourceIndex(idx, [1]) == [0];
    AtZero(ExpandView(Cell(x), [1]).geometry.stride);
    AtZero([1]);
    assert !SameAddress(ExpandView(Cell(x), [1]).geometry.stride, x, [1], [1], y, idx);
  }

  // A result that shows another operand does not read its own in this memory.
  function Tagged(rets: seq<Tensor>, ops: seq<Tensor>, x: Tensor): map<Tensor, View> {
    map t | t in rets + ops :: Cell(if t == x then 1 else 0)
  }

  lemma TaggedFails(rets: seq<Tensor>, ops: seq<Tensor>, i: nat)
    requires i < |rets| == |ops| && ops[Shown(rets, ops, i)] != ops[i]
    ensures var before := Tagged(rets, ops, ops[i]);
      && rets[i] in before && Expandable(before, ops, [1])
      && !ReadsAs(After(before, rets, ops, [1], |rets|, rets[i]), before[ops[i]], [1])
  {
    var before := Tagged(rets, ops, ops[i]);
    CellsDiffer(0, 1);
    assert rets[i] in rets + ops;
    forall t | t in ops ensures t in before && FitsView(before[t]) && before[t].geometry.size == [1] {
      assert t in rets + ops;
    }
    ShownIs(before, rets, ops, [1], i);
  }

  // Result i reads its own operand, whatever the views and the common shape, exactly when the operand that
  // it shows is that operand: a condition on the tensors passed in alone.
  lemma AliasingExactly(rets: seq<Tensor>, ops: seq<Tensor>, i: nat)
    requires i < |rets| == |ops|
    ensures ops[Shown(rets, ops, i)] == ops[i]
      <==> forall before, target | rets[i] in before && Expandable(before, ops, target) ::
             ReadsAs(After(before, rets, ops, target, |rets|, rets[i]), before[ops[i]], target)
  {
    if ops[Shown(rets, ops, i)] == ops[i] {
      forall before, target | rets[i] in before && Expandable(before, ops, target)
        ensures ReadsAs(After(before, rets, ops, target, |rets|, rets[i]), before[ops[i]], target)
      {
        ShownReads(before, rets, ops, target, i);
      }
    } else {
      TaggedFails(rets, ops, i);
    }
  }

  // The results are distinct, and none of them is an operand that is still to be read.
  predicate Unaliased(rets: seq<Tensor>, ops: seq<Tensor>) {
    && |rets| == |ops|
    && (forall i, j | 0 <= i < j < |rets| :: rets[i] != rets[j])
    && (forall i, j | 0 <= i < j < |rets| :: rets[i] != ops[j])
  }

  lemma UnaliasedShown(rets: seq<Tensor>, ops: seq<Tensor>, i: nat)
    requires Unaliased(rets, ops) && i < |rets|
    ensures Shown(rets, ops, i) == i
  {
    assert LastWrite(rets, |rets|, rets[i]) == i;
    assert LastWrite(rets, i, ops[i]) == -1;
  }

  // Without aliasing every result has the common shape and reads its own operand.
  lemma ResultsRead(before: map<Tensor, View>, rets: seq<Tensor>, ops: seq<Tensor>, target: Shape, i: nat)
    requires Unaliased(rets, ops) && i < |rets| && rets[i] in before && Expandable(before, ops, target)
    ensures ReadsAs(After(before, rets, ops, target, |rets|, rets[i]), before[ops[i]], target)
  {
    UnaliasedShown(rets, ops, i);
    ShownReads(before, rets, ops, target, i);
  }

  // An operand that is no result keeps its view.
  lemma OperandKept(before: map<Tensor, View>, rets: seq<Tensor>, ops: seq<Tensor>, target: Shape, t: Tensor)
    requires |rets| == |ops| && t in before && Expandable(before, ops, target) && t !in rets
    ensures After(before, rets, ops, target, |rets|, t) == before[t]
  {
  }

  // A failing input: the first result is the second operand, and the second result, whose operand had
  // offset 1, ends up at the offset 0 of the first operand.
  lemma AliasedResult(x: Tensor, y: Tensor, r: Tensor)
    requires x != y && y != r
    ensures var rets, ops := [y, r], [x, y];
      var before := map[x := Cell(0), r := Cell(0)][y := Cell(1)];
      && Expandable(before, ops, [1])
      && After(before, rets, ops, [1], 2, r).offset == 0 != before[ops[1]].offset
      && !ReadsAs(After(before, rets, ops, [1], 2, r), before[ops[1]], [1])
  {
    var rets, ops := [y, r], [x, y];
    var before := map[x := Cell(0), r := Cell(0)][y := Cell(1)];
    CellsDiffer(0, 1);
    assert LastWrite(rets, 2, r) == 1 && LastWrite(rets, 1, y) == 0 && LastWrite(rets, 0, x) == -1;
    assert Origin(rets, ops, 1) == 0;
  }
}
