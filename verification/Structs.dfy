// Marshalling of whole structs, with fields that may overlap as the members of a union do.
module Structs {
  import opened Storable

  ghost predicate AllSized(fs: seq<Field>, cs: Codecs) { forall f | f in fs :: Sized(cs(f.ty)) }

  ghost predicate AllLawful(fs: seq<Field>, cs: Codecs) { forall f | f in fs :: Lawful(cs(f.ty)) }

  ghost predicate AllTight(fs: seq<Field>, cs: Codecs) { forall f | f in fs :: Tight(cs(f.ty)) }

  predicate AllShaped(fs: seq<Field>, vs: seq<FieldValue>) {
    |vs| == |fs| && forall i | 0 <= i < |fs| :: Shaped(fs[i], vs[i])
  }

  predicate AllTyped(fs: seq<Field>, cs: Codecs, vs: seq<FieldValue>) {
    |vs| == |fs| && forall i | 0 <= i < |fs| :: Typed(cs(fs[i].ty), vs[i])
  }

  // A flexible array member is neither in a union nor sized.
  predicate Produced(fs: seq<Field>) {
    forall i | 0 <= i < |fs| :: fs[i].isFam ==> !fs[i].isUnion && fs[i].arraySize == 0
  }

  ghost function PeekFields(fs: seq<Field>, cs: Codecs, m: Memory, p: int): (vs: seq<FieldValue>)
    requires AllSized(fs, cs)
    ensures AllShaped(fs, vs)
    ensures forall i | 0 <= i < |fs| :: vs[i] == PeekField(fs[i], cs(fs[i].ty), m, p)
  {
    seq(|fs|, i requires 0 <= i < |fs| => PeekField(fs[i], cs(fs[i].ty), m, p))
  }

  // The fields are poked in order.
  ghost function PokeFields(fs: seq<Field>, cs: Codecs, m: Memory, p: int, vs: seq<FieldValue>): Memory
    requires AllSized(fs, cs) && AllShaped(fs, vs)
    decreases |fs|
  {
    if fs == [] then m
    else PokeFields(fs[1..], cs, PokeField(fs[0], cs(fs[0].ty), m, p, vs[0]), p, vs[1..])
  }

  // ---- coherence, overlapping fields included ----

  // The field f reaches position x of the struct.
  ghost predicate Reaches(f: Field, cs: Codecs, x: int)
    requires Sized(cs(f.ty))
  {
    f.offset <= x < f.offset + Span(f, cs(f.ty))
  }

  // Position x of the struct belongs to a field.
  ghost predicate Covered(fs: seq<Field>, cs: Codecs, x: int)
    requires AllSized(fs, cs)
  {
    exists f | f in fs :: Reaches(f, cs, x)
  }

  lemma CoveredSplit(fs: seq<Field>, cs: Codecs, x: int)
    requires fs != [] && AllSized(fs, cs)
    ensures Covered(fs, cs, x) <==>
      Reaches(fs[0], cs, x) || Covered(fs[1..], cs, x)
  {
    assert forall f | f in fs :: f == fs[0] || f in fs[1..];
  }

  lemma CopyByte(f: Field, cs: Codecs, m: Memory, p: int, m': Memory, p': int, x: int)
    requires Sized(cs(f.ty)) && (Tight(cs(f.ty)) || !Reaches(f, cs, x))
    ensures PokeField(f, cs(f.ty), m, p, PeekField(f, cs(f.ty), m', p'))(p + x)
         == if Reaches(f, cs, x) then m'(p' + x) else m(p + x)
  {
    var c := cs(f.ty);
    if Reaches(f, cs, x) {
      CopyField(f, c, m, p, m', p', x);
    } else {
      PeekedWritten(f, c, m', p');
      PokeFieldFrame(f, c, m, p, PeekField(f, c, m', p'), p + x);
    }
  }

  // Poking a struct that was peeked elsewhere copies the bytes of its fields, even where they overlap.
  // Only the types of the fields that reach a byte matter to it.
  lemma {:induction false} PokeCopies(fs: seq<Field>, cs: Codecs, m: Memory, p: int, m': Memory, p': int, x: int)
    requires AllSized(fs, cs) && forall f | f in fs :: Tight(cs(f.ty)) || !Reaches(f, cs, x)
    ensures PokeFields(fs, cs, m, p, PeekFields(fs, cs, m', p'))(p + x)
         == if Covered(fs, cs, x) then m'(p' + x) else m(p + x)
    decreases |fs|
  {
    if fs != [] {
      var c := cs(fs[0].ty);
      var m1 := PokeField(fs[0], c, m, p, PeekField(fs[0], c, m', p'));
      CopyByte(fs[0], cs, m, p, m', p', x);
      PokeCopies(fs[1..], cs, m1, p, m', p', x);
      CoveredSplit(fs, cs, x);
      assert PeekFields(fs, cs, m', p')[1..] == PeekFields(fs[1..], cs, m', p');
    }
  }

  // If every byte of a field has been copied, the two places agree on the field.
  lemma FieldAgrees(f: Field, cs: Codecs, m: Memory, p: int, m': Memory, p': int)
    requires Sized(cs(f.ty)) && forall x | Reaches(f, cs, x) :: ByteAt(m, p, x) == ByteAt(m', p', x)
    ensures Agree(m, p + f.offset, m', p' + f.offset, Span(f, cs(f.ty)))
  {
    var n, a, a' := Span(f, cs(f.ty)), p + f.offset, p' + f.offset;
    forall i | 0 <= i < n ensures ByteAt(m, a, i) == ByteAt(m', a', i) {
      assert Reaches(f, cs, f.offset + i);
      assert ByteAt(m, p, f.offset + i) == ByteAt(m', p', f.offset + i);
    }
  }

  lemma FieldCopied(fs: seq<Field>, cs: Codecs, m: Memory, p: int, m': Memory, p': int, f: Field)
    requires AllTight(fs, cs) && f in fs
    ensures Agree(PokeFields(fs, cs, m, p, PeekFields(fs, cs, m', p')), p + f.offset, m', p' + f.offset,
                  Span(f, cs(f.ty)))
  {
    hide PokeFields, PeekFields, Span, Reaches;
    var m2 := PokeFields(fs, cs, m, p, PeekFields(fs, cs, m', p'));
    forall x | Reaches(f, cs, x) ensures ByteAt(m2, p, x) == ByteAt(m', p', x) {
      assert Covered(fs, cs, x);
      PokeCopies(fs, cs, m, p, m', p', x);
    }
    FieldAgrees(f, cs, m2, p, m', p');
  }

  // Peek from one place and poke to another: the two places then agree on the bytes of every field, and
  // peeking the second place gives the same record.
  lemma Coherence(fs: seq<Field>, cs: Codecs, m: Memory, p: int, m': Memory, p': int)
    requires AllTight(fs, cs)
    ensures var vs := PeekFields(fs, cs, m', p');
      var m2 := PokeFields(fs, cs, m, p, vs);
      && (forall f | f in fs :: Agree(m2, p + f.offset, m', p' + f.offset, Span(f, cs(f.ty))))
      && PeekFields(fs, cs, m2, p) == vs
  {
    var vs := PeekFields(fs, cs, m', p');
    var m2 := PokeFields(fs, cs, m, p, vs);
    forall f | f in fs ensures Agree(m2, p + f.offset, m', p' + f.offset, Span(f, cs(f.ty))) {
      FieldCopied(fs, cs, m, p, m', p', f);
    }
    forall i | 0 <= i < |fs| ensures PeekFields(fs, cs, m2, p)[i] == vs[i] {
      assert fs[i] in fs;
      PeekFieldSame(fs[i], cs(fs[i].ty), m2, p, m', p');
    }
  }

  // ---- disjoint fields ----

  // The bytes that a field may read or write.
  function Extent(f: Field, c: Codec, v: FieldValue): nat
    requires c.size > 0 && Shaped(f, v)
  {
    if f.isFam then Written(f, c, v) else Span(f, c)
  }

  lemma WrittenInExtent(f: Field, c: Codec, v: FieldValue)
    requires c.size > 0 && Shaped(f, v)
    ensures Written(f, c, v) <= Extent(f, c, v) && Span(f, c) <= Extent(f, c, v)
  {
    if !f.isFam && f.arraySize > 0 {
      var k, n := |Take(Count(f, c), v.vs)|, Count(f, c);
      Distribute(k, n, c.size);
    }
  }

  predicate Apart(a: int, n: int, b: int, k: int) { a + n <= b || b + k <= a }

  ghost predicate Disjoint(fs: seq<Field>, cs: Codecs, vs: seq<FieldValue>)
    requires AllSized(fs, cs) && AllShaped(fs, vs)
  {
    forall i, j | 0 <= i < j < |fs| ::
      Apart(fs[i].offset, Extent(fs[i], cs(fs[i].ty), vs[i]), fs[j].offset, Extent(fs[j], cs(fs[j].ty), vs[j]))
  }

  // poke writes no byte outside the extents of the fields.
  lemma {:induction false} PokeFrame(fs: seq<Field>, cs: Codecs, m: Memory, p: int, vs: seq<FieldValue>, x: int)
    requires AllSized(fs, cs) && AllShaped(fs, vs)
    requires forall i | 0 <= i < |fs| ::
      !(p + fs[i].offset <= x < p + fs[i].offset + Extent(fs[i], cs(fs[i].ty), vs[i]))
    ensures PokeFields(fs, cs, m, p, vs)(x) == m(x)
    decreases |fs|
  {
    if fs != [] {
      var c := cs(fs[0].ty);
      WrittenInExtent(fs[0], c, vs[0]);
      PokeFieldFrame(fs[0], c, m, p, vs[0], x);
      forall i | 0 <= i < |fs| - 1
        ensures !(p + fs[1..][i].offset <= x < p + fs[1..][i].offset + Extent(fs[1..][i], cs(fs[1..][i].ty),
            vs[1..][i]))
      {
        assert fs[1..][i] == fs[i + 1] && vs[1..][i] == vs[i + 1];
      }
      PokeFrame(fs[1..], cs, PokeField(fs[0], c, m, p, vs[0]), p, vs[1..], x);
    }
  }

  // If every extent lies inside the struct, poke writes inside the struct only.
  lemma PokeInside(fs: seq<Field>, cs: Codecs, m: Memory, p: int, vs: seq<FieldValue>, typesize: nat, x: int)
    requires AllSized(fs, cs) && AllShaped(fs, vs)
    requires forall i | 0 <= i < |fs| :: fs[i].offset + Extent(fs[i], cs(fs[i].ty), vs[i]) <= typesize
    requires !(p <= x < p + typesize)
    ensures PokeFields(fs, cs, m, p, vs)(x) == m(x)
  {
    PokeFrame(fs, cs, m, p, vs, x);
  }

  lemma Distribute(k: nat, n: nat, size: nat)
    requires k <= n
    ensures k * size <= n * size && n * size - k * size == (n - k) * size
  {
  }

  lemma ReadBackSame(f: Field, c: Codec, m: Memory, m': Memory, p: int, v: FieldValue)
    requires c.size > 0 && Shaped(f, v) && Agree(m, p + f.offset, m', p + f.offset, Span(f, c))
    ensures ReadBack(f, c, m, p, v) == ReadBack(f, c, m', p, v)
  {
    if !f.isFam && f.arraySize > 0 {
      var k, n := |Take(Count(f, c), v.vs)|, Count(f, c);
      Distribute(k, n, c.size);
      AgreeFrom(m, p + f.offset, m', p + f.offset, n * c.size, k * c.size);
      PeekArraySame(c, m, p + f.offset + k * c.size, m', p + f.offset + k * c.size, n - k);
    }
  }

  // The other fields do not disturb what a field reads back.
  lemma TailKeeps(fs: seq<Field>, cs: Codecs, m: Memory, p: int, vs: seq<FieldValue>, f: Field, v: FieldValue)
    requires AllSized(fs, cs) && AllShaped(fs, vs) && Sized(cs(f.ty)) && Shaped(f, v)
    requires forall j | 0 <= j < |fs| ::
      Apart(f.offset, Extent(f, cs(f.ty), v), fs[j].offset, Extent(fs[j], cs(fs[j].ty), vs[j]))
    ensures Agree(PokeFields(fs, cs, m, p, vs), p + f.offset, m, p + f.offset, Span(f, cs(f.ty)))
  {
    var m', a := PokeFields(fs, cs, m, p, vs), p + f.offset;
    WrittenInExtent(f, cs(f.ty), v);
    forall i | 0 <= i < Span(f, cs(f.ty)) ensures ByteAt(m', a, i) == ByteAt(m, a, i) {
      PokeFrame(fs, cs, m, p, vs, a + i);
    }
  }

  lemma HeadKeeps(h: Field, c: Codec, m: Memory, p: int, w: FieldValue, f: Field, cf: Codec, v: FieldValue)
    requires Sized(c) && Shaped(h, w) && Sized(cf) && Shaped(f, v)
    requires Apart(h.offset, Extent(h, c, w), f.offset, Extent(f, cf, v))
    ensures Agree(PokeField(h, c, m, p, w), p + f.offset, m, p + f.offset, Span(f, cf))
  {
    var m', a := PokeField(h, c, m, p, w), p + f.offset;
    WrittenInExtent(h, c, w);
    WrittenInExtent(f, cf, v);
    forall i | 0 <= i < Span(f, cf) ensures ByteAt(m', a, i) == ByteAt(m, a, i) {
      PokeFieldFrame(h, c, m, p, w, a + i);
    }
  }

  // With disjoint fields every field reads back what was written to it.
  lemma {:induction false} PeekPokedFields(fs: seq<Field>, cs: Codecs, m: Memory, p: int, vs: seq<FieldValue>, i: nat)
    requires AllLawful(fs, cs) && AllShaped(fs, vs) && AllTyped(fs, cs, vs) && Disjoint(fs, cs, vs) && i < |fs|
    ensures PeekFields(fs, cs, PokeFields(fs, cs, m, p, vs), p)[i] == ReadBack(fs[i], cs(fs[i].ty), m, p, vs[i])
    decreases |fs|
  {
    var c := cs(fs[0].ty);
    var m1 := PokeField(fs[0], c, m, p, vs[0]);
    var m2 := PokeFields(fs, cs, m, p, vs);
    DisjointTail(fs, cs, vs);
    if i == 0 {
      TailKeeps(fs[1..], cs, m1, p, vs[1..], fs[0], vs[0]);
      PeekFieldSame(fs[0], c, m2, p, m1, p);
      PeekPokedField(fs[0], c, m, p, vs[0]);
    } else {
      PeekPokedFields(fs[1..], cs, m1, p, vs[1..], i - 1);
      HeadKeeps(fs[0], c, m, p, vs[0], fs[i], cs(fs[i].ty), vs[i]);
      ReadBackSame(fs[i], cs(fs[i].ty), m1, m, p, vs[i]);
    }
  }

  lemma DisjointTail(fs: seq<Field>, cs: Codecs, vs: seq<FieldValue>)
    requires fs != [] && AllSized(fs, cs) && AllShaped(fs, vs) && Disjoint(fs, cs, vs)
    ensures Disjoint(fs[1..], cs, vs[1..])
    ensures forall j | 0 <= j < |fs[1..]| ::
      Apart(fs[0].offset, Extent(fs[0], cs(fs[0].ty), vs[0]),
            fs[1..][j].offset, Extent(fs[1..][j], cs(fs[1..][j].ty), vs[1..][j]))
  {
  }

  // The Storable round trip: with disjoint fields, poke then peek returns the record exactly when every
  // list has the length of its array and every flexible array is empty.
  lemma RoundTrip(fs: seq<Field>, cs: Codecs, m: Memory, p: int, vs: seq<FieldValue>)
    requires AllLawful(fs, cs) && AllShaped(fs, vs) && AllTyped(fs, cs, vs) && Disjoint(fs, cs, vs)
    ensures PeekFields(fs, cs, PokeFields(fs, cs, m, p, vs), p) == vs
      <==> forall i | 0 <= i < |fs| :: ExactLength(fs[i], cs(fs[i].ty), vs[i])
  {
    var ws := PeekFields(fs, cs, PokeFields(fs, cs, m, p, vs), p);
    forall i | 0 <= i < |fs| ensures ws[i] == vs[i] <==> ExactLength(fs[i], cs(fs[i].ty), vs[i]) {
      PeekPokedFields(fs, cs, m, p, vs, i);
      ReadBackExact(fs[i], cs(fs[i].ty), m, p, vs[i]);
    }
    assert ws == vs <==> forall i | 0 <= i < |fs| :: ws[i] == vs[i];
  }

  // ---- the update of one union member ----

  // u': poke the record, poke the new member value, peek, and take over the union members.
  ghost function UpdateUnion(fs: seq<Field>, cs: Codecs, m: Memory, p: int, vs: seq<FieldValue>, k: nat,
      w: FieldValue): (r: seq<FieldValue>)
    requires AllSized(fs, cs) && AllShaped(fs, vs) && k < |fs| && Shaped(fs[k], w)
    ensures AllShaped(fs, r)
  {
    var us := PeekFields(fs, cs, UpdatedMemory(fs, cs, m, p, vs, k, w), p);
    seq(|fs|, i requires 0 <= i < |fs| => if fs[i].isUnion then us[i] else vs[i])
  }

  ghost function UpdatedMemory(fs: seq<Field>, cs: Codecs, m: Memory, p: int, vs: seq<FieldValue>, k: nat,
      w: FieldValue): Memory
    requires AllSized(fs, cs) && AllShaped(fs, vs) && k < |fs| && Shaped(fs[k], w)
  {
    PokeField(fs[k], cs(fs[k].ty), PokeFields(fs, cs, m, p, vs), p, w)
  }

  // The update keeps every field outside the union, and the member reads back what was written.
  lemma UpdateReads(fs: seq<Field>, cs: Codecs, m: Memory, p: int, vs: seq<FieldValue>, k: nat, w: FieldValue)
    requires AllSized(fs, cs) && AllShaped(fs, vs) && k < |fs| && Shaped(fs[k], w) && fs[k].isUnion
    requires Lawful(cs(fs[k].ty)) && Typed(cs(fs[k].ty), w)
    ensures var r := UpdateUnion(fs, cs, m, p, vs, k, w);
      && (forall i | 0 <= i < |fs| && !fs[i].isUnion :: r[i] == vs[i])
      && r[k] == ReadBack(fs[k], cs(fs[k].ty), PokeFields(fs, cs, m, p, vs), p, w)
      && (ExactLength(fs[k], cs(fs[k].ty), w) ==> r[k] == w)
  {
    PeekPokedField(fs[k], cs(fs[k].ty), PokeFields(fs, cs, m, p, vs), p, w);
    ReadBackExact(fs[k], cs(fs[k].ty), PokeFields(fs, cs, m, p, vs), p, w);
  }

  // A field that no other field touches.
  ghost predicate Isolated(fs: seq<Field>, cs: Codecs, vs: seq<FieldValue>, i: nat)
    requires AllSized(fs, cs) && AllShaped(fs, vs) && i < |fs|
  {
    forall j | 0 <= j < |fs| && j != i ::
      Apart(fs[i].offset, Extent(fs[i], cs(fs[i].ty), vs[i]), fs[j].offset, Extent(fs[j], cs(fs[j].ty), vs[j]))
  }

  // An isolated field reads back what was written to it, whatever overlaps elsewhere.
  lemma {:induction false} PeekPokedIsolated(fs: seq<Field>, cs: Codecs, m: Memory, p: int, vs: seq<FieldValue>, i: nat)
    requires AllSized(fs, cs) && AllShaped(fs, vs) && i < |fs| && Isolated(fs, cs, vs, i)
    requires Lawful(cs(fs[i].ty)) && Typed(cs(fs[i].ty), vs[i])
    ensures PeekField(fs[i], cs(fs[i].ty), PokeFields(fs, cs, m, p, vs), p) == ReadBack(fs[i], cs(fs[i].ty), m, p,
        vs[i])
    decreases |fs|
  {
    var c := cs(fs[0].ty);
    var m1 := PokeField(fs[0], c, m, p, vs[0]);
    if i == 0 {
      forall j | 0 <= j < |fs[1..]| ensures
        Apart(fs[0].offset, Extent(fs[0], c, vs[0]), fs[1..][j].offset, Extent(fs[1..][j], cs(fs[1..][j].ty),
            vs[1..][j]))
      {
        assert fs[1..][j] == fs[j + 1] && vs[1..][j] == vs[j + 1];
      }
      TailKeeps(fs[1..], cs, m1, p, vs[1..], fs[0], vs[0]);
      PeekFieldSame(fs[0], c, PokeFields(fs, cs, m, p, vs), p, m1, p);
      PeekPokedField(fs[0], c, m, p, vs[0]);
    } else {
      IsolatedTail(fs, cs, vs, i);
      PeekPokedIsolated(fs[1..], cs, m1, p, vs[1..], i - 1);
      HeadKeeps(fs[0], c, m, p, vs[0], fs[i], cs(fs[i].ty), vs[i]);
      ReadBackSame(fs[i], cs(fs[i].ty), m1, m, p, vs[i]);
    }
  }

  lemma IsolatedTail(fs: seq<Field>, cs: Codecs, vs: seq<FieldValue>, i: nat)
    requires AllSized(fs, cs) && AllShaped(fs, vs) && 0 < i < |fs| && Isolated(fs, cs, vs, i)
    ensures Isolated(fs[1..], cs, vs[1..], i - 1)
    ensures Apart(fs[0].offset, Extent(fs[0], cs(fs[0].ty), vs[0]), fs[i].offset, Extent(fs[i], cs(fs[i].ty), vs[i]))
  {
  }

  // Writing the member leaves an isolated field outside the union as it was poked.
  lemma UpdateKeeps(fs: seq<Field>, cs: Codecs, m: Memory, p: int, vs: seq<FieldValue>, k: nat, w: FieldValue, i: nat)
    requires AllSized(fs, cs) && AllShaped(fs, vs) && k < |fs| && Shaped(fs[k], w) && i < |fs| && i != k
    requires Extent(fs[k], cs(fs[k].ty), w) <= Extent(fs[k], cs(fs[k].ty), vs[k])
    requires Settled(fs, cs, vs, i)
    ensures PeekField(fs[i], cs(fs[i].ty), UpdatedMemory(fs, cs, m, p, vs, k, w), p) == vs[i]
  {
    var f, c, g, d := fs[i], cs(fs[i].ty), fs[k], cs(fs[k].ty);
    PeekPokedIsolated(fs, cs, m, p, vs, i);
    ReadBackExact(f, c, m, p, vs[i]);
    var m1 := PokeFields(fs, cs, m, p, vs);
    ApartSmaller(g.offset, Extent(g, d, vs[k]), Extent(g, d, w), f.offset, Extent(f, c, vs[i]));
    HeadKeeps(g, d, m1, p, w, f, c, vs[i]);
    PeekFieldSame(f, c, PokeField(g, d, m1, p, w), p, m1, p);
  }

  lemma ApartSmaller(a: int, n: int, n': int, b: int, k: int)
    requires Apart(b, k, a, n) && n' <= n
    ensures Apart(a, n', b, k)
  {
  }

  // What the update returns is a fixed point of poke and peek, in any other memory too, when the union
  // members have no padding and the fields outside the union are isolated, hold values of their types, and
  // have lists of exactly their length.
  lemma UpdateIsFixed(fs: seq<Field>, cs: Codecs, m: Memory, p: int, vs: seq<FieldValue>, k: nat, w: FieldValue,
                      m': Memory, q: int)
    requires AllSized(fs, cs) && AllShaped(fs, vs) && k < |fs| && Shaped(fs[k], w) && fs[k].isUnion
    requires Extent(fs[k], cs(fs[k].ty), w) <= Extent(fs[k], cs(fs[k].ty), vs[k])
    requires forall i | 0 <= i < |fs| && fs[i].isUnion :: Tight(cs(fs[i].ty))
    requires forall i | 0 <= i < |fs| && !fs[i].isUnion :: Settled(fs, cs, vs, i)
    ensures var r := UpdateUnion(fs, cs, m, p, vs, k, w);
      r == PeekFields(fs, cs, UpdatedMemory(fs, cs, m, p, vs, k, w), p)
      && PeekFields(fs, cs, PokeFields(fs, cs, m', q, r), q) == r
  {
    var m2 := UpdatedMemory(fs, cs, m, p, vs, k, w);
    var r := UpdateUnion(fs, cs, m, p, vs, k, w);
    forall i | 0 <= i < |fs| ensures r[i] == PeekFields(fs, cs, m2, p)[i] {
      if !fs[i].isUnion { UpdateKeeps(fs, cs, m, p, vs, k, w, i); }
    }
    assert r == PeekFields(fs, cs, m2, p);
    var m3 := PokeFields(fs, cs, m', q, r);
    forall i | 0 <= i < |fs| ensures PeekFields(fs, cs, m3, q)[i] == r[i] {
      FieldIsFixed(fs, cs, m2, p, vs, m', q, i);
    }
  }

  // Field i, peeked at p, poked to q and peeked there.
  lemma FieldIsFixed(fs: seq<Field>, cs: Codecs, m: Memory, p: int, vs: seq<FieldValue>, m': Memory, q: int, i: nat)
    requires AllSized(fs, cs) && AllShaped(fs, vs) && i < |fs|
    requires forall j | 0 <= j < |fs| && fs[j].isUnion :: Tight(cs(fs[j].ty))
    requires forall j | 0 <= j < |fs| && !fs[j].isUnion :: Settled(fs, cs, vs, j)
    requires !fs[i].isUnion ==> PeekField(fs[i], cs(fs[i].ty), m, p) == vs[i]
    ensures var r := PeekFields(fs, cs, m, p);
      PeekFields(fs, cs, PokeFields(fs, cs, m', q, r), q)[i] == r[i]
  {
    hide PokeFields, PeekField, Isolated, Tight, Lawful, ExactLength, Typed, Span, ReadBack;
    var r := PeekFields(fs, cs, m, p);
    if fs[i].isUnion {
      UnionFieldCopied(fs, cs, m', q, m, p, vs, i);
      PeekFieldSame(fs[i], cs(fs[i].ty), PokeFields(fs, cs, m', q, r), q, m, p);
    } else {
      PeekedIsolated(fs, cs, m, p, vs, i);
      SettledIsFixed(fs, cs, m', q, r, i);
    }
  }

  lemma SettledIsFixed(fs: seq<Field>, cs: Codecs, m: Memory, q: int, r: seq<FieldValue>, i: nat)
    requires AllSized(fs, cs) && AllShaped(fs, r) && i < |fs| && Settled(fs, cs, r, i)
    ensures PeekFields(fs, cs, PokeFields(fs, cs, m, q, r), q)[i] == r[i]
  {
    hide PokeFields, PeekField, Isolated, ReadBack;
    PeekPokedIsolated(fs, cs, m, q, r, i);
    ReadBackExact(fs[i], cs(fs[i].ty), m, q, r[i]);
  }

  // A field that is isolated and holds a value of its type and exact length.
  ghost predicate Settled(fs: seq<Field>, cs: Codecs, vs: seq<FieldValue>, i: nat)
    requires AllSized(fs, cs) && AllShaped(fs, vs) && i < |fs|
  {
    && Isolated(fs, cs, vs, i) && ExactLength(fs[i], cs(fs[i].ty), vs[i])
    && Lawful(cs(fs[i].ty)) && Typed(cs(fs[i].ty), vs[i])
  }

  // Peeked values reach no further than any others.
  lemma PeekedExtent(f: Field, c: Codec, m: Memory, p: int, v: FieldValue)
    requires c.size > 0 && Shaped(f, v)
    ensures Extent(f, c, PeekField(f, c, m, p)) == Span(f, c) <= Extent(f, c, v)
  {
    PeekedWritten(f, c, m, p);
    WrittenInExtent(f, c, v);
  }

  lemma PeekedIsolated(fs: seq<Field>, cs: Codecs, m: Memory, p: int, vs: seq<FieldValue>, i: nat)
    requires AllSized(fs, cs) && AllShaped(fs, vs) && i < |fs| && Isolated(fs, cs, vs, i)
    ensures Isolated(fs, cs, PeekFields(fs, cs, m, p), i)
  {
    var r := PeekFields(fs, cs, m, p);
    forall j | 0 <= j < |fs| && j != i
      ensures Apart(fs[i].offset, Extent(fs[i], cs(fs[i].ty), r[i]), fs[j].offset, Extent(fs[j], cs(fs[j].ty), r[j]))
    {
      PeekedExtent(fs[i], cs(fs[i].ty), m, p, vs[i]);
      PeekedExtent(fs[j], cs(fs[j].ty), m, p, vs[j]);
    }
  }

  // Peek and poke copy the bytes of a union member: no field outside the union reaches them.
  lemma UnionFieldCopied(fs: seq<Field>, cs: Codecs, m: Memory, p: int, m': Memory, p': int,
                         vs: seq<FieldValue>, i: nat)
    requires AllSized(fs, cs) && AllShaped(fs, vs) && i < |fs| && fs[i].isUnion
    requires forall j | 0 <= j < |fs| && fs[j].isUnion :: Tight(cs(fs[j].ty))
    requires forall j | 0 <= j < |fs| && !fs[j].isUnion :: Isolated(fs, cs, vs, j)
    ensures Agree(PokeFields(fs, cs, m, p, PeekFields(fs, cs, m', p')), p + fs[i].offset, m', p' + fs[i].offset,
                  Span(fs[i], cs(fs[i].ty)))
  {
    hide PokeFields, PeekFields, Span, Tight, Isolated, Reaches, ByteAt;
    var m2 := PokeFields(fs, cs, m, p, PeekFields(fs, cs, m', p'));
    forall x | Reaches(fs[i], cs, x) ensures ByteAt(m2, p, x) == ByteAt(m', p', x) {
      UnionByteCopied(fs, cs, m, p, m', p', vs, i, x);
    }
    FieldAgrees(fs[i], cs, m2, p, m', p');
  }

  lemma UnionByteCopied(fs: seq<Field>, cs: Codecs, m: Memory, p: int, m': Memory, p': int, vs: seq<FieldValue>,
                        i: nat, x: int)
    requires AllSized(fs, cs) && AllShaped(fs, vs) && i < |fs| && fs[i].isUnion && Reaches(fs[i], cs, x)
    requires forall j | 0 <= j < |fs| && fs[j].isUnion :: Tight(cs(fs[j].ty))
    requires forall j | 0 <= j < |fs| && !fs[j].isUnion :: Isolated(fs, cs, vs, j)
    ensures ByteAt(PokeFields(fs, cs, m, p, PeekFields(fs, cs, m', p')), p, x) == ByteAt(m', p', x)
  {
    hide PokeFields, PeekFields, Span, Tight, Isolated, Reaches;
    forall g | g in fs ensures Tight(cs(g.ty)) || !Reaches(g, cs, x) {
      var j: nat :| j < |fs| && fs[j] == g;
      if !g.isUnion { OutOfReach(fs, cs, vs, i, j, x); }
    }
    assert Covered(fs, cs, x);
    PokeCopies(fs, cs, m, p, m', p', x);
  }

  lemma OutOfReach(fs: seq<Field>, cs: Codecs, vs: seq<FieldValue>, i: nat, j: nat, x: int)
    requires AllSized(fs, cs) && AllShaped(fs, vs) && i < |fs| && j < |fs| && i != j && Isolated(fs, cs, vs, j)
    requires Reaches(fs[i], cs, x)
    ensures !Reaches(fs[j], cs, x)
  {
    WrittenInExtent(fs[i], cs(fs[i].ty), vs[i]);
    WrittenInExtent(fs[j], cs(fs[j].ty), vs[j]);
  }
}
