// What is true of every Storable instance that hsc_stoptype emits, said of the emitted code itself: fs are the
// declared fields, with their types as the code writes them.
module StorableLaws {
  import opened Storable
  import opened Structs
  import opened Marshal

  // Peek here and poke there: the two structs agree on the bytes of every field, and peeking there gives the
  // same record.  Fields may overlap.
  lemma PeekThenPoke(inst: Instance, fs: seq<Field>, cs: Codecs, m: Memory, p: int, m': Memory, p': int)
    requires Emitted(inst, fs) && AllTight(fs, cs)
    ensures var vs := RunPeek(inst, cs, m', p');
      vs.Some? && var m2 := RunPoke(inst, cs, m, p, vs.value);
      && m2.Some? && RunPeek(inst, cs, m2.value, p) == vs
      && forall f | f in fs :: Agree(m2.value, p + f.offset, m', p' + f.offset, Span(f, cs(f.ty)))
  {
    var vs := PeekFields(fs, cs, m', p');
    CompiledPeek(inst, fs, cs, m', p');
    CompiledPoke(inst, fs, cs, m, p, vs);
    CompiledPeek(inst, fs, cs, PokeFields(fs, cs, m, p, vs), p);
    Coherence(fs, cs, m, p, m', p');
  }

  // What peek returns fits the fields and their types.
  lemma PeekIsTyped(inst: Instance, fs: seq<Field>, cs: Codecs, m: Memory, p: int)
    requires Emitted(inst, fs) && AllTight(fs, cs)
    ensures var vs := RunPeek(inst, cs, m, p);
      vs.Some? && AllShaped(fs, vs.value) && AllTyped(fs, cs, vs.value)
  {
    CompiledPeek(inst, fs, cs, m, p);
    forall i | 0 <= i < |fs| ensures Typed(cs(fs[i].ty), PeekFields(fs, cs, m, p)[i]) {
      assert fs[i] in fs;
      PeekFieldTyped(fs[i], cs(fs[i].ty), m, p);
    }
  }

  // Poke and peek: with disjoint fields the record comes back exactly when every list has the length of its
  // array and every flexible array is empty.
  lemma PokeThenPeek(inst: Instance, fs: seq<Field>, cs: Codecs, m: Memory, p: int, vs: seq<FieldValue>)
    requires Emitted(inst, fs) && AllLawful(fs, cs) && AllShaped(fs, vs) && AllTyped(fs, cs, vs) && Disjoint(fs, cs, vs)
    ensures var m2 := RunPoke(inst, cs, m, p, vs);
      m2.Some? && var us := RunPeek(inst, cs, m2.value, p);
      && us.Some? && (us.value == vs <==> forall i | 0 <= i < |fs| :: ExactLength(fs[i], cs(fs[i].ty), vs[i]))
  {
    CompiledPoke(inst, fs, cs, m, p, vs);
    CompiledPeek(inst, fs, cs, PokeFields(fs, cs, m, p, vs), p);
    RoundTrip(fs, cs, m, p, vs);
  }

  // In general a list that is too long is cut off, and a short one keeps what the memory held behind it.
  lemma PokeThenPeekField(inst: Instance, fs: seq<Field>, cs: Codecs, m: Memory, p: int, vs: seq<FieldValue>, i: nat)
    requires Emitted(inst, fs) && AllLawful(fs, cs) && AllShaped(fs, vs) && AllTyped(fs, cs, vs)
    requires Disjoint(fs, cs, vs) && i < |fs|
    ensures var m2 := RunPoke(inst, cs, m, p, vs);
      m2.Some? && var us := RunPeek(inst, cs, m2.value, p);
      us.Some? && |us.value| == |fs| && ComesBack(fs[i], cs(fs[i].ty), m, p, vs[i], us.value[i])
  {
    hide ComesBack, Disjoint, ReadBack, RunPoke, RunPeek;
    CompiledPoke(inst, fs, cs, m, p, vs);
    CompiledPeek(inst, fs, cs, PokeFields(fs, cs, m, p, vs), p);
    PeekPokedFields(fs, cs, m, p, vs, i);
    ReadBackComesBack(fs[i], cs(fs[i].ty), m, p, vs[i]);
  }

  // u is what comes back of v: nothing of a flexible array, a scalar as it is, and of an array as many elements
  // as it holds, of which the first come from v, as far as it goes, and the others from the memory.
  predicate ComesBack(f: Field, c: Codec, m: Memory, p: int, v: FieldValue, u: FieldValue)
    requires c.size > 0 && Shaped(f, v)
  {
    if f.isFam then u == Many([])
    else if f.arraySize == 0 then u == v
    else u.Many? && KeepsTail(v.vs, u.vs, f.arraySize / c.size, c, m, p + f.offset)
  }

  predicate KeepsTail(vs: seq<Value>, us: seq<Value>, n: nat, c: Codec, m: Memory, a: int) {
    |us| == n && forall k | 0 <= k < n :: us[k] == if k < |vs| then vs[k] else c.dec(Read(m, a + k * c.size, c.size))
  }

  lemma ReadBackComesBack(f: Field, c: Codec, m: Memory, p: int, v: FieldValue)
    requires c.size > 0 && Shaped(f, v)
    ensures ComesBack(f, c, m, p, v, ReadBack(f, c, m, p, v))
  {
    if f.arraySize > 0 && !f.isFam {
      var n, ws := f.arraySize / c.size, Take(Count(f, c), v.vs);
      var a := p + f.offset;
      forall k | |ws| <= k < n
        ensures PeekArray(c, m, a + |ws| * c.size, n - |ws|)[k - |ws|] == c.dec(Read(m, a + k * c.size, c.size))
      {
        PeekArrayAt(c, m, a + |ws| * c.size, n - |ws|, k - |ws|);
        Distribute(|ws|, k, c.size);
      }
    }
  }

  // No field is flexible, and every field lies inside the first size bytes.
  ghost predicate Inside(fs: seq<Field>, cs: Codecs, size: nat) {
    forall f | f in fs :: !f.isFam && f.offset + Bytes(f, cs(f.ty)) <= size
  }

  // poke writes no byte outside the size that was given for the type, if the fields lie inside it.
  lemma PokeStaysInside(con: string, fs: seq<Field>, typesize: nat, typealign: nat, cs: Codecs, m: Memory, p: int,
                        vs: seq<FieldValue>, x: int)
    requires Produced(fs) && AllSized(fs, cs) && AllShaped(fs, vs) && Inside(fs, cs, typesize)
    requires var inst := Compile(con, fs, typesize, typealign); !(p <= x < p + inst.size)
    ensures var m2 := RunPoke(Compile(con, fs, typesize, typealign), cs, m, p, vs); m2.Some? && m2.value(x) == m(x)
  {
    var inst := Compile(con, fs, typesize, typealign);
    CompiledPoke(inst, fs, cs, m, p, vs);
    InsideExtents(fs, cs, vs, typesize);
    PokeInside(fs, cs, m, p, vs, typesize, x);
  }

  lemma InsideExtents(fs: seq<Field>, cs: Codecs, vs: seq<FieldValue>, size: nat)
    requires AllSized(fs, cs) && AllShaped(fs, vs) && Inside(fs, cs, size)
    ensures forall i | 0 <= i < |fs| ::
      fs[i].offset + Extent(fs[i], cs(fs[i].ty), vs[i]) <= size && !fs[i].isFam
  {
    forall i | 0 <= i < |fs| ensures fs[i].offset + Extent(fs[i], cs(fs[i].ty), vs[i]) <= size && !fs[i].isFam {
      assert fs[i] in fs;
      SpanInBytes(fs[i], cs(fs[i].ty));
    }
  }

  // Nor do the two writes of a setter, in the memory that alloca gives it for the emitted size.
  lemma SetterStaysInside(con: string, fs: seq<Field>, typesize: nat, typealign: nat, s: Setter, cs: Codecs, m: Memory,
                          p: int, vs: seq<FieldValue>, w: FieldValue, x: int)
    requires Produced(fs) && AllSized(fs, cs) && AllShaped(fs, vs) && Inside(fs, cs, typesize)
    requires var inst := Compile(con, fs, typesize, typealign);
      s in inst.setters && s.field < |fs| && Shaped(fs[s.field], w) && !(p <= x < p + inst.size)
    ensures var m2 := SetterMemory(Compile(con, fs, typesize, typealign), s, cs, m, p, vs, w);
      m2.Some? && m2.value(x) == m(x)
  {
    var inst, k := Compile(con, fs, typesize, typealign), s.field;
    CompiledSetter(inst, fs, s, cs, m, p, vs, w);
    InsideExtents(fs, cs, vs, typesize);
    InsideExtents(fs, cs, vs[k := w], typesize);
    PokeInside(fs, cs, m, p, vs, typesize, x);
    WrittenInExtent(fs[k], cs(fs[k].ty), w);
    PokeFieldFrame(fs[k], cs(fs[k].ty), PokeFields(fs, cs, m, p, vs), p, w, x);
  }

  // Fields whose bytes are apart in the C struct are disjoint.
  lemma ApartIsDisjoint(fs: seq<Field>, cs: Codecs, vs: seq<FieldValue>)
    requires AllSized(fs, cs) && AllShaped(fs, vs) && forall f | f in fs :: !f.isFam
    requires forall i, j | 0 <= i < j < |fs| ::
      || fs[i].offset + Bytes(fs[i], cs(fs[i].ty)) <= fs[j].offset
      || fs[j].offset + Bytes(fs[j], cs(fs[j].ty)) <= fs[i].offset
    ensures Disjoint(fs, cs, vs)
  {
    forall i, j | 0 <= i < j < |fs| ensures
      Apart(fs[i].offset, Extent(fs[i], cs(fs[i].ty), vs[i]), fs[j].offset, Extent(fs[j], cs(fs[j].ty), vs[j]))
    {
      assert fs[i] in fs && fs[j] in fs;
      SpanInBytes(fs[i], cs(fs[i].ty));
      SpanInBytes(fs[j], cs(fs[j].ty));
    }
  }

  // A setter keeps the fields outside the union, and the settled ones in it; its own field reads back what was
  // set.
  lemma SetterReads(inst: Instance, fs: seq<Field>, s: Setter, cs: Codecs, m: Memory, p: int, vs: seq<FieldValue>,
      w: FieldValue)
    requires Emitted(inst, fs) && AllSized(fs, cs) && AllShaped(fs, vs)
    requires s in inst.setters && s.field < |fs| && Shaped(fs[s.field], w)
    requires Lawful(cs(fs[s.field].ty)) && Typed(cs(fs[s.field].ty), w)
    ensures var r := RunSetter(inst, s, cs, m, p, vs, w);
      && r.Some? && |r.value| == |fs|
      && (forall i | 0 <= i < |fs| && !fs[i].isUnion :: r.value[i] == vs[i])
      && (forall i | 0 <= i < |fs| && i != s.field && Settled(fs, cs, vs, i) :: r.value[i] == vs[i])
      && (ExactLength(fs[s.field], cs(fs[s.field].ty), w) ==> r.value[s.field] == w)
  {
    SettersAre(fs, |fs|, s);
    CompiledSetter(inst, fs, s, cs, m, p, vs, w);
    UpdateReads(fs, cs, m, p, vs, s.field, w);
    forall i | 0 <= i < |fs| && i != s.field && Settled(fs, cs, vs, i)
      ensures UpdateUnion(fs, cs, m, p, vs, s.field, w)[i] == vs[i]
    {
      UpdateKeeps(fs, cs, m, p, vs, s.field, w, i);
    }
  }

  // What a setter returns survives poke and peek, into any memory, when the union members have no padding, and
  // no other field touches the fields outside the union, which hold values of their types with lists of the
  // length of their arrays.
  lemma SetterIsStable(inst: Instance, fs: seq<Field>, s: Setter, cs: Codecs, m: Memory, p: int, vs: seq<FieldValue>,
                       w: FieldValue, m': Memory, q: int)
    requires Emitted(inst, fs) && AllSized(fs, cs) && AllShaped(fs, vs)
    requires s in inst.setters && s.field < |fs| && Shaped(fs[s.field], w)
    requires forall i | 0 <= i < |fs| && fs[i].isUnion :: Tight(cs(fs[i].ty))
    requires forall i | 0 <= i < |fs| && !fs[i].isUnion :: Settled(fs, cs, vs, i)
    ensures var r := RunSetter(inst, s, cs, m, p, vs, w);
      r.Some? && var m2 := RunPoke(inst, cs, m', q, r.value);
      m2.Some? && RunPeek(inst, cs, m2.value, q) == r
  {
    var k := s.field;
    SettersAre(fs, |fs|, s);
    CompiledSetter(inst, fs, s, cs, m, p, vs, w);
    var r := UpdateUnion(fs, cs, m, p, vs, k, w);
    CompiledPoke(inst, fs, cs, m', q, r);
    CompiledPeek(inst, fs, cs, PokeFields(fs, cs, m', q, r), q);
    UpdateIsFixed(fs, cs, m, p, vs, k, w, m', q);
  }

  // Every union field has exactly one setter.
  lemma SetterFor(inst: Instance, fs: seq<Field>, k: nat)
    requires Emitted(inst, fs) && k < |fs|
    ensures fs[k].isUnion <==> exists s :: s in inst.setters && s.field == k
    ensures forall s, t | s in inst.setters && t in inst.setters && s.field == t.field == k :: s == t
  {
    forall s | s in inst.setters && s.field == k ensures fs[k].isUnion && s == SetterOf(fs, k) {
      SettersAre(fs, |fs|, s);
    }
    if fs[k].isUnion { SettersAre(fs, |fs|, SetterOf(fs, k)); }
  }

  // The pointer p'T'f leads to what peek reads for the field f: one value, or the elements of the array.
  lemma PointerReads(inst: Instance, fs: seq<Field>, cs: Codecs, m: Memory, p: int, i: nat)
    requires Emitted(inst, fs) && AllSized(fs, cs) && i < |fs| && !fs[i].isFam
    ensures |inst.pointers| == |fs| && inst.pointers[i] == Pointer(fs[i].offset, fs[i].ty)
    ensures var vs := RunPeek(inst, cs, m, p);
      vs.Some? && |vs.value| == |fs| && LiesAt(fs[i], cs(fs[i].ty), m, p + inst.pointers[i].offset, vs.value[i])
  {
    hide LiesAt;
    CompiledPeek(inst, fs, cs, m, p);
    PeekedLiesAt(fs[i], cs(fs[i].ty), m, p);
  }

  // The value v of the field f is the one in the bytes from a on.
  predicate LiesAt(f: Field, c: Codec, m: Memory, a: int, v: FieldValue)
    requires c.size > 0
  {
    if f.arraySize == 0 then v == One(c.dec(Read(m, a, c.size)))
    else
      && v.Many? && |v.vs| == f.arraySize / c.size
      && forall k | 0 <= k < |v.vs| :: v.vs[k] == c.dec(Read(m, a + k * c.size, c.size))
  }

  lemma PeekedLiesAt(f: Field, c: Codec, m: Memory, p: int)
    requires c.size > 0 && !f.isFam
    ensures LiesAt(f, c, m, p + f.offset, PeekField(f, c, m, p))
  {
    var a, n := p + f.offset, Count(f, c);
    forall k: nat | k < n ensures PeekArray(c, m, a, n)[k] == c.dec(Read(m, a + k * c.size, c.size)) {
      PeekArrayAt(c, m, a, n, k);
    }
  }
}
