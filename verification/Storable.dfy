// What the generated Storable instances mean: marshalling between records and byte memory, after
// chapter 37 of the Haskell 2010 Language Report.
module Storable {
  // A Haskell value of one field or of one list element.
  datatype Value = Int(i: int) | Real(x: real) | Address(a: int) | Record(fields: seq<Value>)

  newtype byte = x: int | 0 <= x < 256

  // One type: its values, and sizeOf, poke and peek.
  datatype Codec = Codec(size: nat, has: Value -> bool, enc: Value -> seq<byte>, dec: seq<byte> -> Value)

  // The types in scope, by the text by which the generated code names them.
  type Codecs = string -> Codec

  ghost predicate Sized(c: Codec) { c.size > 0 && forall v :: |c.enc(v)| == c.size }

  // Decoding inverts encoding on the values of the type.
  ghost predicate Lawful(c: Codec) { Sized(c) && forall v | c.has(v) :: c.dec(c.enc(v)) == v }

  // All bytes decode to a value of the type, and encoding inverts decoding: no byte is padding.
  ghost predicate Tight(c: Codec) {
    Sized(c) && forall b: seq<byte> | |b| == c.size :: c.has(c.dec(b)) && c.enc(c.dec(b)) == b
  }

  type Memory = int -> byte

  function Read(m: Memory, a: int, n: nat): (b: seq<byte>)
    ensures |b| == n
  {
    seq(n, i requires 0 <= i < n => m(a + i))
  }

  function Write(m: Memory, a: int, b: seq<byte>): Memory {
    x => if a <= x < a + |b| then b[x - a] else m(x)
  }

  // peekArray and pokeArray
  function PeekArray(c: Codec, m: Memory, a: int, n: nat): (vs: seq<Value>)
    ensures |vs| == n
    decreases n
  {
    if n == 0 then [] else [c.dec(Read(m, a, c.size))] + PeekArray(c, m, a + c.size, n - 1)
  }

  function PokeArray(c: Codec, m: Memory, a: int, vs: seq<Value>): Memory
    decreases |vs|
  {
    if vs == [] then m else PokeArray(c, Write(m, a, c.enc(vs[0])), a + c.size, vs[1..])
  }

  // ---- one field of a struct ----

  datatype Field = Field(name: string, ty: string, offset: nat, arraySize: nat, isUnion: bool, isFam: bool)

  datatype FieldValue = One(v: Value) | Many(vs: seq<Value>)

  predicate IsList(f: Field) { f.arraySize > 0 || f.isFam }

  // The values of v belong to the type.
  predicate Typed(c: Codec, v: FieldValue) {
    match v
    case One(x) => c.has(x)
    case Many(xs) => forall x | x in xs :: c.has(x)
  }

  predicate Shaped(f: Field, v: FieldValue) { v.Many? <==> IsList(f) }

  // The number of elements of an array field: div array_size (sizeOf (undefined :: ty)).
  function Count(f: Field, c: Codec): nat
    requires c.size > 0
  {
    f.arraySize / c.size
  }

  function Take(n: nat, vs: seq<Value>): seq<Value> { if n < |vs| then vs[..n] else vs }

  function PeekField(f: Field, c: Codec, m: Memory, p: int): (v: FieldValue)
    requires c.size > 0
    ensures Shaped(f, v)
  {
    if f.isFam then Many([])
    else if f.arraySize > 0 then Many(PeekArray(c, m, p + f.offset, Count(f, c)))
    else One(c.dec(Read(m, p + f.offset, c.size)))
  }

  function PokeField(f: Field, c: Codec, m: Memory, p: int, v: FieldValue): Memory
    requires c.size > 0 && Shaped(f, v)
  {
    if f.isFam then PokeArray(c, m, p + f.offset, v.vs)
    else if f.arraySize > 0 then PokeArray(c, m, p + f.offset, Take(Count(f, c), v.vs))
    else Write(m, p + f.offset, c.enc(v.v))
  }

  // The bytes that peek reads.
  function Span(f: Field, c: Codec): nat
    requires c.size > 0
  {
    if f.isFam then 0 else if f.arraySize > 0 then Count(f, c) * c.size else c.size
  }

  // The bytes that poke writes.
  function Written(f: Field, c: Codec, v: FieldValue): nat
    requires c.size > 0 && Shaped(f, v)
  {
    if f.isFam then |v.vs| * c.size
    else if f.arraySize > 0 then |Take(Count(f, c), v.vs)| * c.size
    else c.size
  }

  // ---- arrays of bytes ----

  lemma ReadWrite(m: Memory, a: int, b: seq<byte>)
    ensures Read(Write(m, a, b), a, |b|) == b
  {
  }

  // Byte i of what is read and written lies i behind the address.
  lemma BytesInOrder(m: Memory, a: int, b: seq<byte>, n: nat, i: nat)
    ensures i < n ==> Read(m, a, n)[i] == m(a + i)
    ensures i < |b| ==> Write(m, a, b)(a + i) == b[i]
    ensures Write(m, a, b)(a - 1 - i) == m(a - 1 - i) && Write(m, a, b)(a + |b| + i) == m(a + |b| + i)
  {
  }

  function ByteAt(m: Memory, a: int, i: int): byte { m(a + i) }

  // n bytes from a on in m are those from a' on in m'.
  ghost predicate Agree(m: Memory, a: int, m': Memory, a': int, n: int) {
    forall i | 0 <= i < n :: ByteAt(m, a, i) == ByteAt(m', a', i)
  }

  lemma AgreeFrom(m: Memory, a: int, m': Memory, a': int, n: int, k: nat)
    requires Agree(m, a, m', a', n) && k <= n
    ensures Agree(m, a, m', a', k) && Agree(m, a + k, m', a' + k, n - k)
  {
    var b, b' := a + k, a' + k;
    forall i | 0 <= i < n - k ensures ByteAt(m, b, i) == ByteAt(m', b', i) {
      assert ByteAt(m, a, k + i) == ByteAt(m', a', k + i);
    }
  }

  // Reading depends on the bytes read only.
  lemma ReadSame(m: Memory, a: int, m': Memory, a': int, n: nat)
    requires Agree(m, a, m', a', n)
    ensures Read(m, a, n) == Read(m', a', n)
  {
    forall i | 0 <= i < n ensures Read(m, a, n)[i] == Read(m', a', n)[i] {
      assert ByteAt(m, a, i) == ByteAt(m', a', i);
    }
  }

  lemma {:induction false} PeekArraySame(c: Codec, m: Memory, a: int, m': Memory, a': int, n: nat)
    requires Agree(m, a, m', a', n * c.size)
    ensures PeekArray(c, m, a, n) == PeekArray(c, m', a', n)
    decreases n
  {
    if n > 0 {
      assert n * c.size == c.size + (n - 1) * c.size;
      assert (n - 1) * c.size >= 0;
      AgreeFrom(m, a, m', a', n * c.size, c.size);
      ReadSame(m, a, m', a', c.size);
      PeekArraySame(c, m, a + c.size, m', a' + c.size, n - 1);
    }
  }

  // pokeArray changes nothing outside the elements it writes.
  lemma {:induction false} PokeArrayFrame(c: Codec, m: Memory, a: int, vs: seq<Value>, x: int)
    requires Sized(c) && !(a <= x < a + |vs| * c.size)
    ensures PokeArray(c, m, a, vs)(x) == m(x)
    decreases |vs|
  {
    if vs != [] {
      assert |vs| * c.size == c.size + (|vs| - 1) * c.size;
      assert (|vs| - 1) * c.size >= 0;
      PokeArrayFrame(c, Write(m, a, c.enc(vs[0])), a + c.size, vs[1..], x);
    }
  }

  // Poking values and peeking the same number of them gives the values back.
  lemma {:induction false} PeekPoked(c: Codec, m: Memory, a: int, vs: seq<Value>, n: nat)
    requires Lawful(c) && |vs| <= n && forall v | v in vs :: c.has(v)
    ensures PeekArray(c, PokeArray(c, m, a, vs), a, n)
         == vs + PeekArray(c, m, a + |vs| * c.size, n - |vs|)
    decreases |vs|
  {
    if vs == [] {
      assert |vs| * c.size == 0;
    } else {
      var m1 := Write(m, a, c.enc(vs[0]));
      var m2 := PokeArray(c, m1, a + c.size, vs[1..]);
      assert |vs| * c.size == c.size + (|vs| - 1) * c.size;
      assert (|vs| - 1) * c.size >= 0;
      forall i | 0 <= i < c.size ensures ByteAt(m2, a, i) == ByteAt(m1, a, i) {
        PokeArrayFrame(c, m1, a + c.size, vs[1..], a + i);
      }
      ReadSame(m2, a, m1, a, c.size);
      ReadWrite(m, a, c.enc(vs[0]));
      PeekPoked(c, m1, a + c.size, vs[1..], n - 1);
      var b := a + |vs| * c.size;
      PeekArraySame(c, m1, b, m, b, n - |vs|);
    }
  }

  // Poking what was peeked elsewhere copies the bytes.
  lemma {:induction false} PokePeeked(c: Codec, m: Memory, a: int, m': Memory, a': int, n: nat, x: int)
    requires Tight(c)
    ensures PokeArray(c, m, a, PeekArray(c, m', a', n))(a + x)
         == if 0 <= x < n * c.size then m'(a' + x) else m(a + x)
    decreases n
  {
    if n == 0 {
      assert n * c.size == 0;
    } else {
      var b := Read(m', a', c.size);
      var vs := PeekArray(c, m', a', n);
      var m1 := Write(m, a, b);
      assert vs[0] == c.dec(b) && vs[1..] == PeekArray(c, m', a' + c.size, n - 1) && c.enc(c.dec(b)) == b;
      PokePeeked(c, m1, a + c.size, m', a' + c.size, n - 1, x - c.size);
      Times(n, c.size);
      if 0 <= x < c.size { BytesInOrder(m', a', b, c.size, x); }
    }
  }

  lemma Times(n: nat, size: nat)
    requires n > 0
    ensures n * size == size + (n - 1) * size && (n - 1) * size >= 0
  {
  }

  // Element k lies k sizes behind the first.
  lemma {:induction false} PeekArrayAt(c: Codec, m: Memory, a: int, n: nat, k: nat)
    requires k < n
    ensures PeekArray(c, m, a, n)[k] == c.dec(Read(m, a + k * c.size, c.size))
    decreases n
  {
    if k > 0 {
      PeekArrayAt(c, m, a + c.size, n - 1, k - 1);
      assert a + c.size + (k - 1) * c.size == a + k * c.size;
    }
  }

  // What is peeked belongs to the type.
  lemma {:induction false} PeekArrayTyped(c: Codec, m: Memory, a: int, n: nat)
    requires Tight(c)
    ensures forall v | v in PeekArray(c, m, a, n) :: c.has(v)
    decreases n
  {
    if n > 0 { PeekArrayTyped(c, m, a + c.size, n - 1); }
  }

  // ---- fields ----

  lemma PeekFieldTyped(f: Field, c: Codec, m: Memory, p: int)
    requires Tight(c)
    ensures Typed(c, PeekField(f, c, m, p))
  {
    PeekArrayTyped(c, m, p + f.offset, Count(f, c));
  }

  lemma PokeFieldFrame(f: Field, c: Codec, m: Memory, p: int, v: FieldValue, x: int)
    requires Sized(c) && Shaped(f, v)
    requires !(p + f.offset <= x < p + f.offset + Written(f, c, v))
    ensures PokeField(f, c, m, p, v)(x) == m(x)
  {
    if f.isFam {
      PokeArrayFrame(c, m, p + f.offset, v.vs, x);
    } else if f.arraySize > 0 {
      PokeArrayFrame(c, m, p + f.offset, Take(Count(f, c), v.vs), x);
    }
  }

  // What a field reads back after it has been written: the value, with a long list cut off, and a short
  // one followed by what the memory held before.
  function ReadBack(f: Field, c: Codec, m: Memory, p: int, v: FieldValue): FieldValue
    requires c.size > 0 && Shaped(f, v)
  {
    if f.isFam then Many([])
    else if f.arraySize > 0 then
      var vs := Take(Count(f, c), v.vs);
      Many(vs + PeekArray(c, m, p + f.offset + |vs| * c.size, Count(f, c) - |vs|))
    else v
  }

  lemma PeekPokedField(f: Field, c: Codec, m: Memory, p: int, v: FieldValue)
    requires Lawful(c) && Shaped(f, v) && Typed(c, v)
    ensures PeekField(f, c, PokeField(f, c, m, p, v), p) == ReadBack(f, c, m, p, v)
  {
    if !f.isFam && f.arraySize > 0 {
      PeekPoked(c, m, p + f.offset, Take(Count(f, c), v.vs), Count(f, c));
    } else if !f.isFam {
      ReadWrite(m, p + f.offset, c.enc(v.v));
    }
  }

  // Lists have exactly the length of their array; flexible arrays are empty.
  predicate ExactLength(f: Field, c: Codec, v: FieldValue)
    requires c.size > 0 && Shaped(f, v)
  {
    if f.isFam then v.vs == [] else f.arraySize > 0 ==> |v.vs| == Count(f, c)
  }

  // The bytes that C gives to a field that is not a flexible array.
  function Bytes(f: Field, c: Codec): nat { if f.arraySize > 0 then f.arraySize else c.size }

  // An array of whole elements is filled exactly by a list of as many bytes.
  lemma ExactLengthMeans(f: Field, c: Codec, v: FieldValue)
    requires c.size > 0 && Shaped(f, v) && !f.isFam && f.arraySize > 0 && f.arraySize % c.size == 0
    ensures ExactLength(f, c, v) <==> |v.vs| * c.size == f.arraySize
  {
    WholeElements(|v.vs|, f.arraySize, c.size);
  }

  lemma WholeElements(k: nat, n: nat, size: nat)
    requires size > 0 && n % size == 0
    ensures k == n / size <==> k * size == n
  {
  }

  lemma SpanInBytes(f: Field, c: Codec)
    requires c.size > 0 && !f.isFam
    ensures Span(f, c) <= Bytes(f, c)
  {
  }

  lemma ReadBackExact(f: Field, c: Codec, m: Memory, p: int, v: FieldValue)
    requires c.size > 0 && Shaped(f, v)
    ensures ReadBack(f, c, m, p, v) == v <==> ExactLength(f, c, v)
  {
    if !f.isFam && f.arraySize > 0 {
      var vs := Take(Count(f, c), v.vs);
      if |v.vs| == Count(f, c) { assert vs + [] == v.vs; }
    }
  }

  lemma PeekFieldSame(f: Field, c: Codec, m: Memory, p: int, m': Memory, p': int)
    requires c.size > 0
    requires Agree(m, p + f.offset, m', p' + f.offset, Span(f, c))
    ensures PeekField(f, c, m, p) == PeekField(f, c, m', p')
  {
    if !f.isFam && f.arraySize > 0 {
      PeekArraySame(c, m, p + f.offset, m', p' + f.offset, Count(f, c));
    } else if !f.isFam {
      ReadSame(m, p + f.offset, m', p' + f.offset, c.size);
    }
  }

  // A peeked value is written over exactly the bytes it was read from.
  lemma PeekedWritten(f: Field, c: Codec, m: Memory, p: int)
    requires c.size > 0
    ensures Written(f, c, PeekField(f, c, m, p)) == Span(f, c)
  {
  }

  // Poking a field peeked elsewhere copies exactly its bytes.
  lemma CopyField(f: Field, c: Codec, m: Memory, p: int, m': Memory, p': int, x: int)
    requires Tight(c)
    ensures PokeField(f, c, m, p, PeekField(f, c, m', p'))(p + x)
         == if f.offset <= x < f.offset + Span(f, c) then m'(p' + x) else m(p + x)
  {
    if !f.isFam && f.arraySize > 0 {
      var vs := PeekArray(c, m', p' + f.offset, Count(f, c));
      assert Take(Count(f, c), vs) == vs;
      PokePeeked(c, m, p + f.offset, m', p' + f.offset, Count(f, c), x - f.offset);
    } else if !f.isFam {
      var b := Read(m', p' + f.offset, c.size);
      assert c.enc(c.dec(b)) == b;
    }
  }
}
