// Unsigned words as Storable types: the hypotheses of the Storable laws hold for structs whose members differ in
// size, overlapping ones included.
module Words {
  import opened Storable
  import opened Structs

  // 256 to the power of n.
  function Bound(n: nat): (r: nat)
    ensures r > 0
  {
    if n == 0 then 1 else 256 * Bound(n - 1)
  }

  // The lowest n bytes of i, least significant byte first.
  function Digits(n: nat, i: int): (b: seq<byte>)
    ensures |b| == n
  {
    if n == 0 then [] else [(i % 256) as byte] + Digits(n - 1, i / 256)
  }

  function Number(b: seq<byte>): int { if b == [] then 0 else b[0] as int + 256 * Number(b[1..]) }

  lemma {:induction false} NumberOfDigits(n: nat, i: int)
    requires 0 <= i < Bound(n)
    ensures Number(Digits(n, i)) == i
  {
    if n > 0 {
      assert i / 256 < Bound(n - 1);
      NumberOfDigits(n - 1, i / 256);
      assert Digits(n, i)[1..] == Digits(n - 1, i / 256);
    }
  }

  lemma {:induction false} DigitsOfNumber(b: seq<byte>)
    ensures 0 <= Number(b) < Bound(|b|) && Digits(|b|, Number(b)) == b
    decreases |b|
  {
    if b != [] {
      DigitsOfNumber(b[1..]);
      var r := Number(b[1..]);
      assert Number(b) % 256 == b[0] as int && Number(b) / 256 == r;
    }
  }

  // Word8 for n = 1, Word32 for n = 4.
  function Word(n: nat): Codec {
    Codec(n,
      (v: Value) => v.Int? && 0 <= v.i < Bound(n),
      (v: Value) => Digits(n, if v.Int? then v.i else 0),
      (b: seq<byte>) => Int(Number(b)))
  }

  lemma WordIsTight(n: nat)
    requires n > 0
    ensures Lawful(Word(n)) && Tight(Word(n))
  {
    var c := Word(n);
    forall v | c.has(v) ensures c.dec(c.enc(v)) == v { NumberOfDigits(n, v.i); }
    forall b: seq<byte> | |b| == n ensures c.has(c.dec(b)) && c.enc(c.dec(b)) == b { DigitsOfNumber(b); }
  }

  // struct { uint8_t tag; union { uint32_t n; uint8_t bytes[4]; }; }
  function Tagged(): seq<Field> {
    [Field("tag", "Word8", 0, 0, false, false),
     Field("n", "Word32", 4, 0, true, false),
     Field("bytes", "Word8", 4, 4, true, false)]
  }

  function Types(): Codecs { ty => if ty == "Word8" then Word(1) else Word(4) }

  // The hypotheses of the laws, overlapping members of different sizes included.
  lemma TaggedIsTight()
    ensures AllLawful(Tagged(), Types()) && AllTight(Tagged(), Types()) && Produced(Tagged())
  {
    WordIsTight(1);
    WordIsTight(4);
  }

  // Every record peeked from memory is one to which the round trips and the setter laws apply.
  lemma PeekedTagged(m: Memory, p: int)
    ensures AllLawful(Tagged(), Types())
    ensures var vs := PeekFields(Tagged(), Types(), m, p);
      AllTyped(Tagged(), Types(), vs) && Settled(Tagged(), Types(), vs, 0)
  {
    TaggedIsTight();
    var fs, cs := Tagged(), Types();
    forall i | 0 <= i < |fs| ensures Typed(cs(fs[i].ty), PeekFields(fs, cs, m, p)[i]) {
      PeekFieldTyped(fs[i], cs(fs[i].ty), m, p);
    }
  }
}
