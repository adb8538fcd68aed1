// How the spellings of the type tables overlap: the facts behind the table order.
module Spelling {
  import opened Chars
  import opened Parsed
  import opened RenderC

  predicate IsTensor(a: RawTenType) {
    a in {Tensor, ByteTensor, CharTensor, ShortTensor, IntTensor, LongTensor, FloatTensor, DoubleTensor, HalfTensor}
  }

  predicate IsStorage(a: RawTenType) {
    a in {Storage, ByteStorage, CharStorage, ShortStorage, IntStorage, LongStorage, FloatStorage, DoubleStorage,
          HalfStorage}
  }

  // The element type in the name of a tensor or storage; every other name has an element type of its own.
  function Element(a: RawTenType): nat {
    match a
    case ByteTensor => 1 case ByteStorage => 1
    case CharTensor => 2 case CharStorage => 2
    case ShortTensor => 3 case ShortStorage => 3
    case IntTensor => 4 case IntStorage => 4
    case LongTensor => 5 case LongStorage => 5
    case FloatTensor => 6 case FloatStorage => 6
    case DoubleTensor => 7 case DoubleStorage => 7
    case HalfTensor => 8 case HalfStorage => 8 case Half => 8
    case Tensor => 9 case Storage => 10
    case DescBuff => 11 case Generator => 12 case Allocator => 13 case File => 14 case State => 15
    case Real => 16 case AccReal => 17 case Stream => 18
  }

  // The first three letters of the names with a given element type.
  function Begin(e: nat): (char, char, char) {
    match e
    case 1 => ('B', 'y', 't') case 2 => ('C', 'h', 'a') case 3 => ('S', 'h', 'o') case 4 => ('I', 'n', 't')
    case 5 => ('L', 'o', 'n') case 6 => ('F', 'l', 'o') case 7 => ('D', 'o', 'u') case 8 => ('H', 'a', 'l')
    case 9 => ('T', 'e', 'n') case 10 => ('S', 't', 'o') case 11 => ('D', 'e', 's') case 12 => ('G', 'e', 'n')
    case 13 => ('A', 'l', 'l') case 14 => ('F', 'i', 'l') case 15 => ('S', 't', 'a') case 16 => ('R', 'e', 'a')
    case 17 => ('A', 'c', 'c') case _ => ('S', 't', 'r')
  }

  lemma BeginOf(a: RawTenType)
    ensures var s := ShowRaw(a); |s| >= 4 && (s[0], s[1], s[2]) == Begin(Element(a)) && 1 <= Element(a) <= 18
  {
  }

  lemma BeginInjective(e: nat, f: nat)
    requires 1 <= e <= 18 && 1 <= f <= 18 && Begin(e) == Begin(f)
    ensures e == f
  {
  }

  // The letter behind the element type tells tensors from storages.
  lemma TensorOrStorage(a: RawTenType, b: RawTenType)
    requires IsTensor(a) && IsStorage(b) && Element(a) == Element(b)
    ensures !(ShowRaw(a) <= ShowRaw(b)) && !(ShowRaw(b) <= ShowRaw(a))
  {
    var s, t, n := ShowRaw(a), ShowRaw(b), |ShowRaw(a)| - 6;
    assert s[n] == 'T' && t[n] == 'S';
  }

  // Only Half is a proper prefix of another constructor name.
  lemma RawPrefix(a: RawTenType, b: RawTenType)
    requires ShowRaw(a) <= ShowRaw(b)
    ensures a == b || (a == Half && b in {HalfTensor, HalfStorage})
  {
    hide ShowRaw, Begin;
    var s, t := ShowRaw(a), ShowRaw(b);
    BeginOf(a);
    BeginOf(b);
    assert s[0] == t[0] && s[1] == t[1] && s[2] == t[2];
    BeginInjective(Element(a), Element(b));
    if IsTensor(a) && IsStorage(b) { TensorOrStorage(a, b); }
    if IsTensor(b) && IsStorage(a) { TensorOrStorage(b, a); }
    if b == Half { HalfIsShort(a); }
  }

  lemma HalfIsShort(a: RawTenType)
    requires Element(a) == Element(Half) && ShowRaw(a) <= ShowRaw(Half)
    ensures a == Half
  {
  }

  lemma RawShape(a: RawTenType)
    ensures |ShowRaw(a)| >= 4
    ensures 'A' <= ShowRaw(a)[0] <= 'Z' && 'a' <= ShowRaw(a)[1] <= 'z'
    ensures ShowRaw(a)[0] == 'C' ==> ShowRaw(a)[1] == 'h'
  {
  }

  predicate AlnumAt(s: string, i: int) { 0 <= i < |s| ==> IsAlphaNum(s[i]) }

  lemma RawAlnum(a: RawTenType)
    ensures All(IsAlphaNum, ShowRaw(a))
  {
    RawLetters(a);
    var s := ShowRaw(a);
    forall i | 0 <= i < |s| ensures IsAlphaNum(s[i]) { assert AlnumAt(s, i); }
  }

  // The characters of s at positions 0 to 12 are letters or digits.
  predicate AlnumWord(s: string) {
    && |s| <= 13
    && AlnumAt(s, 0) && AlnumAt(s, 1) && AlnumAt(s, 2) && AlnumAt(s, 3) && AlnumAt(s, 4)
    && AlnumAt(s, 5) && AlnumAt(s, 6) && AlnumAt(s, 7) && AlnumAt(s, 8)
    && AlnumAt(s, 9) && AlnumAt(s, 10) && AlnumAt(s, 11) && AlnumAt(s, 12)
  }

  lemma RawLetters(a: RawTenType)
    ensures AlnumWord(ShowRaw(a))
  {
    hide ShowRaw, AlnumWord;
    if IsTensor(a) { TensorLetters(a); } else if IsStorage(a) { StorageLetters(a); } else { OtherLetters(a); }
  }

  lemma TensorLetters(a: RawTenType)
    requires IsTensor(a)
    ensures AlnumWord(ShowRaw(a))
  {
  }

  lemma StorageLetters(a: RawTenType)
    requires IsStorage(a)
    ensures AlnumWord(ShowRaw(a))
  {
  }

  lemma OtherLetters(a: RawTenType)
    requires !IsTensor(a) && !IsStorage(a)
    ensures AlnumWord(ShowRaw(a))
  {
  }

  function LibPart(t: TenType): string {
    if IsConcreteCudaPrefixed(t) then "THCuda" else ShowLib(t.lib)
  }

  predicate IsNumberLike(t: TenType) { t.raw.Real? || t.raw.AccReal? }

  // Two library parts that can begin the same spelling are equal.
  lemma LibPartsAgree(a: TenType, b: TenType)
    requires LibPart(a) + ShowRaw(a.raw) <= LibPart(b) + ShowRaw(b.raw)
    ensures LibPart(a) == LibPart(b)
  {
    RawShape(a.raw); RawShape(b.raw);
    var p, q := LibPart(a), LibPart(b);
    var s, t := p + ShowRaw(a.raw), q + ShowRaw(b.raw);
    assert s[0] == t[0] && s[1] == t[1] && s[2] == t[2] && s[3] == t[3];
    assert |s| > 4 ==> s[4] == t[4];
    assert |s| > 5 ==> s[5] == t[5];
    assert |s| > 6 ==> s[6] == t[6];
    assert |s| > 7 ==> s[7] == t[7];
  }

  lemma LibPartInjective(a: TenType, b: TenType)
    requires LibPart(a) == LibPart(b)
    ensures a.lib == b.lib
  {
    assert |LibPart(a)| == |LibPart(b)|;
    assert LibPart(a)[|LibPart(a)| - 1] == LibPart(b)[|LibPart(a)| - 1];
    assert LibPart(a)[0] == LibPart(b)[0];
    assert LibPart(a)[2..] == LibPart(b)[2..];
  }

  // The overlaps among all tensor type spellings: equal spellings mean equal canonical types, and
  // a proper prefix can only be Half before HalfTensor or HalfStorage.
  lemma TenPrefix(a: TenType, b: TenType)
    requires RenderTenType(a) <= RenderTenType(b)
    ensures CanonTen(a) == CanonTen(b) || (a.raw == Half && b.raw in {HalfTensor, HalfStorage})
  {
    var s, t := RenderTenType(a), RenderTenType(b);
    assert s[0] == t[0];
    if IsNumberLike(a) || IsNumberLike(b) {
      TenHead(a); TenHead(b);
    } else {
      LibPartsAgree(a, b);
      LibPartInjective(a, b);
      var p := LibPart(a);
      assert ShowRaw(a.raw) <= ShowRaw(b.raw) by {
        assert s[|p|..] == ShowRaw(a.raw) && t[|p|..] == ShowRaw(b.raw);
      }
      RawPrefix(a.raw, b.raw);
    }
  }

  // The first letter tells the library spellings from real and accreal.
  lemma TenHead(a: TenType)
    ensures |RenderTenType(a)| >= 4
    ensures RenderTenType(a)[0] == if a.raw.Real? then 'r' else if a.raw.AccReal? then 'a'
                                   else if a.lib.ATen? then 'A' else 'T'
  {
    RawShape(a.raw);
  }

  lemma CPrefix(a: CType, b: CType)
    requires RenderCType(a) <= RenderCType(b)
    ensures a == b || (a == CInt && b in {CInt64, CInt32, CInt16, CInt8})
  {
    var s, t := RenderCType(a), RenderCType(b);
    assert s[0] == t[0] && s[1] == t[1] && s[2] == t[2];
    assert |s| > 3 ==> s[3] == t[3];
    assert |s| > 4 ==> s[4] == t[4];
  }

  lemma CHead(c: CType)
    ensures 3 <= |RenderCType(c)| <= 9
    ensures RenderCType(c)[0] in {'b', 'v', 'p', 'f', 'd', 'l', 'u', 'i', 's', 'c'}
    ensures RenderCType(c)[0] == 'c' ==> RenderCType(c)[1] == 'h'
    ensures RenderCType(c)[0] == 'u' ==> RenderCType(c)[1] == 'i'
    ensures RenderCType(c)[0] == 's' ==> RenderCType(c)[1] in {'h', 'i'}
  {
  }

  predicate IdentAt(s: string, i: int) { 0 <= i < |s| ==> IsIdent(s[i]) }

  lemma CIdent(c: CType)
    ensures All(IsIdent, RenderCType(c))
  {
    var s := RenderCType(c);
    CHead(c);
    assert IdentAt(s, 0) && IdentAt(s, 1) && IdentAt(s, 2) && IdentAt(s, 3) && IdentAt(s, 4);
    assert IdentAt(s, 5) && IdentAt(s, 6) && IdentAt(s, 7) && IdentAt(s, 8);
    forall i | 0 <= i < |s| ensures IsIdent(s[i]) { assert IdentAt(s, i); }
  }

  lemma TenAlnum(a: TenType)
    ensures All(IsAlphaNum, RenderTenType(a))
  {
    RawAlnum(a.raw);
    var p := LibPart(a);
    assert |p| <= 6;
    assert AlnumAt(p, 0) && AlnumAt(p, 1) && AlnumAt(p, 2) && AlnumAt(p, 3) && AlnumAt(p, 4) && AlnumAt(p, 5);
    forall i | 0 <= i < |p| ensures IsAlphaNum(p[i]) { assert AlnumAt(p, i); }
  }

  // What every printed non-pointer type looks like: an identifier whose beginning is none of the
  // words that the parser recognises in front of a type.
  lemma BaseShape(b: Parsable)
    requires !b.Ptr?
    ensures |Render(b)| >= 3 && All(IsIdent, Render(b))
    ensures Render(b)[0] in {'r', 'a', 'A', 'T', 'b', 'v', 'p', 'f', 'd', 'l', 'u', 'i', 's', 'c'}
    ensures Render(b)[0] == 'c' ==> Render(b)[1] == 'h'
    ensures Render(b)[0] == 'u' ==> Render(b)[1] == 'i'
    ensures Render(b)[0] == 's' ==> Render(b)[1] in {'h', 'i'}
    ensures Render(b)[0] == 'v' ==> Render(b) == "void"
    ensures Render(b)[0] == 'T' ==> All(IsAlphaNum, Render(b))
  {
    match b {
      case TenType(t) =>
        TenHead(t); TenAlnum(t);
        assert Render(b) == RenderTenType(t);
      case CType(c) =>
        CHead(c); CIdent(c);
        assert Render(b) == RenderCType(c);
    }
  }

  // A run of identifier characters found at the start of w + k, with k starting otherwise, lies in w.
  lemma PrefixOfRun(v: string, w: string, k: string)
    requires All(IsIdent, v) && !Starts(IsIdent, k) && v <= w + k
    ensures v <= w
  {
    var u := w + k;
    assert forall i | 0 <= i < |v| :: v[i] == u[i] && IsIdent(v[i]);
    assert |v| <= |w| || IdentAt(u, |w|);
  }
}
