// The tables of type names against what the names stand for.
module Representation {
  import opened Options
  import opened Parsed
  import C = RenderC
  import Hs = RenderHaskell

  datatype Rep = Signed(bits: nat) | Unsigned(bits: nat) | Floating(bits: nat) | Character | Truth | Nothing

  // The arithmetic types of C on the LP64 platforms that hasktorch supports, by their spelling.
  function OfC(s: string): Option<Rep> {
    if s == "uint64_t" || s == "size_t" then Some(Unsigned(64))
    else if s == "uint32_t" then Some(Unsigned(32))
    else if s == "uint16_t" then Some(Unsigned(16))
    else if s == "uint8_t" then Some(Unsigned(8))
    else if s == "int64_t" || s == "long" || s == "ptrdiff_t" then Some(Signed(64))
    else if s == "int32_t" || s == "int" then Some(Signed(32))
    else if s == "int16_t" || s == "short" then Some(Signed(16))
    else if s == "int8_t" then Some(Signed(8))
    else if s == "float" then Some(Floating(32))
    else if s == "double" then Some(Floating(64))
    else if s == "char" then Some(Character)
    else if s == "bool" then Some(Truth)
    else if s == "void" then Some(Nothing)
    else None
  }

  // The types of Foreign.C.Types, and the unit type.
  function OfHaskell(s: string): Option<Rep> {
    if s == "CULong" || s == "CSize" then Some(Unsigned(64))
    else if s == "CUInt" then Some(Unsigned(32))
    else if s == "CUShort" then Some(Unsigned(16))
    else if s == "CUChar" then Some(Unsigned(8))
    else if s == "CLLong" || s == "CLong" || s == "CPtrdiff" then Some(Signed(64))
    else if s == "CInt" then Some(Signed(32))
    else if s == "CShort" then Some(Signed(16))
    else if s == "CSChar" then Some(Signed(8))
    else if s == "CFloat" then Some(Floating(32))
    else if s == "CDouble" then Some(Floating(64))
    else if s == "CChar" then Some(Character)
    else if s == "CBool" then Some(Truth)
    else if s == "()" then Some(Nothing)
    else None
  }

  // Every C type is translated to a Haskell type of the same representation.
  lemma SameRepresentation(c: CType)
    ensures OfC(C.RenderCType(c)).Some? && OfHaskell(Hs.RenderCType(c)) == OfC(C.RenderCType(c))
  {
    hide C.RenderCType, Hs.RenderCType, OfC, OfHaskell;
    if Sized(c) { SameSized(c); } else { SameOther(c); }
  }

  predicate Sized(c: CType) {
    c in {CUInt64, CUInt32, CUInt16, CUInt8, CInt64, CInt32, CInt16, CInt8}
  }

  lemma SameSized(c: CType)
    requires Sized(c)
    ensures OfC(C.RenderCType(c)).Some? && OfHaskell(Hs.RenderCType(c)) == OfC(C.RenderCType(c))
  {
  }

  lemma SameOther(c: CType)
    requires !Sized(c)
    ensures OfC(C.RenderCType(c)).Some? && OfHaskell(Hs.RenderCType(c)) == OfC(C.RenderCType(c))
  {
  }

  // The concrete type of a template: THTensor for GenByte is THByteTensor.
  function Concrete(tt: Hs.TemplateType, raw: RawTenType): Option<RawTenType> {
    match (tt, raw)
    case (GenByte, Tensor) => Some(ByteTensor) case (GenByte, Storage) => Some(ByteStorage)
    case (GenChar, Tensor) => Some(CharTensor) case (GenChar, Storage) => Some(CharStorage)
    case (GenShort, Tensor) => Some(ShortTensor) case (GenShort, Storage) => Some(ShortStorage)
    case (GenInt, Tensor) => Some(IntTensor) case (GenInt, Storage) => Some(IntStorage)
    case (GenLong, Tensor) => Some(LongTensor) case (GenLong, Storage) => Some(LongStorage)
    case (GenFloat, Tensor) => Some(FloatTensor) case (GenFloat, Storage) => Some(FloatStorage)
    case (GenDouble, Tensor) => Some(DoubleTensor) case (GenDouble, Storage) => Some(DoubleStorage)
    case (GenHalf, Tensor) => Some(HalfTensor) case (GenHalf, Storage) => Some(HalfStorage)
    case _ => None
  }

  lemma TensorName(tt: Hs.TemplateType)
    requires tt != Hs.GenNothing
    ensures ShowRaw(Concrete(tt, Tensor).value) == Hs.Type2HsReal(tt) + "Tensor"
  {
    match tt {
      case GenByte => assert "ByteTensor" == "Byte" + "Tensor";
      case GenChar => assert "CharTensor" == "Char" + "Tensor";
      case GenShort => assert "ShortTensor" == "Short" + "Tensor";
      case GenInt => assert "IntTensor" == "Int" + "Tensor";
      case GenLong => assert "LongTensor" == "Long" + "Tensor";
      case GenFloat => assert "FloatTensor" == "Float" + "Tensor";
      case GenDouble => assert "DoubleTensor" == "Double" + "Tensor";
      case GenHalf => assert "HalfTensor" == "Half" + "Tensor";
    }
  }

  lemma StorageName(tt: Hs.TemplateType)
    requires tt != Hs.GenNothing
    ensures ShowRaw(Concrete(tt, Storage).value) == Hs.Type2HsReal(tt) + "Storage"
  {
    hide ShowRaw, Hs.Type2HsReal;
    if tt in {Hs.GenByte, Hs.GenChar, Hs.GenShort, Hs.GenHalf} { SmallStorageName(tt); } else { WideStorageName(tt); }
  }

  lemma SmallStorageName(tt: Hs.TemplateType)
    requires tt in {Hs.GenByte, Hs.GenChar, Hs.GenShort, Hs.GenHalf}
    ensures ShowRaw(Concrete(tt, Storage).value) == Hs.Type2HsReal(tt) + "Storage"
  {
    assert "ByteStorage" == "Byte" + "Storage";
    assert "CharStorage" == "Char" + "Storage";
    assert "ShortStorage" == "Short" + "Storage";
    assert "HalfStorage" == "Half" + "Storage";
  }

  lemma WideStorageName(tt: Hs.TemplateType)
    requires tt in {Hs.GenInt, Hs.GenLong, Hs.GenFloat, Hs.GenDouble}
    ensures ShowRaw(Concrete(tt, Storage).value) == Hs.Type2HsReal(tt) + "Storage"
  {
    assert "IntStorage" == "Int" + "Storage";
    assert "LongStorage" == "Long" + "Storage";
    assert "FloatStorage" == "Float" + "Storage";
    assert "DoubleStorage" == "Double" + "Storage";
  }

  // A templated tensor or storage is named after the C spelling of its concrete type, THCuda included.
  lemma TemplateName(tt: Hs.TemplateType, t: TenType)
    requires Concrete(tt, t.raw).Some?
    ensures Hs.RenderTenType(tt, t) == "C'" + C.RenderTenType(Pair(Concrete(tt, t.raw).value, t.lib))
  {
    hide ShowRaw, ShowLib, Hs.Type2HsReal;
    if t.raw == Tensor { TensorName(tt); } else { StorageName(tt); }
    var e, w := Hs.Type2HsReal(tt), if t.raw == Tensor then "Tensor" else "Storage";
    var p := if t.raw == Tensor then Hs.LibPrefix(t.lib, true) else ShowLib(t.lib);
    assert "C'" + p + e + w == "C'" + (p + (e + w));
  }

  // Every other type but real and accreal is named after its own C spelling.
  lemma ConcreteName(tt: Hs.TemplateType, t: TenType)
    requires t.raw !in {Tensor, Storage, Real, AccReal}
    ensures Hs.RenderTenType(tt, t) == "C'" + C.RenderTenType(t)
  {
  }

  // The C spelling of a type: the constructor behind the library, which is THCuda for the concrete tensors of THC.
  lemma Spelled(t: TenType)
    ensures t.raw !in {Real, AccReal} ==>
      C.RenderTenType(t) == (if IsCudaTensor(t) then "THCuda" else ShowLib(t.lib)) + ShowRaw(t.raw)
    ensures t.raw == Real ==> C.RenderTenType(t) == "real"
    ensures t.raw == AccReal ==> C.RenderTenType(t) == "accreal"
  {
    hide ShowLib, ShowRaw;
    assert Concrete(Hs.GenByte, Tensor) == Some(ByteTensor) && Concrete(Hs.GenChar, Tensor) == Some(CharTensor);
    assert Concrete(Hs.GenShort, Tensor) == Some(ShortTensor) && Concrete(Hs.GenInt, Tensor) == Some(IntTensor);
    assert Concrete(Hs.GenLong, Tensor) == Some(LongTensor) && Concrete(Hs.GenFloat, Tensor) == Some(FloatTensor);
    assert Concrete(Hs.GenDouble, Tensor) == Some(DoubleTensor) && Concrete(Hs.GenHalf, Tensor) == Some(HalfTensor);
  }

  predicate IsCudaTensor(t: TenType) {
    t.lib == THC && exists tt :: Concrete(tt, Tensor) == Some(t.raw)
  }

  // The names that are derived from the constructors.
  lemma LibNames()
    ensures ShowLib(ATen) == "ATen" && ShowLib(THCUNN) == "THCUNN" && ShowLib(THCS) == "THCS" && ShowLib(THC) == "THC"
    ensures ShowLib(THNN) == "THNN" && ShowLib(THS) == "THS" && ShowLib(TH) == "TH"
  {
  }

  lemma TensorNames()
    ensures ShowRaw(Tensor) == "Tensor" && ShowRaw(ByteTensor) == "ByteTensor"
    ensures ShowRaw(CharTensor) == "CharTensor" && ShowRaw(ShortTensor) == "ShortTensor"
    ensures ShowRaw(IntTensor) == "IntTensor" && ShowRaw(LongTensor) == "LongTensor"
    ensures ShowRaw(FloatTensor) == "FloatTensor" && ShowRaw(DoubleTensor) == "DoubleTensor"
    ensures ShowRaw(HalfTensor) == "HalfTensor"
  {
  }

  lemma StorageNames()
    ensures ShowRaw(Storage) == "Storage" && ShowRaw(ByteStorage) == "ByteStorage"
    ensures ShowRaw(CharStorage) == "CharStorage" && ShowRaw(ShortStorage) == "ShortStorage"
    ensures ShowRaw(IntStorage) == "IntStorage" && ShowRaw(LongStorage) == "LongStorage"
    ensures ShowRaw(FloatStorage) == "FloatStorage" && ShowRaw(DoubleStorage) == "DoubleStorage"
    ensures ShowRaw(HalfStorage) == "HalfStorage"
  {
  }

  lemma ObjectNames()
    ensures ShowRaw(DescBuff) == "DescBuff" && ShowRaw(Generator) == "Generator"
    ensures ShowRaw(Allocator) == "Allocator" && ShowRaw(File) == "File"
  {
  }

  lemma OtherNames()
    ensures ShowRaw(Half) == "Half" && ShowRaw(State) == "State" && ShowRaw(Stream) == "Stream"
    ensures ShowRaw(Real) == "Real" && ShowRaw(AccReal) == "AccReal"
  {
  }
}
