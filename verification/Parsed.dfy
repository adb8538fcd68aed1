// CodeGen.Types.Parsed and the parts of CodeGen.Types.CLI it uses.
module Parsed {
  import opened Options

  datatype LibType = ATen | THCUNN | THCS | THC | THNN | THS | TH

  // [minBound..maxBound :: LibType]
  const ALL_LIBS: seq<LibType> := [ATen, THCUNN, THCS, THC, THNN, THS, TH]

  // filter supported [minBound..maxBound]
  const SUPPORTED_LIBS: seq<LibType> := [THCUNN, THC, THNN, TH]

  function ShowLib(lt: LibType): string {
    match lt
    case ATen => "ATen"
    case THCUNN => "THCUNN"
    case THCS => "THCS"
    case THC => "THC"
    case THNN => "THNN"
    case THS => "THS"
    case TH => "TH"
  }

  datatype RawTenType =
    | Tensor | ByteTensor | CharTensor | ShortTensor | IntTensor | LongTensor
    | FloatTensor | DoubleTensor | HalfTensor
    | Storage | ByteStorage | CharStorage | ShortStorage | IntStorage | LongStorage
    | FloatStorage | DoubleStorage | HalfStorage
    | DescBuff | Generator | Allocator | File | Half | State
    | Real | AccReal
    | Stream

  // [minBound..maxBound :: RawTenType]
  const ALL_RAWS: seq<RawTenType> := [
    Tensor, ByteTensor, CharTensor, ShortTensor, IntTensor, LongTensor,
    FloatTensor, DoubleTensor, HalfTensor,
    Storage, ByteStorage, CharStorage, ShortStorage, IntStorage, LongStorage,
    FloatStorage, DoubleStorage, HalfStorage,
    DescBuff, Generator, Allocator, File, Half, State, Real, AccReal, Stream]

  function ShowRaw(t: RawTenType): string {
    match t
    case Tensor => "Tensor"
    case ByteTensor => "ByteTensor"
    case CharTensor => "CharTensor"
    case ShortTensor => "ShortTensor"
    case IntTensor => "IntTensor"
    case LongTensor => "LongTensor"
    case FloatTensor => "FloatTensor"
    case DoubleTensor => "DoubleTensor"
    case HalfTensor => "HalfTensor"
    case Storage => "Storage"
    case ByteStorage => "ByteStorage"
    case CharStorage => "CharStorage"
    case ShortStorage => "ShortStorage"
    case IntStorage => "IntStorage"
    case LongStorage => "LongStorage"
    case FloatStorage => "FloatStorage"
    case DoubleStorage => "DoubleStorage"
    case HalfStorage => "HalfStorage"
    case DescBuff => "DescBuff"
    case Generator => "Generator"
    case Allocator => "Allocator"
    case File => "File"
    case Half => "Half"
    case State => "State"
    case Real => "Real"
    case AccReal => "AccReal"
    case Stream => "Stream"
  }

  datatype TenType = Pair(raw: RawTenType, lib: LibType)

  predicate IsConcreteCudaPrefixed(t: TenType) {
    t.lib == THC && t.raw in {ByteTensor, CharTensor, ShortTensor, IntTensor, LongTensor,
                              FloatTensor, DoubleTensor, HalfTensor}
  }

  datatype CType =
    | CBool | CVoid | CPtrdiff | CFloat | CDouble | CLong
    | CUInt64 | CUInt32 | CUInt16 | CUInt8
    | CInt64 | CInt32 | CInt16 | CInt8
    | CInt
    | CSize | CChar | CShort

  // [minBound..maxBound :: CType]
  const ALL_CTYPES: seq<CType> := [
    CBool, CVoid, CPtrdiff, CFloat, CDouble, CLong,
    CUInt64, CUInt32, CUInt16, CUInt8, CInt64, CInt32, CInt16, CInt8,
    CInt, CSize, CChar, CShort]

  datatype Parsable = Ptr(target: Parsable) | TenType(ten: TenType) | CType(ctype: CType)

  datatype Arg = Arg(argType: Parsable, argName: string)

  datatype Function = Function(
    funPrefix: Option<(LibType, string)>,
    funName: string,
    funArgs: seq<Arg>,
    funReturn: Parsable)

  function Depth(t: Parsable): nat { if t.Ptr? then 1 + Depth(t.target) else 0 }

  function Innermost(t: Parsable): (b: Parsable)
    ensures !b.Ptr?
  {
    if t.Ptr? then Innermost(t.target) else t
  }

  // What parsing a printed type can give back: real and accreal have no library in their
  // spelling, and the first table entry with that spelling belongs to ATen.
  function Canon(t: Parsable): Parsable {
    match t
    case Ptr(x) => Ptr(Canon(x))
    case TenType(p) => TenType(CanonTen(p))
    case CType(_) => t
  }

  function CanonTen(t: TenType): TenType {
    if t.raw.Real? || t.raw.AccReal? then Pair(t.raw, ATen) else t
  }

  function CanonArg(a: Arg): Arg { Arg(Canon(a.argType), a.argName) }

  function CanonArgs(args: seq<Arg>): (r: seq<Arg>)
    ensures |r| == |args|
  {
    if args == [] then [] else [CanonArg(args[0])] + CanonArgs(args[1..])
  }

  function CanonFunction(f: Function): Function {
    Function(f.funPrefix, f.funName, CanonArgs(f.funArgs), Canon(f.funReturn))
  }
}

// CodeGen.Render.C, the printer of C types.
module RenderC {
  import opened Parsed

  function Render(t: Parsable): string {
    match t
    case Ptr(x) => Render(x) + " *"
    case TenType(x) => RenderTenType(x)
    case CType(x) => RenderCType(x)
  }

  function RenderTenType(t: TenType): string {
    match t.raw
    case Real => "real"
    case AccReal => "accreal"
    case _ => (if IsConcreteCudaPrefixed(t) then "THCuda" else ShowLib(t.lib)) + ShowRaw(t.raw)
  }

  function RenderCType(c: CType): string {
    match c
    case CUInt64 => "uint64_t"
    case CUInt32 => "uint32_t"
    case CUInt16 => "uint16_t"
    case CUInt8 => "uint8_t"
    case CInt64 => "int64_t"
    case CInt32 => "int32_t"
    case CInt16 => "int16_t"
    case CInt8 => "int8_t"
    case CInt => "int"
    case CSize => "size_t"
    case CLong => "long"
    case CChar => "char"
    case CShort => "short"
    case CFloat => "float"
    case CDouble => "double"
    case CPtrdiff => "ptrdiff_t"
    case CVoid => "void"
    case CBool => "bool"
  }
}
