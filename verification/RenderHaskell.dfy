// CodeGen.Render.Haskell, with the tables of CodeGen.Parse.Cases: the translation of C types.
module RenderHaskell {
  import opened Options
  import opened Parsed
  import opened Spelling
  import C = RenderC

  datatype TemplateType =
    GenByte | GenChar | GenDouble | GenFloat | GenHalf | GenInt | GenLong | GenShort | GenNothing

  datatype TypeCategory = ReturnValue | FunctionParam

  // stripModule: the part of a qualified name behind its last dot.
  function StripModule(s: string): string {
    if s == "" || s[|s| - 1] == '.' then "" else StripModule(s[..|s| - 1]) + [s[|s| - 1]]
  }

  // The module-qualified representation of a type of library lt.
  function RepPrefix(lt: LibType, t: string): string {
    "Torch.Types." + ShowLib(lt) + ".C" + ShowLib(lt) + t
  }

  datatype Aliases = Aliases(tensor: string, real_: string, accreal: string, storage: string)

  function MkTuple(lt: LibType, t: string, r: string, ac: string): Aliases {
    Aliases(RepPrefix(lt, t + "Tensor"), r, ac, RepPrefix(lt, t + "Storage"))
  }

  function SignatureAliases(lt: LibType, tt: TemplateType): Option<Aliases> {
    match tt
    case GenByte => Some(MkTuple(lt, "Byte", "Foreign.C.Types." + "CUChar", "Foreign.C.Types." + "CLong"))
    case GenChar => Some(MkTuple(lt, "Char", "Foreign.C.Types." + "CChar", "Foreign.C.Types." + "CLong"))
    case GenDouble => Some(MkTuple(lt, "Double", "Foreign.C.Types." + "CDouble", "Foreign.C.Types." + "CDouble"))
    case GenFloat => Some(MkTuple(lt, "Float", "Foreign.C.Types." + "CFloat", "Foreign.C.Types." + "CDouble"))
    case GenHalf => Some(MkTuple(lt, "Half", RepPrefix(TH, "Half"), "Foreign.C.Types." + "CFloat"))
    case GenInt => Some(MkTuple(lt, "Int", "Foreign.C.Types." + "CInt", "Foreign.C.Types." + "CLong"))
    case GenLong => Some(MkTuple(lt, "Long", "Foreign.C.Types." + "CLong", "Foreign.C.Types." + "CLong"))
    case GenShort => Some(MkTuple(lt, "Short", "Foreign.C.Types." + "CShort", "Foreign.C.Types." + "CLong"))
    case GenNothing => None
  }

  function Type2Real(lt: LibType, tt: TemplateType): string {
    match SignatureAliases(lt, tt)
    case Some(a) => StripModule(a.real_)
    case None => ""
  }

  function Type2AccReal(lt: LibType, tt: TemplateType): string {
    match SignatureAliases(lt, tt)
    case Some(a) => StripModule(a.accreal)
    case None => ""
  }

  function Type2HsReal(tt: TemplateType): string {
    match tt
    case GenByte => "Byte"
    case GenChar => "Char"
    case GenDouble => "Double"
    case GenFloat => "Float"
    case GenHalf => "Half"
    case GenInt => "Int"
    case GenLong => "Long"
    case GenShort => "Short"
    case GenNothing => ""
  }

  // CLI.prefix
  function LibPrefix(lt: LibType, long: bool): string {
    if lt == THC && long then "THCuda" else ShowLib(lt)
  }

  function RenderTenType(tt: TemplateType, t: TenType): string {
    match t.raw
    case Tensor => "C'" + LibPrefix(t.lib, true) + Type2HsReal(tt) + "Tensor"
    case Storage => "C'" + ShowLib(t.lib) + Type2HsReal(tt) + "Storage"
    case Real => Type2Real(t.lib, tt)
    case AccReal => Type2AccReal(t.lib, tt)
    case _ => "C'" + LibPrefix(t.lib, IsConcreteCudaPrefixed(t)) + ShowRaw(t.raw)
  }

  function RenderCType(c: CType): string {
    match c
    case CVoid => "()"
    case CUInt64 => "CULong"
    case CUInt32 => "CUInt"
    case CUInt16 => "CUShort"
    case CUInt8 => "CUChar"
    case CInt64 => "CLLong"
    case CInt32 => "CInt"
    case CInt16 => "CShort"
    case CInt8 => "CSChar"
    case CBool => "CBool"
    case CPtrdiff => "CPtrdiff"
    case CFloat => "CFloat"
    case CDouble => "CDouble"
    case CLong => "CLong"
    case CInt => "CInt"
    case CSize => "CSize"
    case CChar => "CChar"
    case CShort => "CShort"
  }

  function RenderParsable(tt: TemplateType, t: Parsable): string {
    match t
    case TenType(x) => if x.raw.DescBuff? then "Ptr " + RenderTenType(tt, x) else RenderTenType(tt, x)
    case Ptr(Ptr(x)) => "Ptr (Ptr " + RenderParsable(tt, x) + ")"
    case Ptr(x) => "Ptr " + RenderParsable(tt, x)
    case CType(x) => RenderCType(x)
  }

  function Take3(s: string): string { if |s| <= 3 then s else s[..3] }

  function TypeCatHelper(tc: TypeCategory, s: string): Option<string> {
    match tc
    case FunctionParam => Some(s)
    case ReturnValue =>
      if Take3(s) == "()" then Some("IO ()")
      else if Take3(s) == "Ptr" then Some("IO (" + s + ")")
      else Some("IO " + s)
  }

  function Render(tc: TypeCategory, tt: TemplateType, t: Parsable): Option<string> {
    TypeCatHelper(tc, RenderParsable(tt, t))
  }

  // ---- translation commutes with printing and parsing ----

  // real and accreal translate alike for every library.
  lemma RealIsLibraryFree(a: LibType, b: LibType, tt: TemplateType)
    ensures Type2Real(a, tt) == Type2Real(b, tt) && Type2AccReal(a, tt) == Type2AccReal(b, tt)
  {
    SameNumbers(a, b, tt);
  }

  lemma SameNumbers(a: LibType, b: LibType, tt: TemplateType)
    ensures SignatureAliases(a, tt).None? <==> SignatureAliases(b, tt).None?
    ensures tt != GenNothing ==>
      SignatureAliases(a, tt).Some? && SignatureAliases(b, tt).Some?
      && SignatureAliases(a, tt).value.real_ == SignatureAliases(b, tt).value.real_
      && SignatureAliases(a, tt).value.accreal == SignatureAliases(b, tt).value.accreal
  {
    hide RepPrefix, ShowLib, SignatureAliases;
    if tt in {GenByte, GenChar, GenHalf, GenInt} { SameSmall(a, b, tt); } else { SameLarge(a, b, tt); }
  }

  lemma SameSmall(a: LibType, b: LibType, tt: TemplateType)
    requires tt in {GenByte, GenChar, GenHalf, GenInt}
    ensures SignatureAliases(a, tt).Some? && SignatureAliases(b, tt).Some?
    ensures SignatureAliases(a, tt).value.real_ == SignatureAliases(b, tt).value.real_
    ensures SignatureAliases(a, tt).value.accreal == SignatureAliases(b, tt).value.accreal
  {
    hide RepPrefix, ShowLib;
  }

  lemma SameLarge(a: LibType, b: LibType, tt: TemplateType)
    requires tt !in {GenByte, GenChar, GenHalf, GenInt}
    ensures SignatureAliases(a, tt).None? <==> SignatureAliases(b, tt).None?
    ensures tt != GenNothing ==>
      SignatureAliases(a, tt).Some? && SignatureAliases(b, tt).Some?
      && SignatureAliases(a, tt).value.real_ == SignatureAliases(b, tt).value.real_
      && SignatureAliases(a, tt).value.accreal == SignatureAliases(b, tt).value.accreal
  {
    hide RepPrefix, ShowLib;
  }

  lemma {:induction false} CanonRenders(tt: TemplateType, t: Parsable)
    ensures RenderParsable(tt, Canon(t)) == RenderParsable(tt, t)
  {
    hide Type2Real, Type2AccReal, Type2HsReal, LibPrefix, ShowLib, ShowRaw, IsConcreteCudaPrefixed;
    match t {
      case TenType(x) => RealIsLibraryFree(x.lib, ATen, tt);
      case CType(_) =>
      case Ptr(Ptr(x)) => CanonRenders(tt, x);
      case Ptr(x) => CanonRenders(tt, x);
    }
  }

  // Two types with the same C spelling are the same up to the library of real and accreal.
  lemma {:induction false} SameSpelling(a: Parsable, b: Parsable)
    requires C.Render(a) == C.Render(b)
    ensures Canon(a) == Canon(b)
  {
    var s, t := C.Render(a), C.Render(b);
    match (a, b) {
      case (Ptr(x), Ptr(y)) =>
        assert s[..|s| - 2] == C.Render(x) && t[..|t| - 2] == C.Render(y);
        SameSpelling(x, y);
      case (Ptr(x), _) => StarEnd(b, x);
      case (_, Ptr(y)) => StarEnd(a, y);
      case (TenType(x), TenType(y)) => TenPrefix(x, y); TenPrefix(y, x);
      case (CType(x), CType(y)) => CPrefix(x, y); CPrefix(y, x);
      case (TenType(x), CType(y)) => TenHead(x); CHead(y);
      case (CType(x), TenType(y)) => TenHead(y); CHead(x);
    }
  }

  lemma StarEnd(b: Parsable, x: Parsable)
    requires !b.Ptr?
    ensures C.Render(b) != C.Render(Ptr(x))
  {
    BaseShape(b);
    var s := C.Render(Ptr(x));
    assert s[|s| - 1] == '*';
    assert IdentAt(C.Render(b), |C.Render(b)| - 1);
  }

  // The Haskell rendering is a function of the C spelling alone.
  lemma SpellingDecidesTranslation(a: Parsable, b: Parsable, tc: TypeCategory, tt: TemplateType)
    requires C.Render(a) == C.Render(b)
    ensures Render(tc, tt, a) == Render(tc, tt, b)
  {
    SameSpelling(a, b);
    CanonRenders(tt, a);
    CanonRenders(tt, b);
  }
}

// Translation after a print and parse round trip.
module TranslationCommutes {
  import opened Chars
  import opened Parsed
  import opened Parse
  import opened ParseTypes
  import C = RenderC
  import Hs = RenderHaskell

  // Parsing the C spelling of a type and translating the result is translating the type itself,
  // although parsing forgets the library of real and accreal.
  lemma ParseThenTranslate(t: Parsable, k: string, tc: Hs.TypeCategory, tt: Hs.TemplateType)
    requires Depth(t) <= 2 && !Starts(IsIdent, k) && (Depth(t) < 2 ==> NoStar(k))
    ensures var r := ParsableTypes(C.Render(t) + k);
      r.Ok? && r.rest == k && Hs.Render(tc, tt, r.val) == Hs.Render(tc, tt, t)
  {
    TypeRoundTrip(t, k);
    Hs.CanonRenders(tt, t);
  }
}
