// CodeGen.Render.Function: Haskell signatures of the translated declarations.
module RenderFunction {
  import opened Options
  import opened Chars
  import opened Parsed
  import opened Spelling
  import Hs = RenderHaskell

  datatype SigType = IsFun | IsFunPtr

  function Intercalate(sep: string, xs: seq<string>): string {
    if xs == [] then ""
    else if |xs| == 1 then xs[0]
    else xs[0] + sep + Intercalate(sep, xs[1..])
  }

  // mapMaybe (Hs.render FunctionParam tt . argType)
  function RenderArgs(tt: Hs.TemplateType, args: seq<Arg>): seq<string> {
    if args == [] then []
    else match Hs.Render(Hs.FunctionParam, tt, args[0].argType)
      case Some(s) => [s] + RenderArgs(tt, args[1..])
      case None => RenderArgs(tt, args[1..])
  }

  predicate SoleVoid(args: seq<Arg>) { |args| == 1 && args[0].argType == CType(CVoid) }

  function TypeSignature(tt: Hs.TemplateType, args: seq<Arg>): seq<string> {
    if SoleVoid(args) then [] else RenderArgs(tt, args)
  }

  function RetArrow(tt: Hs.TemplateType, args: seq<Arg>, ret: Parsable): string {
    match Hs.Render(Hs.ReturnValue, tt, ret)
    case None => ""
    case Some(r) => if TypeSignature(tt, args) == [] then r else " -> " + r
  }

  // The type part of a signature, between the name and the end.
  function SigBody(tt: Hs.TemplateType, args: seq<Arg>, ret: Parsable): string {
    Intercalate(" -> ", TypeSignature(tt, args)) + RetArrow(tt, args, ret)
  }

  function HaskellSig(hsname: string, st: SigType, tt: Hs.TemplateType, args: seq<Arg>, ret: Parsable): string {
    hsname + " :: " + (if st.IsFunPtr? then "FunPtr (" else "") + SigBody(tt, args, ret)
    + (if st.IsFunPtr? then ")" else "")
  }

  const STATE_PTR: Arg := Arg(Ptr(TenType(Pair(State, TH))), "state")

  // The arguments of the TH alias, which takes an unused state pointer first.
  function ThArgs(args: seq<Arg>): seq<Arg> {
    if SoleVoid(args) then [STATE_PTR] else [STATE_PTR] + args
  }

  // ---- the Haskell types that the texts denote ----

  datatype HsType = Con(name: string) | PtrTo(target: HsType)

  // A type as Haskell writes it: the argument of Ptr is bracketed unless it is a constructor.
  function Show(t: HsType): string {
    match t
    case Con(n) => n
    case PtrTo(x) => "Ptr " + Atom(x)
  }

  function Atom(t: HsType): string {
    match t
    case Con(n) => n
    case PtrTo(x) => "(" + ("Ptr " + Atom(x)) + ")"
  }

  function HsDepth(t: HsType): nat { if t.PtrTo? then 1 + HsDepth(t.target) else 0 }

  function HsName(t: HsType): string { if t.PtrTo? then HsName(t.target) else t.name }

  // The Haskell type of a C type: pointers become Ptr, and a raw DescBuff is passed by pointer.
  function Translate(tt: Hs.TemplateType, t: Parsable): HsType {
    match t
    case Ptr(x) => PtrTo(Translate(tt, x))
    case TenType(x) => if x.raw.DescBuff? then PtrTo(Con(Hs.RenderTenType(tt, x))) else Con(Hs.RenderTenType(tt, x))
    case CType(c) => Con(Hs.RenderCType(c))
  }

  predicate IsDescBuff(t: Parsable) { t.TenType? && t.ten.raw.DescBuff? }

  lemma {:induction false} TranslateDepth(tt: Hs.TemplateType, t: Parsable)
    ensures HsDepth(Translate(tt, t)) == Depth(t) + (if IsDescBuff(Innermost(t)) then 1 else 0)
  {
    if t.Ptr? { TranslateDepth(tt, t.target); }
  }

  lemma {:induction false} ShowLength(t: HsType)
    ensures |Atom(t)| == |HsName(t)| + 6 * HsDepth(t)
    ensures |Show(t)| == |HsName(t)| + 6 * HsDepth(t) - (if t.PtrTo? then 2 else 0)
  {
    if t.PtrTo? { ShowLength(t.target); }
  }

  lemma {:induction false} RenderLength(tt: Hs.TemplateType, t: Parsable)
    ensures |Hs.RenderParsable(tt, t)|
      == |HsName(Translate(tt, t))| + 4 * HsDepth(Translate(tt, t)) + 2 * (Depth(t) / 2)
    decreases t
  {
    hide Hs.RenderParsable, Translate;
    if !t.Ptr? {
      LeafRenders(tt, t);
    } else if !t.target.Ptr? {
      LeafRenders(tt, t.target);
      OnePointer(tt, t.target);
    } else {
      RenderLength(tt, t.target.target);
      TwoPointers(tt, t.target.target);
    }
  }

  lemma LeafRenders(tt: Hs.TemplateType, t: Parsable)
    requires !t.Ptr?
    ensures Hs.RenderParsable(tt, t) == Show(Translate(tt, t))
    ensures |Hs.RenderParsable(tt, t)| == |HsName(Translate(tt, t))| + 4 * HsDepth(Translate(tt, t))
  {
  }

  lemma OnePointer(tt: Hs.TemplateType, x: Parsable)
    requires !x.Ptr?
    ensures Hs.RenderParsable(tt, Ptr(x)) == "Ptr " + Hs.RenderParsable(tt, x)
    ensures Translate(tt, Ptr(x)) == PtrTo(Translate(tt, x))
  {
  }

  lemma TwoPointers(tt: Hs.TemplateType, x: Parsable)
    ensures Hs.RenderParsable(tt, Ptr(Ptr(x))) == "Ptr (Ptr " + Hs.RenderParsable(tt, x) + ")"
    ensures Translate(tt, Ptr(Ptr(x))) == PtrTo(PtrTo(Translate(tt, x)))
  {
  }

  // The types whose rendering is well bracketed.
  predicate Bracketed(t: Parsable) { if IsDescBuff(Innermost(t)) then Depth(t) == 0 else Depth(t) <= 2 }

  // A rendered type is the text of its translation, of the same pointer depth, for exactly the types
  // of depth at most two that are not pointers to a DescBuff.
  lemma RendersTranslation(tt: Hs.TemplateType, t: Parsable)
    ensures Hs.RenderParsable(tt, t) == Show(Translate(tt, t)) <==> Bracketed(t)
  {
    TranslateDepth(tt, t);
    ShowLength(Translate(tt, t));
    RenderLength(tt, t);
    if Bracketed(t) { BracketedRenders(tt, t); }
  }

  lemma ShowTwo(t: HsType)
    requires t.Con?
    ensures Show(PtrTo(PtrTo(t))) == "Ptr (Ptr " + Show(t) + ")"
  {
    assert Atom(PtrTo(t)) == "(" + ("Ptr " + t.name) + ")";
    assert "Ptr " + ("(" + ("Ptr " + t.name) + ")") == "Ptr (Ptr " + t.name + ")";
  }

  lemma BracketedRenders(tt: Hs.TemplateType, t: Parsable)
    requires Bracketed(t)
    ensures Hs.RenderParsable(tt, t) == Show(Translate(tt, t))
  {
    LeafRenders(tt, Innermost(t));
    if t.Ptr? && !t.target.Ptr? {
      OnePointer(tt, t.target);
    } else if t.Ptr? {
      var x := t.target.target;
      assert Depth(t) == 2 + Depth(x);
      assert !x.Ptr? && Innermost(t.target) == x;
      TwoPointers(tt, x);
      ShowTwo(Translate(tt, x));
    }
  }

  // ---- the components of a signature ----

  // A text cut at its arrows.
  function SplitArrows(s: string): (r: seq<string>)
    ensures r != []
  {
    if |s| < 4 then [s]
    else if s[..4] == " -> " then [""] + SplitArrows(s[4..])
    else
      var r := SplitArrows(s[1..]);
      [[s[0]] + r[0]] + r[1..]
  }

  predicate NotDash(c: char) { c != '-' }

  lemma {:induction false} SplitOne(c: string)
    requires All(NotDash, c)
    ensures SplitArrows(c) == [c]
  {
    if |c| >= 4 {
      NoArrowAt(c);
      SplitOne(c[1..]);
      assert [c[0]] + c[1..] == c;
    }
  }

  lemma NoArrowAt(s: string)
    requires |s| >= 4 && s[1] != '-'
    ensures s[..4] != " -> "
  {
    assert s[..4][1] == s[1];
  }

  lemma {:induction false} SplitFirst(c: string, k: string)
    requires All(NotDash, c)
    ensures SplitArrows(c + (" -> " + k)) == [c] + SplitArrows(k)
  {
    var s := c + (" -> " + k);
    if c == "" {
      assert s[..4] == " -> " && s[4..] == k;
    } else {
      assert s[1] == (if |c| == 1 then ' ' else c[1]);
      NoArrowAt(s);
      assert s[1..] == c[1..] + (" -> " + k);
      SplitFirst(c[1..], k);
      assert [c[0]] + c[1..] == c;
    }
  }

  // Joining with arrows and cutting at arrows are inverse on components that contain none.
  lemma {:induction false} SplitJoined(cs: seq<string>)
    requires cs != [] && forall c | c in cs :: All(NotDash, c)
    ensures SplitArrows(Intercalate(" -> ", cs)) == cs
  {
    if |cs| == 1 {
      SplitOne(cs[0]);
    } else {
      var k := Intercalate(" -> ", cs[1..]);
      assert cs[0] + " -> " + k == cs[0] + (" -> " + k);
      SplitFirst(cs[0], k);
      SplitJoined(cs[1..]);
    }
  }

  lemma {:induction false} IntercalateLast(cs: seq<string>, r: string)
    ensures Intercalate(" -> ", cs) + (if cs == [] then r else " -> " + r) == Intercalate(" -> ", cs + [r])
  {
    if cs == [] {
      assert cs + [r] == [r];
    } else if |cs| == 1 {
      assert (cs + [r])[1..] == [r];
    } else {
      IntercalateLast(cs[1..], r);
      assert (cs + [r])[1..] == cs[1..] + [r];
      var k := Intercalate(" -> ", cs[1..]);
      assert cs[0] + " -> " + k + (" -> " + r) == cs[0] + " -> " + (k + (" -> " + r));
    }
  }

  // ---- no rendered type contains an arrow ----

  predicate PlainAt(s: string, i: int) { 0 <= i < |s| ==> s[i] != '-' }

  lemma ShortPlain(s: string)
    requires |s| <= 8 && PlainAt(s, 0) && PlainAt(s, 1) && PlainAt(s, 2) && PlainAt(s, 3)
    requires PlainAt(s, 4) && PlainAt(s, 5) && PlainAt(s, 6) && PlainAt(s, 7)
    ensures All(NotDash, s)
  {
    forall i | 0 <= i < |s| ensures NotDash(s[i]) { assert PlainAt(s, i); }
  }

  lemma AlnumPlain(s: string)
    requires All(IsAlphaNum, s)
    ensures All(NotDash, s)
  {
    forall i | 0 <= i < |s| ensures NotDash(s[i]) { assert AlnumAt(s, i); }
  }

  // ---- names of types ----

  lemma {:induction false} StripDot(p: string, w: string)
    requires p != "" && p[|p| - 1] == '.' && '.' !in w
    ensures Hs.StripModule(p + w) == w
  {
    var s := p + w;
    if w == "" {
      assert s == p;
    } else {
      var n := |w| - 1;
      assert s[..|s| - 1] == p + w[..n];
      StripDot(p, w[..n]);
      assert w[..n] + [w[n]] == w;
    }
  }

  // The stripped names of real and accreal.
  function RealName(tt: Hs.TemplateType): string {
    match tt
    case GenByte => "CUChar" case GenChar => "CChar" case GenDouble => "CDouble" case GenFloat => "CFloat"
    case GenHalf => "CTHHalf" case GenInt => "CInt" case GenLong => "CLong" case GenShort => "CShort"
    case GenNothing => ""
  }

  function AccRealName(tt: Hs.TemplateType): string {
    match tt
    case GenDouble => "CDouble" case GenFloat => "CDouble" case GenHalf => "CFloat"
    case GenNothing => ""
    case _ => "CLong"
  }

  lemma RealNames(lt: LibType, tt: Hs.TemplateType)
    ensures Hs.Type2Real(lt, tt) == RealName(tt) && Hs.Type2AccReal(lt, tt) == AccRealName(tt)
  {
    NumberReps(lt, tt);
    HalfRep();
    NamesHaveNoDot(tt);
    StripKnown(RealName(tt));
    StripKnown(AccRealName(tt));
  }

  // The stripped names of a tensor and its storage.
  lemma AliasNames(lt: LibType, tt: Hs.TemplateType)
    requires tt != Hs.GenNothing
    ensures var a := Hs.SignatureAliases(lt, tt);
      && a.Some?
      && Hs.StripModule(a.value.tensor) == "C" + ShowLib(lt) + Hs.Type2HsReal(tt) + "Tensor"
      && Hs.StripModule(a.value.storage) == "C" + ShowLib(lt) + Hs.Type2HsReal(tt) + "Storage"
  {
    hide ShowLib, Hs.RepPrefix;
    var e := Hs.Type2HsReal(tt);
    LibHasNoDot(lt, tt);
    RepName(lt, e, "Tensor");
    RepName(lt, e, "Storage");
  }

  lemma LibHasNoDot(lt: LibType, tt: Hs.TemplateType)
    ensures '.' !in ShowLib(lt) && '.' !in Hs.Type2HsReal(tt)
  {
  }

  lemma RepName(lt: LibType, e: string, w: string)
    requires '.' !in ShowLib(lt) && '.' !in e && '.' !in w
    ensures Hs.StripModule(Hs.RepPrefix(lt, e + w)) == "C" + ShowLib(lt) + e + w
  {
    hide ShowLib;
    var l, n := ShowLib(lt), "C" + ShowLib(lt) + e + w;
    assert "Torch.Types." + l + ".C" + l + (e + w) == ("Torch.Types." + l + ".") + n;
    StripDot("Torch.Types." + l + ".", n);
  }

  lemma NamesHaveNoDot(tt: Hs.TemplateType)
    ensures '.' !in RealName(tt) && '.' !in AccRealName(tt)
  {
  }

  lemma StripKnown(w: string)
    requires '.' !in w
    ensures Hs.StripModule("Foreign.C.Types." + w) == w && Hs.StripModule("Torch.Types.TH." + w) == w
  {
    StripDot("Foreign.C.Types.", w);
    StripDot("Torch.Types.TH.", w);
  }

  lemma HalfRep()
    ensures Hs.RepPrefix(TH, "Half") == "Torch.Types.TH." + "CTHHalf"
  {
  }

  lemma NumberReps(lt: LibType, tt: Hs.TemplateType)
    ensures tt != Hs.GenNothing ==>
      Hs.SignatureAliases(lt, tt).Some?
      && Hs.SignatureAliases(lt, tt).value.accreal == "Foreign.C.Types." + AccRealName(tt)
      && Hs.SignatureAliases(lt, tt).value.real_
         == (if tt == Hs.GenHalf then Hs.RepPrefix(TH, "Half") else "Foreign.C.Types." + RealName(tt))
  {
  }

  // The name of a translated base type: a constructor, the unit type, or nothing for real and
  // accreal without a template type; never anything that reads as a pointer or contains a dash.
  predicate GoodName(n: string) { All(NotDash, n) && (n != "" ==> n[0] in {'C', '('}) }

  lemma CNameGood(c: CType)
    ensures GoodName(Hs.RenderCType(c)) && Hs.RenderCType(c) != ""
  {
    ShortPlain(Hs.RenderCType(c));
  }

  lemma NumberNameGood(tt: Hs.TemplateType)
    ensures GoodName(RealName(tt)) && GoodName(AccRealName(tt))
  {
    ShortPlain(RealName(tt));
    ShortPlain(AccRealName(tt));
  }

  lemma PartsPlain(tt: Hs.TemplateType, lt: LibType, long: bool)
    ensures All(NotDash, Hs.LibPrefix(lt, long)) && All(NotDash, ShowLib(lt)) && All(NotDash, Hs.Type2HsReal(tt))
  {
    ShortPlain(Hs.LibPrefix(lt, long));
    ShortPlain(ShowLib(lt));
    ShortPlain(Hs.Type2HsReal(tt));
  }

  lemma TenNameGood(tt: Hs.TemplateType, t: TenType)
    ensures GoodName(Hs.RenderTenType(tt, t))
    ensures Hs.RenderTenType(tt, t) == "" <==> IsNumberLike(t) && tt == Hs.GenNothing
  {
    hide Hs.LibPrefix, Hs.Type2HsReal, ShowLib, ShowRaw, Hs.Type2Real, Hs.Type2AccReal, IsConcreteCudaPrefixed;
    if IsNumberLike(t) {
      RealNames(t.lib, tt);
      NumberNameGood(tt);
    } else {
      PartsPlain(tt, t.lib, IsConcreteCudaPrefixed(t));
      PartsPlain(tt, t.lib, true);
      RawAlnum(t.raw);
      AlnumPlain(ShowRaw(t.raw));
      ShortPlain("Tensor");
      ShortPlain("Storage");
      if t.raw.Tensor? {
        PiecesGood(Hs.LibPrefix(t.lib, true), Hs.Type2HsReal(tt), "Tensor");
      } else if t.raw.Storage? {
        PiecesGood(ShowLib(t.lib), Hs.Type2HsReal(tt), "Storage");
      } else {
        PiecesGood(Hs.LibPrefix(t.lib, IsConcreteCudaPrefixed(t)), "", ShowRaw(t.raw));
      }
    }
  }

  lemma PiecesGood(a: string, b: string, c: string)
    requires All(NotDash, a) && All(NotDash, b) && All(NotDash, c)
    ensures GoodName("C'" + a + b + c) && "C'" + a + b + c != ""
    ensures b == "" ==> "C'" + a + b + c == "C'" + a + c
  {
    ShortPlain("C'");
    assert a + "" == a;
    assert "C'" + a + "" == "C'" + a;
  }

  lemma NameGood(tt: Hs.TemplateType, t: Parsable)
    requires !t.Ptr?
    ensures GoodName(HsName(Translate(tt, t)))
  {
    match t {
      case TenType(x) => TenNameGood(tt, x);
      case CType(c) => CNameGood(c);
    }
  }

  lemma {:induction false} NameOfTarget(tt: Hs.TemplateType, t: Parsable)
    ensures HsName(Translate(tt, t)) == HsName(Translate(tt, Innermost(t)))
  {
    if t.Ptr? { NameOfTarget(tt, t.target); }
  }

  lemma {:induction false} ShowPlain(t: HsType)
    requires All(NotDash, HsName(t))
    ensures All(NotDash, Show(t)) && All(NotDash, Atom(t))
  {
    if t.PtrTo? { ShowPlain(t.target); }
  }

  lemma TranslatedPlain(tt: Hs.TemplateType, t: Parsable)
    ensures var h := Translate(tt, t); All(NotDash, Show(h)) && All(NotDash, Atom(h))
  {
    NameGood(tt, Innermost(t));
    NameOfTarget(tt, t);
    ShowPlain(Translate(tt, t));
  }

  // A result type is its translation under IO, bracketed when it is a pointer.
  lemma RendersResult(tt: Hs.TemplateType, t: Parsable)
    requires Bracketed(t)
    ensures Hs.Render(Hs.ReturnValue, tt, t) == Some("IO " + Atom(Translate(tt, t)))
  {
    BracketedRenders(tt, t);
    var h := Translate(tt, t);
    if h.PtrTo? {
      PtrResult(Atom(h.target));
      assert Show(h) == "Ptr " + Atom(h.target) && Atom(h) == "(" + ("Ptr " + Atom(h.target)) + ")";
    } else {
      NameGood(tt, t);
      assert Show(h) == h.name && Atom(h) == h.name;
      ConResult(h.name);
    }
  }

  lemma PtrResult(a: string)
    ensures Hs.TypeCatHelper(Hs.ReturnValue, "Ptr " + a) == Some("IO " + ("(" + ("Ptr " + a) + ")"))
  {
    var s := "Ptr " + a;
    assert s[..3] == "Ptr";
    assert "Ptr"[0] == 'P' && "()"[0] == '(';
    assert "IO (" + s + ")" == "IO " + ("(" + s + ")");
  }

  lemma ConResult(n: string)
    requires GoodName(n)
    ensures Hs.TypeCatHelper(Hs.ReturnValue, n) == Some("IO " + n)
  {
    assert Hs.Take3(n) == "()" ==> n == "()";
    assert "IO " + "()" == "IO ()";
    assert n != "" ==> Hs.Take3(n)[0] == n[0];
    assert "Ptr"[0] == 'P';
  }

  function ParamTypes(tt: Hs.TemplateType, args: seq<Arg>): seq<string> {
    if args == [] then [] else [Show(Translate(tt, args[0].argType))] + ParamTypes(tt, args[1..])
  }

  // The intended components: one Haskell type per parameter, none for a sole void, and one result.
  function Components(tt: Hs.TemplateType, args: seq<Arg>, ret: Parsable): seq<string> {
    (if SoleVoid(args) then [] else ParamTypes(tt, args)) + ["IO " + Atom(Translate(tt, ret))]
  }

  predicate AllBracketed(args: seq<Arg>) { forall a | a in args :: Bracketed(a.argType) }

  lemma {:induction false} RenderArgsOk(tt: Hs.TemplateType, args: seq<Arg>)
    requires AllBracketed(args)
    ensures RenderArgs(tt, args) == ParamTypes(tt, args)
    ensures forall s | s in ParamTypes(tt, args) :: All(NotDash, s)
    ensures |ParamTypes(tt, args)| == |args|
  {
    if args != [] {
      assert args[0] in args;
      BracketedRenders(tt, args[0].argType);
      TranslatedPlain(tt, args[0].argType);
      RenderArgsOk(tt, args[1..]);
    }
  }

  // Cutting a signature at its arrows gives exactly the intended components: arity, order and
  // pointer depth are preserved, for argument lists of any length.
  lemma SignatureComponents(tt: Hs.TemplateType, args: seq<Arg>, ret: Parsable)
    requires AllBracketed(args) && Bracketed(ret)
    ensures SplitArrows(SigBody(tt, args, ret)) == Components(tt, args, ret)
  {
    var r := "IO " + Atom(Translate(tt, ret));
    RenderArgsOk(tt, args);
    RendersResult(tt, ret);
    TranslatedPlain(tt, ret);
    ShortPlain("IO ");
    var ts := TypeSignature(tt, args);
    IntercalateLast(ts, r);
    forall c | c in ts + [r] ensures All(NotDash, c) { if c !in ts { assert c == r; } }
    SplitJoined(ts + [r]);
  }

  // A sole void gives no parameter, whatever its name.
  lemma VoidSignature(tt: Hs.TemplateType, n: string, ret: Parsable)
    requires Bracketed(ret)
    ensures SplitArrows(SigBody(tt, [Arg(CType(CVoid), n)], ret)) == ["IO " + Atom(Translate(tt, ret))]
  {
    var args := [Arg(CType(CVoid), n)];
    forall a | a in args ensures Bracketed(a.argType) { assert a == args[0]; }
    SignatureComponents(tt, args, ret);
  }

  // Every other list gives one component for each of its arguments, in order, and the result.
  lemma ListSignature(tt: Hs.TemplateType, args: seq<Arg>, ret: Parsable)
    requires AllBracketed(args) && Bracketed(ret) && !(|args| == 1 && args[0].argType == CType(CVoid))
    ensures var cs := SplitArrows(SigBody(tt, args, ret));
      && |cs| == |args| + 1 && cs[|args|] == "IO " + Atom(Translate(tt, ret))
      && forall i | 0 <= i < |args| :: cs[i] == Show(Translate(tt, args[i].argType))
  {
    hide SplitArrows, SigBody, Show, Atom, Translate, Bracketed;
    SignatureComponents(tt, args, ret);
    ParamTypesAre(tt, args);
  }

  lemma {:induction false} ParamTypesAre(tt: Hs.TemplateType, args: seq<Arg>)
    ensures |ParamTypes(tt, args)| == |args|
    ensures forall i | 0 <= i < |args| :: ParamTypes(tt, args)[i] == Show(Translate(tt, args[i].argType))
  {
    hide Show, Translate;
    if args != [] { ParamTypesAre(tt, args[1..]); }
  }

  // The same for the alias, behind the state pointer.
  lemma VoidAlias(tt: Hs.TemplateType, n: string, ret: Parsable)
    requires Bracketed(ret)
    ensures SplitArrows(SigBody(tt, ThArgs([Arg(CType(CVoid), n)]), ret))
         == ["Ptr C'THState", "IO " + Atom(Translate(tt, ret))]
  {
    var args := [Arg(CType(CVoid), n)];
    forall a | a in args ensures Bracketed(a.argType) { assert a == args[0]; }
    VoidSignature(tt, n, ret);
    AliasIsConst(tt, args, ret);
  }

  lemma ListAlias(tt: Hs.TemplateType, args: seq<Arg>, ret: Parsable)
    requires AllBracketed(args) && Bracketed(ret) && !(|args| == 1 && args[0].argType == CType(CVoid))
    ensures var cs := SplitArrows(SigBody(tt, ThArgs(args), ret));
      && |cs| == |args| + 2 && cs[0] == "Ptr C'THState" && cs[|args| + 1] == "IO " + Atom(Translate(tt, ret))
      && forall i | 0 <= i < |args| :: cs[i + 1] == Show(Translate(tt, args[i].argType))
  {
    hide SplitArrows, SigBody, Show, Atom, Translate, Bracketed, ThArgs;
    ListSignature(tt, args, ret);
    AliasIsConst(tt, args, ret);
  }

  // The whole signature is the name and the components with arrows between, bracketed for a FunPtr.
  lemma SignatureText(hsname: string, st: SigType, tt: Hs.TemplateType, args: seq<Arg>, ret: Parsable)
    requires AllBracketed(args) && Bracketed(ret)
    ensures var body := Intercalate(" -> ", Components(tt, args, ret));
      HaskellSig(hsname, st, tt, args, ret)
        == hsname + " :: " + (if st.IsFunPtr? then "FunPtr (" + body + ")" else body)
  {
    hide Hs.RenderParsable, Translate, Show, Atom, Bracketed, ParamTypes, RenderArgs;
    RenderArgsOk(tt, args);
    RendersResult(tt, ret);
    IntercalateLast(TypeSignature(tt, args), "IO " + Atom(Translate(tt, ret)));
    Wrapped(hsname + " :: ", SigBody(tt, args, ret));
  }

  lemma Wrapped(a: string, body: string)
    ensures a + "" + body + "" == a + body && a + "FunPtr (" + body + ")" == a + ("FunPtr (" + body + ")")
  {
  }

  // The TH alias has the same signature as the function it aliases, behind one unused state
  // pointer, so that defining it by const is well typed.
  lemma AliasIsConst(tt: Hs.TemplateType, args: seq<Arg>, ret: Parsable)
    requires AllBracketed(args) && Bracketed(ret)
    ensures SplitArrows(SigBody(tt, ThArgs(args), ret)) == ["Ptr C'THState"] + SplitArrows(SigBody(tt, args, ret))
  {
    hide SigBody, SplitArrows, Translate, Show, Atom, Bracketed;
    var p := STATE_PTR.argType;
    StateType(tt);
    forall a | a in ThArgs(args) ensures Bracketed(a.argType) { if a != STATE_PTR { assert a in args; } }
    SignatureComponents(tt, args, ret);
    SignatureComponents(tt, ThArgs(args), ret);
    assert !SoleVoid(ThArgs(args));
    assert ThArgs(args)[1..] == if SoleVoid(args) then [] else args;
    assert ParamTypes(tt, ThArgs(args)) == ["Ptr C'THState"] + (if SoleVoid(args) then [] else ParamTypes(tt, args));
  }

  lemma StateType(tt: Hs.TemplateType)
    ensures Bracketed(STATE_PTR.argType) && Show(Translate(tt, STATE_PTR.argType)) == "Ptr C'THState"
  {
    var t := TenType(Pair(State, TH));
    assert Depth(t) == 0 && Innermost(Ptr(t)) == t && Depth(Ptr(t)) == 1;
    assert Translate(tt, Ptr(t)) == PtrTo(Con(Hs.RenderTenType(tt, t.ten)));
    assert Hs.RenderTenType(tt, t.ten) == "C'THState";
  }

  lemma PointerText(tt: Hs.TemplateType, x: TenType)
    requires x.raw != DescBuff
    ensures Show(Translate(tt, Ptr(TenType(x)))) == "Ptr " + Hs.RenderTenType(tt, x)
  {
    hide Hs.RenderTenType;
    assert Translate(tt, Ptr(TenType(x))) == PtrTo(Con(Hs.RenderTenType(tt, x)));
  }

  lemma StateText()
    ensures "Ptr " + Hs.RenderTenType(Hs.GenFloat, Pair(State, THC)) == "Ptr C'THCState"
  {
    assert Hs.LibPrefix(THC, false) == "THC" && ShowRaw(State) == "State";
    assert "C'" + "THC" + "State" == "C'THCState";
  }

  lemma TensorText()
    ensures "Ptr " + Hs.RenderTenType(Hs.GenFloat, Pair(Tensor, THC)) == "Ptr C'THCudaFloatTensor"
  {
    assert Hs.LibPrefix(THC, true) == "THCuda" && Hs.Type2HsReal(Hs.GenFloat) == "Float";
    assert "C'" + "THCuda" + "Float" + "Tensor" == "C'THCudaFloatTensor";
  }

  lemma DescBuffName()
    ensures Hs.RenderTenType(Hs.GenFloat, Pair(DescBuff, THC)) == "C'THCDescBuff"
  {
    assert Hs.LibPrefix(THC, false) == "THC" && ShowRaw(DescBuff) == "DescBuff";
    assert "C'" + "THC" + "DescBuff" == "C'THCDescBuff";
  }

  lemma DescBuffText()
    ensures "IO " + Atom(Translate(Hs.GenFloat, TenType(Pair(DescBuff, THC)))) == "IO (Ptr C'THCDescBuff)"
  {
    hide Hs.RenderTenType;
    DescBuffName();
    var n := Hs.RenderTenType(Hs.GenFloat, Pair(DescBuff, THC));
    assert Translate(Hs.GenFloat, TenType(Pair(DescBuff, THC))) == PtrTo(Con(n));
    BracketedText(n);
  }

  lemma BracketedText(n: string)
    requires n == "C'THCDescBuff"
    ensures "IO " + ("(" + ("Ptr " + n) + ")") == "IO (Ptr C'THCDescBuff)"
  {
    assert "Ptr " + n == "Ptr C'THCDescBuff";
  }

  lemma ThreeOf(cs: seq<string>, a: string, b: string, c: string)
    requires |cs| == 3 && cs[0] == a && cs[1] == b && cs[2] == c
    ensures cs == [a, b, c]
  {
  }

  // The signature of sizeDesc, as the repository's own tests expect it: a DescBuff, and nothing else, is passed by
  // pointer.
  lemma TestedSignature()
    ensures SplitArrows(SigBody(Hs.GenFloat,
              [Arg(Ptr(TenType(Pair(State, THC))), "state"), Arg(Ptr(TenType(Pair(Tensor, THC))), "tensor")],
              TenType(Pair(DescBuff, THC))))
         == ["Ptr C'THCState", "Ptr C'THCudaFloatTensor", "IO (Ptr C'THCDescBuff)"]
  {
    hide SplitArrows, SigBody, Translate, Show, Atom, Hs.RenderTenType;
    var state, tensor, desc := TenType(Pair(State, THC)), TenType(Pair(Tensor, THC)), TenType(Pair(DescBuff, THC));
    var args := [Arg(Ptr(state), "state"), Arg(Ptr(tensor), "tensor")];
    PointerText(Hs.GenFloat, state.ten);
    PointerText(Hs.GenFloat, tensor.ten);
    StateText();
    TensorText();
    DescBuffText();
    assert Depth(state) == Depth(tensor) == 0 && Depth(Ptr(state)) == Depth(Ptr(tensor)) == 1;
    forall a | a in args ensures Bracketed(a.argType) { assert a == args[0] || a == args[1]; }
    ListSignature(Hs.GenFloat, args, desc);
    ThreeOf(SplitArrows(SigBody(Hs.GenFloat, args, desc)), "Ptr C'THCState", "Ptr C'THCudaFloatTensor",
            "IO (Ptr C'THCDescBuff)");
  }
}
