// Totality of the file parser and the round trip of printed types.
module ParseTypes {
  import opened Chars
  import opened Megaparsec
  import opened Parsed
  import opened Parse
  import opened Spelling
  import C = RenderC

  // The file parser fails on the empty input only; otherwise it reads the whole input.
  lemma {:induction false} ParserTotal(s: string)
    ensures s == "" ==> Parser(s) == Err(s)
    ensures s != "" ==> Parser(s).Ok? && Parser(s).rest == ""
    decreases |s|
  {
    if s == "" {
      ItemAtEnd();
    } else {
      assert Item(s).Ok?;
      ParserTotal(Item(s).rest);
    }
  }

  // No declaration, constant or line starts at the end of the input.
  lemma ItemAtEnd()
    ensures Item("") == Err("")
  {
    assert Constant("").Leaves(-1) && FunctionDecl("").Leaves(-1);
  }

  function Pointers(n: nat, t: Parsable): Parsable { if n == 0 then t else Ptr(Pointers(n - 1, t)) }

  // Stars, each with the white space ws[i] before it, followed by k.
  function StarText(ws: seq<string>, k: string): string {
    if ws == [] then k else ws[0] + ("*" + StarText(ws[1..], k))
  }

  predicate EachBlank(ws: seq<string>) { forall w | w in ws :: All(IsSpace, w) }

  predicate NoStar(k: string) { !Starts(c => c == '*', Space(k).rest) }

  lemma StarHere(w: string, k: string)
    requires All(IsSpace, w)
    ensures Star(w + ("*" + k)) == Ok((), k)
  {
    SpaceRun(w, "*" + k);
    assert ("*" + k)[1..] == k;
  }

  lemma GoAllMismatch(x: Parsable, s: string)
    requires !(C.Render(x) <= s)
    ensures GoAll(x, s) == Err(s)
  {
  }

  lemma GoAllMatch(x: Parsable, s: string)
    requires C.Render(x) <= s
    ensures GoAll(x, s).Ok? && Depth(GoAll(x, s).val) <= Depth(x) + 2
  {
  }

  lemma GoAllStars(x: Parsable, ws: seq<string>, k: string)
    requires |ws| <= 2 && EachBlank(ws) && (|ws| < 2 ==> NoStar(k))
    ensures GoAll(x, C.Render(x) + StarText(ws, k)) == Ok(Pointers(|ws|, x), k)
  {
    var t := StarText(ws, k);
    StrHere(C.Render(x), t);
    if |ws| == 0 {
      GoAllSteps(x, C.Render(x) + t, t, t, t);
    } else if |ws| == 1 {
      assert StarText(ws[1..], k) == k;
      StarHere(ws[0], k);
      GoAllSteps(x, C.Render(x) + t, t, k, k);
      assert Pointers(1, x) == Ptr(x);
    } else {
      assert StarText(ws[1..][1..], k) == k;
      assert StarText(ws[1..], k) == ws[1] + ("*" + k);
      StarHere(ws[0], StarText(ws[1..], k));
      StarHere(ws[1], k);
      GoAllSteps(x, C.Render(x) + t, t, StarText(ws[1..], k), k);
      assert Pointers(2, x) == Ptr(Pointers(1, x)) && Pointers(1, x) == Ptr(x);
    }
  }

  // One table entry whose spelling has matched, by the number of stars that follow.
  lemma GoAllSteps(x: Parsable, s: string, t: string, u: string, v: string)
    requires Str(C.Render(x), s) == Ok((), t)
    requires Star(t) == Ok((), u) || (Star(t).Err? && u == v)
    requires Star(t).Ok? ==> Star(u) == Ok((), v) || (Star(u).Err? && u == v)
    ensures GoAll(x, s) == if Star(t).Err? then Ok(x, t) else if Star(u).Err? then Ok(Ptr(x), u) else Ok(Ptr(Ptr(x)), v)
  {
  }

  // Ordered choice: the first entry whose spelling begins the input decides.
  lemma {:induction false} FirstMatch(xs: seq<Parsable>, i: nat, s: string)
    requires i < |xs| && C.Render(xs[i]) <= s
    requires forall j | 0 <= j < i :: !(C.Render(xs[j]) <= s)
    ensures GenericParsers(xs, s) == GoAll(xs[i], s)
  {
    if i == 0 {
      GoAllMatch(xs[0], s);
    } else {
      GoAllMismatch(xs[0], s);
      FirstMatch(xs[1..], i - 1, s);
    }
  }

  lemma {:induction false} NoMatch(xs: seq<Parsable>, s: string)
    requires forall j | 0 <= j < |xs| :: !(C.Render(xs[j]) <= s)
    ensures GenericParsers(xs, s) == Err(s)
  {
    if xs != [] {
      GoAllMismatch(xs[0], s);
      NoMatch(xs[1..], s);
    }
  }

  function RawIndex(r: RawTenType): (i: nat)
    ensures i < 27 && ALL_RAWS[i] == r
  {
    match r
    case Tensor => 0 case ByteTensor => 1 case CharTensor => 2 case ShortTensor => 3
    case IntTensor => 4 case LongTensor => 5 case FloatTensor => 6 case DoubleTensor => 7
    case HalfTensor => 8 case Storage => 9 case ByteStorage => 10 case CharStorage => 11
    case ShortStorage => 12 case IntStorage => 13 case LongStorage => 14 case FloatStorage => 15
    case DoubleStorage => 16 case HalfStorage => 17 case DescBuff => 18 case Generator => 19
    case Allocator => 20 case File => 21 case Half => 22 case State => 23 case Real => 24
    case AccReal => 25 case Stream => 26
  }

  lemma RawIndexUnique(i: nat)
    requires i < 27
    ensures RawIndex(ALL_RAWS[i]) == i
  {
  }

  function LibIndex(l: LibType): (i: nat)
    ensures i < 7 && ALL_LIBS[i] == l
  {
    match l
    case ATen => 0 case THCUNN => 1 case THCS => 2 case THC => 3
    case THNN => 4 case THS => 5 case TH => 6
  }

  lemma LibIndexUnique(i: nat)
    requires i < 7
    ensures LibIndex(ALL_LIBS[i]) == i
  {
  }

  function TenIndex(t: TenType): (i: nat) { 7 * RawIndex(t.raw) + LibIndex(t.lib) }

  lemma TableEntry(r: nat, l: nat)
    requires r < 27 && l < 7
    ensures TenTable()[7 * r + l] == TenType(Pair(ALL_RAWS[r], ALL_LIBS[l]))
  {
    assert (7 * r + l) / 7 == r && (7 * r + l) % 7 == l;
  }

  lemma TenIndexHere(t: TenType)
    ensures TenIndex(t) < 189 && TenTable()[TenIndex(t)] == TenType(t)
  {
    var r, l := RawIndex(t.raw), LibIndex(t.lib);
    TableEntry(r, l);
  }

  // Every entry that could steal the beginning of t's spelling comes later in the table than the
  // canonical entry for t: HalfTensor and HalfStorage are listed before Half, and the ATen entries
  // of real and accreal before those of the other libraries.
  lemma TenOrder(t: TenType, j: nat)
    requires j < TenIndex(CanonTen(t))
    ensures !(C.Render(TenTable()[j]) <= C.RenderTenType(t))
  {
    var raw, lib := ALL_RAWS[j / 7], ALL_LIBS[j % 7];
    RawIndexUnique(j / 7);
    LibIndexUnique(j % 7);
    var a := Pair(raw, lib);
    assert TenTable()[j] == TenType(a) && j == TenIndex(a);
    if C.RenderTenType(a) <= C.RenderTenType(t) {
      TenPrefix(a, t);
      assert false;
    }
  }

  lemma TenTypesOk(t: TenType, ws: seq<string>, k: string)
    requires |ws| <= 2 && EachBlank(ws) && (|ws| < 2 ==> NoStar(k))
    requires !Starts(IsIdent, StarText(ws, k))
    ensures TenTypes(C.RenderTenType(t) + StarText(ws, k)) == Ok(Pointers(|ws|, TenType(CanonTen(t))), k)
  {
    var c := CanonTen(t);
    var i := TenIndex(c);
    var s := C.RenderTenType(t) + StarText(ws, k);
    assert C.RenderTenType(c) == C.RenderTenType(t);
    TenIndexHere(c);
    forall j | 0 <= j < i ensures !(C.Render(TenTable()[j]) <= s) {
      TenOrder(t, j);
      BaseShape(TenTable()[j]);
      if C.Render(TenTable()[j]) <= s { PrefixOfRun(C.Render(TenTable()[j]), C.RenderTenType(t), StarText(ws, k)); }
    }
    FirstMatch(TenTable(), i, s);
    GoAllStars(TenType(c), ws, k);
  }

  lemma TenTypesFail(s: string)
    requires forall t: TenType :: !(C.RenderTenType(t) <= s)
    ensures TenTypes(s) == Err(s)
  {
    NoMatch(TenTable(), s);
    TenTypesForFails(SUPPORTED_LIBS, s);
  }

  lemma {:induction false} TenTypesForFails(libs: seq<LibType>, s: string)
    requires GenericParsers(TenTable(), s) == Err(s)
    ensures TenTypesFor(libs, s) == Err(s)
  {
    if libs != [] { TenTypesForFails(libs[1..], s); }
  }

  function CIndex(c: CType): (i: nat)
    ensures i < 18 && ALL_CTYPES[i] == c
  {
    match c
    case CBool => 0 case CVoid => 1 case CPtrdiff => 2 case CFloat => 3 case CDouble => 4
    case CLong => 5 case CUInt64 => 6 case CUInt32 => 7 case CUInt16 => 8 case CUInt8 => 9
    case CInt64 => 10 case CInt32 => 11 case CInt16 => 12 case CInt8 => 13 case CInt => 14
    case CSize => 15 case CChar => 16 case CShort => 17
  }

  lemma CIndexUnique(i: nat)
    requires i < 18
    ensures CIndex(ALL_CTYPES[i]) == i
  {
  }

  lemma CTypesOk(c: CType, ws: seq<string>, k: string)
    requires |ws| <= 2 && EachBlank(ws) && (|ws| < 2 ==> NoStar(k))
    requires !Starts(IsIdent, StarText(ws, k))
    ensures CTypes(C.RenderCType(c) + StarText(ws, k)) == Ok(Pointers(|ws|, CType(c)), k)
  {
    var s := C.RenderCType(c) + StarText(ws, k);
    forall j | 0 <= j < CIndex(c) ensures !(C.Render(CTypeTable()[j]) <= s) {
      CIndexUnique(j);
      CIdent(ALL_CTYPES[j]);
      if C.RenderCType(ALL_CTYPES[j]) <= s {
        PrefixOfRun(C.RenderCType(ALL_CTYPES[j]), C.RenderCType(c), StarText(ws, k));
        CPrefix(ALL_CTYPES[j], c);
        assert false;
      }
    }
    FirstMatch(CTypeTable(), CIndex(c), s);
    GoAllStars(CType(c), ws, k);
  }

  // No tensor type spelling begins the spelling of a C type.
  lemma TenNotC(t: TenType, c: CType, k: string)
    ensures !(C.RenderTenType(t) <= C.RenderCType(c) + k)
  {
    TenHead(t); CHead(c);
    var u := C.RenderCType(c) + k;
    assert u[0] == C.RenderCType(c)[0];
  }

  // A printed base type followed by its stars is read by the tables.
  lemma TypeTablesOk(b: Parsable, ws: seq<string>, k: string)
    requires !b.Ptr? && |ws| <= 2 && EachBlank(ws) && (|ws| < 2 ==> NoStar(k))
    requires ws == [] ==> !Starts(IsIdent, k)
    ensures TypeTables(C.Render(b) + StarText(ws, k)) == Ok(Pointers(|ws|, Canon(b)), k)
  {
    var k1 := StarText(ws, k);
    StarTextStart(ws, k);
    match b {
      case TenType(t) => TenTypesOk(t, ws, k);
      case CType(c) =>
        forall t: TenType ensures !(C.RenderTenType(t) <= C.RenderCType(c) + k1) { TenNotC(t, c, k1); }
        TenTypesFail(C.RenderCType(c) + k1);
        CTypesOk(c, ws, k);
    }
  }

  lemma StarTextStart(ws: seq<string>, k: string)
    requires EachBlank(ws) && (ws == [] ==> !Starts(IsIdent, k))
    ensures !Starts(IsIdent, StarText(ws, k))
  {
    if ws != [] {
      assert All(IsSpace, ws[0]);
      var s := StarText(ws, k);
      assert s[0] == if ws[0] == "" then '*' else ws[0][0];
    }
  }

  // The words that may stand in front of a type, as typeModifier reads them.
  predicate IsModifier(m: string) { m in {"", "const ", "unsigned ", "struct "} }

  lemma TypeModifierOk(m: string, b: Parsable, k: string)
    requires IsModifier(m) && !b.Ptr?
    ensures TypeModifier(m + (C.Render(b) + k)) == Ok((), C.Render(b) + k)
  {
    var u := C.Render(b) + k;
    if m == "" {
      assert m + u == u;
      NoWordBefore(b, k);
      SpaceNone(u);
    } else {
      StrHere(m, u);
      assert (m + u)[0] == m[0];
      assert !("const " <= "unsigned " + u) && !("const " <= "struct " + u) && !("unsigned " <= "struct " + u) by {
        assert ("unsigned " + u)[0] == 'u' && ("struct " + u)[0] == 's';
      }
    }
  }

  // No word that the parser looks for in front of a type begins a printed type.
  lemma NoWordBefore(b: Parsable, k: string)
    requires !b.Ptr?
    ensures var u := C.Render(b) + k;
      && !Starts(IsSpace, u)
      && !("const " <= u) && !("unsigned " <= u) && !("struct " <= u)
      && !("const" <= u)
  {
    var u := C.Render(b) + k;
    BaseShape(b);
    assert u[0] == C.Render(b)[0] && u[1] == C.Render(b)[1];
    NotConst(u);
    NotOther(u);
  }

  lemma NotConst(u: string)
    requires |u| >= 2 && (u[0] == 'c' ==> u[1] == 'h')
    ensures !("const " <= u) && !("const" <= u)
  {
    if u[0] == 'c' {
      Differs("const ", u, 1); Differs("const", u, 1);
    } else {
      Differs("const ", u, 0); Differs("const", u, 0);
    }
  }

  lemma NotOther(u: string)
    requires |u| >= 2 && (u[0] == 'u' ==> u[1] == 'i') && (u[0] == 's' ==> u[1] in {'h', 'i'})
    ensures !("unsigned " <= u) && !("struct " <= u)
  {
    if u[0] == 'u' { Differs("unsigned ", u, 1); } else { Differs("unsigned ", u, 0); }
    if u[0] == 's' { Differs("struct ", u, 1); } else { Differs("struct ", u, 0); }
  }

  lemma Differs(w: string, u: string, i: nat)
    requires i < |w| && i < |u| && w[i] != u[i]
    ensures !(w <= u)
  {
  }

  lemma ParsableTypesOk(m: string, b: Parsable, ws: seq<string>, k: string)
    requires IsModifier(m) && !b.Ptr?
    requires |ws| <= 2 && EachBlank(ws) && (|ws| < 2 ==> NoStar(k))
    requires ws == [] ==> !Starts(IsIdent, k)
    ensures ParsableTypes(m + (C.Render(b) + StarText(ws, k))) == Ok(Pointers(|ws|, Canon(b)), k)
  {
    TypeModifierOk(m, b, StarText(ws, k));
    TypeTablesOk(b, ws, k);
  }

  // ---- the round trip of C.render ----

  function Blanks(n: nat): (ws: seq<string>)
    ensures |ws| == n && EachBlank(ws)
  {
    if n == 0 then [] else [" "] + Blanks(n - 1)
  }

  lemma {:induction false} StarTextAppend(n: nat, k: string)
    ensures StarText(Blanks(n), " *" + k) == StarText(Blanks(n + 1), k)
  {
    if n == 0 {
      assert Blanks(1) == [" "];
      assert StarText([" "][1..], k) == k;
      assert " *" + k == " " + ("*" + k);
    } else {
      StarTextAppend(n - 1, k);
      assert Blanks(n)[1..] == Blanks(n - 1) && Blanks(n + 1)[1..] == Blanks(n);
    }
  }

  lemma {:induction false} RenderStars(t: Parsable, k: string)
    ensures C.Render(t) + k == C.Render(Innermost(t)) + StarText(Blanks(Depth(t)), k)
  {
    if t.Ptr? {
      assert C.Render(t) + k == C.Render(t.target) + (" *" + k);
      RenderStars(t.target, " *" + k);
      StarTextAppend(Depth(t.target), k);
    }
  }

  lemma {:induction false} CanonPointers(t: Parsable)
    ensures Pointers(Depth(t), Canon(Innermost(t))) == Canon(t)
    ensures Depth(Canon(t)) == Depth(t)
  {
    if t.Ptr? { CanonPointers(t.target); }
  }

  lemma {:induction false} GenericDepth(xs: seq<Parsable>, s: string)
    requires forall x | x in xs :: !x.Ptr?
    ensures GenericParsers(xs, s).Ok? ==> Depth(GenericParsers(xs, s).val) <= 2
  {
    if xs != [] {
      if C.Render(xs[0]) <= s { GoAllMatch(xs[0], s); } else { GoAllMismatch(xs[0], s); }
      GenericDepth(xs[1..], s);
    }
  }

  lemma {:induction false} TenTypesForDepth(libs: seq<LibType>, s: string)
    ensures TenTypesFor(libs, s).Ok? ==> Depth(TenTypesFor(libs, s).val) <= 2
  {
    if libs != [] {
      GenericDepth(TenTable(), s);
      TenTypesForDepth(libs[1..], s);
    }
  }

  // No input whatever makes the parser return a triple pointer.
  lemma ParsedDepth(s: string)
    ensures ParsableTypes(s).Ok? ==> Depth(ParsableTypes(s).val) <= 2
  {
    var s1 := TypeModifier(s).rest;
    TenTypesForDepth(SUPPORTED_LIBS, s1);
    GenericDepth(CTypeTable(), s1);
  }

  // Printing a type and parsing it back, under any continuation that cannot be read as part of the
  // type, returns the canonical type and exactly the continuation; this holds for precisely the
  // types of pointer depth at most two.
  lemma TypeRoundTrip(t: Parsable, k: string)
    requires !Starts(IsIdent, k) && (Depth(t) < 2 ==> NoStar(k))
    ensures ParsableTypes(C.Render(t) + k) == Ok(Canon(t), k) <==> Depth(t) <= 2
  {
    CanonPointers(t);
    if Depth(t) <= 2 {
      RenderStars(t, k);
      var u := C.Render(Innermost(t)) + StarText(Blanks(Depth(t)), k);
      assert "" + u == u;
      ParsableTypesOk("", Innermost(t), Blanks(Depth(t)), k);
    } else {
      ParsedDepth(C.Render(t) + k);
    }
  }
}
