// The round trips for the plainest layout: declarations as one would write them from C.render, a line each.
module PlainDecl {
  import opened Options
  import opened Chars
  import opened Megaparsec
  import opened Parsed
  import opened Parse
  import opened ParseTypes
  import opened ParseDecl
  import opened DeclRoundTrip
  import opened ParseFile
  import C = RenderC

  // Each printer puts its text in front of the text k.
  function PrintArg(a: Arg, k: string): string {
    C.Render(a.argType) + (if a.argName == "" then k else " " + (a.argName + k))
  }

  function PrintArgs(args: seq<Arg>, k: string): string {
    if args == [] then k
    else if |args| == 1 then PrintArg(args[0], k) else PrintArg(args[0], "," + (" " + PrintArgs(args[1..], k)))
  }

  function PrintName(f: Function, k: string): string {
    if f.funPrefix.None? then f.funName + k
    else ShowLib(f.funPrefix.value.0) + (f.funPrefix.value.1 + ("_(" + (f.funName + (")" + k))))
  }

  // "ret name(args);"
  function Print(f: Function, k: string): string {
    C.Render(f.funReturn) + (" " + PrintName(f, "(" + PrintArgs(f.funArgs, ")" + (";" + k))))
  }

  predicate Printable(f: Function) {
    && (f.funPrefix.Some? ==> IsPrefix(f.funPrefix.value))
    && All(IsIdent, f.funName)
    && forall a | a in f.funArgs :: All(IsIdent, a.argName)
  }

  // At most two stars in every type, and at least one argument.
  predicate Shallow(f: Function) { Depth(f.funReturn) <= 2 && Listable(f.funArgs) }

  // "THTensor_(void)" and the like: a concrete name equal to a generic word before a lone type.
  predicate Ambiguous(f: Function) {
    && f.funPrefix.None? && (exists p | p in PrefixTable() :: PrefixWord(p) == f.funName)
    && |f.funArgs| == 1 && f.funArgs[0].argName == "" && !f.funArgs[0].argType.Ptr?
  }

  // ---- the plain layout ----

  function PlainArg(a: Arg, lead: string): ArgLayout {
    ArgLayout(lead, None, "", Blanks(Depth(a.argType)), if a.argName == "" then "" else " ", "", None, false)
  }

  function PlainArgs(args: seq<Arg>, lead: string): (ls: seq<ArgLayout>)
    ensures |ls| == |args|
    ensures forall i | 0 <= i < |args| :: ls[i] == PlainArg(args[i], if i == 0 then lead else " ")
  {
    if args == [] then [] else [PlainArg(args[0], lead)] + PlainArgs(args[1..], " ")
  }

  function Plain(f: Function): DeclLayout {
    DeclLayout(None, "", Blanks(Depth(f.funReturn)), " ", "", "", PlainArgs(f.funArgs, ""), "")
  }

  lemma PlainArgFits(a: Arg, lead: string)
    requires All(IsIdent, a.argName) && Blank(lead)
    ensures FitsArg(a, PlainArg(a, lead))
  {
  }

  lemma PlainFits(f: Function)
    requires Printable(f)
    ensures FitsDecl(f, Plain(f))
    ensures Readable(f, Plain(f)) <==> Shallow(f) && !Ambiguous(f)
  {
    forall i | 0 <= i < |f.funArgs| ensures FitsArg(f.funArgs[i], Plain(f).args[i]) {
      PlainArgFits(f.funArgs[i], if i == 0 then "" else " ");
    }
  }

  lemma Nothing(k: string)
    ensures "" + k == k
  {
  }

  lemma NameGap(a: Arg, lead: string, k: string)
    ensures NamePart(a, PlainArg(a, lead), k) == if a.argName == "" then k else " " + (a.argName + k)
  {
    Nothing(k);
    if a.argName == "" { Nothing("" + k); }
  }

  lemma ArgPrinted(a: Arg, lead: string, k: string)
    ensures ArgText(a, PlainArg(a, lead), k) == lead + PrintArg(a, k)
  {
    var n := NamePart(a, PlainArg(a, lead), k);
    NameGap(a, lead, k);
    RenderStars(a.argType, n);
    Nothing(C.Render(a.argType) + n);
  }

  lemma {:induction false} ArgsPrinted(args: seq<Arg>, lead: string, k: string)
    requires args == [] ==> lead == ""
    ensures ArgsText(args, PlainArgs(args, lead), k) == lead + PrintArgs(args, ")" + k)
    decreases |args|
  {
    if args == [] {
      Nothing(")" + k);
    } else if |args| == 1 {
      ArgPrinted(args[0], lead, ")" + k);
    } else {
      ArgsPrinted(args[1..], " ", k);
      ArgPrinted(args[0], lead, "," + (" " + PrintArgs(args[1..], ")" + k)));
      assert PlainArgs(args, lead)[1..] == PlainArgs(args[1..], " ");
    }
  }

  lemma NamePrinted(f: Function, k: string)
    ensures NameText(f, Plain(f), k) == PrintName(f, k)
  {
    Nothing(k);
    Nothing(")" + k);
  }

  lemma TailPrinted(f: Function, k: string)
    requires FitsDecl(f, Plain(f))
    ensures TailText(f, Plain(f), Ending(Plain(f), k)) == "(" + PrintArgs(f.funArgs, ")" + (";" + k))
  {
    ArgsPrinted(f.funArgs, "", ";" + k);
    Nothing(";" + k);
    Nothing(PrintArgs(f.funArgs, ")" + (";" + k)));
  }

  // The printed text is the text of the plain layout.
  lemma Printed(f: Function, k: string)
    requires Printable(f)
    ensures FitsDecl(f, Plain(f)) && DeclText(f, Plain(f), k) == Print(f, k)
  {
    PlainFits(f);
    TailPrinted(f, k);
    var e := Ending(Plain(f), k);
    var t := TailText(f, Plain(f), e);
    NamePrinted(f, t);
    RenderStars(f.funReturn, " " + NameText(f, Plain(f), t));
    Nothing(ReturnText(f, Plain(f), e));
  }

  // ---- the round trips ----

  // Print a declaration and read it: it comes back, real and accreal canonicalised, exactly when it has an
  // argument, no triple pointer, and is not ambiguous; otherwise it is not read at all.
  lemma PrintRoundTrip(f: Function, k: string)
    requires Printable(f)
    ensures FunctionDecl(Print(f, k)) == Ok(Some(CanonFunction(f)), AfterDecl(k)) <==> Shallow(f) && !Ambiguous(f)
    ensures !(Shallow(f) && !Ambiguous(f)) ==> FunctionDecl(Print(f, k)).Err?
  {
    PlainFits(f);
    Printed(f, k);
    FunctionRoundTrip(f, Plain(f), k);
  }

  lemma TensorWord(w: string)
    requires w == "THTensor_"
    ensures All(IsIdent, w) && exists p | p in PrefixTable() :: PrefixWord(p) == w
  {
    assert PrefixTable()[18] == (TH, "Tensor");
    PrefixWordIdent((TH, "Tensor"));
  }

  function Lost(): Function { Function(None, "THTensor_", [Arg(CType(CVoid), "")], CType(CVoid)) }

  lemma LostIsAmbiguous()
    ensures Printable(Lost()) && Ambiguous(Lost())
  {
    hide PrefixTable;
    TensorWord("THTensor_");
  }

  lemma LostText()
    ensures Print(Lost(), "") == "void THTensor_(void);"
  {
    assert "void" + (" " + ("THTensor_" + ("(" + ("void" + (")" + (";" + "")))))) == "void THTensor_(void);";
  }

  // A declaration that the parser loses.
  lemma LostDeclaration()
    ensures FunctionDecl("void THTensor_(void);").Err?
  {
    hide *;
    LostIsAmbiguous();
    LostText();
    PrintRoundTrip(Lost(), "");
  }

  // The declaration of the repository's own tests whose argument has no name.
  function ElementSize(): Function {
    Function(Some((TH, "Storage")), "elementSize", [Arg(CType(CVoid), "")], CType(CSize))
  }

  lemma ElementSizeText()
    ensures Print(ElementSize(), "") == "size_t" + (" " + "THStorage_(elementSize)(void);")
  {
    ArgumentText();
    NameIs(")(void);");
    PrefixIs("elementSize)(void);");
  }

  lemma ArgumentText()
    ensures ")" + ("(" + ("void" + (")" + (";" + "")))) == ")(void);"
  {
    assert "void" + (")" + (";" + "")) == "void);";
  }

  lemma NameIs(k: string)
    requires k == ")(void);"
    ensures "elementSize" + k == "elementSize)(void);"
  {
  }

  lemma PrefixIs(k: string)
    requires k == "elementSize)(void);"
    ensures "TH" + ("Storage" + ("_(" + k)) == "THStorage_(elementSize)(void);"
  {
    assert "_(" + k == "_(elementSize)(void);";
  }

  lemma ElementSizePrintable()
    ensures Printable(ElementSize()) && Shallow(ElementSize()) && !Ambiguous(ElementSize())
    ensures CanonFunction(ElementSize()) == ElementSize()
  {
    var w := "elementSize";
    forall i | 0 <= i < |w| ensures IsIdent(w[i]) { assert 'a' <= w[i] <= 'z' || 'A' <= w[i] <= 'Z'; }
    var args := ElementSize().funArgs;
    assert CanonArgs(args[1..]) == [];
  }

  lemma NothingAfter()
    ensures AfterDecl("") == ""
  {
    SpaceNone("");
    assert |"/*"| == 2;
  }

  // The library marker is the only difference between the two layouts.
  lemma SameText(f: Function, l: DeclLayout, m: DeclLayout, e: string)
    requires FitsDecl(f, l) && l.api.None? && m == l.(api := m.api) && m.api.Some? && IsMarker(m.api.value)
    ensures FitsDecl(f, m) && (Readable(f, l) ==> Readable(f, m))
    ensures HeadText(f, m, e) == ApiText(m.api, HeadText(f, l, e))
  {
    hide C.Render, ArgsText, GenericText, ShapesArgs, FitsArgs, Listable, LoneWord, Depth, StarText;
  }

  lemma Marked(f: Function, k: string)
    requires Printable(f) && Shallow(f) && !Ambiguous(f)
    ensures FunctionDecl("TH_API" + (" " + Print(f, k))) == Ok(Some(CanonFunction(f)), AfterDecl(k))
  {
    hide FunctionDecl, FitsArgs, Printable, Shallow, Ambiguous, C.Render, NameText, ArgsText, Print, Listable, LoneWord,
         LooksGeneric, ShapesArgs, AfterDecl, Depth, Canon;
    var l := Plain(f).(api := Some((TH, " ")));
    Printed(f, k);
    PlainFits(f);
    assert "TH" + "_API" == "TH_API" && Blank(" ");
    SameText(f, Plain(f), l, Ending(l, k));
    PrintedIsRead(f, l, k);
  }

  lemma TwoWords(a: string, b: string, k: string)
    ensures a + (" " + (b + (" " + k))) == (a + " ") + (b + " ") + k
  {
  }

  lemma TestedDeclaration()
    ensures FunctionDecl("TH_API " + "size_t " + "THStorage_(elementSize)(void);")
         == Ok(Some(Function(Some((TH, "Storage")), "elementSize", [Arg(CType(CVoid), "")], CType(CSize))), "")
  {
    hide FunctionDecl, Print, Printable, Shallow, Ambiguous, CanonFunction, AfterDecl;
    ElementSizePrintable();
    ElementSizeText();
    Marked(ElementSize(), "");
    NothingAfter();
    TwoWords("TH_API", "size_t", "THStorage_(elementSize)(void);");
    assert "TH_API" + " " == "TH_API " && "size_t" + " " == "size_t ";
  }

  predicate AllPrintable(fs: seq<Function>) { forall f | f in fs :: Printable(f) && Shallow(f) && !Ambiguous(f) }

  // A header with a declaration in each line.
  function PrintAll(fs: seq<Function>): string
    requires AllPrintable(fs)
  {
    if fs == [] then "" else
      assert Printable(fs[0]);
      Print(fs[0], "\n" + PrintAll(fs[1..]))
  }

  function CanonAll(fs: seq<Function>): seq<Function> {
    if fs == [] then [] else [CanonFunction(fs[0])] + CanonAll(fs[1..])
  }

  function Chunks(fs: seq<Function>): seq<Chunk> {
    if fs == [] then [] else [Decl(fs[0], Plain(fs[0])), Junk(White(""))] + Chunks(fs[1..])
  }

  lemma {:induction false} ChunksFit(fs: seq<Function>)
    requires AllPrintable(fs)
    ensures FitsFile(Chunks(fs), White(""))
    ensures DeclsOf(Chunks(fs)) == CanonAll(fs)
  {
    if fs != [] {
      var f, cs, ds := fs[0], Chunks(fs), Chunks(fs[1..]);
      ChunksFit(fs[1..]);
      assert Printable(f) && Shallow(f) && !Ambiguous(f);
      PlainFits(f);
      assert cs[1..][1..] == ds && cs[1..][0] == Junk(White(""));
      forall c | c in cs ensures FitsChunk(c) { assert c == cs[0] || c == cs[1] || c in ds; }
    }
  }

  lemma {:induction false} ChunksPrinted(fs: seq<Function>)
    requires AllPrintable(fs) && FitsFile(Chunks(fs), White(""))
    ensures FileText(Chunks(fs), White("")) == PrintAll(fs)
  {
    if fs == [] {
      Nothing("");
    } else {
      var f, cs, ds := fs[0], Chunks(fs), Chunks(fs[1..]);
      ChunksFit(fs[1..]);
      ChunksPrinted(fs[1..]);
      assert Printable(f);
      assert cs[1..][1..] == ds && cs[1..][0] == Junk(White(""));
      Nothing("\n" + PrintAll(fs[1..]));
      Printed(f, "\n" + PrintAll(fs[1..]));
    }
  }

  // A printed header is read back declaration by declaration.
  lemma HeaderRoundTrip(fs: seq<Function>)
    requires AllPrintable(fs)
    ensures CleanList(Parser(PrintAll(fs))) == CanonAll(fs)
  {
    ChunksFit(fs);
    ChunksPrinted(fs);
    FileConservation(Chunks(fs), White(""));
  }
}
