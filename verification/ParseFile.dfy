// File-level conservation: the declarations of a header are found, all of them and no others.
module ParseFile {
  import opened Options
  import opened Chars
  import opened Megaparsec
  import opened Parsed
  import opened Parse
  import opened Spelling
  import opened ParseTypes
  import opened ParseDecl
  import opened DeclRoundTrip
  import opened ParseConst
  import C = RenderC

  // A line without a declaration.
  datatype Line =
    | White(ws: string)
    | Other(ws: string, c: char, text: string)
    | Block(ws: string, body: string, after: string)  // a one-line block comment

  // A header is a series of declarations and constants, anywhere in a line, and lines without either.
  datatype Chunk = Decl(f: Function, l: DeclLayout) | Const(c: ConstDecl) | Junk(line: Line)

  predicate OneLine(s: string) { All(NotNewline, s) }

  // A comment that has been opened in front of u is one that the parser accepts as a block comment.
  predicate ClosesComment(u: string) {
    var r := Some1(IsCommentChar, u);
    r.Ok? && "*/" <= r.rest
  }

  predicate FitsLine(j: Line) {
    match j
    case White(ws) => Blank(ws) && OneLine(ws)
    case Other(ws, c, text) =>
      && Blank(ws) && OneLine(ws) && OneLine(text)
      && !IsSpace(c) && !IsIdent(c)
      && (c == '/' && Starts(d => d == '*', text) ==> !ClosesComment(text[1..]))
    case Block(ws, body, after) =>
      && Blank(ws) && OneLine(ws) && Blank(after) && OneLine(after)
      && body != "" && All(IsCommentChar, body)
  }

  predicate FitsChunk(c: Chunk) {
    match c
    case Decl(f, l) => FitsDecl(f, l) && Readable(f, l)
    case Const(c) => FitsConst(c) && Depth(c.constType) <= 2
    case Junk(j) => FitsLine(j)
  }

  predicate FitsFile(cs: seq<Chunk>, last: Line) {
    FitsLine(last) && forall c | c in cs :: FitsChunk(c)
  }

  function LineText(j: Line, k: string): string {
    match j
    case White(ws) => ws + k
    case Other(ws, c, text) => ws + ([c] + (text + k))
    case Block(ws, body, after) => ws + ("/*" + (body + ("*/" + (after + k))))
  }

  // The text of a file whose last, unterminated, line is the given one.
  function FileText(cs: seq<Chunk>, last: Line): string
    requires FitsFile(cs, last)
  {
    if cs == [] then LineText(last, "")
    else
      var k := FileText(cs[1..], last);
      assert FitsChunk(cs[0]);
      match cs[0]
      case Decl(f, l) => DeclText(f, l, k)
      case Const(c) => ConstText(c, k)
      case Junk(j) => LineText(j, "\n" + k)
  }

  function DeclsOf(cs: seq<Chunk>): seq<Function> {
    if cs == [] then []
    else (if cs[0].Decl? then [CanonFunction(cs[0].f)] else []) + DeclsOf(cs[1..])
  }

  // ---- white space that runs across lines ----

  lemma {:induction false} SpaceSkips(w: string, k: string)
    requires Blank(w)
    ensures Space(w + k).rest == Space(k).rest
  {
    if w == "" {
      assert w + k == k;
    } else {
      assert (w + k)[1..] == w[1..] + k;
      SpaceSkips(w[1..], k);
    }
  }

  // The first chunk that is not a line of white space.
  function DropWhite(cs: seq<Chunk>): (r: seq<Chunk>)
    ensures |r| <= |cs| && r == cs[|cs| - |r|..]
    ensures DeclsOf(r) == DeclsOf(cs)
    ensures r != [] ==> !(r[0].Junk? && r[0].line.White?)
  {
    if cs != [] && cs[0].Junk? && cs[0].line.White? then DropWhite(cs[1..]) else cs
  }

  lemma {:induction false} SpaceToChunk(cs: seq<Chunk>, last: Line)
    requires FitsFile(cs, last)
    ensures FitsFile(DropWhite(cs), last)
    ensures Space(FileText(cs, last)).rest == Space(FileText(DropWhite(cs), last)).rest
  {
    if cs != [] && cs[0].Junk? && cs[0].line.White? {
      var k := FileText(cs[1..], last);
      assert FitsChunk(cs[0]);
      SpaceSkips(cs[0].line.ws, "\n" + k);
      SpaceSkips("\n", k);
      SpaceToChunk(cs[1..], last);
    }
  }

  lemma DeclStart(f: Function, l: DeclLayout, k: string)
    requires FitsDecl(f, l)
    ensures Starts(IsIdent, DeclText(f, l, k)) && !Starts(IsSpace, DeclText(f, l, k))
  {
    var b := Innermost(f.funReturn);
    var st := StarText(l.stars, l.gap + NameText(f, l, TailText(f, l, Ending(l, k))));
    var s := DeclText(f, l, k);
    BaseShape(b);
    if l.api.Some? {
      ShowLibIdent(l.api.value.0);
      assert s[0] == ShowLib(l.api.value.0)[0];
    } else if l.modifier != "" {
      assert s[0] == l.modifier[0];
    } else {
      assert s == C.Render(b) + st;
      assert s[0] == C.Render(b)[0];
    }
  }

  // A block comment, as the parser accepts it, begins here.
  predicate ClosedHere(u: string) { Str("/*", u).Ok? && ClosesComment(Str("/*", u).rest) }

  predicate LineBreak(k: string) { k == "" || k[0] == '\n' }

  // A comment that a line leaves open is not closed by what follows the line.
  lemma OpenComment(u: string, k: string)
    requires !ClosesComment(u) && LineBreak(k)
    ensures !ClosesComment(u + k)
  {
    var r := Many(IsCommentChar, u);
    assert u + k == r.val + (r.rest + k);
    if r.rest == "" { assert r.rest + k == k; } else { assert (r.rest + k)[0] == r.rest[0]; }
    ManyRun(IsCommentChar, r.val, r.rest + k);
    if r.val != "" {
      assert u[0] == r.val[0];
      NotClosedBy(r.rest, k);
    } else if u + k != "" {
      assert (u + k)[0] == (r.rest + k)[0];
    }
  }

  lemma NotClosedBy(w: string, k: string)
    requires !("*/" <= w) && LineBreak(k)
    ensures !("*/" <= w + k)
  {
    var s := w + k;
    var i := if w != "" && w[0] == '*' then 1 else 0;
    if i < |s| { Differs("*/", s, i); }
  }

  // What the first character after the white space of a line says about the line.
  lemma LineStart(j: Line, k: string)
    requires FitsLine(j) && !j.White?
    ensures var u := Space(LineText(j, k)).rest;
      && u != "" && !IsIdent(u[0])
      && u == (if j.Other? then [j.c] + (j.text + k) else "/*" + (j.body + ("*/" + (j.after + k))))
      && (j.Other? && LineBreak(k) ==> !ClosedHere(u))
  {
    var u := if j.Other? then [j.c] + (j.text + k) else "/*" + (j.body + ("*/" + (j.after + k)));
    SpaceRun(j.ws, u);
    if j.Other? && LineBreak(k) { NotClosedHere(j.c, j.text, k); }
  }

  lemma NotClosedHere(c: char, text: string, k: string)
    requires LineBreak(k) && (c == '/' && Starts(d => d == '*', text) ==> !ClosesComment(text[1..]))
    ensures !ClosedHere([c] + (text + k))
  {
    var u := [c] + (text + k);
    if "/*" <= u {
      assert u[0] == '/' && u[1] == '*';
      assert u[1] == (text + k)[0];
      assert text != "" && text[0] == '*';
      assert u[2..] == text[1..] + k;
      OpenComment(text[1..], k);
    }
  }

  // ---- the comment that a declaration swallows ----

  lemma BlockComment(j: Line, s: string, k: string)
    requires FitsLine(j) && j.Block? && Space(s).rest == Space(LineText(j, k)).rest
    ensures Comment(s) == Ok((), j.after + k)
  {
    LineStart(j, k);
    var t := "*/" + (j.after + k);
    StrHere("/*", j.body + t);
    SomeRun(IsCommentChar, j.body, t);
    StrHere("*/", j.after + k);
  }

  lemma NoComment(s: string)
    requires !ClosedHere(Space(s).rest)
    ensures AfterDecl(s) == s
  {
  }

  // After a declaration the parser goes on at a file with the same declarations.
  lemma AfterDeclFile(cs: seq<Chunk>, last: Line) returns (cs': seq<Chunk>, last': Line)
    requires FitsFile(cs, last)
    ensures FitsFile(cs', last') && DeclsOf(cs') == DeclsOf(cs)
    ensures AfterDecl(FileText(cs, last)) == FileText(cs', last')
  {
    var s := FileText(cs, last);
    var ds := DropWhite(cs);
    cs', last' := cs, last;
    SpaceToChunk(cs, last);
    if ds == [] {
      if last.Block? {
        BlockComment(last, s, "");
        cs', last' := [], White(last.after);
      } else {
        LastStart(last);
        NoComment(s);
      }
    } else {
      assert FitsChunk(ds[0]);
      if ds[0].Junk? && ds[0].line.Block? {
        BlockComment(ds[0].line, s, "\n" + FileText(ds[1..], last));
        cs' := AfterBlock(ds, last);
      } else {
        NoBlock(ds, last);
        NoComment(s);
      }
    }
  }

  lemma NotOpened(s: string)
    requires Starts(IsIdent, s)
    ensures !ClosedHere(Space(s).rest)
  {
    SpaceNone(s);
    Differs("/*", s, 0);
  }

  lemma AfterBlock(ds: seq<Chunk>, last: Line) returns (cs': seq<Chunk>)
    requires FitsFile(ds, last) && ds != [] && ds[0].Junk? && ds[0].line.Block?
    ensures FitsFile(cs', last) && DeclsOf(cs') == DeclsOf(ds)
    ensures FileText(cs', last) == ds[0].line.after + ("\n" + FileText(ds[1..], last))
  {
    assert FitsChunk(ds[0]);
    var j := Junk(White(ds[0].line.after));
    cs' := [j] + ds[1..];
    assert cs'[1..] == ds[1..];
    assert FitsChunk(j);
  }

  lemma NoBlock(ds: seq<Chunk>, last: Line)
    requires FitsFile(ds, last) && ds != []
    requires ds[0].Junk? ==> ds[0].line.Other?
    ensures !ClosedHere(Space(FileText(ds, last)).rest)
  {
    hide DeclText, ConstText, LineText, FitsArg, ShapesArg, FitsConst, FitsLine, Readable, ClosedHere, Depth, Space;
    assert FitsChunk(ds[0]);
    var k := FileText(ds[1..], last);
    match ds[0] {
      case Decl(f, l) => DeclStart(f, l, k); NotOpened(DeclText(f, l, k));
      case Const(c) => ConstStart(c, k); NotOpened(ConstText(c, k));
      case Junk(j) => LineStart(j, "\n" + k);
    }
  }

  lemma LastStart(last: Line)
    requires FitsLine(last) && !last.Block?
    ensures !ClosedHere(Space(LineText(last, "")).rest)
  {
    if last.White? { SpaceRun(last.ws, ""); } else { LineStart(last, ""); }
  }

  // ---- constants are never mistaken for declarations, nor the reverse ----

  lemma NoConstWord(f: Function, l: DeclLayout, k: string)
    requires FitsDecl(f, l) && (l.api.Some? || l.modifier != "const ")
    ensures !("const" <= DeclText(f, l, k))
  {
    var b := Innermost(f.funReturn);
    var st := StarText(l.stars, l.gap + NameText(f, l, TailText(f, l, Ending(l, k))));
    var s := DeclText(f, l, k);
    assert "const"[0] == 'c';
    if l.api.Some? {
      assert s[0] == ShowLib(l.api.value.0)[0] == 'T';
    } else if l.modifier == "" {
      assert s == C.Render(b) + st;
      NoWordBefore(b, st);
    } else {
      assert s[0] == l.modifier[0];
    }
  }

  // The word with which a printed name starts ends before something that is not a semicolon.
  lemma NameWord(f: Function, l: DeclLayout, k: string)
    requires FitsDecl(f, l)
    ensures var n := NameText(f, l, TailText(f, l, Ending(l, k)));
      Some1(IsIdent, n).Ok? ==> Char(';', Some1(IsIdent, n).rest).Err?
  {
    var t := TailText(f, l, Ending(l, k));
    var n := NameText(f, l, t);
    ArgsTextOpens(f, l, Ending(l, k));
    if f.funPrefix.Some? {
      var u := f.funName + (l.nameTrail + (")" + (l.closeTrail + t)));
      GenericTextWord(f.funPrefix.value, u);
      PrefixWordIdent(f.funPrefix.value);
      assert ("(" + u)[0] == '(';
      SomeRun(IsIdent, PrefixWord(f.funPrefix.value), "(" + u);
    } else {
      var u := l.nameTrail + t;
      if l.nameTrail == "" { assert u == t; } else { assert u[0] == l.nameTrail[0]; }
      if f.funName == "" { assert n == u; } else { SomeRun(IsIdent, f.funName, u); }
    }
  }

  lemma ConstantFails(f: Function, l: DeclLayout, k: string)
    requires FitsDecl(f, l)
    ensures Constant(DeclText(f, l, k)).Err?
  {
    hide C.Render, ReturnText, FitsDecl, ParsableTypes;
    if l.api.Some? || l.modifier != "const " {
      NoConstWord(f, l, k);
    } else {
      ConstResultFails(f, l, k);
    }
  }

  // A result type that begins with the word const.
  lemma ConstResultFails(f: Function, l: DeclLayout, k: string)
    requires FitsDecl(f, l)
    ensures Constant("const " + ReturnText(f, l, Ending(l, k))).Err?
  {
    hide C.Render, StarText, ParsableTypes, NameText, TailText, FitsArg, ShapesArg, Ending;
    var b := Innermost(f.funReturn);
    var n := NameText(f, l, TailText(f, l, Ending(l, k)));
    var u := C.Render(b) + StarText(l.stars, l.gap + n);
    NoWordBefore(b, StarText(l.stars, l.gap + n));
    NamePartOk(f, l, Ending(l, k));
    assert "" + u == u;
    if Depth(f.funReturn) > 2 {
      DeepType("", b, l.stars, l.gap + n);
      ConstantSteps(u, Space(ParsableTypes(u).rest).rest);
    } else {
      ParsableTypesOk("", b, l.stars, l.gap + n);
      NameWord(f, l, k);
      ConstantSteps(u, n);
    }
  }

  lemma ConstantSteps(u: string, n: string)
    requires !Starts(IsSpace, u) && ParsableTypes(u).Ok? && Space(ParsableTypes(u).rest) == Ok((), n)
    requires Some1(IsIdent, n).Ok? ==> Char(';', Some1(IsIdent, n).rest).Err?
    ensures Constant("const " + u).Err?
  {
    ConstWord(u);
    SpaceRun(" ", u);
    ConstantSpace("const " + u, " " + u, u, n);
  }

  lemma ConstWord(u: string)
    ensures Str("const", "const " + u) == Ok((), " " + u)
  {
    assert "const" + " " == "const ";
    assert "const" + (" " + u) == "const" + " " + u;
    StrHere("const", " " + u);
  }

  lemma ConstantSpace(s: string, t: string, u: string, n: string)
    requires Str("const", s) == Ok((), t) && Space(t) == Ok((), u)
    requires ParsableTypes(u).Ok? && Space(ParsableTypes(u).rest) == Ok((), n)
    requires Some1(IsIdent, n).Ok? ==> Char(';', Some1(IsIdent, n).rest).Err?
    ensures Constant(s).Err?
  {
  }

  // ---- one step of the file parser ----

  lemma DeclItem(f: Function, l: DeclLayout, k: string)
    requires FitsDecl(f, l) && Readable(f, l)
    ensures Item(DeclText(f, l, k)) == Ok(Some(CanonFunction(f)), AfterDecl(k))
  {
    ConstantFails(f, l, k);
    PrintedIsRead(f, l, k);
  }

  lemma SkipLine(w: string, k: string)
    requires OneLine(w)
    ensures Skip(w + ("\n" + k)) == Ok(None, k)
    ensures w != "" ==> Skip(w) == Ok(None, "")
  {
    ManyRun(NotNewline, w, "\n" + k);
    assert ("\n" + k)[1..] == k;
    ManyRun(NotNewline, w, "");
    assert w + "" == w;
  }

  // A line body as one string.
  function LineBody(j: Line): string { LineText(j, "") }

  lemma LineBodyOk(j: Line, k: string)
    requires FitsLine(j)
    ensures LineText(j, k) == LineBody(j) + k && OneLine(LineBody(j))
  {
    match j {
      case White(ws) =>
      case Other(ws, c, text) =>
        assert LineBody(j) == ws + ([c] + text);
      case Block(ws, body, after) =>
        var t := "*/" + (after + k);
        assert t == ("*/" + (after + "")) + k;
        assert "/*" + (body + t) == ("/*" + (body + ("*/" + (after + "")))) + k;
        CommentOneLine(body);
        assert OneLine("*/" + (after + ""));
        assert OneLine("/*" + (body + ("*/" + (after + ""))));
    }
  }

  lemma CommentOneLine(body: string)
    requires All(IsCommentChar, body)
    ensures OneLine(body)
  {
    assert forall i | 0 <= i < |body| :: IsCommentChar(body[i]);
  }

  // Neither a constant nor a library marker starts with a character that is no identifier character.
  lemma NoWordHere(s: string)
    requires !Starts(IsIdent, s)
    ensures Constant(s).Err? && Optional(s, ApiThenSpace(s)) == Ok(None, s)
  {
    assert "const"[0] == 'c';
    forall lt | lt in SUPPORTED_LIBS ensures !(ShowLib(lt) + "_API" <= s) {
      assert (ShowLib(lt) + "_API")[0] == 'T';
    }
    ApiMiss(SUPPORTED_LIBS, s);
  }

  lemma FunctionFails(s: string)
    requires !Starts(IsIdent, s) && !Starts(IsIdent, Space(s).rest)
    ensures FunctionDecl(s).Err?
  {
    NoWordHere(s);
    ParsableTypesFail(s);
  }

  lemma FunctionFromType(s: string, u: string)
    requires Optional(s, ApiThenSpace(s)) == Ok(None, s) && Optional(u, ApiThenSpace(u)) == Ok(None, u)
    requires ParsableTypes(s) == ParsableTypes(u)
    ensures FunctionDecl(s) == FunctionDecl(u)
  {
  }

  lemma NoTypeNoFunction(s: string)
    requires Optional(s, ApiThenSpace(s)) == Ok(None, s) && ParsableTypes(s).Err?
    ensures FunctionDecl(s).Err?
  {
  }

  // The attempt to read a declaration at the end of a line runs across white space and newlines; it
  // succeeds there exactly when it would succeed at the next text, and only for declarations that
  // begin with their return type.
  lemma FunctionAcrossSpace(s: string, f: Function, l: DeclLayout, k: string)
    requires !Starts(IsIdent, s) && FitsDecl(f, l) && Readable(f, l)
    requires Space(s).rest == DeclText(f, l, k)
    ensures FunctionDecl(s).Ok? ==> FunctionDecl(s) == FunctionDecl(DeclText(f, l, k))
  {
    var u := DeclText(f, l, k);
    var b := Innermost(f.funReturn);
    var st := StarText(l.stars, l.gap + NameText(f, l, TailText(f, l, Ending(l, k))));
    NoWordHere(s);
    NoModifierHere(s);
    if l.api.None? && l.modifier == "" {
      var v := C.Render(b) + st;
      assert u == v && "" + v == v;
      NamePartOk(f, l, Ending(l, k));
      StarTextStart(l.stars, l.gap + NameText(f, l, TailText(f, l, Ending(l, k))));
      NoApi("", b, st);
      TypeModifierOk("", b, st);
      FunctionFromType(s, u);
    } else {
      MarkedTypeFails(f, l, k);
      NoTypeNoFunction(s);
    }
  }

  lemma LibNotMarked(t: TenType, l: LibType, k: string)
    requires l in SUPPORTED_LIBS && !IsNumberLike(t)
    ensures !(LibPart(t) + ShowRaw(t.raw) <= (ShowLib(l) + "_API") + k)
  {
    var p, s := LibPart(t), (ShowLib(l) + "_API") + k;
    var w := p + ShowRaw(t.raw);
    RawShape(t.raw);
    ShowLibIdent(l);
    assert w[|p| + 1] == ShowRaw(t.raw)[1];
    assert 2 <= |p| <= 6 && s[|ShowLib(l)|] == '_' && s[|ShowLib(l)| + 1] == 'A';
    assert |p| <= |ShowLib(l)| ==> UpperAt(s, |p| + 1);
    assert |p| > |ShowLib(l)| ==> w[|ShowLib(l)|] == p[|ShowLib(l)|] != '_';
  }

  predicate UpperAt(s: string, i: int) { 0 <= i < |s| ==> !('a' <= s[i] <= 'z') }

  lemma BaseNotMarked(x: Parsable, l: LibType, k: string)
    requires !x.Ptr? && l in SUPPORTED_LIBS
    ensures !(C.Render(x) <= (ShowLib(l) + "_API") + k)
  {
    var s := (ShowLib(l) + "_API") + k;
    BaseShape(x);
    assert s[0] == 'T';
    match x {
      case CType(c) => CHead(c); assert C.Render(x)[0] == C.RenderCType(c)[0];
      case TenType(t) =>
        TenHead(t);
        if t.lib != ATen && !IsNumberLike(t) { LibNotMarked(t, l, k); }
    }
  }

  lemma BaseNotModifier(x: Parsable, m: string, k: string)
    requires !x.Ptr? && IsModifier(m) && m != ""
    ensures !(C.Render(x) <= m + k)
  {
    hide C.Render;
    BaseShape(x);
    var c0, c1 := C.Render(x)[0], C.Render(x)[1];
    var s := m + k;
    assert s[0] == m[0] && s[1] == m[1];
    assert (c0 == 'c' ==> c1 == 'h') && (c0 == 'u' ==> c1 == 'i') && (c0 == 's' ==> c1 in {'h', 'i'});
    assert !(c0 == m[0] && c1 == m[1]);
  }

  lemma MarkedTypeFails(f: Function, l: DeclLayout, k: string)
    requires FitsDecl(f, l) && (l.api.Some? || l.modifier != "")
    ensures TypeTables(DeclText(f, l, k)).Err?
  {
    var s := DeclText(f, l, k);
    forall x: Parsable | !x.Ptr? ensures !(C.Render(x) <= s) {
      if l.api.Some? {
        BaseNotMarked(x, l.api.value.0, l.api.value.1 + (l.modifier + ReturnText(f, l, Ending(l, k))));
      } else {
        BaseNotModifier(x, l.modifier, ReturnText(f, l, Ending(l, k)));
      }
    }
    TypeTablesMiss(s);
  }

  // The file without its first chunk.
  function Rest(cs: seq<Chunk>, last: Line): string
    requires FitsFile(cs, last)
  {
    if cs == [] then "" else FileText(cs[1..], last)
  }

  lemma SkipItem(s: string, w: string, k: string)
    requires Constant(s).Err? && FunctionDecl(s).Err? && OneLine(w)
    requires s == w + ("\n" + k) || (s == w && w != "" && k == "")
    ensures Item(s) == Ok(None, k)
  {
    SkipLine(w, k);
  }

  lemma DeclRead(s: string)
    requires Constant(s).Err? && FunctionDecl(s).Ok?
    ensures Item(s) == FunctionDecl(s)
  {
  }

  // A file that starts with a line without a declaration: the line is skipped, unless it is white
  // and a declaration right behind it is read from there.
  lemma JunkStep(cs: seq<Chunk>, last: Line) returns (cs': seq<Chunk>, last': Line)
    requires FitsFile(cs, last) && FileText(cs, last) != "" && (cs != [] ==> cs[0].Junk?)
    ensures FitsFile(cs', last')
    ensures var r := Item(FileText(cs, last));
      && r.Ok? && r.rest == FileText(cs', last')
      && DeclsOf(cs) == (if r.val.Some? then [r.val.value] else []) + DeclsOf(cs')
  {
    hide Item, FitsDecl, Readable, ConstText, DeclText, FunctionDecl, Constant;
    var s := FileText(cs, last);
    var j := if cs == [] then last else cs[0].line;
    assert cs != [] ==> FitsChunk(cs[0]);
    var k := Rest(cs, last);
    LineBodyOk(j, if cs == [] then "" else "\n" + k);
    NotIdentLine(j, if cs == [] then "" else "\n" + k);
    NoWordHere(s);
    cs', last' := if cs == [] then [] else cs[1..], if cs == [] then White("") else last;
    assert k == FileText(cs', last');
    assert s == LineBody(j) + (if cs == [] then "" else "\n" + k);
    if FunctionDecl(s).Err? {
      SkipItem(s, LineBody(j), k);
    } else {
      var ds := DropWhite(cs);
      SpaceToChunk(cs, last);
      DeclBehind(ds, last, s);
      assert FitsChunk(ds[0]);
      var e := FileText(ds[1..], last);
      DeclStart(ds[0].f, ds[0].l, e);
      FunctionAcrossSpace(s, ds[0].f, ds[0].l, e);
      PrintedIsRead(ds[0].f, ds[0].l, e);
      DeclRead(s);
      cs', last' := AfterDeclFile(ds[1..], last);
    }
  }

  lemma NotIdentLine(j: Line, k: string)
    requires FitsLine(j) && !Starts(IsIdent, k)
    ensures !Starts(IsIdent, LineText(j, k))
  {
    var s := LineText(j, k);
    var ws := j.ws;
    if ws != "" { assert s[0] == ws[0]; }
  }

  lemma ConstBehind(c: ConstDecl, k: string, s: string)
    requires !Starts(IsIdent, s) && Space(s).rest == Space(ConstText(c, k)).rest
    ensures FunctionDecl(s).Err?
  {
    ConstStart(c, k);
    SpaceNone(ConstText(c, k));
    NoDeclAtConst(c, k);
    NoWordHere(s);
    NoModifierHere(s);
    NoTypeNoFunction(s);
  }

  // If an attempt at white space succeeds, the next thing in the file is a declaration.
  lemma DeclBehind(ds: seq<Chunk>, last: Line, s: string)
    requires FitsFile(ds, last) && Space(s).rest == Space(FileText(ds, last)).rest
    requires ds != [] ==> !(ds[0].Junk? && ds[0].line.White?)
    requires !Starts(IsIdent, s) && FunctionDecl(s).Ok?
    ensures ds != [] && ds[0].Decl?
  {
    if ds == [] {
      if last.White? { SpaceRun(last.ws, ""); } else { LineStart(last, ""); }
      FunctionFails(s);
    } else {
      assert FitsChunk(ds[0]);
      var k := FileText(ds[1..], last);
      if ds[0].Junk? {
        LineStart(ds[0].line, "\n" + k);
        FunctionFails(s);
      } else if ds[0].Const? {
        ConstBehind(ds[0].c, k, s);
      }
    }
  }

  // ---- the theorem ----

  lemma {:induction false} EmptyFile(cs: seq<Chunk>, last: Line)
    requires FitsFile(cs, last) && FileText(cs, last) == ""
    ensures DeclsOf(cs) == []
  {
    if cs != [] {
      assert FitsChunk(cs[0]);
      if cs[0].Decl? { DeclStart(cs[0].f, cs[0].l, FileText(cs[1..], last)); }
      assert false;
    }
  }

  lemma {:induction false} ManyItemsOk(cs: seq<Chunk>, last: Line)
    requires FitsFile(cs, last)
    ensures var r := ManyItems(FileText(cs, last));
      r.Ok? && r.rest == "" && CatMaybes(r.val) == DeclsOf(cs)
    decreases |FileText(cs, last)|
  {
    hide FitsDecl, Readable, ConstText, DeclText, Constant, FunctionDecl;
    var s := FileText(cs, last);
    if s == "" {
      EmptyFile(cs, last);
      ItemAtEnd();
    } else {
      var cs', last';
      if cs != [] && cs[0].Decl? {
        assert FitsChunk(cs[0]);
        DeclItem(cs[0].f, cs[0].l, FileText(cs[1..], last));
        cs', last' := AfterDeclFile(cs[1..], last);
      } else if cs != [] && cs[0].Const? {
        assert FitsChunk(cs[0]);
        ConstantRoundTrip(cs[0].c, FileText(cs[1..], last));
        cs', last' := cs[1..], last;
      } else {
        cs', last' := JunkStep(cs, last);
      }
      ManyItemsOk(cs', last');
      MoreItems(s, Item(s).val, Item(s).rest);
    }
  }

  lemma MoreItems(s: string, x: Option<Function>, k: string)
    requires Item(s) == Ok(x, k) && ManyItems(k).Ok?
    ensures ManyItems(s) == Ok([x] + ManyItems(k).val, ManyItems(k).rest)
    ensures CatMaybes([x] + ManyItems(k).val) == (if x.Some? then [x.value] else []) + CatMaybes(ManyItems(k).val)
  {
    assert ([x] + ManyItems(k).val)[1..] == ManyItems(k).val;
  }

  // Conservation: from a header that interleaves printed declarations with constants and with lines that
  // contain neither, the file parser and cleanList return exactly those declarations in order: none is lost,
  // none is duplicated and none is invented.
  lemma FileConservation(cs: seq<Chunk>, last: Line)
    requires FitsFile(cs, last)
    ensures CleanList(Parser(FileText(cs, last))) == DeclsOf(cs)
  {
    var s := FileText(cs, last);
    ManyItemsOk(cs, last);
    ParserTotal(s);
    if s == "" { EmptyFile(cs, last); }
  }
}
