// The round trip of whole declarations, and exactly when a printed declaration is lost.
module DeclRoundTrip {
  import opened Options
  import opened Chars
  import opened Megaparsec
  import opened Parsed
  import opened Parse
  import opened Spelling
  import opened ParseTypes
  import opened ParseDecl
  import C = RenderC

  datatype DeclLayout = DeclLayout(
    api: Option<(LibType, string)>,  // "<lib>_API" and the white space after it
    modifier: string,                // "const ", "unsigned ", "struct " or nothing
    stars: seq<string>,              // the white space before each star of the return type
    gap: string,                     // white space between return type and name
    nameTrail: string,               // white space after the name
    closeTrail: string,              // white space after the ")" of a generic name
    args: seq<ArgLayout>,
    semiGap: string)                 // white space before the semicolon

  predicate IsPrefix(p: (LibType, string)) { p.0 in SUPPORTED_LIBS && p.1 in SUFFIXES }

  predicate IsMarker(a: (LibType, string)) { a.0 in SUPPORTED_LIBS && Blank(a.1) }

  predicate ShapesArgs(args: seq<Arg>, ls: seq<ArgLayout>) {
    |args| == |ls| && forall i | 0 <= i < |args| :: ShapesArg(args[i], ls[i])
  }

  // The parts of a layout are what their names say.
  predicate ShapesDecl(f: Function, l: DeclLayout) {
    && (l.api.Some? ==> IsMarker(l.api.value))
    && IsModifier(l.modifier)
    && |l.stars| == Depth(f.funReturn) && EachBlank(l.stars)
    && Blank(l.gap) && Blank(l.nameTrail) && Blank(l.closeTrail) && Blank(l.semiGap)
    && (f.funPrefix.Some? ==> IsPrefix(f.funPrefix.value))
    && All(IsIdent, f.funName)
    && ShapesArgs(f.funArgs, l.args)
  }

  // And they keep the words of the declaration apart.
  predicate FitsDecl(f: Function, l: DeclLayout) {
    && ShapesDecl(f, l)
    && (f.funName == "" ==> l.nameTrail == "")
    && (l.stars == [] && (f.funPrefix.Some? || f.funName != "") ==> l.gap != "")
    && FitsArgs(f.funArgs, l.args)
  }

  function GenericText(p: (LibType, string), k: string): string { ShowLib(p.0) + (p.1 + ("_(" + k)) }

  function NameText(f: Function, l: DeclLayout, k: string): string {
    match f.funPrefix
    case Some(p) => GenericText(p, f.funName + (l.nameTrail + (")" + (l.closeTrail + k))))
    case None => f.funName + (l.nameTrail + k)
  }

  // The argument list, and the text e behind its closing parenthesis.
  function TailText(f: Function, l: DeclLayout, e: string): string
    requires |f.funArgs| == |l.args|
  {
    "(" + ArgsText(f.funArgs, l.args, e)
  }

  function ReturnText(f: Function, l: DeclLayout, e: string): string
    requires |f.funArgs| == |l.args|
  {
    C.Render(Innermost(f.funReturn)) + StarText(l.stars, l.gap + NameText(f, l, TailText(f, l, e)))
  }

  function ApiText(a: Option<(LibType, string)>, k: string): string {
    if a.None? then k else (ShowLib(a.value.0) + "_API") + (a.value.1 + k)
  }

  // The declaration up to its closing parenthesis, and the text e behind it.
  function HeadText(f: Function, l: DeclLayout, e: string): string
    requires |f.funArgs| == |l.args|
  {
    ApiText(l.api, l.modifier + ReturnText(f, l, e))
  }

  // What follows the closing parenthesis.
  function Ending(l: DeclLayout, k: string): string { l.semiGap + (";" + k) }

  // The declaration f printed with layout l in front of the text k.
  function DeclText(f: Function, l: DeclLayout, k: string): string
    requires |f.funArgs| == |l.args|
  {
    HeadText(f, l, Ending(l, k))
  }

  // The text left after a declaration: a following one-line block comment is dropped.
  function AfterDecl(k: string): string { if Comment(k).Ok? then Comment(k).rest else k }

  // ---- generic names ----

  lemma ShowLibIdent(lt: LibType)
    ensures 2 <= |ShowLib(lt)| <= 6 && All(IsAlphaNum, ShowLib(lt))
  {
    var s := ShowLib(lt);
    assert AlnumAt(s, 0) && AlnumAt(s, 1) && AlnumAt(s, 2) && AlnumAt(s, 3) && AlnumAt(s, 4) && AlnumAt(s, 5);
    forall i | 0 <= i < |s| ensures IsAlphaNum(s[i]) { assert AlnumAt(s, i); }
  }

  lemma SuffixIdent(x: string)
    requires x in SUFFIXES
    ensures |x| <= 7 && All(IsAlphaNum, x)
  {
    assert AlnumAt(x, 0) && AlnumAt(x, 1) && AlnumAt(x, 2) && AlnumAt(x, 3);
    assert AlnumAt(x, 4) && AlnumAt(x, 5) && AlnumAt(x, 6);
    forall i | 0 <= i < |x| ensures IsAlphaNum(x[i]) { assert AlnumAt(x, i); }
  }

  // The part of a generic name before its parenthesis.
  function PrefixWord(p: (LibType, string)): string { ShowLib(p.0) + p.1 + "_" }

  lemma PrefixWordIdent(p: (LibType, string))
    requires IsPrefix(p)
    ensures All(IsIdent, PrefixWord(p))
  {
    ShowLibIdent(p.0);
    SuffixIdent(p.1);
  }

  lemma PrefixWordInjective(p: (LibType, string), q: (LibType, string))
    requires IsPrefix(p) && IsPrefix(q) && PrefixWord(p) == PrefixWord(q)
    ensures p == q
  {
    var s, t := PrefixWord(p), PrefixWord(q);
    assert |s| == |t|;
    assert s[0] == t[0] && s[1] == t[1] && s[2] == t[2];
    assert |s| > 3 ==> s[3] == t[3];
    assert |s| > 4 ==> s[4] == t[4];
    assert |s| > 6 ==> s[6] == t[6];
  }

  lemma GenericTextWord(p: (LibType, string), k: string)
    ensures GenericText(p, k) == PrefixWord(p) + ("(" + k)
  {
    assert "_(" + k == "_" + ("(" + k);
  }

  lemma PrefixSound(p: (LibType, string), s: string)
    requires Prefix(p.0, p.1, s).Ok?
    ensures s == GenericText(p, Prefix(p.0, p.1, s).rest) && PrefixWord(p) + "(" <= s
  {
    var r := Prefix(p.0, p.1, s);
    var w := ShowLib(p.0);
    StrSplit(w, s);
    StrSplit(p.1, Str(w, s).rest);
    StrSplit("_(", Str(p.1, Str(w, s).rest).rest);
    GenericTextWord(p, r.rest);
    WordSplit(PrefixWord(p), r.rest);
  }

  lemma StrSplit(w: string, s: string)
    requires Str(w, s).Ok?
    ensures s == w + Str(w, s).rest
  {
  }

  lemma WordSplit(w: string, k: string)
    ensures w + "(" <= w + ("(" + k)
  {
    assert w + ("(" + k) == w + "(" + k;
  }

  // Prefix recognises exactly the texts that start with its word and a parenthesis.
  lemma PrefixOk(p: (LibType, string), s: string)
    ensures Prefix(p.0, p.1, s).Ok? <==> PrefixWord(p) + "(" <= s
    ensures Prefix(p.0, p.1, s).Ok? ==>
      (s == GenericText(p, Prefix(p.0, p.1, s).rest) && Prefix(p.0, p.1, s).val == p)
  {
    var w := ShowLib(p.0);
    if Prefix(p.0, p.1, s).Ok? { PrefixSound(p, s); }
    if PrefixWord(p) + "(" <= s {
      var k := s[|PrefixWord(p)| + 1..];
      assert s == PrefixWord(p) + ("(" + k);
      GenericTextWord(p, k);
      StrHere(w, p.1 + ("_(" + k));
      StrHere(p.1, "_(" + k);
      StrHere("_(", k);
    }
  }

  predicate Opens(k: string) { k != "" && k[0] == '(' }

  // A word followed by a parenthesis: the first parenthesis marks the end of the word.
  lemma WordBeforeParen(v: string, w: string, k: string)
    requires All(IsIdent, v) && All(IsIdent, w) && !Starts(IsIdent, k)
    ensures v + "(" <= w + k <==> v == w && Opens(k)
  {
    var s := w + k;
    if v + "(" <= s {
      PrefixOfRun(v, w, k);
      assert (v + "(")[|v|] == s[|v|];
      assert IdentAt(w, |v|);
    }
  }

  lemma PrefixTableEntry(p: (LibType, string)) returns (i: nat)
    requires IsPrefix(p)
    ensures i < 24 && PrefixTable()[i] == p
  {
    var a :| 0 <= a < 4 && SUPPORTED_LIBS[a] == p.0;
    var b :| 0 <= b < 6 && SUFFIXES[b] == p.1;
    i := 6 * a + b;
    assert i / 6 == a && i % 6 == b;
  }

  lemma {:induction false} PrefixesMiss(table: seq<(LibType, string)>, s: string)
    requires forall p | p in table :: Prefix(p.0, p.1, s).Err?
    ensures PrefixesFrom(table, s) == Err(s)
  {
    if table != [] { PrefixesMiss(table[1..], s); }
  }

  lemma {:induction false} PrefixesHit(table: seq<(LibType, string)>, i: nat, s: string)
    requires i < |table| && Prefix(table[i].0, table[i].1, s).Ok?
    requires forall p | p in table :: Prefix(p.0, p.1, s).Ok? ==> p == table[i]
    ensures PrefixesFrom(table, s) == Prefix(table[i].0, table[i].1, s)
  {
    if i != 0 && Prefix(table[0].0, table[0].1, s).Err? { PrefixesHit(table[1..], i - 1, s); }
  }

  lemma PrefixAt(p: (LibType, string), w: string, k: string)
    requires IsPrefix(p) && All(IsIdent, w) && !Starts(IsIdent, k)
    ensures Prefix(p.0, p.1, w + k).Ok? <==> PrefixWord(p) == w && Opens(k)
  {
    PrefixWordIdent(p);
    PrefixOk(p, w + k);
    WordBeforeParen(PrefixWord(p), w, k);
  }

  lemma TableIsPrefix(p: (LibType, string))
    requires p in PrefixTable()
    ensures IsPrefix(p)
  {
    var i :| 0 <= i < 24 && PrefixTable()[i] == p;
    assert SUPPORTED_LIBS[i / 6] in SUPPORTED_LIBS && SUFFIXES[i % 6] in SUFFIXES;
  }

  // Each of the 24 prefixes is read back, whatever the order of the table.
  lemma GenericPrefixHit(p: (LibType, string), k: string)
    requires IsPrefix(p)
    ensures GenericPrefixes(PrefixWord(p) + ("(" + k)) == Ok(p, k)
  {
    var w := PrefixWord(p);
    var s := w + ("(" + k);
    var i := PrefixTableEntry(p);
    PrefixWordIdent(p);
    PrefixAt(p, w, "(" + k);
    forall q | q in PrefixTable() && Prefix(q.0, q.1, s).Ok? ensures q == p {
      TableIsPrefix(q);
      PrefixAt(q, w, "(" + k);
      PrefixWordInjective(p, q);
    }
    PrefixesHit(PrefixTable(), i, s);
    PrefixOk(p, s);
    var r := Prefix(p.0, p.1, s).rest;
    GenericTextWord(p, r);
    assert s[|w|..] == "(" + k && s[|w|..] == "(" + r;
    assert ("(" + k)[1..] == k && ("(" + r)[1..] == r;
  }

  lemma GenericPrefixMiss(w: string, k: string)
    requires All(IsIdent, w) && !Starts(IsIdent, k)
    requires !Opens(k) || forall p | IsPrefix(p) :: PrefixWord(p) != w
    ensures GenericPrefixes(w + k) == Err(w + k)
  {
    forall q | q in PrefixTable() ensures Prefix(q.0, q.1, w + k).Err? {
      TableIsPrefix(q);
      PrefixAt(q, w, k);
    }
    PrefixesMiss(PrefixTable(), w + k);
  }

  // ---- function names ----

  // A word, the white space after it, and then something that is neither.
  lemma ConcreteNameOk(w: string, ws: string, k: string)
    requires All(IsIdent, w) && Blank(ws) && !Starts(IsSpace, k)
    requires w == "" || ws != "" || !Starts(IsIdent, k)
    requires w == "" && ws == "" ==> !Starts(IsIdent, k)
    ensures ConcreteName(w + (ws + k)) == Ok(w, k)
  {
    var u := ws + k;
    if ws == "" { assert u == k; } else { assert u[0] == ws[0]; }
    WordOk(w, u);
    SpaceRun(ws, k);
  }

  lemma WordOk(w: string, u: string)
    requires All(IsIdent, w) && !Starts(IsIdent, u)
    ensures var s := w + u; Or(s, Some1(IsIdent, s), Ok("", s)) == Ok(w, u)
  {
    if w == "" { assert w + u == u; } else { SomeRun(IsIdent, w, u); }
  }

  // The arguments are a single type and nothing else, or nothing at all, so that "(type)" or "()" could be
  // taken for a name.
  predicate LoneWord(args: seq<Arg>, ls: seq<ArgLayout>)
    requires FitsArgs(args, ls)
  {
    args == [] || LoneType(args, ls)
  }

  predicate LoneType(args: seq<Arg>, ls: seq<ArgLayout>)
    requires FitsArgs(args, ls)
  {
    && |args| == 1 && args[0].argName == "" && Depth(args[0].argType) == 0
    && ls[0].lead == "" && ls[0].qualifier.None? && ls[0].modifier == "" && ls[0].note.None? && !ls[0].comma
  }

  predicate ClosesAfterWord(s: string) { Str(")", ConcreteName(s).rest).Ok? }

  lemma ClosesAfterNothing(k: string)
    ensures ConcreteName(")" + k) == Ok("", ")" + k) && Str(")", ")" + k) == Ok((), k)
  {
    var s := ")" + k;
    assert s[0] == ')' && "" + s == s;
    ConcreteNameOk("", "", s);
    StrHere(")", k);
  }

  lemma ClosesAfterWordOk(args: seq<Arg>, ls: seq<ArgLayout>, k: string)
    requires FitsArgs(args, ls)
    ensures ConcreteName(ArgsText(args, ls, k)).Ok?
    ensures ClosesAfterWord(ArgsText(args, ls, k)) <==> LoneWord(args, ls)
    ensures LoneWord(args, ls) ==> ConcreteName(ArgsText(args, ls, k)).rest == ")" + k
  {
    if args == [] {
      ClosesAfterNothing(k);
    } else {
      var a, l := args[0], ls[0];
      assert FitsArg(a, l);
      var e := EndText(args, ls, k);
      assert Closing(e) && (e[0] == ')' <==> |args| == 1 && l.note.None? && !l.comma);
      assert e[0] == ')' ==> e == ")" + k;
      FirstWord(a, l, e);
    }
  }

  // Reading a name from s stops before something other than a closing parenthesis.
  predicate StopsEarly(s: string) {
    ConcreteName(s).Ok? && Starts(c => c != ')', ConcreteName(s).rest)
  }

  lemma WordStops(w: string, ws: string, k: string)
    requires All(IsIdent, w) && Blank(ws) && Starts(c => c != ')' && !IsSpace(c), k)
    requires ws != "" || !Starts(IsIdent, k)
    ensures StopsEarly(w + (ws + k))
  {
    ConcreteNameOk(w, ws, k);
  }

  lemma BlankFirst(ws: string, k: string)
    requires ws != "" && Blank(ws) && Starts(IsIdent, k)
    ensures StopsEarly(ws + k)
  {
    assert "" + (ws + k) == ws + k;
    WordStops("", ws, k);
  }

  lemma BareWord(b: Parsable, a: Arg, l: ArgLayout, e: string)
    requires FitsArg(a, l) && Closing(e) && !b.Ptr?
    ensures var s := C.Render(b) + StarText(l.stars, NamePart(a, l, e));
      if l.stars == [] && a.argName == "" then ConcreteName(s) == Ok(C.Render(b), e) else StopsEarly(s)
  {
    hide C.Render, ConcreteName;
    BaseShape(b);
    var n := NamePart(a, l, e);
    if l.stars != [] {
      WordStops(C.Render(b), l.stars[0], "*" + StarText(l.stars[1..], n));
    } else {
      var u := a.argName + (l.trail + e);
      if a.argName != "" {
        assert u[0] == a.argName[0];
        WordStops(C.Render(b), l.gap, u);
      } else {
        assert u == e;
        ConcreteNameOk(C.Render(b), l.gap, u);
      }
    }
  }

  lemma ModifiedWord(m: string, b: Parsable, k: string)
    requires m in {"unsigned ", "struct "} && !b.Ptr?
    ensures StopsEarly(m + (C.Render(b) + k))
  {
    ModifierWord(m, C.Render(b) + k);
    BaseShape(b);
    assert (C.Render(b) + k)[0] == C.Render(b)[0];
    WordStops(m[..|m| - 1], " ", C.Render(b) + k);
  }

  lemma FirstWord(a: Arg, l: ArgLayout, e: string)
    requires FitsArg(a, l) && Closing(e)
    ensures var s := ArgText(a, l, e);
      if l.lead == "" && l.qualifier.None? && l.modifier == "" && l.stars == [] && a.argName == "" then
        ConcreteName(s) == Ok(C.Render(Innermost(a.argType)), e)
      else StopsEarly(s)
  {
    var t := TypePart(a, l, e);
    QualifierOk(l, Innermost(a.argType), StarText(l.stars, NamePart(a, l, e)));
    if l.lead != "" {
      BlankFirst(l.lead, QualifierText(l.qualifier, t));
    } else if l.qualifier.Some? {
      QualifiedWord(l.qualifier.value, t);
      assert ArgText(a, l, e) == QualifierText(l.qualifier, t);
    } else {
      assert ArgText(a, l, e) == t;
      TypeWord(a, l, e);
    }
  }

  lemma QualifiedWord(q: (string, string), k: string)
    requires q.0 in {"const", "volatile"} && q.1 != "" && Blank(q.1) && Starts(IsIdent, k)
    ensures StopsEarly(q.0 + (q.1 + k))
  {
    QualifierIsIdent(q.0);
    WordStops(q.0, q.1, k);
  }

  lemma TypeWord(a: Arg, l: ArgLayout, e: string)
    requires FitsArg(a, l) && Closing(e) && l.qualifier.None?
    ensures var s := TypePart(a, l, e);
      if l.modifier == "" && l.stars == [] && a.argName == "" then
        ConcreteName(s) == Ok(C.Render(Innermost(a.argType)), e)
      else StopsEarly(s)
  {
    var b := Innermost(a.argType);
    var st := StarText(l.stars, NamePart(a, l, e));
    if l.modifier != "" {
      ModifiedWord(l.modifier, b, st);
    } else {
      assert TypePart(a, l, e) == C.Render(b) + st;
      BareWord(b, a, l, e);
    }
  }

  lemma QualifierIsIdent(w: string)
    requires w in {"const", "volatile"}
    ensures All(IsIdent, w)
  {
    assert IdentAt(w, 0) && IdentAt(w, 1) && IdentAt(w, 2) && IdentAt(w, 3);
    assert IdentAt(w, 4) && IdentAt(w, 5) && IdentAt(w, 6) && IdentAt(w, 7);
    forall i | 0 <= i < |w| ensures IsIdent(w[i]) { assert IdentAt(w, i); }
  }

  lemma ModifierWord(m: string, k: string)
    requires m in {"unsigned ", "struct "}
    ensures All(IsIdent, m[..|m| - 1]) && m + k == m[..|m| - 1] + (" " + k)
  {
    var w := m[..|m| - 1];
    assert IdentAt(w, 0) && IdentAt(w, 1) && IdentAt(w, 2) && IdentAt(w, 3);
    assert IdentAt(w, 4) && IdentAt(w, 5) && IdentAt(w, 6) && IdentAt(w, 7);
    forall i | 0 <= i < |w| ensures IsIdent(w[i]) { assert IdentAt(w, i); }
    assert m == w + " ";
  }

  // A concrete name that is one of the generic words directly before its parenthesis.
  predicate LooksGeneric(f: Function, l: DeclLayout) {
    f.funPrefix.None? && l.nameTrail == "" && exists p | p in PrefixTable() :: PrefixWord(p) == f.funName
  }

  // "THTensor_(void);" and "THTensor_();" read as generic names without an argument list.
  predicate Clash(f: Function, l: DeclLayout)
    requires FitsArgs(f.funArgs, l.args)
  {
    LooksGeneric(f, l) && LoneWord(f.funArgs, l.args)
  }

  // The declarations that can be read.
  predicate Readable(f: Function, l: DeclLayout)
    requires FitsArgs(f.funArgs, l.args)
  {
    Listable(f.funArgs) && Depth(f.funReturn) <= 2 && !Clash(f, l)
  }

  lemma ArgsTextOpens(f: Function, l: DeclLayout, k: string)
    requires FitsDecl(f, l)
    ensures Opens(TailText(f, l, k)) && !Starts(IsIdent, TailText(f, l, k)) && !Starts(IsSpace, TailText(f, l, k))
    ensures TailText(f, l, k)[1..] == ArgsText(f.funArgs, l.args, k)
  {
  }

  lemma GenericNameOk(f: Function, l: DeclLayout, k: string)
    requires FitsDecl(f, l) && f.funPrefix.Some?
    ensures GenericName(NameText(f, l, TailText(f, l, k))) == Ok((f.funPrefix, f.funName), TailText(f, l, k))
  {
    var p := f.funPrefix.value;
    var t := TailText(f, l, k);
    ArgsTextOpens(f, l, k);
    var u := ")" + (l.closeTrail + t);
    var s := f.funName + (l.nameTrail + u);
    GenericTextWord(p, s);
    GenericPrefixHit(p, s);
    ConcreteNameOk(f.funName, l.nameTrail, u);
    StrHere(")", l.closeTrail + t);
    SpaceRun(l.closeTrail, t);
  }

  lemma PlainNameOk(f: Function, l: DeclLayout, k: string)
    requires FitsDecl(f, l) && f.funPrefix.None?
    ensures PlainName(NameText(f, l, TailText(f, l, k))) == Ok((None, f.funName), TailText(f, l, k))
  {
    ArgsTextOpens(f, l, k);
    ConcreteNameOk(f.funName, l.nameTrail, TailText(f, l, k));
  }

  // A concrete name is mistaken for a generic one only in a clash.
  lemma NotGeneric(f: Function, l: DeclLayout, k: string)
    requires FitsDecl(f, l) && f.funPrefix.None? && !Clash(f, l)
    ensures GenericName(NameText(f, l, TailText(f, l, k))).Err?
  {
    var t := TailText(f, l, k);
    var u := l.nameTrail + t;
    ArgsTextOpens(f, l, k);
    if l.nameTrail == "" { assert u == t; } else { assert u[0] == l.nameTrail[0]; }
    if LooksGeneric(f, l) {
      var p :| p in PrefixTable() && PrefixWord(p) == f.funName;
      TableIsPrefix(p);
      GenericPrefixHit(p, ArgsText(f.funArgs, l.args, k));
      ClosesAfterWordOk(f.funArgs, l.args, k);
    } else {
      forall p | IsPrefix(p) && l.nameTrail == "" ensures PrefixWord(p) != f.funName {
        var i := PrefixTableEntry(p);
        assert p in PrefixTable();
      }
      GenericPrefixMiss(f.funName, u);
    }
  }

  lemma NameChoiceOk(f: Function, l: DeclLayout, k: string)
    requires FitsDecl(f, l) && !Clash(f, l)
    ensures var s := NameText(f, l, TailText(f, l, k));
      Or(s, Try(s, GenericName(s)), PlainName(s)) == Ok((f.funPrefix, f.funName), TailText(f, l, k))
  {
    if f.funPrefix.Some? { GenericNameOk(f, l, k); } else { NotGeneric(f, l, k); PlainNameOk(f, l, k); }
  }

  // In a clash the argument list has been spent on the name, and no argument list is left.
  lemma ClashFails(f: Function, l: DeclLayout, k: string)
    requires FitsDecl(f, l) && Clash(f, l)
    ensures var s := NameText(f, l, TailText(f, l, Ending(l, k)));
      var r := Or(s, Try(s, GenericName(s)), PlainName(s)); r.Ok? && FunctionArgs(r.rest).Err?
  {
    hide FunctionArgs, ArgsText, ConcreteName, LoneWord, GenericPrefixes;
    var p :| p in PrefixTable() && PrefixWord(p) == f.funName;
    TableIsPrefix(p);
    var e := Ending(l, k);
    var a := ArgsText(f.funArgs, l.args, e);
    var t := TailText(f, l, e);
    assert "" + t == t;
    GenericPrefixHit(p, a);
    ClosesAfterWordOk(f.funArgs, l.args, e);
    StrHere(")", e);
    SpaceRun(l.semiGap, ";" + k);
    NoList(k);
  }

  lemma NoList(k: string)
    ensures FunctionArgs(";" + k).Err?
  {
    ParenNewlineFails(";" + k);
    assert (";" + k)[0] == ';';
  }

  // ---- the library marker in front of a declaration ----

  lemma ApiWord(lt: LibType, k: string)
    requires lt in SUPPORTED_LIBS
    ensures forall l | l in SUPPORTED_LIBS && ShowLib(l) + "_API" <= (ShowLib(lt) + "_API") + k :: l == lt
  {
    forall l | l in SUPPORTED_LIBS && ShowLib(l) + "_API" <= (ShowLib(lt) + "_API") + k ensures l == lt {
      var s, t := ShowLib(l) + "_API", (ShowLib(lt) + "_API") + k;
      assert s[2] == t[2] && s[3] == t[3];
    }
  }

  lemma {:induction false} ApiHit(libs: seq<LibType>, lt: LibType, k: string)
    requires lt in libs && forall l | l in libs :: l in SUPPORTED_LIBS
    ensures ApiFor(libs, (ShowLib(lt) + "_API") + k) == Ok((), k)
  {
    var w := ShowLib(lt) + "_API";
    StrHere(w, k);
    ApiWord(lt, k);
    if libs[0] != lt { ApiHit(libs[1..], lt, k); }
  }

  lemma {:induction false} ApiMiss(libs: seq<LibType>, s: string)
    requires forall l | l in libs :: !(ShowLib(l) + "_API" <= s)
    ensures ApiFor(libs, s) == Err(s)
  {
    if libs != [] { ApiMiss(libs[1..], s); }
  }

  lemma UnderscorePrefix(w: string, i: nat, v: string)
    requires i < |w| && w[i] == '_' && w <= v
    ensures !All(IsAlphaNum, v) && v[0] == w[0]
  {
    assert v[i] == '_';
  }

  lemma NoApiWord(lt: LibType, b: Parsable, k: string)
    requires lt in SUPPORTED_LIBS && !b.Ptr? && !Starts(IsIdent, k)
    ensures !(ShowLib(lt) + "_API" <= C.Render(b) + k)
  {
    var w, u := ShowLib(lt) + "_API", C.Render(b) + k;
    BaseShape(b);
    ApiIdent(lt);
    assert w[0] == 'T' && w[|ShowLib(lt)|] == '_';
    if w <= u {
      PrefixOfRun(w, C.Render(b), k);
      UnderscorePrefix(w, |ShowLib(lt)|, C.Render(b));
    }
  }

  lemma NoApi(m: string, b: Parsable, k: string)
    requires IsModifier(m) && !b.Ptr? && !Starts(IsIdent, k)
    ensures var s := m + (C.Render(b) + k); Api(s) == Err(s)
  {
    var s := m + (C.Render(b) + k);
    forall lt | lt in SUPPORTED_LIBS ensures !(ShowLib(lt) + "_API" <= s) {
      if m == "" {
        assert s == C.Render(b) + k;
        NoApiWord(lt, b, k);
      } else {
        assert (ShowLib(lt) + "_API")[0] == 'T' && s[0] == m[0];
      }
    }
    ApiMiss(SUPPORTED_LIBS, s);
  }

  lemma ApiIdent(l: LibType)
    ensures All(IsIdent, ShowLib(l) + "_API")
  {
    ShowLibIdent(l);
    var a := "_API";
    assert IdentAt(a, 0) && IdentAt(a, 1) && IdentAt(a, 2) && IdentAt(a, 3);
    forall i | 0 <= i < |a| ensures IsIdent(a[i]) { assert IdentAt(a, i); }
  }

  lemma NamePartOk(f: Function, l: DeclLayout, k: string)
    requires FitsDecl(f, l)
    ensures var t := NameText(f, l, TailText(f, l, k)); var n := l.gap + t;
      Space(n) == Ok((), t) && NoStar(n) && (l.stars == [] ==> !Starts(IsIdent, n))
  {
    var t := NameText(f, l, TailText(f, l, k));
    var n := l.gap + t;
    ArgsTextOpens(f, l, k);
    if f.funPrefix.Some? {
      ShowLibIdent(f.funPrefix.value.0);
      assert t[0] == ShowLib(f.funPrefix.value.0)[0];
    } else if f.funName != "" {
      assert t[0] == f.funName[0];
    } else {
      assert t == TailText(f, l, k);
    }
    SpaceRun(l.gap, t);
    if l.gap == "" { assert n == t; } else { assert n[0] == l.gap[0]; }
  }

  // The declaration as far as the start of its name.
  lemma DeclHead(f: Function, l: DeclLayout, k: string)
    requires FitsDecl(f, l) && Depth(f.funReturn) <= 2
    ensures var s := HeadText(f, l, k);
      && Optional(s, ApiThenSpace(s)).Ok?
      && Optional(s, ApiThenSpace(s)).rest == l.modifier + ReturnText(f, l, k)
      && ParsableTypes(l.modifier + ReturnText(f, l, k))
         == Ok(Canon(f.funReturn), l.gap + NameText(f, l, TailText(f, l, k)))
  {
    var b := Innermost(f.funReturn);
    var n := l.gap + NameText(f, l, TailText(f, l, k));
    NamePartOk(f, l, k);
    StarTextStart(l.stars, n);
    ParsableTypesOk(l.modifier, b, l.stars, n);
    CanonPointers(f.funReturn);
    ApiOk(l.api, l.modifier, b, StarText(l.stars, n));
  }

  lemma ApiOk(a: Option<(LibType, string)>, m: string, b: Parsable, k: string)
    requires a.Some? ==> IsMarker(a.value)
    requires IsModifier(m) && !b.Ptr? && !Starts(IsIdent, k)
    ensures var u := m + (C.Render(b) + k); var s := ApiText(a, u);
      Optional(s, ApiThenSpace(s)).Ok? && Optional(s, ApiThenSpace(s)).rest == u
  {
    var u := m + (C.Render(b) + k);
    if a.None? {
      NoApi(m, b, k);
    } else {
      ApiHit(SUPPORTED_LIBS, a.value.0, a.value.1 + u);
      NoWordBefore(b, k);
      if m == "" { assert u == C.Render(b) + k; } else { assert u[0] == m[0]; }
      SpaceRun(a.value.1, u);
    }
  }

  lemma Assemble(s: string, s1: string, ret: Parsable, s2: string, s3: string, name: Name, s4: string,
                 args: seq<Arg>, s5: string, k: string)
    requires Optional(s, ApiThenSpace(s)).Ok? && Optional(s, ApiThenSpace(s)).rest == s1
    requires ParsableTypes(s1) == Ok(ret, s2) && Space(s2) == Ok((), s3)
    requires Or(s3, Try(s3, GenericName(s3)), PlainName(s3)) == Ok(name, s4)
    requires FunctionArgs(s4) == Ok(args, s5) && Space(s5) == Ok((), ";" + k)
    ensures FunctionDecl(s) == Ok(Some(Function(name.0, name.1, args, ret)), AfterDecl(k))
  {
    assert (";" + k)[1..] == k;
  }

  lemma PrintedIsRead(f: Function, l: DeclLayout, k: string)
    requires FitsDecl(f, l) && Readable(f, l)
    ensures FunctionDecl(DeclText(f, l, k)) == Ok(Some(CanonFunction(f)), AfterDecl(k))
  {
    hide FunctionDecl, ParsableTypes, FunctionArgs, ArgsText, NameText, GenericName, PlainName, HeadText, ReturnText;
    var e := Ending(l, k);
    var n := NameText(f, l, TailText(f, l, e));
    DeclHead(f, l, e);
    NamePartOk(f, l, e);
    NameChoiceOk(f, l, e);
    FunctionArgsOk(f.funArgs, l.args, e);
    SpaceRun(l.semiGap, ";" + k);
    Assemble(DeclText(f, l, k), l.modifier + ReturnText(f, l, e), Canon(f.funReturn), l.gap + n, n,
             (f.funPrefix, f.funName), TailText(f, l, e), CanonArgs(f.funArgs), e, k);
  }

  // A declaration fails if its argument list does not follow its name.
  lemma NameFails(f: Function, l: DeclLayout, k: string)
    requires FitsDecl(f, l) && Depth(f.funReturn) <= 2
    requires var s := NameText(f, l, TailText(f, l, k));
      var r := Or(s, Try(s, GenericName(s)), PlainName(s)); r.Ok? ==> FunctionArgs(r.rest).Err?
    ensures FunctionDecl(HeadText(f, l, k)).Err?
  {
    hide ParsableTypes, FunctionArgs, ArgsText, NameText, GenericName, PlainName, HeadText, ReturnText;
    var n := NameText(f, l, TailText(f, l, k));
    DeclHead(f, l, k);
    NamePartOk(f, l, k);
    var s := HeadText(f, l, k);
    var s1 := l.modifier + ReturnText(f, l, k);
    assert Optional(s, ApiThenSpace(s)).rest == s1;
    assert ParsableTypes(s1).rest == l.gap + n;
    assert Space(l.gap + n).rest == n;
  }

  lemma ClashIsLost(f: Function, l: DeclLayout, k: string)
    requires FitsDecl(f, l) && Depth(f.funReturn) <= 2 && Clash(f, l)
    ensures FunctionDecl(DeclText(f, l, k)).Err?
  {
    ClashFails(f, l, k);
    NameFails(f, l, Ending(l, k));
  }

  // So is a declaration without arguments or with a triple pointer among them, whatever follows it.
  lemma UnlistableIsLost(f: Function, l: DeclLayout, e: string)
    requires FitsDecl(f, l) && Depth(f.funReturn) <= 2 && !Clash(f, l) && !Listable(f.funArgs)
    ensures FunctionDecl(HeadText(f, l, e)).Err?
  {
    NameChoiceOk(f, l, e);
    FunctionArgsFail(f.funArgs, l.args, e);
    NameFails(f, l, e);
  }

  // And one that returns a triple pointer: its third star is no name.
  lemma DeepReturnIsLost(f: Function, l: DeclLayout, e: string)
    requires FitsDecl(f, l) && Depth(f.funReturn) > 2
    ensures FunctionDecl(HeadText(f, l, e)).Err?
  {
    var b := Innermost(f.funReturn);
    var n := l.gap + NameText(f, l, TailText(f, l, e));
    var s, s1 := HeadText(f, l, e), l.modifier + ReturnText(f, l, e);
    assert !Starts(IsIdent, StarText(l.stars, n)) by { StarTextStart(l.stars, n); }
    ApiOk(l.api, l.modifier, b, StarText(l.stars, n));
    DeepType(l.modifier, b, l.stars, n);
    StarIsNoName(Space(ParsableTypes(s1).rest).rest);
    assert Optional(s, ApiThenSpace(s)).rest == s1;
  }

  lemma StarIsNoName(s: string)
    requires Starts(c => c == '*', s)
    ensures var r := Or(s, Try(s, GenericName(s)), PlainName(s)); r.Ok? ==> FunctionArgs(r.rest).Err?
  {
    assert "" + s == s && !IsIdent('*');
    GenericPrefixMiss("", s);
    ConcreteNameOk("", "", s);
    ParenNewlineFails(s);
  }

  // Without a semicolon behind its closing parenthesis nothing is read: an inline definition is no declaration.
  lemma NoSemicolon(f: Function, l: DeclLayout, e: string)
    requires FitsDecl(f, l) && !Clash(f, l) && !(";" <= Space(e).rest)
    ensures FunctionDecl(HeadText(f, l, e)).Err?
  {
    hide FunctionDecl, HeadText, Listable, Clash, Depth, Space;
    if Depth(f.funReturn) > 2 {
      DeepReturnIsLost(f, l, e);
    } else if !Listable(f.funArgs) {
      UnlistableIsLost(f, l, e);
    } else {
      ReadableNoSemicolon(f, l, e);
    }
  }

  lemma ReadableNoSemicolon(f: Function, l: DeclLayout, e: string)
    requires FitsDecl(f, l) && Readable(f, l) && !(";" <= Space(e).rest)
    ensures FunctionDecl(HeadText(f, l, e)).Err?
  {
    hide ParsableTypes, FunctionArgs, ArgsText, NameText, GenericName, PlainName, HeadText, ReturnText;
    var n := NameText(f, l, TailText(f, l, e));
    DeclHead(f, l, e);
    NamePartOk(f, l, e);
    NameChoiceOk(f, l, e);
    FunctionArgsOk(f.funArgs, l.args, e);
    var s, s1 := HeadText(f, l, e), l.modifier + ReturnText(f, l, e);
    assert Optional(s, ApiThenSpace(s)).rest == s1;
    assert ParsableTypes(s1).rest == l.gap + n && Space(l.gap + n).rest == n;
    assert Char(';', Space(e).rest).Err?;
  }

  // A printed declaration is read back, with real and accreal types canonicalised, whatever its
  // layout and whatever follows it, exactly when it is readable; otherwise it is lost.
  lemma FunctionRoundTrip(f: Function, l: DeclLayout, k: string)
    requires FitsDecl(f, l)
    ensures FunctionDecl(DeclText(f, l, k)) == Ok(Some(CanonFunction(f)), AfterDecl(k)) <==> Readable(f, l)
    ensures !Readable(f, l) ==> FunctionDecl(DeclText(f, l, k)).Err?
  {
    hide FunctionDecl, HeadText, Listable, Clash, Depth;
    if Depth(f.funReturn) > 2 {
      DeepReturnIsLost(f, l, Ending(l, k));
    } else if Clash(f, l) {
      ClashIsLost(f, l, k);
    } else if !Listable(f.funArgs) {
      UnlistableIsLost(f, l, Ending(l, k));
    } else {
      PrintedIsRead(f, l, k);
    }
  }
}
