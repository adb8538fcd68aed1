// Layouts of printed declarations and their round trip through the declaration parser.
module ParseDecl {
  import opened Options
  import opened Chars
  import opened Megaparsec
  import opened Parsed
  import opened Parse
  import opened Spelling
  import opened ParseTypes
  import C = RenderC

  // A "//" comment: its text, and the white space before it (after a comma) or after it (before ")").
  datatype Note = Note(pad: string, body: string)

  datatype ArgLayout = ArgLayout(
    lead: string,                         // white space in front
    qualifier: Option<(string, string)>,  // const or volatile, and the white space after it
    modifier: string,                     // "const ", "unsigned ", "struct " or nothing
    stars: seq<string>,                   // the white space before each star
    gap: string,                          // white space between type and name
    trail: string,                        // white space after the name
    note: Option<Note>,
    comma: bool)                          // a comma behind the last argument

  predicate Blank(s: string) { All(IsSpace, s) }

  predicate FitsNote(n: Note) { Blank(n.pad) && n.body != "" && All(NotNewline, n.body) }

  predicate IsQualifier(q: (string, string)) { q.0 in {"const", "volatile"} && q.1 != "" && Blank(q.1) }

  // The parts of a layout are what their names say.
  predicate ShapesArg(a: Arg, l: ArgLayout) {
    && Blank(l.lead) && Blank(l.gap) && Blank(l.trail) && EachBlank(l.stars)
    && (l.qualifier.Some? ==> IsQualifier(l.qualifier.value))
    && IsModifier(l.modifier)
    && |l.stars| == Depth(a.argType)
    && All(IsIdent, a.argName)
    && (l.note.Some? ==> FitsNote(l.note.value))
  }

  // And they keep the words of the argument apart.
  predicate FitsArg(a: Arg, l: ArgLayout) {
    && ShapesArg(a, l)
    && (l.modifier == "const " ==> l.qualifier.Some?)
    && (a.argName == "" ==> l.trail == "")
    && (a.argName != "" && l.stars == [] ==> l.gap != "")
  }

  function QualifierText(q: Option<(string, string)>, k: string): string {
    if q.None? then k else q.value.0 + (q.value.1 + k)
  }

  // What follows the type of an argument.
  function NamePart(a: Arg, l: ArgLayout, k: string): string { l.gap + (a.argName + (l.trail + k)) }

  function TypePart(a: Arg, l: ArgLayout, k: string): string {
    l.modifier + (C.Render(Innermost(a.argType)) + StarText(l.stars, NamePart(a, l, k)))
  }

  // One argument, printed with layout l in front of the text k.
  function ArgText(a: Arg, l: ArgLayout, k: string): string {
    l.lead + QualifierText(l.qualifier, TypePart(a, l, k))
  }

  function NoteText(n: Note, k: string): string { "//" + (n.body + ("\n" + k)) }

  function CommaText(n: Option<Note>, k: string): string {
    if n.None? then "," + k else "," + (n.value.pad + NoteText(n.value, k))
  }

  function CloseText(n: Option<Note>, k: string): string {
    if n.None? then ")" + k else NoteText(n.value, n.value.pad + (")" + k))
  }

  function LastText(l: ArgLayout, k: string): string {
    if l.comma then CommaText(l.note, ")" + k) else CloseText(l.note, k)
  }

  // What follows the first argument, up to and including the closing parenthesis.
  function EndText(args: seq<Arg>, ls: seq<ArgLayout>, k: string): string
    requires |args| == |ls| && args != []
    decreases |args|, 0
  {
    if |args| == 1 then LastText(ls[0], k) else CommaText(ls[0].note, ArgsText(args[1..], ls[1..], k))
  }

  // The arguments up to and including the closing parenthesis.
  function ArgsText(args: seq<Arg>, ls: seq<ArgLayout>, k: string): string
    requires |args| == |ls|
    decreases |args|, 1
  {
    if args == [] then ")" + k else ArgText(args[0], ls[0], EndText(args, ls, k))
  }

  predicate FitsArgs(args: seq<Arg>, ls: seq<ArgLayout>) {
    |args| == |ls| && forall i | 0 <= i < |args| :: FitsArg(args[i], ls[i])
  }

  // The argument lists that the parser can read: not empty, and no triple pointers.
  predicate Listable(args: seq<Arg>) { args != [] && forall i | 0 <= i < |args| :: Depth(args[i].argType) <= 2 }

  // ---- failing parsers ----

  lemma TypeTablesMiss(s: string)
    requires forall x: Parsable | !x.Ptr? :: !(C.Render(x) <= s)
    ensures TypeTables(s) == Err(s)
  {
    forall t: TenType ensures !(C.RenderTenType(t) <= s) {
      assert C.Render(TenType(t)) == C.RenderTenType(t);
    }
    TenTypesFail(s);
    NoMatch(CTypeTable(), s);
  }

  // No type begins with a character that is not an identifier character.
  lemma TypeTablesFail(s: string)
    requires !Starts(IsIdent, s)
    ensures TypeTables(s) == Err(s)
  {
    forall x: Parsable | !x.Ptr? ensures !(C.Render(x) <= s) { BaseShape(x); }
    TypeTablesMiss(s);
  }

  lemma NoModifierHere(s: string)
    requires !Starts(IsIdent, s)
    ensures TypeModifier(s) == Ok((), Space(s).rest)
  {
    assert "const "[0] == 'c' && "unsigned "[0] == 'u' && "struct "[0] == 's';
  }

  lemma ParsableTypesFail(s: string)
    requires !Starts(IsIdent, s) && !Starts(IsIdent, Space(s).rest)
    ensures ParsableTypes(s) == Err(Space(s).rest)
  {
    NoModifierHere(s);
    TypeTablesFail(Space(s).rest);
  }

  lemma NoQualifier(s: string)
    requires !("const" <= s) && !("volatile" <= s)
    ensures Optional(s, Qualifier(s)) == Ok(None, s)
  {
  }

  lemma FunctionArgFails(k: string)
    ensures FunctionArg(")" + k) == Err(")" + k)
  {
    var s := ")" + k;
    assert s[0] == ')';
    SpaceNone(s);
    NoQualifier(s);
    ParsableTypesFail(s);
  }

  // ---- one argument ----

  // What may end an argument.
  predicate Closing(k: string) { Starts(c => c == ',' || c == ')' || c == '/', k) }

  lemma ClosingStart(n: Option<Note>, k: string)
    ensures Closing(CommaText(n, k)) && Closing(CloseText(n, k))
  {
  }

  lemma EndTextStart(args: seq<Arg>, ls: seq<ArgLayout>, k: string)
    requires |args| == |ls| && args != []
    ensures Closing(EndText(args, ls, k))
  {
    hide CommaText, CloseText, ArgsText;
    if |args| == 1 {
      ClosingStart(ls[0].note, k);
      ClosingStart(ls[0].note, ")" + k);
    } else {
      ClosingStart(ls[0].note, ArgsText(args[1..], ls[1..], k));
    }
  }

  lemma NamePartStart(a: Arg, l: ArgLayout, k: string)
    requires FitsArg(a, l) && Closing(k)
    ensures var s := NamePart(a, l, k);
      NoStar(s) && (l.stars == [] ==> !Starts(IsIdent, s))
      && Space(s) == Ok((), a.argName + (l.trail + k))
  {
    var u := a.argName + (l.trail + k);
    if a.argName == "" {
      assert u == k;
    } else {
      assert u[0] == a.argName[0];
    }
    SpaceRun(l.gap, u);
    var s := NamePart(a, l, k);
    if l.gap != "" { assert s[0] == l.gap[0]; } else { assert s == u; }
  }

  lemma NameOk(a: Arg, l: ArgLayout, k: string)
    requires FitsArg(a, l) && Closing(k)
    ensures var s := a.argName + (l.trail + k);
      Optional(s, ArgName(s)) == Ok(if a.argName == "" then None else Some(a.argName), k)
  {
    var s := a.argName + (l.trail + k);
    if a.argName == "" {
      assert s == k;
    } else {
      var u := l.trail + k;
      if l.trail == "" { assert u == k; } else { assert u[0] == l.trail[0]; }
      SomeRun(IsIdent, a.argName, u);
      SpaceRun(l.trail, k);
    }
  }

  lemma QualifierOk(l: ArgLayout, b: Parsable, k: string)
    requires !b.Ptr? && IsModifier(l.modifier) && (l.modifier == "const " ==> l.qualifier.Some?)
    requires l.qualifier.Some? ==> IsQualifier(l.qualifier.value)
    ensures var u := l.modifier + (C.Render(b) + k);
      var s := QualifierText(l.qualifier, u);
      Starts(IsIdent, s) && Starts(IsIdent, u)
      && Optional(s, Qualifier(s)).Ok? && Optional(s, Qualifier(s)).rest == u
  {
    hide C.Render;
    var u := l.modifier + (C.Render(b) + k);
    BareTypeStart(l.modifier, b, k);
    if l.qualifier.None? { NoQualifier(u); } else { QualifierWord(l.qualifier.value.0, l.qualifier.value.1, u); }
  }

  lemma QualifierWord(w: string, ws: string, u: string)
    requires IsQualifier((w, ws)) && Starts(IsIdent, u)
    ensures var s := w + (ws + u);
      Starts(IsIdent, s) && Optional(s, Qualifier(s)).Ok? && Optional(s, Qualifier(s)).rest == u
  {
    StrHere(w, ws + u);
    assert (ws + u)[0] == ws[0];
    SpaceRun(ws, u);
    if w == "const" { NotVolatile(ws + u); }
  }

  lemma NotVolatile(k: string)
    ensures !("volatile" <= "const" + k)
  {
    assert ("const" + k)[0] == 'c';
  }

  lemma BareTypeStart(m: string, b: Parsable, k: string)
    requires !b.Ptr? && IsModifier(m)
    ensures var u := m + (C.Render(b) + k);
      Starts(IsIdent, u) && (m != "const " ==> !("const" <= u)) && !("volatile" <= u)
  {
    var t := C.Render(b) + k;
    var u := m + t;
    if m == "" {
      assert u == t;
      NoWordBefore(b, k);
      NotVoid(b, k);
    } else {
      assert u[0] == m[0] && m[0] in {'c', 'u', 's'};
      assert "const"[0] == 'c' && "volatile"[0] == 'v';
    }
  }

  lemma NotVoid(b: Parsable, k: string)
    requires !b.Ptr?
    ensures Starts(IsIdent, C.Render(b) + k) && !("volatile" <= C.Render(b) + k)
  {
    BaseShape(b);
    var t := C.Render(b) + k;
    assert t[0] == C.Render(b)[0] && t[2] == C.Render(b)[2];
    Differs("volatile", t, if t[0] == 'v' then 2 else 0);
  }

  // Everything of an argument up to its comma or closing parenthesis.
  lemma ArgHead(a: Arg, l: ArgLayout, k: string)
    requires FitsArg(a, l) && Closing(k) && Depth(a.argType) <= 2
    ensures FunctionArg(ArgText(a, l, k))
      == if ArgEnd(k).Ok? then Ok(CanonArg(a), ArgEnd(k).rest) else Err(ArgEnd(k).at)
  {
    var n := NamePart(a, l, k);
    var b := Innermost(a.argType);
    var t := TypePart(a, l, k);
    NamePartStart(a, l, k);
    QualifierOk(l, b, StarText(l.stars, n));
    SpaceRun(l.lead, QualifierText(l.qualifier, t));
    ParsableTypesOk(l.modifier, b, l.stars, n);
    CanonPointers(a.argType);
    NameOk(a, l, k);
    ArgSteps(ArgText(a, l, k), QualifierText(l.qualifier, t), t, Canon(a.argType), n, a.argName + (l.trail + k),
        a.argName, k);
  }

  lemma ArgSteps(s: string, s1: string, s2: string, ty: Parsable, s3: string, s4: string, name: string, s5: string)
    requires Space(s).rest == s1
    requires Optional(s1, Qualifier(s1)).Ok? && Optional(s1, Qualifier(s1)).rest == s2
    requires ParsableTypes(s2) == Ok(ty, s3) && Space(s3).rest == s4
    requires Optional(s4, ArgName(s4)) == Ok(if name == "" then None else Some(name), s5)
    ensures FunctionArg(s) == if ArgEnd(s5).Ok? then Ok(Arg(ty, name), ArgEnd(s5).rest) else Err(ArgEnd(s5).at)
  {
  }

  lemma LineCommentOk(n: Note, k: string)
    requires FitsNote(n)
    ensures LineComment(NoteText(n, k)) == Ok((), k)
  {
    var u := "\n" + k;
    StrHere("//", n.body + u);
    SomeRun(NotNewline, n.body, u);
    assert u[1..] == k;
  }

  lemma CommaNewlineFails(s: string)
    ensures CommaNewline(s).Err?
  {
    if Char(',', s).Ok? { NoEolAfterSpace(Char(',', s).rest); }
  }

  lemma ParenNewlineFails(s: string)
    ensures ParenNewline(s).Err?
  {
    if Char('(', s).Ok? { NoEolAfterSpace(Char('(', s).rest); }
  }

  // The "space >> eol" alternatives never succeed, so the parser is the same without them.
  lemma DeadAlternatives(s: string)
    ensures EndsInComma(s) == Or(s, Try(s, CommaComment(s)), Char(',', s))
    ensures OpenArgs(s) == Char('(', s)
  {
    CommaNewlineFails(s);
    ParenNewlineFails(s);
  }

  lemma CommaOk(n: Option<Note>, k: string)
    requires n.Some? ==> FitsNote(n.value)
    requires n.None? ==> !("//" <= Space(k).rest)
    ensures EndsInComma(CommaText(n, k)) == Ok((), k)
  {
    var s := CommaText(n, k);
    CommaNewlineFails(s);
    if n.Some? {
      var u := NoteText(n.value, k);
      assert s[1..] == n.value.pad + u;
      SpaceRun(n.value.pad, u);
      LineCommentOk(n.value, k);
    } else {
      assert s[1..] == k;
    }
  }

  lemma CloseOk(n: Option<Note>, k: string)
    requires n.Some? ==> FitsNote(n.value)
    ensures ArgEnd(CloseText(n, k)) == Ok((), ")" + k)
  {
    var s := CloseText(n, k);
    var p := ")" + k;
    assert s[0] != ',';
    assert p[0] == ')';
    SpaceNone(s);
    if n.Some? {
      LineCommentOk(n.value, n.value.pad + p);
      SpaceRun(n.value.pad, p);
    }
  }

  lemma ArgsTextStart(args: seq<Arg>, ls: seq<ArgLayout>, k: string)
    requires FitsArgs(args, ls) && args != []
    ensures Starts(IsIdent, Space(ArgsText(args, ls, k)).rest)
  {
    hide C.Render, Innermost, EndText;
    var a, l := args[0], ls[0];
    var e := EndText(args, ls, k);
    assert FitsArg(a, l);
    QualifierOk(l, Innermost(a.argType), StarText(l.stars, NamePart(a, l, e)));
    SpaceRun(l.lead, QualifierText(l.qualifier, TypePart(a, l, e)));
  }

  // ---- argument lists of any length ----

  lemma LastArg(s: string, a: Arg, k: string)
    requires FunctionArg(s) == Ok(a, ")" + k)
    ensures SomeArgs(s) == Ok([a], ")" + k)
  {
    FunctionArgFails(k);
    var t := ")" + k;
    assert SomeArgs(t) == Err(t);
    assert ManyArgs(t) == Ok([], t);
    assert [a] + [] == [a];
  }

  lemma MoreArgs(s: string, a: Arg, t: string, args: seq<Arg>, k: string)
    requires FunctionArg(s) == Ok(a, t) && SomeArgs(t) == Ok(args, k)
    ensures SomeArgs(s) == Ok([a] + args, k)
  {
    assert ManyArgs(t) == Ok(args, k);
  }

  lemma ArgThenComma(a: Arg, l: ArgLayout, k: string)
    requires FitsArg(a, l) && Depth(a.argType) <= 2 && !("//" <= Space(k).rest)
    ensures FunctionArg(ArgText(a, l, CommaText(l.note, k))) == Ok(CanonArg(a), k)
  {
    ClosingStart(l.note, k);
    ArgHead(a, l, CommaText(l.note, k));
    CommaOk(l.note, k);
  }

  lemma ArgThenClose(a: Arg, l: ArgLayout, k: string)
    requires FitsArg(a, l) && Depth(a.argType) <= 2
    ensures FunctionArg(ArgText(a, l, CloseText(l.note, k))) == Ok(CanonArg(a), ")" + k)
  {
    ClosingStart(l.note, k);
    ArgHead(a, l, CloseText(l.note, k));
    CloseOk(l.note, k);
  }

  lemma ArgThenLast(a: Arg, l: ArgLayout, k: string)
    requires FitsArg(a, l) && Depth(a.argType) <= 2
    ensures FunctionArg(ArgText(a, l, LastText(l, k))) == Ok(CanonArg(a), ")" + k)
  {
    hide FunctionArg, ArgText, FitsArg;
    if l.comma {
      SpaceNone(")" + k);
      Differs("//", ")" + k, 0);
      ArgThenComma(a, l, ")" + k);
    } else {
      ArgThenClose(a, l, k);
    }
  }

  lemma FirstArg(args: seq<Arg>, ls: seq<ArgLayout>, k: string)
    requires FitsArgs(args, ls) && |args| > 1 && Depth(args[0].argType) <= 2
    ensures FunctionArg(ArgsText(args, ls, k)) == Ok(CanonArg(args[0]), ArgsText(args[1..], ls[1..], k))
  {
    ArgsTextStart(args[1..], ls[1..], k);
    ArgThenComma(args[0], ls[0], ArgsText(args[1..], ls[1..], k));
  }

  lemma {:induction false} SomeArgsOk(args: seq<Arg>, ls: seq<ArgLayout>, k: string)
    requires FitsArgs(args, ls) && Listable(args)
    ensures SomeArgs(ArgsText(args, ls, k)) == Ok(CanonArgs(args), ")" + k)
    decreases |args|
  {
    hide FitsArg, ArgText, FunctionArg, SomeArgs, CanonArg, Depth, CommaText, CloseText, LastText;
    assert FitsArg(args[0], ls[0]);
    var s, a := ArgsText(args, ls, k), CanonArg(args[0]);
    if |args| == 1 {
      assert s == ArgText(args[0], ls[0], EndText(args, ls, k)) && EndText(args, ls, k) == LastText(ls[0], k);
      ArgThenLast(args[0], ls[0], k);
      LastArg(s, a, k);
      assert CanonArgs(args) == [a];
    } else {
      var t := ArgsText(args[1..], ls[1..], k);
      SomeArgsOk(args[1..], ls[1..], k);
      FirstArg(args, ls, k);
      MoreArgs(s, a, t, CanonArgs(args[1..]), ")" + k);
    }
  }

  lemma OpenParen(k: string)
    ensures OpenArgs("(" + k) == Ok((), k)
  {
    var s := "(" + k;
    ParenNewlineFails(s);
    assert s[1..] == k;
  }

  // Layout independence: whatever white space, newlines, comments and qualifiers surround them, the
  // arguments are read back in order and nothing after the closing parenthesis is touched.
  lemma FunctionArgsOk(args: seq<Arg>, ls: seq<ArgLayout>, k: string)
    requires FitsArgs(args, ls) && Listable(args)
    ensures FunctionArgs("(" + ArgsText(args, ls, k)) == Ok(CanonArgs(args), k)
  {
    OpenParen(ArgsText(args, ls, k));
    SomeArgsOk(args, ls, k);
    assert (")" + k)[1..] == k;
  }

  // ---- argument lists that cannot be read ----

  // The stars that a double pointer leaves behind.
  lemma StarsLeft(ws: seq<string>, k: string)
    requires |ws| > 2
    ensures StarText(ws, k) == StarText(ws[..2], StarText(ws[2..], k))
  {
    var t := StarText(ws[2..], k);
    assert ws[..2][1..] == [ws[1]] && [ws[1]][1..] == [];
    assert ws[1..][1..] == ws[2..];
    assert StarText(ws[..2], t) == ws[0] + ("*" + StarText([ws[1]], t));
    assert StarText([ws[1]], t) == ws[1] + ("*" + t);
  }

  lemma DeepStars(ws: seq<string>, k: string)
    requires |ws| > 2 && EachBlank(ws)
    ensures Starts(c => c == '*', Space(StarText(ws[2..], k)).rest)
  {
    var w, t := ws[2], "*" + StarText(ws[2..][1..], k);
    assert ws[2..][0] == w && StarText(ws[2..], k) == w + t;
    SpaceRun(w, t);
  }

  // Of a type with more than two stars, the third star is left.
  lemma DeepType(m: string, b: Parsable, ws: seq<string>, k: string)
    requires IsModifier(m) && !b.Ptr? && |ws| > 2 && EachBlank(ws)
    ensures var r := ParsableTypes(m + (C.Render(b) + StarText(ws, k)));
      r.Ok? && Starts(c => c == '*', Space(r.rest).rest)
  {
    StarsLeft(ws, k);
    DeepStars(ws, k);
    assert EachBlank(ws[..2]);
    ParsableTypesOk(m, b, ws[..2], StarText(ws[2..], k));
  }

  lemma DeepArg(a: Arg, l: ArgLayout, k: string)
    requires FitsArg(a, l) && Depth(a.argType) > 2
    ensures FunctionArg(ArgText(a, l, k)).Err?
  {
    var b := Innermost(a.argType);
    var n := NamePart(a, l, k);
    var t := TypePart(a, l, k);
    QualifierOk(l, b, StarText(l.stars, n));
    SpaceRun(l.lead, QualifierText(l.qualifier, t));
    DeepType(l.modifier, b, l.stars, n);
    var r := ParsableTypes(t);
    var s4 := Space(r.rest).rest;
    StarEndsNothing(s4);
    ArgSteps(ArgText(a, l, k), QualifierText(l.qualifier, t), t, r.val, r.rest, s4, "", s4);
  }

  lemma StarEndsNothing(s: string)
    requires Starts(c => c == '*', s)
    ensures Optional(s, ArgName(s)) == Ok(None, s) && ArgEnd(s).Err?
  {
    SpaceNone(s);
    Differs("//", s, 0);
    assert !IsIdent('*') && Char(',', s) == Err(s) && Char(')', s) == Err(s);
    assert EndsInComma(s) == Err(s) && CommentParen(s).Err?;
  }

  // Reading a list stops with a failure or in front of something other than its closing parenthesis.
  lemma {:induction false} DeepArgs(args: seq<Arg>, ls: seq<ArgLayout>, k: string)
    requires FitsArgs(args, ls) && args != [] && !Listable(args)
    ensures CloseArgs(SomeArgs(ArgsText(args, ls, k))).Err?
    decreases |args|
  {
    assert FitsArg(args[0], ls[0]);
    if Depth(args[0].argType) > 2 {
      FirstDeep(args, ls, k);
    } else {
      var t := ArgsText(args[1..], ls[1..], k);
      DeepArgs(args[1..], ls[1..], k);
      FirstArg(args, ls, k);
      ArgsTextStart(args[1..], ls[1..], k);
      NotClosed(t);
      DeepTail(ArgsText(args, ls, k), CanonArg(args[0]), t);
    }
  }

  lemma FirstDeep(args: seq<Arg>, ls: seq<ArgLayout>, k: string)
    requires FitsArgs(args, ls) && args != [] && Depth(args[0].argType) > 2
    ensures SomeArgs(ArgsText(args, ls, k)).Err?
  {
    assert FitsArg(args[0], ls[0]);
    DeepArg(args[0], ls[0], EndText(args, ls, k));
  }

  lemma DeepTail(s: string, a: Arg, t: string)
    requires FunctionArg(s) == Ok(a, t) && CloseArgs(SomeArgs(t)).Err? && Char(')', t).Err?
    ensures CloseArgs(SomeArgs(s)).Err?
  {
    hide FunctionArg, Char;
    var r := SomeArgs(t);
    assert ManyArgs(t) == Or(t, r, Ok([], t));
    assert SomeArgs(s) == if ManyArgs(t).Err? then Err(ManyArgs(t).at) else Ok([a] + ManyArgs(t).val, ManyArgs(t).rest);
  }

  lemma NotClosed(t: string)
    requires Starts(IsIdent, Space(t).rest)
    ensures Char(')', t).Err?
  {
    if Starts(c => c == ')', t) { SpaceNone(t); }
  }

  // An empty list, and one with a triple pointer, cannot be read.
  lemma FunctionArgsFail(args: seq<Arg>, ls: seq<ArgLayout>, k: string)
    requires FitsArgs(args, ls) && !Listable(args)
    ensures FunctionArgs("(" + ArgsText(args, ls, k)).Err?
  {
    OpenParen(ArgsText(args, ls, k));
    if args == [] { FunctionArgFails(k); } else { DeepArgs(args, ls, k); }
  }
}
